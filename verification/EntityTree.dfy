/**
 Entity trees over hierarchical pointers: an entity is flattened into the rows of its tables and read back by
 pointer ranges.

 The tables of an entity are nested as the generated transaction contexts are: one key table, and for every field
 either a column table or the tables of the child entity. Column tables of every kind are maps from pointers to values.
 `width` is the size in bytes of the last index of the pointers that a list of children is looked up by.
 Entities whose shape does not fit the tables do not occur in the typed source; writing them changes nothing.
 */
module EntityTree {
  import opened Wrappers
  import opened Pointers

  datatype Tables = Tables(keys: set<seq<nat>>, cols: seq<FieldTable>)

  /** A column, or the tables of a one-to-one, one-to-option or one-to-many child. */
  datatype FieldTable =
    | ColT(rows: map<seq<nat>, int>)
    | OneT(child: Tables)
    | OptT(child: Tables)
    | ManyT(width: nat, child: Tables)

  datatype Entity = Entity(pk: seq<nat>, values: seq<Value>)

  datatype Value = ColV(value: int) | OneV(one: Entity) | OptV(opt: Option<Entity>) | ManyV(many: seq<Entity>)

  /** Nothing at a pointer, in the table that the fields of the path lead to. */
  datatype ReadError = NotFound(path: seq<nat>, pk: seq<nat>)

  function InField(i: nat, e: ReadError): ReadError {
    e.(path := [i] + e.path)
  }

  // ---- storing ------------------------------------------------------------------------------------------------

  /** The child entities in a field. */
  function KidsOf(v: Value): seq<Entity> {
    match v
    case ColV(_) => []
    case OneV(x) => [x]
    case OptV(o) => (match o case None => [] case Some(x) => [x])
    case ManyV(xs) => xs
  }

  /** The children of all entities in field `i`, in order. */
  function Kids(es: seq<Entity>, i: nat): seq<Entity> {
    if es == [] then []
    else
      var m := |es| - 1;
      Kids(es[..m], i) + (if i < |es[m].values| then KidsOf(es[m].values[i]) else [])
  }

  function KeysOf(es: seq<Entity>): set<seq<nat>> {
    set e | e in es :: e.pk
  }

  function StoreRows(rows: map<seq<nat>, int>, es: seq<Entity>, i: nat): map<seq<nat>, int> {
    if es == [] then rows
    else
      var m := |es| - 1;
      var before := StoreRows(rows, es[..m], i);
      if i < |es[m].values| && es[m].values[i].ColV? then before[es[m].pk := es[m].values[i].value] else before
  }

  /** The tables after all entities have been stored, table by table. */
  function StoreAll(t: Tables, es: seq<Entity>): (u: Tables)
    ensures |u.cols| == |t.cols|
  {
    Tables(t.keys + KeysOf(es), seq(|t.cols|, i requires 0 <= i < |t.cols| => StoreField(t.cols[i], es, i)))
  }

  function StoreField(c: FieldTable, es: seq<Entity>, i: nat): FieldTable {
    match c
    case ColT(rows) => ColT(StoreRows(rows, es, i))
    case OneT(child) => OneT(StoreAll(child, Kids(es, i)))
    case OptT(child) => OptT(StoreAll(child, Kids(es, i)))
    case ManyT(width, child) => ManyT(width, StoreAll(child, Kids(es, i)))
  }

  lemma {:induction false} KidsAppend(a: seq<Entity>, b: seq<Entity>, i: nat)
    ensures Kids(a + b, i) == Kids(a, i) + Kids(b, i)
  {
    if b == [] {
      assert a + b == a;
    } else {
      var m := |b| - 1;
      var last := if i < |b[m].values| then KidsOf(b[m].values[i]) else [];
      calc {
        Kids(a + b, i);
        { assert (a + b)[..|a + b| - 1] == a + b[..m] && (a + b)[|a + b| - 1] == b[m]; }
        Kids(a + b[..m], i) + last;
        { KidsAppend(a, b[..m], i); }
        Kids(a, i) + Kids(b[..m], i) + last;
        Kids(a, i) + (Kids(b[..m], i) + last);
      }
    }
  }

  lemma {:induction false} StoreRowsAppend(rows: map<seq<nat>, int>, a: seq<Entity>, b: seq<Entity>, i: nat)
    ensures StoreRows(rows, a + b, i) == StoreRows(StoreRows(rows, a, i), b, i)
  {
    if b == [] {
      assert a + b == a;
    } else {
      var m := |b| - 1;
      assert (a + b)[..|a + b| - 1] == a + b[..m];
      StoreRowsAppend(rows, a, b[..m], i);
    }
  }

  /** Storing entity after entity is storing them all, table by table. */
  lemma {:induction false} StoreAllAppend(t: Tables, a: seq<Entity>, b: seq<Entity>)
    ensures StoreAll(t, a + b) == StoreAll(StoreAll(t, a), b)
    decreases t
  {
    assert KeysOf(a + b) == KeysOf(a) + KeysOf(b);
    forall i | 0 <= i < |t.cols|
      ensures StoreField(t.cols[i], a + b, i) == StoreField(StoreField(t.cols[i], a, i), b, i)
    {
      KidsAppend(a, b, i);
      if t.cols[i].ColT? {
        StoreRowsAppend(t.cols[i].rows, a, b, i);
      } else {
        StoreAllAppend(t.cols[i].child, Kids(a, i), Kids(b, i));
      }
    }
  }

  lemma {:induction false} StoreNothing(t: Tables)
    ensures StoreAll(t, []) == t
    decreases t
  {
    forall i | 0 <= i < |t.cols| ensures StoreField(t.cols[i], [], i) == t.cols[i] {
      if !t.cols[i].ColT? { StoreNothing(t.cols[i].child); }
    }
  }

  lemma {:induction false} StoreRowsOne(rows: map<seq<nat>, int>, e: Entity, i: nat)
    ensures StoreRows(rows, [e], i)
         == if i < |e.values| && e.values[i].ColV? then rows[e.pk := e.values[i].value] else rows
  {
    assert [e][..0] == [];
  }

  lemma {:induction false} KidsOne(e: Entity, i: nat)
    ensures Kids([e], i) == if i < |e.values| then KidsOf(e.values[i]) else []
  {
    assert [e][..0] == [];
  }

  /** Does the entity have the fields of the tables? */
  ghost predicate Fits(t: Tables, e: Entity)
    decreases t
  {
    && |e.values| == |t.cols|
    && forall i :: 0 <= i < |t.cols| ==> FitsField(t.cols[i], e.values[i])
  }

  ghost predicate FitsField(c: FieldTable, v: Value)
    decreases c
  {
    match c
    case ColT(_) => v.ColV?
    case OneT(child) => v.OneV? && Fits(child, v.one)
    case OptT(child) => v.OptV? && (v.opt.Some? ==> Fits(child, v.opt.value))
    case ManyT(_, child) => v.ManyV? && forall x :: x in v.many ==> Fits(child, x)
  }

  /** The generated `store`: the key, then field after field. */
  method Store(t: Tables, e: Entity) returns (u: Tables)
    requires Fits(t, e)
    ensures u == StoreAll(t, [e])
    decreases e, 1
  {
    var cols := [];
    for i := 0 to |t.cols|
      invariant |cols| == i && forall j :: 0 <= j < i ==> cols[j] == StoreField(t.cols[j], [e], j)
    {
      KidsOne(e, i);
      assert FitsField(t.cols[i], e.values[i]);
      match t.cols[i]
      case ColT(rows) =>
        StoreRowsOne(rows, e, i);
        cols := cols + [ColT(rows[e.pk := e.values[i].value])];
      case OneT(child) =>
        var stored := Store(child, e.values[i].one);
        cols := cols + [OneT(stored)];
      case OptT(child) =>
        if e.values[i].opt.Some? {
          var stored := Store(child, e.values[i].opt.value);
          cols := cols + [OptT(stored)];
        } else {
          StoreNothing(child);
          cols := cols + [OptT(child)];
        }
      case ManyT(width, child) =>
        var stored := StoreMany(child, e.values[i].many);
        cols := cols + [ManyT(width, stored)];
    }
    u := Tables(t.keys + {e.pk}, cols);
  }

  method StoreMany(t: Tables, instances: seq<Entity>) returns (u: Tables)
    requires forall e :: e in instances ==> Fits(t, e)
    ensures u == StoreAll(t, instances)
    decreases instances, 0
  {
    u := t;
    StoreNothing(t);
    for k := 0 to |instances|
      invariant u == StoreAll(t, instances[..k])
    {
      StoreKeepsFit(t, instances[..k], instances[k]);
      StoreAllAppend(t, instances[..k], [instances[k]]);
      assert instances[..k + 1] == instances[..k] + [instances[k]];
      u := Store(u, instances[k]);
    }
    assert instances[..|instances|] == instances;
  }

  lemma {:induction false} StoreKeepsFit(t: Tables, es: seq<Entity>, e: Entity)
    requires Fits(t, e)
    ensures Fits(StoreAll(t, es), e)
    decreases t
  {
    var u := StoreAll(t, es);
    forall i | 0 <= i < |t.cols| ensures FitsField(u.cols[i], e.values[i]) {
      StoreFieldKeepsFit(t.cols[i], es, i, e.values[i]);
    }
  }

  lemma {:induction false} StoreFieldKeepsFit(c: FieldTable, es: seq<Entity>, i: nat, v: Value)
    requires FitsField(c, v)
    ensures FitsField(StoreField(c, es, i), v)
    decreases c
  {
    if !c.ColT? {
      forall x | x in KidsOf(v) ensures Fits(StoreAll(c.child, Kids(es, i)), x) {
        StoreKeepsFit(c.child, Kids(es, i), x);
      }
      if v.OneV? { assert v.one in KidsOf(v); }
      if v.OptV? && v.opt.Some? { assert v.opt.value in KidsOf(v); }
    }
  }

  // ---- ranges -------------------------------------------------------------------------------------------------

  predicate IsLeast(q: seq<nat>, s: set<seq<nat>>)
    requires forall x :: x in s ==> |x| == |q|
  {
    q in s && forall x :: x in s ==> x == q || Less(q, x)
  }

  lemma {:induction false} LeastExists(s: set<seq<nat>>, n: nat)
    requires s != {} && forall x :: x in s ==> |x| == n
    ensures exists q :: q in s && IsLeast(q, s)
  {
    if forall x :: x !in s { assert false; }
    var x :| x in s;
    var rest := s - {x};
    if rest == {} {
      assert s == {x};
      assert IsLeast(x, s);
    } else {
      LeastExists(rest, n);
      var q :| q in rest && IsLeast(q, rest);
      LessTotal(q, x);
      forall y | y in s && y != q && Less(x, q) ensures y == x || Less(x, y) {
        if y != x { LessTransitive(x, q, y); }
      }
      assert IsLeast(if Less(x, q) then x else q, s);
    }
  }

  lemma LeastIsUnique(s: set<seq<nat>>, n: nat)
    requires forall x :: x in s ==> |x| == n
    ensures forall q, r :: q in s && r in s && IsLeast(q, s) && IsLeast(r, s) ==> q == r
  {
    forall q, r | q in s && r in s && IsLeast(q, s) && IsLeast(r, s) ensures q == r {
      LessTotal(q, r);
    }
  }

  /** Pointers of one type in ascending order. */
  function Sorted(s: set<seq<nat>>, n: nat): (list: seq<seq<nat>>)
    requires forall x :: x in s ==> |x| == n
  {
    if s == {} then []
    else
      LeastExists(s, n);
      LeastIsUnique(s, n);
      var q :| q in s && IsLeast(q, s);
      [q] + Sorted(s - {q}, n)
  }

  ghost predicate Ascending(list: seq<seq<nat>>, n: nat) {
    && (forall i :: 0 <= i < |list| ==> |list[i]| == n)
    && forall i, j :: 0 <= i < j < |list| ==> Less(list[i], list[j])
  }

  /** A list in ascending order is the sorted list of its elements. */
  lemma {:induction false} SortedIs(list: seq<seq<nat>>, s: set<seq<nat>>, n: nat)
    requires Ascending(list, n) && forall x :: x in s <==> x in list
    ensures Sorted(s, n) == list
  {
    if list == [] {
      assert forall x :: x !in s;
    } else {
      var q := list[0];
      assert q in s && IsLeast(q, s);
      LeastIsUnique(s, n);
      var rest := list[1..];
      forall x ensures x in s - {q} <==> x in rest {
        if x in rest {
          var i :| 0 <= i < |rest| && rest[i] == x;
          LessTotal(q, x);
          assert list[i + 1] == x;
        }
      }
      SortedIs(rest, s - {q}, n);
    }
  }

  lemma {:induction false} SortedHas(s: set<seq<nat>>, n: nat)
    requires forall x :: x in s ==> |x| == n
    ensures forall x :: x in s <==> x in Sorted(s, n)
    ensures Ascending(Sorted(s, n), n)
  {
    if s != {} {
      LeastExists(s, n);
      LeastIsUnique(s, n);
      var q :| q in s && IsLeast(q, s);
      SortedHas(s - {q}, n);
      var rest := Sorted(s - {q}, n);
      assert Sorted(s, n) == [q] + rest;
      forall j | 0 <= j < |rest| ensures Less(q, rest[j]) {
        assert rest[j] in s;
      }
    }
  }

  /** The keys in the child range of a pointer, in ascending order. */
  function ChildKeys(keys: set<seq<nat>>, pk: seq<nat>, width: nat): seq<seq<nat>>
    requires pk != []
  {
    Sorted(set q | q in keys && |q| == |pk| + 1 && InRange(q, FkRange(pk, width).0, FkRange(pk, width).1), |pk| + 1)
  }

  lemma InChildRange(pk: seq<nat>, q: seq<nat>, width: nat)
    requires pk != [] && |q| == |pk| + 1
    ensures InRange(q, FkRange(pk, width).0, FkRange(pk, width).1) <==> pk <= q && HasNext(pk, width)
  {
    FkRangeIsChildren(pk, q, width);
    assert pk <= q <==> Parent(q) == pk;
  }

  /** Those are the keys whose parent is the pointer; after the greatest index there are none. */
  lemma ChildKeysAre(keys: set<seq<nat>>, pk: seq<nat>, width: nat, list: seq<seq<nat>>)
    requires pk != [] && Ascending(list, |pk| + 1)
    requires forall q :: q in list <==> q in keys && |q| == |pk| + 1 && pk <= q
    ensures ChildKeys(keys, pk, width) == if HasNext(pk, width) then list else []
  {
    var s := set q | q in keys && |q| == |pk| + 1 && InRange(q, FkRange(pk, width).0, FkRange(pk, width).1);
    var found := if HasNext(pk, width) then list else [];
    forall q ensures q in s <==> q in found {
      if |q| == |pk| + 1 { InChildRange(pk, q, width); }
    }
    SortedIs(found, s, |pk| + 1);
  }

  // ---- reading ------------------------------------------------------------------------------------------------

  function Compose(t: Tables, pk: seq<nat>): Result<Entity, ReadError>
    decreases t, 1, 0
  {
    match ReadFields(t, pk, |t.cols|)
    case Ok(values) => Ok(Entity(pk, values))
    case Err(e) => Err(e)
  }

  /** The first `m` fields, in order; the first error ends it. */
  function ReadFields(t: Tables, pk: seq<nat>, m: nat): (r: Result<seq<Value>, ReadError>)
    requires m <= |t.cols|
    ensures r.Ok? ==> |r.value| == m
    decreases t, 0, m
  {
    if m == 0 then Ok([])
    else
      match ReadFields(t, pk, m - 1)
      case Err(e) => Err(e)
      case Ok(values) =>
        match ReadField(t.cols[m - 1], pk)
        case Err(e) => Err(InField(m - 1, e))
        case Ok(v) => Ok(values + [v])
  }

  function ReadField(c: FieldTable, pk: seq<nat>): Result<Value, ReadError>
    decreases c, 0, 0
  {
    match c
    case ColT(rows) => if pk in rows then Ok(ColV(rows[pk])) else Err(NotFound([], pk))
    case OneT(child) =>
      (match Get(child, pk)
       case Err(e) => Err(e)
       case Ok(None) => Err(NotFound([], pk))
       case Ok(Some(x)) => Ok(OneV(x)))
    case OptT(child) =>
      (match Get(child, pk)
       case Err(e) => Err(e)
       case Ok(o) => Ok(OptV(o)))
    case ManyT(width, child) =>
      if pk == [] then Err(NotFound([], pk))
      else
        match ComposeEach(child, ChildKeys(child.keys, pk, width))
        case Err(e) => Err(e)
        case Ok(xs) => Ok(ManyV(xs))
  }

  function Get(t: Tables, pk: seq<nat>): Result<Option<Entity>, ReadError>
    decreases t, 2, 0
  {
    if pk !in t.keys then Ok(None)
    else
      match Compose(t, pk)
      case Err(e) => Err(e)
      case Ok(x) => Ok(Some(x))
  }

  function ComposeEach(t: Tables, pks: seq<seq<nat>>): (r: Result<seq<Entity>, ReadError>)
    ensures r.Ok? ==> |r.value| == |pks|
    decreases t, 2, |pks|
  {
    if pks == [] then Ok([])
    else
      var m := |pks| - 1;
      match ComposeEach(t, pks[..m])
      case Err(e) => Err(e)
      case Ok(xs) =>
        match Compose(t, pks[m])
        case Err(e) => Err(e)
        case Ok(x) => Ok(xs + [x])
  }

  /** The fields of the path lead to a table that has nothing at the pointer, but must have. */
  ghost predicate MissingAt(t: Tables, path: seq<nat>, pk: seq<nat>)
    decreases t
  {
    path != [] && path[0] < |t.cols| && MissingIn(t.cols[path[0]], path[1..], pk)
  }

  ghost predicate MissingIn(c: FieldTable, path: seq<nat>, pk: seq<nat>)
    decreases c
  {
    if path != [] then !c.ColT? && MissingAt(c.child, path, pk)
    else
      match c
      case ColT(rows) => pk !in rows
      case OneT(child) => pk !in child.keys
      case OptT(_) => false
      case ManyT(_, _) => pk == []
  }

  /** A read that fails names a row that is missing, at the pointer or at one below it. */
  lemma {:induction false} ErrorNamesMissing(t: Tables, pk: seq<nat>, m: nat)
    requires m <= |t.cols| && ReadFields(t, pk, m).Err?
    ensures var e := ReadFields(t, pk, m).error; MissingAt(t, e.path, e.pk) && pk <= e.pk
    decreases t, 0, m
  {
    if ReadFields(t, pk, m - 1).Err? {
      ErrorNamesMissing(t, pk, m - 1);
    } else {
      FieldErrorNamesMissing(t.cols[m - 1], pk);
      var e := ReadField(t.cols[m - 1], pk).error;
      assert ReadFields(t, pk, m) == Err(InField(m - 1, e));
      assert InField(m - 1, e).path[1..] == e.path;
    }
  }

  lemma {:induction false} FieldErrorNamesMissing(c: FieldTable, pk: seq<nat>)
    requires ReadField(c, pk).Err?
    ensures var e := ReadField(c, pk).error; MissingIn(c, e.path, e.pk) && pk <= e.pk
    decreases c, 0, 0
  {
    match c
    case ColT(rows) =>
    case OneT(child) =>
      if Get(child, pk).Err? { GetErrorNamesMissing(child, pk); } else { assert pk !in child.keys; }
    case OptT(child) =>
      assert Get(child, pk).Err?;
      GetErrorNamesMissing(child, pk);
    case ManyT(width, child) =>
      if pk != [] {
        var keys := ChildKeys(child.keys, pk, width);
        ChildKeysBelow(child.keys, pk, width);
        EachErrorNamesMissing(child, keys, pk);
      }
  }

  lemma {:induction false} GetErrorNamesMissing(t: Tables, pk: seq<nat>)
    requires Get(t, pk).Err?
    ensures var e := Get(t, pk).error; MissingAt(t, e.path, e.pk) && pk <= e.pk
    decreases t, 2, 0
  {
    assert Compose(t, pk).Err?;
    ErrorNamesMissing(t, pk, |t.cols|);
  }

  lemma {:induction false} EachErrorNamesMissing(t: Tables, pks: seq<seq<nat>>, parent: seq<nat>)
    requires ComposeEach(t, pks).Err? && forall k :: 0 <= k < |pks| ==> parent <= pks[k]
    ensures var e := ComposeEach(t, pks).error; MissingAt(t, e.path, e.pk) && parent <= e.pk
    decreases t, 2, |pks|
  {
    var m := |pks| - 1;
    if ComposeEach(t, pks[..m]).Err? {
      EachErrorNamesMissing(t, pks[..m], parent);
    } else {
      ErrorNamesMissing(t, pks[m], |t.cols|);
    }
  }

  lemma {:induction false} ReadFieldsIs(t: Tables, pk: seq<nat>, values: seq<Value>, m: nat)
    requires |values| == |t.cols| && m <= |values|
    requires forall i :: 0 <= i < |values| ==> ReadField(t.cols[i], pk) == Ok(values[i])
    ensures ReadFields(t, pk, m) == Ok(values[..m])
  {
    if m > 0 {
      ReadFieldsIs(t, pk, values, m - 1);
      assert values[..m] == values[..m - 1] + [values[m - 1]];
    }
  }

  lemma {:induction false} ComposeIs(t: Tables, e: Entity)
    requires |e.values| == |t.cols|
    requires forall i :: 0 <= i < |e.values| ==> ReadField(t.cols[i], e.pk) == Ok(e.values[i])
    ensures Compose(t, e.pk) == Ok(e)
  {
    ReadFieldsIs(t, e.pk, e.values, |e.values|);
    assert e.values[..|e.values|] == e.values;
  }

  lemma {:induction false} ComposeEachIs(t: Tables, pks: seq<seq<nat>>, es: seq<Entity>)
    requires |pks| == |es| && forall k :: 0 <= k < |es| ==> Compose(t, pks[k]) == Ok(es[k])
    ensures ComposeEach(t, pks) == Ok(es)
  {
    if es != [] {
      var m := |es| - 1;
      ComposeEachIs(t, pks[..m], es[..m]);
      assert es == es[..m] + [es[m]];
    }
  }

  // ---- well-formed entities -----------------------------------------------------------------------------------

  /** Neither pointer leads to the other, so they share no descendants. */
  ghost predicate Apart(p: seq<nat>, q: seq<nat>) {
    !(p <= q) && !(q <= p)
  }

  ghost predicate PairwiseApart(es: seq<Entity>) {
    forall i, j :: 0 <= i < j < |es| ==> Apart(es[i].pk, es[j].pk)
  }

  /** A one-to-one child has its parent's pointer; one-to-many children have pointers below it, in ascending order. */
  ghost predicate WellFormed(e: Entity)
    decreases e
  {
    e.pk != [] && forall v :: v in e.values ==> WellFormedValue(v, e.pk)
  }

  ghost predicate WellFormedValue(v: Value, pk: seq<nat>)
    decreases v
  {
    match v
    case ColV(_) => true
    case OneV(x) => x.pk == pk && WellFormed(x)
    case OptV(o) => o.Some? ==> o.value.pk == pk && WellFormed(o.value)
    case ManyV(xs) =>
      && (forall x :: x in xs ==> |x.pk| == |pk| + 1 && pk <= x.pk && WellFormed(x))
      && forall i, j :: 0 <= i < j < |xs| ==> |xs[i].pk| == |xs[j].pk| && Less(xs[i].pk, xs[j].pk)
  }

  /** No table has a row at the pointer or below it. */
  ghost predicate Clear(t: Tables, pk: seq<nat>)
    decreases t
  {
    && (forall q :: q in t.keys ==> !(pk <= q))
    && forall i :: 0 <= i < |t.cols| ==> ClearField(t.cols[i], pk)
  }

  ghost predicate ClearField(c: FieldTable, pk: seq<nat>)
    decreases c
  {
    match c
    case ColT(rows) => forall q :: q in rows ==> !(pk <= q)
    case OneT(child) => Clear(child, pk)
    case OptT(child) => Clear(child, pk)
    case ManyT(_, child) => Clear(child, pk)
  }

  lemma {:induction false} ClearBelow(t: Tables, pk: seq<nat>, q: seq<nat>)
    requires Clear(t, pk) && pk <= q
    ensures Clear(t, q)
    decreases t
  {
    forall i | 0 <= i < |t.cols| ensures ClearField(t.cols[i], q) {
      assert ClearField(t.cols[i], pk);
      if !t.cols[i].ColT? { ClearBelow(t.cols[i].child, pk, q); }
    }
  }

  lemma ApartBelow(p: seq<nat>, q: seq<nat>, p': seq<nat>, q': seq<nat>)
    requires Apart(p, q) && p <= p' && q <= q'
    ensures Apart(p', q')
  {
    if p' <= q' { BothBegin(p, q, q'); }
    if q' <= p' { BothBegin(p, q, p'); }
  }

  lemma BothBegin(p: seq<nat>, q: seq<nat>, r: seq<nat>)
    ensures p <= r && q <= r ==> p <= q || q <= p
  {
    if p <= r && q <= r {
      assert p == r[..|p|] && q == r[..|q|];
      if |p| <= |q| { assert q[..|p|] == p; } else { assert p[..|q|] == q; }
    }
  }

  /** The children of an entity stand at its pointer or right below it, and apart from each other. */
  lemma {:induction false} KidsOfEntity(e: Entity, i: nat)
    requires WellFormed(e) && i < |e.values|
    ensures forall x :: x in KidsOf(e.values[i]) ==> WellFormed(x) && e.pk <= x.pk
    ensures PairwiseApart(KidsOf(e.values[i]))
  {
    var v := e.values[i];
    assert v in e.values && WellFormedValue(v, e.pk);
    if v.ManyV? {
      var xs := v.many;
      forall k, l | 0 <= k < l < |xs| ensures Apart(xs[k].pk, xs[l].pk) {
        LessTotal(xs[k].pk, xs[l].pk);
        SameLengthApart(xs[k].pk, xs[l].pk);
      }
    }
  }

  lemma SameLengthApart(p: seq<nat>, q: seq<nat>)
    requires |p| == |q| && p != q
    ensures Apart(p, q)
  {
  }

  lemma {:induction false} KidFrom(es: seq<Entity>, i: nat, x: Entity) returns (e: Entity)
    requires x in Kids(es, i)
    ensures e in es && i < |e.values| && x in KidsOf(e.values[i])
  {
    var m := |es| - 1;
    if x in Kids(es[..m], i) {
      e := KidFrom(es[..m], i, x);
    } else {
      e := es[m];
    }
  }

  lemma {:induction false} KidIn(es: seq<Entity>, i: nat, e: Entity, x: Entity)
    requires e in es && i < |e.values| && x in KidsOf(e.values[i])
    ensures x in Kids(es, i)
  {
    var m := |es| - 1;
    if e in es[..m] { KidIn(es[..m], i, e, x); }
  }

  lemma {:induction false} KidsAre(es: seq<Entity>, i: nat, x: Entity)
    ensures x in Kids(es, i) <==> exists e :: e in es && i < |e.values| && x in KidsOf(e.values[i])
  {
    if x in Kids(es, i) {
      var e := KidFrom(es, i, x);
    } else if e :| e in es && i < |e.values| && x in KidsOf(e.values[i]) {
      KidIn(es, i, e, x);
    }
  }

  /** Everything that is asked of entities to be stored: they fit, are well-formed and stand apart. */
  ghost predicate Storable(t: Tables, es: seq<Entity>) {
    (forall e :: e in es ==> Fits(t, e) && WellFormed(e)) && PairwiseApart(es)
  }

  lemma {:induction false} KidsApart(es: seq<Entity>, i: nat)
    requires PairwiseApart(es) && forall e :: e in es ==> WellFormed(e) && i < |e.values|
    ensures PairwiseApart(Kids(es, i))
  {
    if es != [] {
      var m := |es| - 1;
      var before, last := Kids(es[..m], i), KidsOf(es[m].values[i]);
      KidsApart(es[..m], i);
      KidsOfEntity(es[m], i);
      forall k, l | 0 <= k < |before| && 0 <= l < |last| ensures Apart(before[k].pk, last[l].pk) {
        KidsAre(es[..m], i, before[k]);
        var e :| e in es[..m] && i < |e.values| && before[k] in KidsOf(e.values[i]);
        KidsOfEntity(e, i);
        assert last[l] in last;
        ApartBelow(e.pk, es[m].pk, before[k].pk, last[l].pk);
      }
    }
  }

  lemma {:induction false} KidsStorable(t: Tables, es: seq<Entity>, i: nat)
    requires Storable(t, es) && i < |t.cols| && !t.cols[i].ColT?
    ensures Storable(t.cols[i].child, Kids(es, i))
  {
    forall e | e in es ensures i < |e.values| && WellFormed(e) {
      assert Fits(t, e);
    }
    KidsApart(es, i);
    forall x | x in Kids(es, i) ensures Fits(t.cols[i].child, x) && WellFormed(x) {
      KidsAre(es, i, x);
      var e :| e in es && i < |e.values| && x in KidsOf(e.values[i]);
      KidsOfEntity(e, i);
      KidFits(t, e, i, x);
    }
  }

  lemma {:induction false} KidFits(t: Tables, e: Entity, i: nat, x: Entity)
    requires Fits(t, e) && i < |t.cols| && i < |e.values| && !t.cols[i].ColT? && x in KidsOf(e.values[i])
    ensures Fits(t.cols[i].child, x)
  {
    assert FitsField(t.cols[i], e.values[i]);
  }

  lemma {:induction false} KidsClear(t: Tables, es: seq<Entity>, i: nat)
    requires Storable(t, es) && i < |t.cols| && !t.cols[i].ColT? && forall e :: e in es ==> Clear(t, e.pk)
    ensures forall x :: x in Kids(es, i) ==> Clear(t.cols[i].child, x.pk)
  {
    forall x | x in Kids(es, i) ensures Clear(t.cols[i].child, x.pk) {
      KidsAre(es, i, x);
      var e :| e in es && i < |e.values| && x in KidsOf(e.values[i]);
      KidsOfEntity(e, i);
      assert ClearField(t.cols[i], e.pk);
      ClearBelow(t.cols[i].child, e.pk, x.pk);
    }
  }

  // ---- the greatest index -------------------------------------------------------------------------------------

  /** What range reads see of a stored entity: the children of a pointer with the greatest index are not found. */
  function Seen(t: Tables, e: Entity): (r: Entity)
    ensures r.pk == e.pk && |r.values| == |e.values|
    decreases t, 0
  {
    Entity(e.pk, seq(|e.values|, i requires 0 <= i < |e.values| =>
      if i < |t.cols| then SeenValue(t.cols[i], e.values[i], e.pk) else e.values[i]))
  }

  function SeenValue(c: FieldTable, v: Value, pk: seq<nat>): Value
    decreases c
  {
    match c
    case ColT(_) => v
    case OneT(child) => if v.OneV? then OneV(Seen(child, v.one)) else v
    case OptT(child) => if v.OptV? && v.opt.Some? then OptV(Some(Seen(child, v.opt.value))) else v
    case ManyT(width, child) =>
      if !v.ManyV? then v
      else if HasNext(pk, width) then ManyV(SeenEach(child, v.many))
      else ManyV([])
  }

  function SeenEach(t: Tables, xs: seq<Entity>): (r: seq<Entity>)
    ensures |r| == |xs| && forall k :: 0 <= k < |xs| ==> r[k] == Seen(t, xs[k])
    decreases t, 1
  {
    seq(|xs|, k requires 0 <= k < |xs| => Seen(t, xs[k]))
  }

  /** No list of children stands at a pointer with the greatest index. */
  ghost predicate InLimits(t: Tables, e: Entity)
    decreases t
  {
    forall i :: 0 <= i < |e.values| && i < |t.cols| ==> InLimitsValue(t.cols[i], e.values[i], e.pk)
  }

  ghost predicate InLimitsValue(c: FieldTable, v: Value, pk: seq<nat>)
    decreases c
  {
    match c
    case ColT(_) => true
    case OneT(child) => v.OneV? ==> InLimits(child, v.one)
    case OptT(child) => v.OptV? && v.opt.Some? ==> InLimits(child, v.opt.value)
    case ManyT(width, child) =>
      v.ManyV? && v.many != [] ==> HasNext(pk, width) && forall x :: x in v.many ==> InLimits(child, x)
  }

  /** Entities within the limits are seen as they are, and no others. */
  lemma {:induction false} SeenExactly(t: Tables, e: Entity)
    ensures Seen(t, e) == e <==> InLimits(t, e)
    decreases t, 0
  {
    var r := Seen(t, e);
    forall i | 0 <= i < |e.values| && i < |t.cols|
      ensures r.values[i] == e.values[i] <==> InLimitsValue(t.cols[i], e.values[i], e.pk)
    {
      SeenValueExactly(t.cols[i], e.values[i], e.pk);
    }
    if InLimits(t, e) {
      assert r.values == e.values;
    } else {
      var i :| 0 <= i < |e.values| && i < |t.cols| && !InLimitsValue(t.cols[i], e.values[i], e.pk);
      assert r.values[i] != e.values[i];
    }
  }

  lemma {:induction false} SeenValueExactly(c: FieldTable, v: Value, pk: seq<nat>)
    ensures SeenValue(c, v, pk) == v <==> InLimitsValue(c, v, pk)
    decreases c
  {
    match c
    case ColT(_) =>
    case OneT(child) => if v.OneV? { SeenExactly(child, v.one); }
    case OptT(child) => if v.OptV? && v.opt.Some? { SeenExactly(child, v.opt.value); }
    case ManyT(width, child) => if v.ManyV? { SeenEachExactly(child, v.many); }
  }

  lemma {:induction false} SeenEachExactly(t: Tables, xs: seq<Entity>)
    ensures SeenEach(t, xs) == xs <==> forall x :: x in xs ==> InLimits(t, x)
    decreases t, 1
  {
    var r := SeenEach(t, xs);
    forall k | 0 <= k < |xs| ensures r[k] == xs[k] <==> InLimits(t, xs[k]) {
      SeenExactly(t, xs[k]);
    }
    if r == xs {
      forall x | x in xs ensures InLimits(t, x) {
        var k :| 0 <= k < |xs| && xs[k] == x;
        assert r[k] == xs[k];
      }
    }
    if forall x :: x in xs ==> InLimits(t, x) {
      forall k | 0 <= k < |xs| ensures r[k] == xs[k] {
        assert xs[k] in xs;
      }
    }
  }

  // ---- round trip ---------------------------------------------------------------------------------------------

  lemma {:induction false} StoredRow(rows: map<seq<nat>, int>, es: seq<Entity>, i: nat, k: nat)
    requires k < |es| && PairwiseApart(es) && i < |es[k].values| && es[k].values[i].ColV?
    ensures es[k].pk in StoreRows(rows, es, i) && StoreRows(rows, es, i)[es[k].pk] == es[k].values[i].value
  {
    var m := |es| - 1;
    if k < m {
      StoredRow(rows, es[..m], i, k);
      assert Apart(es[k].pk, es[m].pk);
    }
  }

  /** A kid at the pointer of one of the entities is that entity's own. */
  lemma {:induction false} KidIsOwn(es: seq<Entity>, i: nat, e: Entity, x: Entity)
    requires PairwiseApart(es) && e in es && x in Kids(es, i) && e.pk <= x.pk
    requires forall d :: d in es ==> WellFormed(d)
    ensures i < |e.values| && x in KidsOf(e.values[i])
  {
    KidsAre(es, i, x);
    var d :| d in es && i < |d.values| && x in KidsOf(d.values[i]);
    KidsOfEntity(d, i);
    BothBegin(d.pk, e.pk, x.pk);
    var a :| 0 <= a < |es| && es[a] == d;
    var b :| 0 <= b < |es| && es[b] == e;
    assert a == b;
  }

  /** Storing entities where nothing is stored yet and reading one of them gives what range reads see of it; that is the
      entity itself exactly if it is within the limits. */
  lemma {:induction false} RoundTrip(t: Tables, es: seq<Entity>, e: Entity)
    requires Storable(t, es) && e in es && forall d :: d in es ==> Clear(t, d.pk)
    ensures Compose(StoreAll(t, es), e.pk) == Ok(Seen(t, e)) && e.pk in StoreAll(t, es).keys
    ensures Compose(StoreAll(t, es), e.pk) == Ok(e) <==> InLimits(t, e)
  {
    ReadsSeen(t, es, e);
    SeenExactly(t, e);
  }

  lemma {:induction false} ReadsSeen(t: Tables, es: seq<Entity>, e: Entity)
    requires Storable(t, es) && e in es && forall d :: d in es ==> Clear(t, d.pk)
    ensures Compose(StoreAll(t, es), e.pk) == Ok(Seen(t, e)) && e.pk in StoreAll(t, es).keys
    decreases t, 1
  {
    assert Fits(t, e);
    var u, r := StoreAll(t, es), Seen(t, e);
    forall i | 0 <= i < |e.values| ensures ReadField(u.cols[i], e.pk) == Ok(r.values[i]) {
      ReadsSeenField(t, es, e, i);
    }
    ComposeIs(u, r);
  }

  lemma {:induction false} ReadsSeenField(t: Tables, es: seq<Entity>, e: Entity, i: nat)
    requires Storable(t, es) && e in es && i < |t.cols| && forall d :: d in es ==> Clear(t, d.pk)
    ensures i < |e.values|
    ensures ReadField(StoreField(t.cols[i], es, i), e.pk) == Ok(SeenValue(t.cols[i], e.values[i], e.pk))
    decreases t, 0
  {
    var c, v := t.cols[i], e.values[i];
    assert FitsField(c, v) && v in e.values && WellFormedValue(v, e.pk) && ClearField(c, e.pk);
    if c.ColT? {
      var k :| 0 <= k < |es| && es[k] == e;
      StoredRow(c.rows, es, i, k);
    } else {
      KidsStorable(t, es, i);
      KidsClear(t, es, i);
      forall x | x in KidsOf(v)
        ensures x in Kids(es, i) && Compose(StoreAll(c.child, Kids(es, i)), x.pk) == Ok(Seen(c.child, x))
      {
        KidsAre(es, i, x);
        ReadsSeen(c.child, Kids(es, i), x);
      }
      match c
      case OneT(child) => assert v.one in KidsOf(v);
      case OptT(child) => ReadsSeenOpt(t, es, e, i);
      case ManyT(_, child) => ReadsSeenMany(t, es, e, i);
    }
  }

  lemma {:induction false} ReadsSeenOpt(t: Tables, es: seq<Entity>, e: Entity, i: nat)
    requires Storable(t, es) && e in es && i < |t.cols| && t.cols[i].OptT? && Clear(t, e.pk)
    requires i < |e.values| && FitsField(t.cols[i], e.values[i]) && WellFormedValue(e.values[i], e.pk)
    requires forall x :: x in KidsOf(e.values[i]) ==>
               x in Kids(es, i) && Compose(StoreAll(t.cols[i].child, Kids(es, i)), x.pk) == Ok(Seen(t.cols[i].child, x))
    ensures ReadField(StoreField(t.cols[i], es, i), e.pk) == Ok(SeenValue(t.cols[i], e.values[i], e.pk))
  {
    var v, u := e.values[i], StoreAll(t.cols[i].child, Kids(es, i));
    assert ClearField(t.cols[i], e.pk);
    if v.opt.Some? {
      assert v.opt.value in KidsOf(v);
    } else if e.pk in u.keys {
      var x :| x in Kids(es, i) && x.pk == e.pk;
      KidIsOwn(es, i, e, x);
      assert false;
    }
  }

  lemma {:induction false} ReadsSeenMany(t: Tables, es: seq<Entity>, e: Entity, i: nat)
    requires Storable(t, es) && e in es && i < |t.cols| && t.cols[i].ManyT? && Clear(t, e.pk)
    requires i < |e.values| && FitsField(t.cols[i], e.values[i]) && WellFormedValue(e.values[i], e.pk) && e.pk != []
    requires forall x :: x in KidsOf(e.values[i]) ==>
               x in Kids(es, i) && Compose(StoreAll(t.cols[i].child, Kids(es, i)), x.pk) == Ok(Seen(t.cols[i].child, x))
    ensures ReadField(StoreField(t.cols[i], es, i), e.pk) == Ok(SeenValue(t.cols[i], e.values[i], e.pk))
  {
    var c, xs := t.cols[i], e.values[i].many;
    var u := StoreAll(c.child, Kids(es, i));
    StoredChildKeys(t, es, e, i);
    if HasNext(e.pk, c.width) {
      var list := PksOf(xs);
      forall k | 0 <= k < |xs| ensures Compose(u, list[k]) == Ok(SeenEach(c.child, xs)[k]) {
        assert xs[k] in KidsOf(e.values[i]);
      }
      ComposeEachIs(u, list, SeenEach(c.child, xs));
    } else {
      ComposeEachIs(u, [], []);
    }
  }

  function PksOf(es: seq<Entity>): (pks: seq<seq<nat>>)
    ensures |pks| == |es| && forall k :: 0 <= k < |es| ==> pks[k] == es[k].pk
  {
    seq(|es|, k requires 0 <= k < |es| => es[k].pk)
  }

  /** After storing, the child keys of an entity are its children's pointers, unless its index is the greatest. */
  lemma {:induction false} StoredChildKeys(t: Tables, es: seq<Entity>, e: Entity, i: nat)
    requires Storable(t, es) && e in es && i < |t.cols| && t.cols[i].ManyT? && Clear(t, e.pk)
    requires i < |e.values| && e.values[i].ManyV? && WellFormedValue(e.values[i], e.pk) && e.pk != []
    ensures ChildKeys(StoreAll(t.cols[i].child, Kids(es, i)).keys, e.pk, t.cols[i].width)
         == if HasNext(e.pk, t.cols[i].width) then PksOf(e.values[i].many) else []
  {
    var xs, u := e.values[i].many, StoreAll(t.cols[i].child, Kids(es, i));
    var list := PksOf(xs);
    assert ClearField(t.cols[i], e.pk);
    forall k | 0 <= k < |xs| ensures xs[k] in xs { }
    forall q ensures q in list <==> q in u.keys && |q| == |e.pk| + 1 && e.pk <= q {
      if q in list {
        var k :| 0 <= k < |list| && list[k] == q;
        assert xs[k] in xs;
        KidsAre(es, i, xs[k]);
      }
      if q in u.keys && |q| == |e.pk| + 1 && e.pk <= q {
        var x :| x in Kids(es, i) && x.pk == q;
        KidIsOwn(es, i, e, x);
        var k :| 0 <= k < |xs| && xs[k] == x;
        assert list[k] == q;
      }
    }
    ChildKeysAre(u.keys, e.pk, t.cols[i].width, list);
  }

  // ---- frame --------------------------------------------------------------------------------------------------

  /** Child keys lie below their pointer. */
  lemma ChildKeysBelow(keys: set<seq<nat>>, pk: seq<nat>, width: nat)
    requires pk != []
    ensures forall q ::
              q in ChildKeys(keys, pk, width) <==> HasNext(pk, width) && q in keys && |q| == |pk| + 1 && pk <= q
    ensures Ascending(ChildKeys(keys, pk, width), |pk| + 1)
  {
    var s := set q | q in keys && |q| == |pk| + 1 && InRange(q, FkRange(pk, width).0, FkRange(pk, width).1);
    SortedHas(s, |pk| + 1);
    forall q ensures q in s <==> HasNext(pk, width) && q in keys && |q| == |pk| + 1 && pk <= q {
      if |q| == |pk| + 1 { InChildRange(pk, q, width); }
    }
  }

  /** What is stored or removed elsewhere does not change the child keys. */
  lemma SameChildKeys(keys: set<seq<nat>>, other: set<seq<nat>>, pk: seq<nat>, width: nat)
    requires pk != [] && forall q :: pk <= q ==> (q in other <==> q in keys)
    ensures ChildKeys(other, pk, width) == ChildKeys(keys, pk, width)
  {
    var list := ChildKeys(keys, pk, width);
    ChildKeysBelow(keys, pk, width);
    if HasNext(pk, width) {
      ChildKeysAre(other, pk, width, list);
    } else {
      ChildKeysBelow(other, pk, width);
      NoMembers(list);
      NoMembers(ChildKeys(other, pk, width));
    }
  }

  lemma NoMembers(list: seq<seq<nat>>)
    requires forall q :: q !in list
    ensures list == []
  {
    FirstMember(list);
  }

  lemma FirstMember(list: seq<seq<nat>>)
    ensures list == [] || list[0] in list
  {
  }

  lemma {:induction false} SameEach(t: Tables, u: Tables, pks: seq<seq<nat>>)
    requires forall q :: q in pks ==> Compose(u, q) == Compose(t, q)
    ensures ComposeEach(u, pks) == ComposeEach(t, pks)
  {
    if pks != [] { SameEach(t, u, pks[..|pks| - 1]); }
  }

  lemma {:induction false} SameFields(t: Tables, u: Tables, pk: seq<nat>, m: nat)
    requires |t.cols| == |u.cols| && m <= |t.cols|
    requires forall i :: 0 <= i < |t.cols| ==> ReadField(u.cols[i], pk) == ReadField(t.cols[i], pk)
    ensures ReadFields(u, pk, m) == ReadFields(t, pk, m)
  {
    if m > 0 { SameFields(t, u, pk, m - 1); }
  }

  lemma {:induction false} OtherRow(rows: map<seq<nat>, int>, es: seq<Entity>, i: nat, q: seq<nat>)
    requires forall e :: e in es ==> e.pk != q
    ensures q in StoreRows(rows, es, i) <==> q in rows
    ensures q in rows ==> StoreRows(rows, es, i)[q] == rows[q]
  {
    if es != [] {
      OtherRow(rows, es[..|es| - 1], i, q);
      assert es[|es| - 1] in es;
    }
  }

  /** Both tables hold the same at the pointer and below it. */
  ghost predicate SameBelow(t: Tables, u: Tables, q: seq<nat>)
    decreases t
  {
    && (forall k :: q <= k ==> (k in t.keys <==> k in u.keys))
    && |t.cols| == |u.cols| && forall i :: 0 <= i < |t.cols| ==> SameFieldBelow(t.cols[i], u.cols[i], q)
  }

  ghost predicate SameRow(rows: map<seq<nat>, int>, other: map<seq<nat>, int>, k: seq<nat>) {
    (k in rows <==> k in other) && (k in rows && k in other ==> rows[k] == other[k])
  }

  ghost predicate SameFieldBelow(c: FieldTable, d: FieldTable, q: seq<nat>)
    decreases c
  {
    match c
    case ColT(rows) => d.ColT? && forall k :: q <= k ==> SameRow(rows, d.rows, k)
    case OneT(child) => d.OneT? && SameBelow(child, d.child, q)
    case OptT(child) => d.OptT? && SameBelow(child, d.child, q)
    case ManyT(width, child) => d.ManyT? && d.width == width && SameBelow(child, d.child, q)
  }

  lemma {:induction false} SameFurtherBelow(t: Tables, u: Tables, q: seq<nat>, k: seq<nat>)
    requires SameBelow(t, u, q) && q <= k
    ensures SameBelow(t, u, k)
    decreases t
  {
    forall i | 0 <= i < |t.cols| ensures SameFieldBelow(t.cols[i], u.cols[i], k) {
      assert SameFieldBelow(t.cols[i], u.cols[i], q);
      if !t.cols[i].ColT? { SameFurtherBelow(t.cols[i].child, u.cols[i].child, q, k); }
    }
  }

  /** An entity is read from what stands at its pointer and below it, errors included. */
  lemma {:induction false} SameReads(t: Tables, u: Tables, q: seq<nat>)
    requires SameBelow(t, u, q)
    ensures Compose(u, q) == Compose(t, q) && Get(u, q) == Get(t, q)
    decreases t, 1
  {
    forall i | 0 <= i < |t.cols| ensures ReadField(u.cols[i], q) == ReadField(t.cols[i], q) {
      SameFieldReads(t.cols[i], u.cols[i], q);
    }
    SameFields(t, u, q, |t.cols|);
  }

  lemma {:induction false} SameFieldReads(c: FieldTable, d: FieldTable, q: seq<nat>)
    requires SameFieldBelow(c, d, q)
    ensures ReadField(d, q) == ReadField(c, q)
    decreases c, 0
  {
    if c.ColT? {
      assert SameRow(c.rows, d.rows, q);
    } else if !c.ManyT? {
      SameReads(c.child, d.child, q);
    } else if q != [] {
      SameChildKeys(c.child.keys, d.child.keys, q, c.width);
      ChildKeysBelow(c.child.keys, q, c.width);
      forall k | k in ChildKeys(c.child.keys, q, c.width) ensures Compose(d.child, k) == Compose(c.child, k) {
        SameFurtherBelow(c.child, d.child, q, k);
        SameReads(c.child, d.child, k);
      }
      SameEach(c.child, d.child, ChildKeys(c.child.keys, q, c.width));
    }
  }

  lemma {:induction false} KidsStandApart(es: seq<Entity>, i: nat, q: seq<nat>)
    requires forall e :: e in es ==> WellFormed(e) && Apart(e.pk, q)
    ensures forall x :: x in Kids(es, i) ==> WellFormed(x) && Apart(x.pk, q)
  {
    forall x | x in Kids(es, i) ensures WellFormed(x) && Apart(x.pk, q) {
      KidsAre(es, i, x);
      var e :| e in es && i < |e.values| && x in KidsOf(e.values[i]);
      KidsOfEntity(e, i);
      ApartBelow(e.pk, q, x.pk, q);
    }
  }

  /** Storing changes nothing at or below a pointer that stands apart. */
  lemma {:induction false} StoreSameBelow(t: Tables, es: seq<Entity>, q: seq<nat>)
    requires forall e :: e in es ==> WellFormed(e) && Apart(e.pk, q)
    ensures SameBelow(t, StoreAll(t, es), q)
    decreases t
  {
    forall i | 0 <= i < |t.cols| ensures SameFieldBelow(t.cols[i], StoreField(t.cols[i], es, i), q) {
      var c := t.cols[i];
      if c.ColT? {
        forall k | q <= k ensures SameRow(c.rows, StoreRows(c.rows, es, i), k) {
          OtherRow(c.rows, es, i, k);
        }
      } else {
        KidsStandApart(es, i, q);
        StoreSameBelow(c.child, Kids(es, i), q);
      }
    }
  }

  /** Storing entities leaves the read of every entity that stands apart from them as it was, errors included. */
  lemma {:induction false} StoreFrame(t: Tables, es: seq<Entity>, q: seq<nat>)
    requires forall e :: e in es ==> WellFormed(e) && Apart(e.pk, q)
    ensures Compose(StoreAll(t, es), q) == Compose(t, q) && Get(StoreAll(t, es), q) == Get(t, q)
  {
    StoreSameBelow(t, es, q);
    SameReads(t, StoreAll(t, es), q);
  }
}
