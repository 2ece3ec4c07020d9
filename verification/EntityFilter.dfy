/**
 Filtered reads: exactly when reading an entity through a nested query is reading all of it and filtering that.
 */
module EntityFilter {
  import opened Wrappers
  import opened EntityTree

  datatype FilterOp =
    | Eq(n: int) | Ne(n: int) | Lt(n: int) | Le(n: int) | Gt(n: int) | Ge(n: int)
    | In(options: seq<int>)

  predicate Matches(op: FilterOp, v: int) {
    match op
    case Eq(n) => v == n
    case Ne(n) => v != n
    case Lt(n) => v < n
    case Le(n) => v <= n
    case Gt(n) => v > n
    case Ge(n) => v >= n
    case In(options) => v in options
  }

  /** What is asked of the fields, in their order; a field that nothing is asked of has `Anything`. */
  datatype Query = Query(parts: seq<Part>)

  datatype Part = Anything | OnColumn(op: FilterOp) | OnChild(query: Query)

  function PartAt(q: Query, i: nat): Part {
    if i < |q.parts| then q.parts[i] else Anything
  }

  // ---- the filtered read ----------------------------------------------------------------------------------------

  /** `None` as the entity does not match, found out at the first field that says so. */
  function ComposeWithFilter(t: Tables, pk: seq<nat>, q: Query): Result<Option<Entity>, ReadError>
    decreases t, 1, 0
  {
    match FilteredFields(t, pk, q, |t.cols|)
    case Err(e) => Err(e)
    case Ok(None) => Ok(None)
    case Ok(Some(values)) => Ok(Some(Entity(pk, values)))
  }

  function FilteredFields(t: Tables, pk: seq<nat>, q: Query, m: nat): Result<Option<seq<Value>>, ReadError>
    requires m <= |t.cols|
    decreases t, 0, m
  {
    if m == 0 then Ok(Some([]))
    else
      match FilteredFields(t, pk, q, m - 1)
      case Err(e) => Err(e)
      case Ok(None) => Ok(None)
      case Ok(Some(values)) =>
        match FilteredField(t.cols[m - 1], pk, PartAt(q, m - 1))
        case Err(e) => Err(InField(m - 1, e))
        case Ok(None) => Ok(None)
        case Ok(Some(v)) => Ok(Some(values + [v]))
  }

  function FilteredField(c: FieldTable, pk: seq<nat>, part: Part): Result<Option<Value>, ReadError>
    decreases c, 0, 0
  {
    match c
    case ColT(rows) =>
      if pk !in rows then Err(NotFound([], pk))
      else if part.OnColumn? && !Matches(part.op, rows[pk]) then Ok(None)
      else Ok(Some(ColV(rows[pk])))
    case OneT(child) =>
      if part.OnChild? then
        match Filter(child, pk, part.query)
        case Err(e) => Err(e)
        case Ok(None) => Ok(None)
        case Ok(Some(x)) => Ok(Some(OneV(x)))
      else (match ReadField(c, pk) case Err(e) => Err(e) case Ok(v) => Ok(Some(v)))
    case OptT(child) =>
      if part.OnChild? then
        match Filter(child, pk, part.query)
        case Err(e) => Err(e)
        case Ok(None) => Ok(None)
        case Ok(Some(x)) => Ok(Some(OptV(Some(x))))
      else (match ReadField(c, pk) case Err(e) => Err(e) case Ok(v) => Ok(Some(v)))
    case ManyT(width, child) =>
      if pk == [] then Err(NotFound([], pk))
      else
        match ComposeMany(child, ChildKeys(child.keys, pk, width), if part.OnChild? then Some(part.query) else None)
        case Err(e) => Err(e)
        case Ok(xs) => if xs == [] then Ok(None) else Ok(Some(ManyV(xs)))
  }

  function Filter(t: Tables, pk: seq<nat>, q: Query): Result<Option<Entity>, ReadError>
    decreases t, 2, 0
  {
    if pk !in t.keys then Ok(None) else ComposeWithFilter(t, pk, q)
  }

  /** Without a query all entities or the first error; with a query the entities that match, errors left out. */
  function ComposeMany(t: Tables, pks: seq<seq<nat>>, query: Option<Query>): Result<seq<Entity>, ReadError>
    decreases t, 3, 0
  {
    match query
    case None => ComposeEach(t, pks)
    case Some(q) => Ok(Matching(t, pks, q))
  }

  function Matching(t: Tables, pks: seq<seq<nat>>, q: Query): seq<Entity>
    decreases t, 2, |pks|
  {
    if pks == [] then []
    else
      var m := |pks| - 1;
      var r := ComposeWithFilter(t, pks[m], q);
      Matching(t, pks[..m], q) + (if r.Ok? && r.value.Some? then [r.value.value] else [])
  }

  /** The generated `compose_many`, which collects in a loop. */
  method ComposeManyLoop(t: Tables, pks: seq<seq<nat>>, query: Option<Query>)
    returns (r: Result<seq<Entity>, ReadError>)
    ensures r == ComposeMany(t, pks, query)
  {
    var results: seq<Entity> := [];
    match query {
      case Some(q) =>
        for k := 0 to |pks|
          invariant results == Matching(t, pks[..k], q)
        {
          assert pks[..k + 1][..k] == pks[..k];
          var found := ComposeWithFilter(t, pks[k], q);
          if found.Ok? && found.value.Some? {
            results := results + [found.value.value];
          }
        }
      case None =>
        for k := 0 to |pks|
          invariant ComposeEach(t, pks[..k]) == Ok(results)
        {
          assert pks[..k + 1][..k] == pks[..k];
          var found := Compose(t, pks[k]);
          if found.Err? {
            EachFails(t, pks, k + 1);
            return Err(found.error);
          }
          results := results + [found.value];
        }
    }
    assert pks[..|pks|] == pks;
    r := Ok(results);
  }

  lemma {:induction false} EachFails(t: Tables, pks: seq<seq<nat>>, k: nat)
    requires k <= |pks| && ComposeEach(t, pks[..k]).Err?
    ensures ComposeEach(t, pks) == ComposeEach(t, pks[..k])
    decreases |pks|
  {
    if k == |pks| {
      assert pks[..k] == pks;
    } else {
      assert pks[..|pks| - 1][..k] == pks[..k];
      EachFails(t, pks[..|pks| - 1], k);
    }
  }

  // ---- filtering an entity --------------------------------------------------------------------------------------

  /** The entity with its children filtered, if every field survives. */
  function FilterEntity(e: Entity, q: Query): Option<Entity>
    decreases e, 1, 0
  {
    match FilterValues(e, q, |e.values|)
    case None => None
    case Some(values) => Some(Entity(e.pk, values))
  }

  function FilterValues(e: Entity, q: Query, m: nat): Option<seq<Value>>
    requires m <= |e.values|
    decreases e, 0, m
  {
    if m == 0 then Some([])
    else
      match FilterValues(e, q, m - 1)
      case None => None
      case Some(values) =>
        match FilterValue(e.values[m - 1], PartAt(q, m - 1))
        case None => None
        case Some(v) => Some(values + [v])
  }

  /** A column must match, a queried child must be there and survive, and of a list some child must survive; if nothing
      is asked of the list's children all survive. */
  function FilterValue(v: Value, part: Part): Option<Value>
    decreases v, 0, 0
  {
    match v
    case ColV(n) => if part.OnColumn? && !Matches(part.op, n) then None else Some(v)
    case OneV(x) =>
      if !part.OnChild? then Some(v)
      else (match FilterEntity(x, part.query) case None => None case Some(y) => Some(OneV(y)))
    case OptV(o) =>
      if !part.OnChild? then Some(v)
      else
        (match o
         case None => None
         case Some(x) => (match FilterEntity(x, part.query) case None => None case Some(y) => Some(OptV(Some(y)))))
    case ManyV(xs) =>
      var survivors := if part.OnChild? then FilterList(xs, part.query) else xs;
      if survivors == [] then None else Some(ManyV(survivors))
  }

  function FilterList(xs: seq<Entity>, q: Query): seq<Entity>
    decreases xs, 2, 0
  {
    if xs == [] then []
    else
      var m := |xs| - 1;
      var last := FilterEntity(xs[m], q);
      FilterList(xs[..m], q) + (if last.Some? then [last.value] else [])
  }

  // ---- both are the same ----------------------------------------------------------------------------------------

  /** Reading everything and filtering it, errors passed on. */
  function Naive(t: Tables, pk: seq<nat>, q: Query): Result<Option<Entity>, ReadError> {
    match Compose(t, pk)
    case Err(e) => Err(e)
    case Ok(x) => Ok(FilterEntity(x, q))
  }

  /** The first field that does not read, or the number of fields. */
  function FirstBroken(t: Tables, pk: seq<nat>, m: nat): (i: nat)
    requires m <= |t.cols|
    ensures i <= m && (i < m ==> ReadField(t.cols[i], pk).Err?)
    ensures forall j :: 0 <= j < i ==> ReadField(t.cols[j], pk).Ok?
  {
    if m == 0 then 0
    else
      var i := FirstBroken(t, pk, m - 1);
      if i < m - 1 || ReadField(t.cols[m - 1], pk).Err? then i else m
  }

  /** Does the field read, and survive its part of the query? */
  ghost predicate Survives(c: FieldTable, pk: seq<nat>, part: Part) {
    ReadField(c, pk).Ok? && FilterValue(ReadField(c, pk).value, part).Some?
  }

  /** When a filtered read agrees with filtering the whole entity: the whole entity reads, or every field before the
      first broken one survives, and that one fails the filtered read in the same way. */
  ghost predicate Agrees(t: Tables, pk: seq<nat>, q: Query)
    decreases t
  {
    var i := FirstBroken(t, pk, |t.cols|);
    i < |t.cols| ==>
      && (forall j :: 0 <= j < i ==> Survives(t.cols[j], pk, PartAt(q, j)))
      && AgreesField(t.cols[i], pk, PartAt(q, i))
  }

  /** A broken column always fails, and so does a child that nothing is asked of. A broken list that something is
      asked of never does, and a child that something is asked of does if it is there and agrees itself. */
  ghost predicate AgreesField(c: FieldTable, pk: seq<nat>, part: Part)
    decreases c
  {
    match c
    case ColT(_) => true
    case OneT(child) => part.OnChild? ==> pk in child.keys && Agrees(child, pk, part.query)
    case OptT(child) => part.OnChild? ==> Agrees(child, pk, part.query)
    case ManyT(_, _) => part.OnChild? ==> pk == []
  }

  // ---- reads field by field -------------------------------------------------------------------------------------

  /** A read fails at the first broken field. */
  lemma {:induction false} ReadFieldsFail(t: Tables, pk: seq<nat>, m: nat)
    requires m <= |t.cols|
    ensures var i := FirstBroken(t, pk, m);
            if i == m then ReadFields(t, pk, m).Ok?
            else ReadFields(t, pk, m) == Err(InField(i, ReadField(t.cols[i], pk).error))
  {
    if m > 0 { ReadFieldsFail(t, pk, m - 1); }
  }

  /** While the fields read, reading through the query is filtering what they read. */
  lemma {:induction false} FilteredFieldsAre(t: Tables, pk: seq<nat>, q: Query, m: nat)
    requires m <= FirstBroken(t, pk, |t.cols|)
    ensures var r := FilteredFields(t, pk, q, m);
            && r.Ok? && (r.value.Some? <==> forall j :: 0 <= j < m ==> Survives(t.cols[j], pk, PartAt(q, j)))
    ensures ReadFields(t, pk, m).Ok?
    ensures forall e: Entity :: m <= |e.values| && e.values[..m] == ReadFields(t, pk, m).value ==>
              FilteredFields(t, pk, q, m) == Ok(FilterValues(e, q, m))
    decreases t, 1, m
  {
    if m > 0 {
      FilteredFieldsAre(t, pk, q, m - 1);
      FilteredFieldIs(t.cols[m - 1], pk, PartAt(q, m - 1));
      forall e: Entity | m <= |e.values| && e.values[..m] == ReadFields(t, pk, m).value
        ensures FilteredFields(t, pk, q, m) == Ok(FilterValues(e, q, m))
      {
        assert e.values[..m - 1] == e.values[..m][..m - 1] == ReadFields(t, pk, m - 1).value;
        assert e.values[m - 1] == e.values[..m][m - 1];
      }
    }
  }

  /** After a dropped or failed field nothing changes any more. */
  lemma {:induction false} FilteredFieldsStay(t: Tables, pk: seq<nat>, q: Query, i: nat, m: nat)
    requires i <= m <= |t.cols| && (FilteredFields(t, pk, q, i).Err? || FilteredFields(t, pk, q, i).value.None?)
    ensures FilteredFields(t, pk, q, m) == FilteredFields(t, pk, q, i)
    decreases m
  {
    if i < m { FilteredFieldsStay(t, pk, q, i, m - 1); }
  }

  /** Beyond field `i` an error is that of a later field. */
  lemma {:induction false} FailsLater(t: Tables, pk: seq<nat>, q: Query, i: nat, m: nat)
    requires i <= m <= |t.cols| && FilteredFields(t, pk, q, i).Ok? && FilteredFields(t, pk, q, m).Err?
    ensures var e := FilteredFields(t, pk, q, m).error; e.path != [] && e.path[0] >= i
    decreases m
  {
    if i < m && FilteredFields(t, pk, q, m - 1).Err? { FailsLater(t, pk, q, i, m - 1); }
  }

  // ---- the theorem ------------------------------------------------------------------------------------------------

  /** Reading through a query is reading everything and filtering it. */
  lemma {:induction false} FilteredReadIsFilter(t: Tables, pk: seq<nat>, q: Query)
    requires Compose(t, pk).Ok?
    ensures ComposeWithFilter(t, pk, q) == Ok(FilterEntity(Compose(t, pk).value, q))
    decreases t, 2, 0
  {
    ReadFieldsFail(t, pk, |t.cols|);
    FilteredFieldsAre(t, pk, q, |t.cols|);
    var e := Compose(t, pk).value;
    assert e.values[..|t.cols|] == e.values;
  }

  lemma {:induction false} FilteredFieldIs(c: FieldTable, pk: seq<nat>, part: Part)
    requires ReadField(c, pk).Ok?
    ensures FilteredField(c, pk, part) == Ok(FilterValue(ReadField(c, pk).value, part))
    decreases c, 1, 0
  {
    match c
    case ColT(_) =>
    case OneT(child) =>
      if part.OnChild? { FilteredReadIsFilter(child, pk, part.query); }
    case OptT(child) =>
      if part.OnChild? && pk in child.keys { FilteredReadIsFilter(child, pk, part.query); }
    case ManyT(width, child) =>
      if part.OnChild? { MatchingIs(child, ChildKeys(child.keys, pk, width), part.query); }
  }

  lemma {:induction false} MatchingIs(t: Tables, pks: seq<seq<nat>>, q: Query)
    requires ComposeEach(t, pks).Ok?
    ensures Matching(t, pks, q) == FilterList(ComposeEach(t, pks).value, q)
    decreases t, 3, |pks|
  {
    if pks != [] {
      var m := |pks| - 1;
      MatchingIs(t, pks[..m], q);
      FilteredReadIsFilter(t, pks[m], q);
      var xs := ComposeEach(t, pks).value;
      assert xs[..m] == ComposeEach(t, pks[..m]).value;
    }
  }

  /** For all tables: a filtered read is the filtered whole read, errors passed on, exactly if both agree. */
  lemma {:induction false} FilteredReadAgrees(t: Tables, pk: seq<nat>, q: Query)
    ensures ComposeWithFilter(t, pk, q) == Naive(t, pk, q) <==> Agrees(t, pk, q)
    decreases t, 1
  {
    var i := FirstBroken(t, pk, |t.cols|);
    ReadFieldsFail(t, pk, |t.cols|);
    if i == |t.cols| {
      FilteredReadIsFilter(t, pk, q);
    } else {
      FilteredFieldsAre(t, pk, q, i);
      BrokenFieldAgrees(t.cols[i], pk, PartAt(q, i));
      StopsAt(t, pk, q, i, ReadField(t.cols[i], pk).error);
    }
  }

  lemma InFieldInjective(i: nat, d: ReadError, e: ReadError)
    ensures InField(i, d) == InField(i, e) <==> d == e
  {
    assert d.path == ([i] + d.path)[1..] && e.path == ([i] + e.path)[1..];
  }

  /** The filtered read fails like field `i` exactly if it gets there and that field fails it in the same way. */
  lemma {:induction false} StopsAt(t: Tables, pk: seq<nat>, q: Query, i: nat, e: ReadError)
    requires i < |t.cols| && FilteredFields(t, pk, q, i).Ok?
    ensures ComposeWithFilter(t, pk, q) == Err(InField(i, e))
       <==> FilteredFields(t, pk, q, i).value.Some? && FilteredField(t.cols[i], pk, PartAt(q, i)) == Err(e)
  {
    if FilteredFields(t, pk, q, i).value.None? {
      FilteredFieldsStay(t, pk, q, i, |t.cols|);
    } else if FilteredField(t.cols[i], pk, PartAt(q, i)).Err? {
      FilteredFieldsStay(t, pk, q, i + 1, |t.cols|);
      InFieldInjective(i, FilteredField(t.cols[i], pk, PartAt(q, i)).error, e);
    } else if FilteredFields(t, pk, q, |t.cols|).Err? {
      FailsLater(t, pk, q, i + 1, |t.cols|);
    }
  }

  lemma {:induction false} BrokenFieldAgrees(c: FieldTable, pk: seq<nat>, part: Part)
    requires ReadField(c, pk).Err?
    ensures FilteredField(c, pk, part) == Err(ReadField(c, pk).error) <==> AgreesField(c, pk, part)
    decreases c, 0
  {
    match c
    case ColT(_) =>
    case OneT(child) =>
      if part.OnChild? && pk in child.keys { FilteredReadAgrees(child, pk, part.query); }
    case OptT(child) =>
      if part.OnChild? { FilteredReadAgrees(child, pk, part.query); }
    case ManyT(_, _) =>
  }

  /** A stored entity, read through a query, is the filtering of what range reads see of it: of the entity itself if
      it is within the limits. */
  lemma {:induction false} StoredThenFiltered(t: Tables, es: seq<Entity>, e: Entity, q: Query)
    requires Storable(t, es) && e in es && forall d :: d in es ==> Clear(t, d.pk)
    ensures Filter(StoreAll(t, es), e.pk, q) == Ok(FilterEntity(Seen(t, e), q))
    ensures InLimits(t, e) ==> Filter(StoreAll(t, es), e.pk, q) == Ok(FilterEntity(e, q))
  {
    RoundTrip(t, es, e);
    SeenExactly(t, e);
    FilteredReadIsFilter(StoreAll(t, es), e.pk, q);
  }

  // ---- what a query selects -----------------------------------------------------------------------------------------

  /** The column value stands to the operand as the operator says. */
  ghost predicate Holds(op: FilterOp, v: int) {
    && (op.Eq? ==> v == op.n) && (op.Ne? ==> v != op.n)
    && (op.Lt? ==> v < op.n) && (op.Le? ==> v <= op.n)
    && (op.Gt? ==> v > op.n) && (op.Ge? ==> v >= op.n)
    && (op.In? ==> exists k :: 0 <= k < |op.options| && op.options[k] == v)
  }

  /** The entity is selected: every column holds what is asked of it, every child that something is asked of is there
      and selected, and every list has a child that is selected, or any child if nothing is asked. */
  ghost predicate Selected(e: Entity, q: Query)
    decreases e
  {
    forall i :: 0 <= i < |e.values| ==> SelectedValue(e.values[i], PartAt(q, i))
  }

  ghost predicate SelectedValue(v: Value, part: Part)
    decreases v
  {
    match v
    case ColV(n) => part.OnColumn? ==> Holds(part.op, n)
    case OneV(x) => part.OnChild? ==> Selected(x, part.query)
    case OptV(o) => part.OnChild? ==> o.Some? && Selected(o.value, part.query)
    case ManyV(xs) => if part.OnChild? then exists x :: x in xs && Selected(x, part.query) else xs != []
  }

  /** `r` is `e` with its children that something is asked of trimmed, and of its lists the selected children, trimmed
      and in their order. */
  ghost predicate Trimmed(e: Entity, r: Entity, q: Query)
    decreases e
  {
    && r.pk == e.pk && |r.values| == |e.values|
    && forall i :: 0 <= i < |e.values| ==> TrimmedValue(e.values[i], r.values[i], PartAt(q, i))
  }

  ghost predicate TrimmedValue(v: Value, w: Value, part: Part)
    decreases v
  {
    if !part.OnChild? then w == v
    else
      match v
      case ColV(_) => w == v
      case OneV(x) => w.OneV? && Trimmed(x, w.one, part.query)
      case OptV(o) => o.Some? && w.OptV? && w.opt.Some? && Trimmed(o.value, w.opt.value, part.query)
      case ManyV(xs) => w.ManyV? && TrimmedList(xs, w.many, part.query)
  }

  ghost predicate TrimmedList(xs: seq<Entity>, ys: seq<Entity>, q: Query)
    decreases xs
  {
    if xs == [] then ys == []
    else
      var m := |xs| - 1;
      if !Selected(xs[m], q) then TrimmedList(xs[..m], ys, q)
      else ys != [] && Trimmed(xs[m], ys[|ys| - 1], q) && TrimmedList(xs[..m], ys[..|ys| - 1], q)
  }

  /** Filtering keeps exactly the selected entities, and trims them. */
  lemma {:induction false} FilterSelects(e: Entity, q: Query)
    ensures FilterEntity(e, q).Some? <==> Selected(e, q)
    ensures FilterEntity(e, q).Some? ==> Trimmed(e, FilterEntity(e, q).value, q)
    decreases e, 2
  {
    FilterValuesSelect(e, q, |e.values|);
  }

  lemma {:induction false} FilterValuesSelect(e: Entity, q: Query, m: nat)
    requires m <= |e.values|
    ensures FilterValues(e, q, m).Some? <==> forall i :: 0 <= i < m ==> SelectedValue(e.values[i], PartAt(q, i))
    ensures FilterValues(e, q, m).Some? ==>
              var w := FilterValues(e, q, m).value;
              |w| == m && forall i :: 0 <= i < m ==> TrimmedValue(e.values[i], w[i], PartAt(q, i))
    decreases e, 1, m
  {
    if m > 0 {
      FilterValuesSelect(e, q, m - 1);
      FilterValueSelects(e.values[m - 1], PartAt(q, m - 1));
    }
  }

  lemma {:induction false} FilterValueSelects(v: Value, part: Part)
    ensures FilterValue(v, part).Some? <==> SelectedValue(v, part)
    ensures FilterValue(v, part).Some? ==> TrimmedValue(v, FilterValue(v, part).value, part)
    decreases v, 1
  {
    match v
    case ColV(n) => if part.OnColumn? { MatchesHolds(part.op, n); }
    case OneV(x) => if part.OnChild? { FilterSelects(x, part.query); }
    case OptV(o) => if part.OnChild? && o.Some? { FilterSelects(o.value, part.query); }
    case ManyV(xs) => if part.OnChild? { FilterListSelects(xs, part.query); }
  }

  lemma MatchesHolds(op: FilterOp, v: int)
    ensures Matches(op, v) <==> Holds(op, v)
  {
  }

  lemma {:induction false} FilterListSelects(xs: seq<Entity>, q: Query)
    ensures FilterList(xs, q) != [] <==> exists x :: x in xs && Selected(x, q)
    ensures TrimmedList(xs, FilterList(xs, q), q)
    decreases xs, 2
  {
    if xs != [] {
      var m := |xs| - 1;
      FilterListSelects(xs[..m], q);
      FilterSelects(xs[m], q);
      assert forall x :: x in xs <==> x in xs[..m] || x == xs[m];
      if FilterEntity(xs[m], q).Some? {
        var ys := FilterList(xs, q);
        assert ys == FilterList(xs[..m], q) + [FilterEntity(xs[m], q).value];
        assert ys[..|ys| - 1] == FilterList(xs[..m], q);
      } else {
        assert FilterList(xs, q) == FilterList(xs[..m], q);
      }
    }
  }

  /** A stored entity that range reads see is found through a query exactly if it is selected, and comes trimmed. */
  lemma {:induction false} StoredIsSelected(t: Tables, es: seq<Entity>, e: Entity, q: Query)
    requires Storable(t, es) && e in es && forall d :: d in es ==> Clear(t, d.pk)
    ensures var found := Filter(StoreAll(t, es), e.pk, q);
            && found.Ok? && (found.value.Some? <==> Selected(Seen(t, e), q))
            && (found.value.Some? ==> Trimmed(Seen(t, e), found.value.value, q))
  {
    StoredThenFiltered(t, es, e, q);
    FilterSelects(Seen(t, e), q);
  }

  /** A query that asks one column only. */
  ghost predicate AsksOnly(q: Query, i: nat, op: FilterOp) {
    && i < |q.parts| && q.parts[i] == OnColumn(op)
    && forall j :: 0 <= j < |q.parts| && j != i ==> q.parts[j].Anything?
  }

  /** What each operator selects: a stored entity with non-empty lists, asked for one column, is found exactly if the
      column's value stands to the operand in that order. */
  lemma {:induction false} ColumnSelects(t: Tables, es: seq<Entity>, e: Entity, q: Query, i: nat, op: FilterOp, v: int)
    requires Storable(t, es) && e in es && forall d :: d in es ==> Clear(t, d.pk)
    requires InLimits(t, e) && forall j :: 0 <= j < |e.values| ==> e.values[j] != ManyV([])
    requires i < |e.values| && e.values[i] == ColV(v) && AsksOnly(q, i, op)
    ensures var found := Filter(StoreAll(t, es), e.pk, q);
            && (found == Ok(Some(e)) || found == Ok(None))
            && (found == Ok(Some(e)) <==>
                  match op
                  case Eq(n) => v == n
                  case Ne(n) => v != n
                  case Lt(n) => v < n
                  case Le(n) => v <= n
                  case Gt(n) => v > n
                  case Ge(n) => v >= n
                  case In(options) => v in options)
  {
    SeenExactly(t, e);
    StoredIsSelected(t, es, e, q);
    OneColumn(e, q, i, op, v);
  }

  lemma {:induction false} OneColumn(e: Entity, q: Query, i: nat, op: FilterOp, v: int)
    requires forall j :: 0 <= j < |e.values| ==> e.values[j] != ManyV([])
    requires i < |e.values| && e.values[i] == ColV(v) && AsksOnly(q, i, op)
    ensures Selected(e, q) <==> Holds(op, v)
    ensures forall r :: Trimmed(e, r, q) ==> r == e
  {
    forall j: nat | j < |e.values| && j != i ensures SelectedValue(e.values[j], PartAt(q, j)) {
      assert PartAt(q, j).Anything?;
    }
    if Selected(e, q) { assert SelectedValue(e.values[i], PartAt(q, i)); }
    forall r | Trimmed(e, r, q) ensures r == e {
      forall j: nat | j < |e.values| ensures r.values[j] == e.values[j] {
        assert !PartAt(q, j).OnChild?;
        assert TrimmedValue(e.values[j], r.values[j], PartAt(q, j));
      }
    }
  }

  /** A query that asks nothing still drops an entity with an empty list of its own, and no other. */
  lemma {:induction false} EmptyQuery(e: Entity, m: nat)
    requires m <= |e.values|
    ensures FilterValues(e, Query([]), m)
         == if exists i :: 0 <= i < m && e.values[i] == ManyV([]) then None else Some(e.values[..m])
  {
    if m > 0 {
      EmptyQuery(e, m - 1);
      assert e.values[..m] == e.values[..m - 1] + [e.values[m - 1]];
    }
  }

  // ---- frame ------------------------------------------------------------------------------------------------------

  /** A filtered read, too, sees only what stands at the pointer and below it. */
  lemma {:induction false} SameFiltered(t: Tables, u: Tables, pk: seq<nat>, q: Query)
    requires SameBelow(t, u, pk)
    ensures ComposeWithFilter(u, pk, q) == ComposeWithFilter(t, pk, q) && Filter(u, pk, q) == Filter(t, pk, q)
    decreases t, 1
  {
    forall i | 0 <= i < |t.cols|
      ensures FilteredField(u.cols[i], pk, PartAt(q, i)) == FilteredField(t.cols[i], pk, PartAt(q, i))
    {
      SameFilteredField(t.cols[i], u.cols[i], pk, PartAt(q, i));
    }
    SameFilteredFields(t, u, pk, q, |t.cols|);
  }

  lemma {:induction false} SameFilteredFields(t: Tables, u: Tables, pk: seq<nat>, q: Query, m: nat)
    requires |t.cols| == |u.cols| && m <= |t.cols|
    requires forall i :: 0 <= i < |t.cols| ==>
               FilteredField(u.cols[i], pk, PartAt(q, i)) == FilteredField(t.cols[i], pk, PartAt(q, i))
    ensures FilteredFields(u, pk, q, m) == FilteredFields(t, pk, q, m)
  {
    if m > 0 { SameFilteredFields(t, u, pk, q, m - 1); }
  }

  lemma {:induction false} SameFilteredField(c: FieldTable, d: FieldTable, pk: seq<nat>, part: Part)
    requires SameFieldBelow(c, d, pk)
    ensures FilteredField(d, pk, part) == FilteredField(c, pk, part)
    decreases c, 0
  {
    SameFieldReads(c, d, pk);
    if c.ColT? {
      assert SameRow(c.rows, d.rows, pk);
    } else if part.OnChild? && !c.ManyT? {
      SameFiltered(c.child, d.child, pk, part.query);
    } else if part.OnChild? && pk != [] {
      SameChildKeys(c.child.keys, d.child.keys, pk, c.width);
      ChildKeysBelow(c.child.keys, pk, c.width);
      forall k | k in ChildKeys(c.child.keys, pk, c.width)
        ensures ComposeWithFilter(d.child, k, part.query) == ComposeWithFilter(c.child, k, part.query)
      {
        SameFurtherBelow(c.child, d.child, pk, k);
        SameFiltered(c.child, d.child, k, part.query);
      }
      SameMatching(c.child, d.child, ChildKeys(c.child.keys, pk, c.width), part.query);
    }
  }

  lemma {:induction false} SameMatching(t: Tables, u: Tables, pks: seq<seq<nat>>, q: Query)
    requires forall k :: k in pks ==> ComposeWithFilter(u, k, q) == ComposeWithFilter(t, k, q)
    ensures Matching(u, pks, q) == Matching(t, pks, q)
  {
    if pks != [] { SameMatching(t, u, pks[..|pks| - 1], q); }
  }
}
