/**
 The two-phase commit of a root entity: every other table commits by itself, and the table of the root's keys last.

 A stop between commits leaves some rows as they were before and some as they are after. Reads go by the root's key, so
 after a stopped store a root is there as a whole or not at all; a stopped delete can leave a root that reads only in
 part.
 */
module EntityCommit {
  import opened Wrappers
  import opened Pointers
  import opened EntityTree
  import opened EntityFilter
  import opened EntityDelete
  import Partitioning

  // ---- torn tables ------------------------------------------------------------------------------------------------

  /** Every key is as before or as after: a table has shards, and every shard commits by itself. */
  ghost predicate TornKeys(before: set<seq<nat>>, after: set<seq<nat>>, keys: set<seq<nat>>) {
    forall q :: (q in keys <==> q in before) || (q in keys <==> q in after)
  }

  ghost predicate TornRows(before: map<seq<nat>, int>, after: map<seq<nat>, int>, rows: map<seq<nat>, int>) {
    forall q :: SameRow(before, rows, q) || SameRow(after, rows, q)
  }

  ghost predicate Torn(before: Tables, after: Tables, t: Tables)
    decreases t
  {
    && TornKeys(before.keys, after.keys, t.keys)
    && |t.cols| == |before.cols| == |after.cols|
    && forall i :: 0 <= i < |t.cols| ==> TornField(before.cols[i], after.cols[i], t.cols[i])
  }

  ghost predicate TornField(before: FieldTable, after: FieldTable, c: FieldTable)
    decreases c
  {
    match c
    case ColT(rows) => before.ColT? && after.ColT? && TornRows(before.rows, after.rows, rows)
    case OneT(child) => before.OneT? && after.OneT? && Torn(before.child, after.child, child)
    case OptT(child) => before.OptT? && after.OptT? && Torn(before.child, after.child, child)
    case ManyT(width, child) =>
      before.ManyT? && after.ManyT? && before.width == after.width == width && Torn(before.child, after.child, child)
  }

  /** What a stop of a transaction on root entities leaves: until everything else is committed the root keys are as
      before. */
  ghost predicate Stopped(before: Tables, after: Tables, t: Tables) {
    Torn(before, after, t) && (t.keys == before.keys || t.cols == after.cols)
  }

  // ---- a stopped store --------------------------------------------------------------------------------------------

  lemma {:induction false} SameColumnsRead(t: Tables, u: Tables, pk: seq<nat>, m: nat)
    requires t.cols == u.cols && m <= |t.cols|
    ensures ReadFields(t, pk, m) == ReadFields(u, pk, m)
  {
    if m > 0 { SameColumnsRead(t, u, pk, m - 1); }
  }

  lemma {:induction false} SameColumnsFilter(t: Tables, u: Tables, pk: seq<nat>, q: Query, m: nat)
    requires t.cols == u.cols && m <= |t.cols|
    ensures FilteredFields(t, pk, q, m) == FilteredFields(u, pk, q, m)
  {
    if m > 0 { SameColumnsFilter(t, u, pk, q, m - 1); }
  }

  /** Both reads of a root are those of other tables. */
  ghost predicate ReadsLike(t: Tables, u: Tables, pk: seq<nat>) {
    Get(t, pk) == Get(u, pk) && forall q :: Filter(t, pk, q) == Filter(u, pk, q)
  }

  lemma SameColumns(t: Tables, u: Tables, pk: seq<nat>)
    requires t.cols == u.cols && pk in t.keys && pk in u.keys
    ensures ReadsLike(t, u, pk)
  {
    var m := |t.cols|;
    SameColumnsRead(t, u, pk, m);
    assert Compose(t, pk) == Compose(u, pk);
    forall q ensures Filter(t, pk, q) == Filter(u, pk, q) {
      SameColumnsFilter(t, u, pk, q, m);
      assert ComposeWithFilter(t, pk, q) == ComposeWithFilter(u, pk, q);
    }
  }

  /** A root that is new reads as before or as after, wherever the transaction stopped. */
  lemma NewRootReads(before: Tables, after: Tables, t: Tables, pk: seq<nat>)
    requires Stopped(before, after, t) && pk !in before.keys
    ensures ReadsLike(t, if pk in t.keys then after else before, pk)
  {
    if pk in t.keys {
      assert t.keys != before.keys && pk in after.keys;
      SameColumns(t, after, pk);
    }
  }

  /** Where before and after are the same, so is what is torn between them. */
  lemma {:induction false} TornSame(before: Tables, after: Tables, t: Tables, q: seq<nat>)
    requires Torn(before, after, t) && SameBelow(before, after, q)
    ensures SameBelow(before, t, q)
    decreases t
  {
    forall i | 0 <= i < |t.cols| ensures SameFieldBelow(before.cols[i], t.cols[i], q) {
      assert TornField(before.cols[i], after.cols[i], t.cols[i]) && SameFieldBelow(before.cols[i], after.cols[i], q);
      if t.cols[i].ColT? {
        TornSameRows(before.cols[i].rows, after.cols[i].rows, t.cols[i].rows, q);
      } else {
        TornSame(before.cols[i].child, after.cols[i].child, t.cols[i].child, q);
      }
    }
  }

  lemma TornSameRows(before: map<seq<nat>, int>, after: map<seq<nat>, int>, rows: map<seq<nat>, int>, q: seq<nat>)
    requires TornRows(before, after, rows) && forall k :: q <= k ==> SameRow(before, after, k)
    ensures forall k :: q <= k ==> SameRow(before, rows, k)
  {
    forall k | q <= k ensures SameRow(before, rows, k) {
      assert SameRow(before, rows, k) || SameRow(after, rows, k);
      assert SameRow(before, after, k);
    }
  }

  /** What the two-phase commit is for. Wherever a store of new roots stopped, each of them is absent or reads as a
      whole, and every entity that stands apart from them reads as before. */
  lemma {:induction false} StoppedStoreReads(t: Tables, es: seq<Entity>, stopped: Tables)
    requires Storable(t, es) && (forall e :: e in es ==> Clear(t, e.pk)) && Stopped(t, StoreAll(t, es), stopped)
    ensures forall e :: e in es ==>
              && Get(stopped, e.pk) == (if e.pk in stopped.keys then Ok(Some(Seen(t, e))) else Ok(None))
              && forall q :: Filter(stopped, e.pk, q)
                          == if e.pk in stopped.keys then Ok(FilterEntity(Seen(t, e), q)) else Ok(None)
    ensures forall p :: (forall e :: e in es ==> Apart(e.pk, p)) ==> ReadsLike(stopped, t, p)
  {
    var after := StoreAll(t, es);
    forall e | e in es
      ensures Get(stopped, e.pk) == if e.pk in stopped.keys then Ok(Some(Seen(t, e))) else Ok(None)
      ensures forall q :: Filter(stopped, e.pk, q)
                       == if e.pk in stopped.keys then Ok(FilterEntity(Seen(t, e), q)) else Ok(None)
    {
      assert Clear(t, e.pk) && e.pk <= e.pk;
      NewRootReads(t, after, stopped, e.pk);
      RoundTrip(t, es, e);
      forall q ensures Filter(after, e.pk, q) == Ok(FilterEntity(Seen(t, e), q)) {
        StoredThenFiltered(t, es, e, q);
      }
    }
    forall p | forall e :: e in es ==> Apart(e.pk, p) ensures ReadsLike(stopped, t, p) {
      StoreSameBelow(t, es, p);
      TornSame(t, after, stopped, p);
      SameReads(t, stopped, p);
      forall q ensures Filter(stopped, p, q) == Filter(t, p, q) { SameFiltered(t, stopped, p, q); }
    }
  }

  // ---- a stopped delete -------------------------------------------------------------------------------------------

  /** The tables hold nothing that the others do not hold. */
  ghost predicate PartOf(t: Tables, u: Tables)
    decreases t
  {
    && t.keys <= u.keys
    && |t.cols| == |u.cols| && forall i :: 0 <= i < |t.cols| ==> PartOfField(t.cols[i], u.cols[i])
  }

  ghost predicate PartOfField(c: FieldTable, d: FieldTable)
    decreases c
  {
    match c
    case ColT(rows) => d.ColT? && forall q :: q in rows ==> q in d.rows && rows[q] == d.rows[q]
    case OneT(child) => d.OneT? && PartOf(child, d.child)
    case OptT(child) => d.OptT? && PartOf(child, d.child)
    case ManyT(width, child) => d.ManyT? && d.width == width && PartOf(child, d.child)
  }

  lemma {:induction false} RemovedIsPart(keys: set<seq<nat>>, rows: map<seq<nat>, int>, pks: seq<seq<nat>>)
    ensures RemoveKeys(keys, pks).0 <= keys
    ensures PartOfField(ColT(RemoveRows(rows, pks).0), ColT(rows))
  {
    if pks != [] { RemovedIsPart(keys, rows, pks[..|pks| - 1]); }
  }

  /** A delete only takes away. */
  lemma {:induction false} DeletedIsPart(t: Tables, pks: seq<seq<nat>>)
    ensures PartOf(DeleteAll(t, pks).0, t)
    decreases t
  {
    RemovedIsPart(t.keys, map[], pks);
    var cols := DeleteFields(t, pks, |t.cols|).0;
    forall i | 0 <= i < |t.cols| ensures PartOfField(cols[i], t.cols[i]) {
      DeletedField(t, pks, |t.cols|, i);
      match t.cols[i]
      case ColT(rows) => RemovedIsPart({}, rows, pks);
      case OneT(child) => DeletedIsPart(child, pks);
      case OptT(child) => DeletedIsPart(child, pks);
      case ManyT(width, child) => DeletedIsPart(child, ChildPks(child.keys, pks, width));
    }
  }

  lemma {:induction false} TornIsPart(before: Tables, after: Tables, t: Tables)
    requires Torn(before, after, t) && PartOf(after, before)
    ensures PartOf(t, before)
    decreases t
  {
    forall i | 0 <= i < |t.cols| ensures PartOfField(t.cols[i], before.cols[i]) {
      assert TornField(before.cols[i], after.cols[i], t.cols[i]) && PartOfField(after.cols[i], before.cols[i]);
      if t.cols[i].ColT? {
        TornRowsArePart(before.cols[i].rows, after.cols[i].rows, t.cols[i].rows);
      } else {
        TornIsPart(before.cols[i].child, after.cols[i].child, t.cols[i].child);
      }
    }
  }

  lemma TornRowsArePart(before: map<seq<nat>, int>, after: map<seq<nat>, int>, rows: map<seq<nat>, int>)
    requires TornRows(before, after, rows) && PartOfField(ColT(after), ColT(before))
    ensures PartOfField(ColT(rows), ColT(before))
  {
    forall q | q in rows ensures q in before && rows[q] == before[q] {
      assert SameRow(before, rows, q) || SameRow(after, rows, q);
    }
  }

  /** Every row and key of the entity is there. */
  ghost predicate Whole(t: Tables, x: Entity)
    decreases t
  {
    |x.values| == |t.cols| && forall i :: 0 <= i < |t.cols| ==> WholeField(t.cols[i], x.values[i], x.pk)
  }

  ghost predicate WholeField(c: FieldTable, v: Value, pk: seq<nat>)
    decreases c
  {
    match c
    case ColT(rows) => pk in rows
    case OneT(child) => v.OneV? && pk in child.keys && Whole(child, v.one)
    case OptT(child) => v.OptV? && (v.opt.Some? ==> pk in child.keys && Whole(child, v.opt.value))
    case ManyT(_, child) => v.ManyV? && forall x :: x in v.many ==> x.pk in child.keys && Whole(child, x)
  }

  lemma {:induction false} ReadFieldsAt(t: Tables, pk: seq<nat>, m: nat, i: nat)
    requires i < m <= |t.cols| && ReadFields(t, pk, m).Ok?
    ensures ReadField(t.cols[i], pk) == Ok(ReadFields(t, pk, m).value[i])
  {
    if i < m - 1 { ReadFieldsAt(t, pk, m - 1, i); }
  }

  lemma {:induction false} ComposedFields(t: Tables, x: Entity)
    requires |x.values| == |t.cols|
    ensures Compose(t, x.pk) == Ok(x)
       <==> forall i :: 0 <= i < |t.cols| ==> ReadField(t.cols[i], x.pk) == Ok(x.values[i])
  {
    if Compose(t, x.pk) == Ok(x) {
      forall i | 0 <= i < |t.cols| ensures ReadField(t.cols[i], x.pk) == Ok(x.values[i]) {
        ReadFieldsAt(t, x.pk, |t.cols|, i);
      }
    } else if forall i :: 0 <= i < |t.cols| ==> ReadField(t.cols[i], x.pk) == Ok(x.values[i]) {
      ComposeIs(t, x);
    }
  }

  /** Of tables that hold only part of what others hold, an entity of the others is read exactly if none of it is
      missing. */
  lemma {:induction false} PartReadsExactly(t: Tables, u: Tables, x: Entity)
    requires PartOf(t, u) && Compose(u, x.pk) == Ok(x)
    ensures Compose(t, x.pk) == Ok(x) <==> Whole(t, x)
    decreases t, 2
  {
    ComposedFields(u, x);
    ComposedFields(t, x);
    forall i | 0 <= i < |t.cols|
      ensures ReadField(t.cols[i], x.pk) == Ok(x.values[i]) <==> WholeField(t.cols[i], x.values[i], x.pk)
    {
      PartFieldReads(t.cols[i], u.cols[i], x.values[i], x.pk);
    }
  }

  lemma {:induction false} GotIsComposed(t: Tables, pk: seq<nat>, x: Entity)
    requires Get(t, pk) == Ok(Some(x))
    ensures x.pk == pk && Compose(t, pk) == Ok(x)
  {
  }

  lemma {:induction false} PartFieldReads(c: FieldTable, d: FieldTable, v: Value, pk: seq<nat>)
    requires PartOfField(c, d) && ReadField(d, pk) == Ok(v)
    ensures ReadField(c, pk) == Ok(v) <==> WholeField(c, v, pk)
    decreases c, 1
  {
    match c
    case ColT(_) =>
    case OneT(child) =>
      GotIsComposed(d.child, pk, v.one);
      PartReadsExactly(child, d.child, v.one);
    case OptT(child) =>
      if v.opt.Some? {
        GotIsComposed(d.child, pk, v.opt.value);
        PartReadsExactly(child, d.child, v.opt.value);
      }
    case ManyT(width, child) => PartListReads(child, d.child, v.many, pk, width);
  }

  lemma {:induction false} EachExactly(t: Tables, pks: seq<seq<nat>>, xs: seq<Entity>)
    ensures ComposeEach(t, pks) == Ok(xs)
       <==> |pks| == |xs| && forall k :: 0 <= k < |xs| ==> pks[k] == xs[k].pk && Compose(t, xs[k].pk) == Ok(xs[k])
    decreases |pks|
  {
    if pks != [] {
      var m := |pks| - 1;
      if |xs| == |pks| {
        EachExactly(t, pks[..m], xs[..m]);
        assert xs == xs[..m] + [xs[m]];
      }
      if ComposeEach(t, pks).Ok? {
        var out := ComposeEach(t, pks).value;
        assert out == out[..m] + [out[m]];
        EachExactly(t, pks[..m], out[..m]);
      }
    }
  }

  lemma {:induction false} PartListReads(t: Tables, u: Tables, xs: seq<Entity>, pk: seq<nat>, width: nat)
    requires PartOf(t, u) && pk != [] && ComposeEach(u, ChildKeys(u.keys, pk, width)) == Ok(xs)
    ensures ComposeEach(t, ChildKeys(t.keys, pk, width)) == Ok(xs)
       <==> forall x :: x in xs ==> x.pk in t.keys && Whole(t, x)
    decreases t, 3
  {
    var list, all := ChildKeys(t.keys, pk, width), ChildKeys(u.keys, pk, width);
    EachExactly(u, all, xs);
    EachExactly(t, list, xs);
    forall x | x in xs ensures Compose(t, x.pk) == Ok(x) <==> Whole(t, x) {
      PartReadsExactly(t, u, x);
    }
    if ComposeEach(t, list) == Ok(xs) {
      ListedKeys(t.keys, pk, width, xs);
    } else if forall x :: x in xs ==> x.pk in t.keys {
      SameList(t.keys, u.keys, pk, width, xs);
    }
  }

  lemma ListedKeys(keys: set<seq<nat>>, pk: seq<nat>, width: nat, xs: seq<Entity>)
    requires pk != [] && PksOf(xs) == ChildKeys(keys, pk, width)
    ensures forall x :: x in xs ==> x.pk in keys
  {
    ChildKeysBelow(keys, pk, width);
    forall x | x in xs ensures x.pk in keys {
      var k :| 0 <= k < |xs| && xs[k] == x;
      assert PksOf(xs)[k] in PksOf(xs);
    }
  }

  lemma SameList(keys: set<seq<nat>>, more: set<seq<nat>>, pk: seq<nat>, width: nat, xs: seq<Entity>)
    requires pk != [] && keys <= more && PksOf(xs) == ChildKeys(more, pk, width)
    requires forall x :: x in xs ==> x.pk in keys
    ensures ChildKeys(keys, pk, width) == ChildKeys(more, pk, width)
  {
    var all := ChildKeys(more, pk, width);
    ChildKeysBelow(more, pk, width);
    ChildKeysBelow(keys, pk, width);
    forall q | q in all ensures q in keys {
      var k :| 0 <= k < |all| && all[k] == q;
      assert xs[k] in xs;
    }
    if HasNext(pk, width) {
      ChildKeysAre(keys, pk, width, all);
    } else {
      NoMembers(all);
      NoMembers(ChildKeys(keys, pk, width));
    }
  }

  /** Wherever a delete stopped: a root is still read as it was exactly if its key and everything of it is still
      there. */
  lemma {:induction false} StoppedDeleteReads(t: Tables, pks: seq<seq<nat>>, stopped: Tables, x: Entity)
    requires Stopped(t, DeleteAll(t, pks).0, stopped) && Get(t, x.pk) == Ok(Some(x))
    ensures Get(stopped, x.pk) == Ok(Some(x)) <==> x.pk in stopped.keys && Whole(stopped, x)
  {
    DeletedIsPart(t, pks);
    TornIsPart(t, DeleteAll(t, pks).0, stopped);
    PartReadsExactly(stopped, t, x);
  }

  // ---- a root that reads in part ----------------------------------------------------------------------------------

  /** The tables of an entity with a list of children that have one column each. */
  function ListTables(keys: set<seq<nat>>, childKeys: set<seq<nat>>, rows: map<seq<nat>, int>): Tables {
    Tables(keys, [ManyT(4, Tables(childKeys, [ColT(rows)]))])
  }

  lemma StoredList(x: Entity, e: Entity)
    requires x == Entity([1, 0], [ColV(7)]) && e == Entity([1], [ManyV([x])])
    ensures StoreAll(ListTables({}, {}, map[]), [e]) == ListTables({[1]}, {[1, 0]}, map[[1, 0] := 7])
  {
    KidsOne(e, 0);
    StoreRowsOne(map[], x, 0);
    assert KeysOf([e]) == {[1]} && KeysOf([x]) == {[1, 0]};
    assert StoreAll(Tables({}, [ColT(map[])]), [x]) == Tables({[1, 0]}, [ColT(map[[1, 0] := 7])]);
  }

  /** A delete that stopped after the child's column was committed, and before its keys were. */
  lemma StoppedBetweenCommits(x: Entity, e: Entity)
    requires x == Entity([1, 0], [ColV(7)]) && e == Entity([1], [ManyV([x])])
    ensures var before := StoreAll(ListTables({}, {}, map[]), [e]);
            Stopped(before, DeleteAll(before, [e.pk]).0, ListTables({[1]}, {[1, 0]}, map[]))
  {
    var none, before := ListTables({}, {}, map[]), ListTables({[1]}, {[1, 0]}, map[[1, 0] := 7]);
    StoredList(x, e);
    ListStorable(none, x, e);
    StoreThenDelete(none, e);
    var rows: map<seq<nat>, int> := map[[1, 0] := 7];
    assert Torn(Tables({[1, 0]}, [ColT(rows)]), Tables({}, [ColT(map[])]), Tables({[1, 0]}, [ColT(map[])]));
  }

  lemma {:induction false} ListStorable(none: Tables, x: Entity, e: Entity)
    requires none == ListTables({}, {}, map[])
    requires x == Entity([1, 0], [ColV(7)]) && e == Entity([1], [ManyV([x])])
    ensures Fits(none, e) && WellFormed(e) && Clear(none, e.pk) && InLimits(none, e)
  {
    SomeLimit();
  }

  /** What does not read as a whole may still read through a query: in tables that a stopped delete leaves, a broken
      child of a queried list counts as one that does not match. */
  lemma {:induction false} BrokenChildLeftOut(x: Entity, e: Entity, q: Query)
    requires x == Entity([1, 0], [ColV(7)]) && e == Entity([1], [ManyV([x])]) && q == Query([OnChild(Query([]))])
    ensures var before, torn := StoreAll(ListTables({}, {}, map[]), [e]), ListTables({[1]}, {[1, 0]}, map[]);
            && Stopped(before, DeleteAll(before, [e.pk]).0, torn)
            && Get(torn, e.pk) == Err(NotFound([0, 0], x.pk))
            && Filter(torn, e.pk, q) == Ok(None) && !Agrees(torn, e.pk, q)
  {
    var torn := ListTables({[1]}, {[1, 0]}, map[]);
    StoppedBetweenCommits(x, e);
    TornListField(torn.cols[0], e.pk, x.pk);
    TornReads(torn, e.pk, x.pk, q);
    FilteredReadAgrees(torn, e.pk, q);
  }

  lemma {:induction false} TornReads(t: Tables, p: seq<nat>, k: seq<nat>, q: Query)
    requires |t.cols| == 1 && q == Query([OnChild(Query([]))])
    requires ReadField(t.cols[0], p) == Err(NotFound([0], k))
             && FilteredField(t.cols[0], p, OnChild(Query([]))) == Ok(None)
    ensures Compose(t, p) == Err(NotFound([0, 0], k)) && ComposeWithFilter(t, p, q) == Ok(None)
  {
    assert InField(0, NotFound([0], k)) == NotFound([0, 0], k) by { assert [0] + [0] == [0, 0]; }
    assert ReadFields(t, p, 0) == Ok([]) && ReadFields(t, p, 1) == Err(InField(0, NotFound([0], k)));
    assert FilteredFields(t, p, q, 0) == Ok(Some([])) && FilteredFields(t, p, q, 1) == Ok(None);
  }

  lemma {:induction false} TornListField(c: FieldTable, p: seq<nat>, k: seq<nat>)
    requires c == ManyT(4, Tables({k}, [ColT(map[])])) && p == [1] && k == [1, 0]
    ensures ReadField(c, p) == Err(NotFound([0], k)) && FilteredField(c, p, OnChild(Query([]))) == Ok(None)
  {
    var list := [k];
    assert forall x :: x in list <==> x == k;
    assert HasNext(p, 4) by { SomeLimit(); }
    ChildKeysAre({k}, p, 4, list);
    TornChild(c.child, list, k, Query([]));
  }

  lemma {:induction false} TornChild(child: Tables, list: seq<seq<nat>>, k: seq<nat>, q: Query)
    requires child == Tables({k}, [ColT(map[])]) && list == [k] && q == Query([])
    ensures ComposeEach(child, list) == Err(NotFound([0], k)) && Matching(child, list, q) == []
  {
    var e := NotFound([], k);
    assert InField(0, e) == NotFound([0], k) by { assert [0] + e.path == [0]; }
    assert list[..0] == [];
    assert ReadFields(child, k, 0) == Ok([]) && ReadFields(child, k, 1) == Err(InField(0, e));
    assert FilteredFields(child, k, q, 0) == Ok(Some([])) && FilteredFields(child, k, q, 1) == Err(InField(0, e));
  }

  lemma SomeLimit()
    ensures Limit(4) == 0x1_0000_0000
  {
    assert Partitioning.Pow256(1) == 256 && Partitioning.Pow256(2) == 65536;
  }
}
