/**
 The cache of recent keys in front of an index table: for a value it remembers the key that was inserted last, and it
 may forget any value at any time.
 */
module IndexCache {
  import opened Wrappers
  import opened IndexShards

  datatype Cached = Cached(table: Table, recent: map<int, int>)

  datatype Op = Insert(k: int, v: int) | Delete(k: int) | Forget(v: int)

  /** Inserting remembers the key for the value; deleting forgets the value if its row was there. */
  function Step(c: Cached, op: Op): Cached {
    match op
    case Insert(k, v) => Cached(InsertRow(c.table, k, v), c.recent[v := k])
    case Delete(k) =>
      var (table, removed) := DeleteRow(c.table, k);
      Cached(table, if removed then c.recent - {c.table.byPk[k]} else c.recent)
    case Forget(v) => c.(recent := c.recent - {v})
  }

  function Run(ops: seq<Op>): Cached {
    if ops == [] then Cached(EMPTY, map[]) else Step(Run(ops[..|ops| - 1]), ops[|ops| - 1])
  }

  /** The remembered key, or else the first key stored for the value. */
  ghost function AnyKey(c: Cached, v: int): Option<int> {
    if v in c.recent then Some(c.recent[v]) else Lookup(c.table, v)
  }

  /** Every remembered key is stored for its value. */
  ghost predicate Sound(c: Cached) {
    forall v :: v in c.recent ==> (v, c.recent[v]) in c.table.byIndex
  }

  /** Whatever is inserted, deleted and forgotten, no remembered key is stale. */
  lemma {:induction false} NeverStale(ops: seq<Op>)
    ensures Sound(Run(ops))
  {
    if ops != [] {
      var before, op := Run(ops[..|ops| - 1]), ops[|ops| - 1];
      NeverStale(ops[..|ops| - 1]);
      StepSound(before, op);
    }
  }

  /** What is found after each operation: an inserted key at once, whatever was stored before; after a deletion that
      found its row, and after forgetting, the first stored key; other values as before. */
  lemma FoundAfter(c: Cached, op: Op, v: int)
    ensures var after := Step(c, op);
            match op
            case Insert(k, w) => AnyKey(after, v) == if v == w then Some(k) else AnyKey(c, v)
            case Delete(k) =>
              var removed := k in c.table.byPk && c.table.byPk[k] == v && (v, k) in c.table.byIndex;
              AnyKey(after, v) == if removed then Lookup(after.table, v) else AnyKey(c, v)
            case Forget(w) => AnyKey(after, v) == if v == w then Lookup(c.table, v) else AnyKey(c, v)
  {
    SameRowsFound(c.table, Step(c, op).table, v);
  }

  lemma SameRowsFound(t: Table, u: Table, v: int)
    ensures (forall k :: (v, k) in u.byIndex <==> (v, k) in t.byIndex) ==> Lookup(u, v) == Lookup(t, v)
  {
    if forall k :: (v, k) in u.byIndex <==> (v, k) in t.byIndex {
      forall k ensures k in KeysOf(u, v) <==> k in KeysOf(t, v) {
        assert (v, k) in u.byIndex <==> (v, k) in t.byIndex;
      }
      assert KeysOf(u, v) == KeysOf(t, v);
    }
  }

  lemma StepSound(c: Cached, op: Op)
    requires Sound(c)
    ensures Sound(Step(c, op))
  {
    var after := Step(c, op);
    forall v | v in after.recent ensures (v, after.recent[v]) in after.table.byIndex {
      if !(op.Insert? && op.v == v) { assert (v, c.recent[v]) in c.table.byIndex; }
    }
  }

  ghost predicate OneKey(t: Table, v: int) {
    forall k, l :: (v, k) in t.byIndex && (v, l) in t.byIndex ==> k == l
  }

  /** A sound cache finds a value exactly if the table has it, and finds one of its keys. It finds the same key as
      the table whatever it remembers exactly if the value has one key at most. */
  lemma AnyKeyExactly(t: Table, v: int)
    ensures forall recent :: Sound(Cached(t, recent)) ==>
              && (AnyKey(Cached(t, recent), v).Some? <==> Lookup(t, v).Some?)
              && (AnyKey(Cached(t, recent), v).Some? ==> (v, AnyKey(Cached(t, recent), v).value) in t.byIndex)
    ensures (forall recent :: Sound(Cached(t, recent)) ==> AnyKey(Cached(t, recent), v) == Lookup(t, v))
            <==> OneKey(t, v)
  {
    forall recent | Sound(Cached(t, recent))
      ensures AnyKey(Cached(t, recent), v).Some? <==> Lookup(t, v).Some?
      ensures AnyKey(Cached(t, recent), v).Some? ==> (v, AnyKey(Cached(t, recent), v).value) in t.byIndex
      ensures OneKey(t, v) ==> AnyKey(Cached(t, recent), v) == Lookup(t, v)
    {
      AnyKeyStored(t, recent, v);
    }
    if !OneKey(t, v) {
      var k, l :| (v, k) in t.byIndex && (v, l) in t.byIndex && k != l;
      var other := if Lookup(t, v) == Some(k) then l else k;
      assert Sound(Cached(t, map[v := other]));
      assert AnyKey(Cached(t, map[v := other]), v) == Some(other) != Lookup(t, v);
    }
  }

  lemma AnyKeyStored(t: Table, recent: map<int, int>, v: int)
    requires Sound(Cached(t, recent))
    ensures AnyKey(Cached(t, recent), v).Some? <==> Lookup(t, v).Some?
    ensures AnyKey(Cached(t, recent), v).Some? ==> (v, AnyKey(Cached(t, recent), v).value) in t.byIndex
    ensures OneKey(t, v) ==> AnyKey(Cached(t, recent), v) == Lookup(t, v)
  {
    LookupStored(t, v);
    if v in recent { StoredIsFound(t, v, recent[v]); }
  }

  lemma StoredIsFound(t: Table, v: int, k: int)
    requires (v, k) in t.byIndex
    ensures Lookup(t, v).Some?
  {
  }

  lemma LookupStored(t: Table, v: int)
    ensures Lookup(t, v).Some? ==> (v, Lookup(t, v).value) in t.byIndex
  {
    if Lookup(t, v).Some? { assert Lookup(t, v).value in KeysOf(t, v); }
  }
}
