/**
 An index that is split over shards by value, against one unsplit index table.

 Keys and values have fixed width, so both are integers here; `vp` is any value partitioner.
 */
module IndexShards {
  import opened Wrappers
  import opened Basics

  /** The rows of an index table: the value of each key, and the keys of each value. */
  datatype Table = Table(byPk: map<int, int>, byIndex: set<(int, int)>)

  const EMPTY := Table(map[], {})

  function InsertRow(t: Table, k: int, v: int): Table {
    Table(t.byPk[k := v], t.byIndex + {(v, k)})
  }

  /** Deleting a key drops its value row and that value's key row; the flag is whether the key row existed. */
  function DeleteRow(t: Table, k: int): (Table, bool) {
    if k in t.byPk then
      var v := t.byPk[k];
      (Table(t.byPk - {k}, t.byIndex - {(v, k)}), (v, k) in t.byIndex)
    else (t, false)
  }

  // ---- what inserting and deleting mean, row by row -------------------------------------------------------

  /** Key `k` has value `v`, and nothing else has changed; the key rows of earlier values stay. */
  ghost predicate Inserted(before: Table, after: Table, k: int, v: int) {
    && k in after.byPk && after.byPk[k] == v
    && (forall j :: j != k ==> (j in after.byPk <==> j in before.byPk))
    && (forall j :: j != k && j in before.byPk && j in after.byPk ==> after.byPk[j] == before.byPk[j])
    && (forall j, w :: (w, j) in after.byIndex <==> (w, j) in before.byIndex || (j == k && w == v))
  }

  /** Key `k` has no value, the row of `k` for the value it had is gone, and nothing else has changed. */
  ghost predicate Deleted(before: Table, after: Table, k: int) {
    && k !in after.byPk
    && (forall j :: j != k ==> (j in after.byPk <==> j in before.byPk))
    && (forall j :: j != k && j in before.byPk && j in after.byPk ==> after.byPk[j] == before.byPk[j])
    && (forall j, w :: (w, j) in after.byIndex
                       <==> (w, j) in before.byIndex && !(j == k && k in before.byPk && before.byPk[k] == w))
  }

  lemma RowsInserted(t: Table, k: int, v: int)
    ensures Inserted(t, InsertRow(t, k, v), k, v)
  {
  }

  lemma RowsDeleted(t: Table, k: int)
    ensures Deleted(t, DeleteRow(t, k).0, k)
    ensures DeleteRow(t, k).1 <==> k in t.byPk && (t.byPk[k], k) in t.byIndex
  {
  }

  lemma SameTable(t: Table, u: Table)
    requires forall j :: j in u.byPk <==> j in t.byPk
    requires forall j :: j in t.byPk && j in u.byPk ==> u.byPk[j] == t.byPk[j]
    requires forall j, w :: (w, j) in u.byIndex <==> (w, j) in t.byIndex
    ensures u == t
  {
    assert u.byPk.Keys == t.byPk.Keys by {
      forall j ensures j in u.byPk.Keys <==> j in t.byPk.Keys { assert j in u.byPk <==> j in t.byPk; }
    }
    assert forall j :: j in t.byPk.Keys ==> u.byPk[j] == t.byPk[j];
    assert u.byPk == t.byPk;
    forall p: (int, int) ensures p in u.byIndex <==> p in t.byIndex {
      var (w, j) := p;
      assert (w, j) in u.byIndex <==> (w, j) in t.byIndex;
    }
  }

  /** A new key that is inserted and deleted leaves no trace. */
  lemma DeletedAfterInserted(before: Table, between: Table, after: Table, k: int, v: int)
    requires Inserted(before, between, k, v) && Deleted(between, after, k)
    requires k !in before.byPk && (v, k) !in before.byIndex
    ensures after == before
  {
    SameTable(before, after);
  }

  function KeysOf(t: Table, v: int): set<int> {
    set p | p in t.byIndex && p.0 == v :: p.1
  }

  /** The first key stored for a value. */
  ghost function Lookup(t: Table, v: int): (r: Option<int>)
    ensures r.None? <==> forall k :: (v, k) !in t.byIndex
    ensures r.Some? ==> IsLeast(r.value, KeysOf(t, v))
  {
    var ks := KeysOf(t, v);
    assert forall k :: (v, k) in t.byIndex ==> k in ks;
    if ks == {} then None
    else
      LeastExists(ks);
      var k :| IsLeast(k, ks);
      Some(k)
  }

  // ---- splitting a table ------------------------------------------------------------------------------

  /** The rows of `whole` that live on shard `sid`. */
  ghost function Part(whole: Table, vp: int -> nat, sid: nat): Table {
    Table(map k | k in whole.byPk && vp(whole.byPk[k]) == sid :: whole.byPk[k],
          set p | p in whole.byIndex && vp(p.0) == sid)
  }

  ghost function Split(whole: Table, vp: int -> nat, n: nat): (parts: seq<Table>)
    ensures |parts| == n && forall sid :: 0 <= sid < n ==> parts[sid] == Part(whole, vp, sid)
  {
    seq(n, sid requires 0 <= sid < n => Part(whole, vp, sid))
  }

  ghost predicate Within(vp: int -> nat, n: nat) {
    forall v :: vp(v) < n
  }

  /** Inserting on the value's shard is inserting in the whole exactly when the key is new or stays on its shard. */
  lemma InsertRefines(whole: Table, vp: int -> nat, n: nat, k: int, v: int)
    requires Within(vp, n)
    ensures var sid := vp(v);
            Split(InsertRow(whole, k, v), vp, n)
            == Split(whole, vp, n)[sid := InsertRow(Split(whole, vp, n)[sid], k, v)]
            <==> (k in whole.byPk ==> vp(whole.byPk[k]) == sid)
  {
    var sid, after := vp(v), InsertRow(whole, k, v);
    assert sid < n;
    var sharded := Split(whole, vp, n)[sid := InsertRow(Split(whole, vp, n)[sid], k, v)];
    if k in whole.byPk && vp(whole.byPk[k]) != sid {
      var u := whole.byPk[k];
      var home := vp(u);
      assert home < n && sharded[home] == Part(whole, vp, home);
      assert k in sharded[home].byPk;
      assert k !in Part(after, vp, home).byPk;
    } else {
      InsertAtHome(whole, vp, k, v);
      forall s | 0 <= s < n && s != sid ensures Part(after, vp, s) == Part(whole, vp, s) {
      }
    }
  }

  lemma InsertAtHome(whole: Table, vp: int -> nat, k: int, v: int)
    ensures Part(InsertRow(whole, k, v), vp, vp(v)) == InsertRow(Part(whole, vp, vp(v)), k, v)
  {
  }

  /** A value's shard answers for the value what the whole table answers. */
  lemma LookupRefines(whole: Table, vp: int -> nat, v: int)
    ensures Lookup(Part(whole, vp, vp(v)), v) == Lookup(whole, v)
  {
    var own := Part(whole, vp, vp(v));
    assert KeysOf(own, v) == KeysOf(whole, v);
  }

  /** Deleting a key leaves every shard but the one of its value as it was. */
  lemma DeleteElsewhere(whole: Table, vp: int -> nat, k: int, sid: nat)
    requires k in whole.byPk ==> vp(whole.byPk[k]) != sid
    ensures DeleteRow(Part(whole, vp, sid), k) == (Part(whole, vp, sid), false)
    ensures Part(DeleteRow(whole, k).0, vp, sid) == Part(whole, vp, sid)
  {
  }

  lemma DeleteAtHome(whole: Table, vp: int -> nat, k: int)
    requires k in whole.byPk
    ensures var sid := vp(whole.byPk[k]);
            DeleteRow(Part(whole, vp, sid), k) == (Part(DeleteRow(whole, k).0, vp, sid), DeleteRow(whole, k).1)
  {
    var v := whole.byPk[k];
    var sid := vp(v);
    assert DeleteRow(Part(whole, vp, sid), k).0 == Part(DeleteRow(whole, k).0, vp, sid);
  }

  // ---- the sharded index --------------------------------------------------------------------------------

  /** The index as its synchronous callers see it: every shard has worked off what it was sent. */
  class ShardedIndex {
    const vp: int -> nat
    var tables: seq<Table>

    ghost predicate Holds(whole: Table)
      reads this
    {
      |tables| > 0 && Within(vp, |tables|) && tables == Split(whole, vp, |tables|)
    }

    constructor (vp: int -> nat, shards: nat)
      requires shards > 0 && Within(vp, shards)
      ensures Holds(EMPTY) && |tables| == shards
    {
      this.vp := vp;
      tables := seq(shards, _ => EMPTY);
      assert forall sid :: Part(EMPTY, vp, sid) == EMPTY;
    }

    /** Inserts on the value's shard. With `whole` for the ghost unsplit table: that is inserting in the whole
        exactly when the key is new or stays on its shard; a key that moves leaves its old rows behind. */
    method InsertNow(k: int, v: int, ghost whole: Table)
      requires Holds(whole)
      modifies this
      ensures tables == old(tables)[vp(v) := InsertRow(old(tables)[vp(v)], k, v)]
      ensures Inserted(old(tables)[vp(v)], tables[vp(v)], k, v)
      ensures Holds(InsertRow(whole, k, v)) <==> (k in whole.byPk ==> vp(whole.byPk[k]) == vp(v))
    {
      InsertRefines(whole, vp, |tables|, k, v);
      var sid := if |tables| == 1 then 0 else vp(v);
      RowsInserted(tables[sid], k, v);
      tables := tables[sid := InsertRow(tables[sid], k, v)];
    }

    /** Asks shard after shard and stops at the first that removed the key. Also for shards that hold no one table: the
        shards that were asked have dropped the key, the others are as before, and the answer is whether the last one
        asked had the key's value and its key row. */
    method DeleteKv(k: int, ghost whole: Table) returns (removed: bool, ghost asked: nat)
      modifies this
      ensures |tables| == |old(tables)| && asked <= |tables|
      ensures forall s :: 0 <= s < asked ==> Deleted(old(tables)[s], tables[s], k)
      ensures forall s :: asked <= s < |tables| ==> tables[s] == old(tables)[s]
      ensures forall s :: 0 <= s < asked - (if removed then 1 else 0) ==> !Removable(old(tables)[s], k)
      ensures if removed then asked > 0 && Removable(old(tables)[asked - 1], k) else asked == |tables|
      ensures removed <==> exists s :: 0 <= s < |tables| && Removable(old(tables)[s], k)
      ensures old(Holds(whole)) ==>
                && Holds(DeleteRow(whole, k).0) && removed == DeleteRow(whole, k).1
                && forall s :: 0 <= s < |tables| ==> Deleted(old(tables)[s], tables[s], k)
    {
      ghost var before, held := tables, Holds(whole);
      for sid := 0 to |tables|
        invariant |tables| == |before|
        invariant forall s :: 0 <= s < sid ==> tables[s] == DeleteRow(before[s], k).0 && !Removable(before[s], k)
        invariant forall s :: sid <= s < |tables| ==> tables[s] == before[s]
      {
        RowsDeleted(tables[sid], k);
        var (table, gone) := DeleteRow(tables[sid], k);
        tables := tables[sid := table];
        if gone {
          AllDropped(before, tables, k, sid + 1);
          if held { HeldDeleted(before, tables, whole, vp, k, sid + 1, true); }
          return true, sid + 1;
        }
      }
      AllDropped(before, tables, k, |tables|);
      if held { HeldDeleted(before, tables, whole, vp, k, |tables|, false); }
      removed, asked := false, |tables|;
    }
  }

  /** The key has a value and the row of that value. */
  ghost predicate Removable(t: Table, k: int) {
    k in t.byPk && (t.byPk[k], k) in t.byIndex
  }

  lemma AllDropped(before: seq<Table>, after: seq<Table>, k: int, asked: nat)
    requires asked <= |before| == |after|
    requires forall s :: 0 <= s < asked ==> after[s] == DeleteRow(before[s], k).0
    ensures forall s :: 0 <= s < asked ==> Deleted(before[s], after[s], k)
  {
    forall s | 0 <= s < asked ensures Deleted(before[s], after[s], k) {
      RowsDeleted(before[s], k);
    }
  }

  /** If the shards hold one table, the key is on one shard at most: nothing is left of it on those not asked. */
  lemma HeldDeleted(before: seq<Table>, after: seq<Table>, whole: Table, vp: int -> nat, k: int, asked: nat,
                    removed: bool)
    requires |before| > 0 && Within(vp, |before|) && before == Split(whole, vp, |before|)
    requires asked <= |before| == |after|
    requires forall s :: 0 <= s < asked ==> after[s] == DeleteRow(before[s], k).0
    requires forall s :: asked <= s < |after| ==> after[s] == before[s]
    requires forall s :: 0 <= s < asked - (if removed then 1 else 0) ==> !Removable(before[s], k)
    requires if removed then asked > 0 && Removable(before[asked - 1], k) else asked == |after|
    ensures after == Split(DeleteRow(whole, k).0, vp, |after|) && removed == DeleteRow(whole, k).1
    ensures forall s :: 0 <= s < |after| ==> Deleted(before[s], after[s], k)
  {
    var there := DeleteRow(whole, k).0;
    if removed { assert k in whole.byPk && vp(whole.byPk[k]) == asked - 1; }
    forall s | 0 <= s < |after| ensures after[s] == Part(there, vp, s) && Deleted(before[s], after[s], k) {
      if k in whole.byPk && vp(whole.byPk[k]) == s {
        DeleteAtHome(whole, vp, k);
      } else {
        DeleteElsewhere(whole, vp, k, s);
      }
      RowsDeleted(before[s], k);
    }
    if k in whole.byPk {
      var home := vp(whole.byPk[k]);
      assert home < |before|;
      DeleteAtHome(whole, vp, k);
      RowsDeleted(before[home], k);
    }
  }

  /** Inserting a new key and deleting it restores every shard. */
  method InsertThenDelete(index: ShardedIndex, k: int, v: int, ghost whole: Table) returns (removed: bool)
    requires index.Holds(whole) && k !in whole.byPk && (v, k) !in whole.byIndex
    modifies index
    ensures removed && index.tables == old(index.tables)
  {
    ghost var before := index.tables;
    index.InsertNow(k, v, whole);
    ghost var between := index.tables;
    ghost var asked;
    removed, asked := index.DeleteKv(k, InsertRow(whole, k, v));
    forall s | 0 <= s < |before| ensures index.tables[s] == before[s] {
      if s == index.vp(v) {
        DeletedAfterInserted(before[s], between[s], index.tables[s], k, v);
      } else {
        NothingDeleted(before[s], index.tables[s], k);
      }
    }
  }

  lemma NothingDeleted(before: Table, after: Table, k: int)
    requires Deleted(before, after, k) && k !in before.byPk
    ensures after == before
  {
    SameTable(before, after);
  }
}
