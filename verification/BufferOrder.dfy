/**
 The order in which a drain visits the levels, and exactly when the drain is the stable sort of what was pushed.
 */
module BufferOrder {
  import opened Wrappers
  import opened Basics
  import opened Runs
  import opened BufferLevels
  import opened BufferDrain
  import opened BufferHistory

  // ---- keys that are pushed once --------------------------------------------------------------------------------

  /** The number of levels that store a key. */
  ghost function Holders<V>(k: int, levels: Levels<V>): nat {
    if levels == [] then 0
    else Holders(k, levels[1..]) + (if levels[0].Some? && Has(k, levels[0].value) then 1 else 0)
  }

  lemma HasConcat<V>(k: int, a: Run<V>, b: Run<V>)
    ensures Has(k, a + b) <==> Has(k, a) || Has(k, b)
  {
    if i :| 0 <= i < |a| && a[i].key == k { assert (a + b)[i].key == k; }
    if i :| 0 <= i < |b| && b[i].key == k { assert (a + b)[|a| + i].key == k; }
  }

  lemma {:induction false} HasMerged<V>(k: int, a: Run<V>, b: Run<V>)
    requires Sorted(a) && Sorted(b)
    ensures Has(k, Merge(a, b)) <==> Has(k, a) || Has(k, b)
  {
    MergeStable(a, b);
    assert multiset(a + b) == multiset(a) + multiset(b);
    HasOfMultiset(k, Merge(a, b), a + b);
    HasConcat(k, a, b);
  }

  lemma {:induction false} HoldersBottom<V>(k: int, slot: Option<Run<V>>, tail: Levels<V>)
    ensures Holders(k, [slot] + tail) == Holders(k, tail) + (if slot.Some? && Has(k, slot.value) then 1 else 0)
  {
    assert ([slot] + tail)[1..] == tail;
  }

  /** A pushed run brings its keys to at most one more level. */
  lemma {:induction false} CarryHolders<V>(k: int, levels: Levels<V>, run: Run<V>, base: nat)
    requires Balanced(levels, base) && GoodRun(run)
    ensures Holders(k, Carry(levels, run)) <= Holders(k, levels) + (if Has(k, run) then 1 else 0)
    decreases |levels|
  {
    if levels == [] {
      HoldersBottom(k, Some(run), []);
    } else if levels[0].None? {
      HoldersBottom(k, Some(run), levels[1..]);
    } else {
      var existing, tail := levels[0].value, levels[1..];
      if Last(existing) <= First(run) {
        HasConcat(k, existing, run);
        HoldersBottom(k, Some(existing + run), tail);
      } else if Last(run) < First(existing) {
        HasConcat(k, run, existing);
        HoldersBottom(k, Some(run + existing), tail);
      } else {
        TailBalanced(levels, base);
        HasMerged(k, existing, run);
        assert GoodRun(Merge(existing, run)) by { MergeStable(existing, run); }
        CarryHolders(k, tail, Merge(existing, run), base + 1);
        HoldersBottom(k, None, Carry(tail, Merge(existing, run)));
      }
    }
  }

  lemma {:induction false} ReplaceHolders<V>(k: int, levels: Levels<V>, i: nat, run: Run<V>)
    requires i < |levels| && levels[i].Some?
    ensures Holders(k, levels[i := Some(levels[i].value + run)]) <= Holders(k, levels) + (if Has(k, run) then 1 else 0)
  {
    HasConcat(k, levels[i].value, run);
    if i > 0 {
      assert levels[i := Some(levels[i].value + run)][1..]
          == levels[1..][i - 1 := Some(levels[1..][i - 1].value + run)];
      ReplaceHolders(k, levels[1..], i - 1, run);
    }
  }

  lemma {:induction false} AppendHolders<V>(k: int, levels: Levels<V>, run: Run<V>)
    requires Balanced(levels, 0) && GoodRun(run)
    ensures Holders(k, Append(levels, run)) <= Holders(k, levels) + (if Has(k, run) then 1 else 0)
  {
    match Farthest(levels, |levels|)
    case None => HoldersBottom(k, Some(run), []);
    case Some(i) =>
      ReplaceHolders(k, levels, i, run);
      CarryHolders(k, levels, run, 0);
  }

  /** How many non-empty pushes since the last clear or drain brought a key. */
  ghost function PushesWith<V>(k: int, ops: seq<Op<V>>): nat {
    if ops == [] then 0
    else
      var op := ops[|ops| - 1];
      if op.Clear? || op.Take? then 0
      else PushesWith(k, ops[..|ops| - 1]) + (if Has(k, op.run) then 1 else 0)
  }

  /** No more levels store a key than pushes brought it. */
  lemma {:induction false} HoldersWithinPushes<V>(k: int, ops: seq<Op<V>>)
    requires Legal(ops)
    ensures Holders(k, After(ops).levels) <= PushesWith(k, ops)
  {
    if ops != [] {
      var front, op := ops[..|ops| - 1], ops[|ops| - 1];
      HoldersWithinPushes(k, front);
      StepHolders(k, After(front), op);
    }
  }

  lemma {:induction false} StepHolders<V>(k: int, st: State<V>, op: Op<V>)
    requires Balanced(st.levels, 0) && Legal([op])
    ensures if op.Clear? || op.Take? then Holders(k, Next(st, op).levels) == 0
            else Holders(k, Next(st, op).levels) <= Holders(k, st.levels) + (if Has(k, op.run) then 1 else 0)
  {
    assert [op][0] == op;
    match op
    case PushUnsorted(run) =>
      if run != [] {
        StableSortSorts(run);
        HasOfMultiset(k, StableSort(run), run);
        CarryHolders(k, st.levels, StableSort(run), 0);
      }
    case PushAppend(run) =>
      if run != [] { AppendHolders(k, st.levels, run); }
    case PushSorted(run) =>
      if run != [] { CarryHolders(k, st.levels, run, 0); }
    case Clear =>
    case Take =>
  }

  lemma {:induction false} HolderCounts<V>(k: int, levels: Levels<V>, i: nat)
    requires i < |levels| && levels[i].Some? && Has(k, levels[i].value)
    ensures Holders(k, levels) >= 1
  {
    if i > 0 { HolderCounts(k, levels[1..], i - 1); }
  }

  lemma {:induction false} TwoHoldersCount<V>(k: int, levels: Levels<V>, i: nat, j: nat)
    requires i < j < |levels| && levels[i].Some? && levels[j].Some?
    requires Has(k, levels[i].value) && Has(k, levels[j].value)
    ensures Holders(k, levels) >= 2
  {
    if i > 0 { TwoHoldersCount(k, levels[1..], i - 1, j - 1); } else { HolderCounts(k, levels[1..], j - 1); }
  }

  /** If no key came in two pushes since the last clear or drain, the drain is the stable sort of the pushes. */
  lemma {:induction false} PushedOnceDrainsStable<V>(ops: seq<Op<V>>)
    requires Legal(ops) && forall k :: PushesWith(k, ops) <= 1
    ensures Drain(After(ops).levels) == StableSort(Since(ops))
  {
    var levels := After(ops).levels;
    forall i, j, k | 0 <= i < j < |levels| && levels[i].Some? && levels[j].Some?
      ensures !(Has(k, levels[i].value) && Has(k, levels[j].value))
    {
      HoldersWithinPushes(k, ops);
      if Has(k, levels[i].value) && Has(k, levels[j].value) { TwoHoldersCount(k, levels, i, j); }
    }
    TakeReturnsHistory(ops);
  }

  // ---- visiting levels --------------------------------------------------------------------------------------------

  predicate AllOccupied<V>(levels: Levels<V>, order: seq<nat>) {
    forall m :: 0 <= m < |order| ==> order[m] < |levels| && levels[order[m]].Some?
  }

  /** The stored pairs with key `k`, level after level. */
  ghost function Visit<V>(k: int, levels: Levels<V>, order: seq<nat>): Run<V>
    requires AllOccupied(levels, order)
  {
    if order == [] then [] else WithKey(k, levels[order[0]].value) + Visit(k, levels, order[1..])
  }

  lemma {:induction false} VisitAppend<V>(k: int, levels: Levels<V>, a: seq<nat>, b: seq<nat>)
    requires AllOccupied(levels, a) && AllOccupied(levels, b)
    ensures AllOccupied(levels, a + b) && Visit(k, levels, a + b) == Visit(k, levels, a) + Visit(k, levels, b)
  {
    if a == [] {
      assert a + b == b;
    } else {
      assert (a + b)[0] == a[0] && (a + b)[1..] == a[1..] + b;
      VisitAppend(k, levels, a[1..], b);
    }
  }

  lemma {:induction false} VisitOne<V>(k: int, levels: Levels<V>, i: nat)
    requires i < |levels| && levels[i].Some?
    ensures Visit(k, levels, [i]) == WithKey(k, levels[i].value)
  {
    assert [i][1..] == [];
  }

  // ---- the order of a drain ---------------------------------------------------------------------------------------

  /** The occupied levels below `n`, in ascending order. */
  function OccupiedAt<V>(levels: Levels<V>, n: nat): (order: seq<nat>)
    requires n <= |levels|
    ensures AllOccupied(levels, order) && forall m :: 0 <= m < |order| ==> order[m] < n
  {
    if n == 0 then [] else OccupiedAt(levels, n - 1) + (if levels[n - 1].Some? then [n - 1] else [])
  }

  function Vals(s: seq<Pair<nat>>): (v: seq<nat>)
    ensures |v| == |s| && forall m :: 0 <= m < |v| ==> v[m] == s[m].val
  {
    seq(|s|, m requires 0 <= m < |s| => s[m].val)
  }

  /** Levels tagged with their first keys. */
  function Tags<V>(levels: Levels<V>, order: seq<nat>): (s: seq<Pair<nat>>)
    requires AllOccupied(levels, order) && Filled(levels)
    ensures |s| == |order|
    ensures forall m :: 0 <= m < |s| ==> s[m] == Pair(First(levels[order[m]].value), order[m])
  {
    seq(|order|, m requires 0 <= m < |order| => Pair(First(levels[order[m]].value), order[m]))
  }

  /** The occupied levels, stably sorted by their first keys. */
  function SortedAt<V>(levels: Levels<V>): seq<nat>
    requires Filled(levels)
  {
    Vals(StableSort(Tags(levels, OccupiedAt(levels, |levels|))))
  }

  /** The levels whose runs the reduction joins, in the order in which a stable merge visits them. */
  function ReduceOrder<V>(pool: Levels<V>, leaves: seq<seq<nat>>): seq<nat>
    requires |leaves| == |pool| && Live(pool) > 0
    decreases Live(pool)
  {
    if Live(pool) == 1 then
      LiveSome(pool);
      leaves[Shortest(pool, |pool|).value]
    else
      var p := NextTwo(pool);
      ReduceOrder(Reduced(pool), leaves + [leaves[p.0] + leaves[p.1]])
  }

  function Singles(order: seq<nat>): (leaves: seq<seq<nat>>)
    ensures |leaves| == |order| && forall m :: 0 <= m < |leaves| ==> leaves[m] == [order[m]]
  {
    seq(|order|, m requires 0 <= m < |order| => [order[m]])
  }

  function RunsAt<V>(levels: Levels<V>, order: seq<nat>): (runs: seq<Run<V>>)
    requires AllOccupied(levels, order)
    ensures |runs| == |order| && forall m :: 0 <= m < |runs| ==> runs[m] == levels[order[m]].value
  {
    seq(|order|, m requires 0 <= m < |order| => levels[order[m]].value)
  }

  /** The order in which a drain visits the occupied levels. */
  function Order<V>(levels: Levels<V>): seq<nat>
    requires Filled(levels)
  {
    if |OccupiedAt(levels, |levels|)| <= 1 then OccupiedAt(levels, |levels|)
    else
      SortedAtOccupied(levels);
      var order := SortedAt(levels);
      var runs := RunsAt(levels, order);
      if DisjointChain(runs) then order
      else
        PoolLive(runs);
        ReduceOrder(Pool(runs), Singles(order))
  }

  // ---- sorting the levels ------------------------------------------------------------------------------------------

  /** Both lists say the same: `s` by level, `t` by run. */
  ghost predicate Mirrors<V>(s: seq<Pair<nat>>, t: seq<Pair<Run<V>>>, levels: Levels<V>) {
    && |s| == |t|
    && forall m :: 0 <= m < |s| ==> s[m].key == t[m].key && s[m].val < |levels| && levels[s[m].val] == Some(t[m].val)
  }

  lemma MirrorsCons<V>(s: seq<Pair<nat>>, t: seq<Pair<Run<V>>>, p: Pair<nat>, q: Pair<Run<V>>, levels: Levels<V>)
    requires Mirrors(s, t, levels) && p.key == q.key && p.val < |levels| && levels[p.val] == Some(q.val)
    ensures Mirrors([p] + s, [q] + t, levels)
  {
  }

  lemma {:induction false} MergeMirrors<V>(a: seq<Pair<nat>>, a': seq<Pair<Run<V>>>, b: seq<Pair<nat>>,
                                           b': seq<Pair<Run<V>>>, levels: Levels<V>)
    requires Mirrors(a, a', levels) && Mirrors(b, b', levels)
    ensures Mirrors(Merge(a, b), Merge(a', b'), levels)
    decreases |a| + |b|
  {
    if a != [] && b != [] {
      if a[0].key <= b[0].key {
        MergeMirrors(a[1..], a'[1..], b, b', levels);
        MirrorsCons(Merge(a[1..], b), Merge(a'[1..], b'), a[0], a'[0], levels);
      } else {
        MergeMirrors(a, a', b[1..], b'[1..], levels);
        MirrorsCons(Merge(a, b[1..]), Merge(a', b'[1..]), b[0], b'[0], levels);
      }
    }
  }

  lemma ValsAppend(a: seq<Pair<nat>>, b: seq<Pair<nat>>)
    ensures Vals(a + b) == Vals(a) + Vals(b)
  {
  }

  lemma {:induction false} MergeVals(a: seq<Pair<nat>>, b: seq<Pair<nat>>)
    ensures multiset(Vals(Merge(a, b))) == multiset(Vals(a)) + multiset(Vals(b))
    decreases |a| + |b|
  {
    if a == [] {
      assert Vals(a) == [];
    } else if b == [] {
      assert Vals(b) == [];
    } else if a[0].key <= b[0].key {
      MergeVals(a[1..], b);
      ValsAppend([a[0]], Merge(a[1..], b));
      ValsAppend([a[0]], a[1..]);
      assert a == [a[0]] + a[1..];
    } else {
      MergeVals(a, b[1..]);
      ValsAppend([b[0]], Merge(a, b[1..]));
      ValsAppend([b[0]], b[1..]);
      assert b == [b[0]] + b[1..];
    }
  }

  lemma {:induction false} SortMirrors<V>(s: seq<Pair<nat>>, t: seq<Pair<Run<V>>>, levels: Levels<V>)
    requires Mirrors(s, t, levels)
    ensures Mirrors(StableSort(s), StableSort(t), levels)
  {
    if s != [] {
      var m := |s| - 1;
      SortMirrors(s[..m], t[..m], levels);
      MergeMirrors(StableSort(s[..m]), StableSort(t[..m]), s[m..], t[m..], levels);
    }
  }

  lemma {:induction false} SortVals(s: seq<Pair<nat>>)
    ensures multiset(Vals(StableSort(s))) == multiset(Vals(s))
  {
    if s != [] {
      var m := |s| - 1;
      SortVals(s[..m]);
      MergeVals(StableSort(s[..m]), s[m..]);
      ValsAppend(s[..m], s[m..]);
      assert s == s[..m] + s[m..];
    }
  }

  lemma {:induction false} OccupiedSnoc<V>(slots: Levels<V>, slot: Option<Run<V>>)
    ensures Occupied(slots + [slot]) == Occupied(slots) + (if slot.Some? then [slot.value] else [])
  {
    if slots == [] {
      assert [slot][1..] == [] && slots + [slot] == [slot];
    } else {
      assert (slots + [slot])[0] == slots[0] && (slots + [slot])[1..] == slots[1..] + [slot];
      OccupiedSnoc(slots[1..], slot);
    }
  }

  lemma {:induction false} OccupiedRuns<V>(levels: Levels<V>, n: nat)
    requires n <= |levels|
    ensures RunsAt(levels, OccupiedAt(levels, n)) == Occupied(levels[..n])
  {
    if n > 0 {
      OccupiedRuns(levels, n - 1);
      assert levels[..n] == levels[..n - 1] + [levels[n - 1]];
      OccupiedSnoc(levels[..n - 1], levels[n - 1]);
      assert RunsAt(levels, OccupiedAt(levels, n))
          == RunsAt(levels, OccupiedAt(levels, n - 1)) + (if levels[n - 1].Some? then [levels[n - 1].value] else []);
    }
  }

  /** Sorting levels by first key is sorting runs by first key. */
  lemma {:induction false} SortedAtOccupied<V>(levels: Levels<V>)
    requires Filled(levels)
    ensures AllOccupied(levels, SortedAt(levels)) && NonEmpty(Occupied(levels))
    ensures RunsAt(levels, SortedAt(levels)) == ByFirstKey(Occupied(levels))
    ensures multiset(SortedAt(levels)) == multiset(OccupiedAt(levels, |levels|))
  {
    var order, runs := OccupiedAt(levels, |levels|), Occupied(levels);
    assert RunsAt(levels, order) == runs by {
      OccupiedRuns(levels, |levels|);
      assert levels[..|levels|] == levels;
    }
    TagsMirror(levels, order, runs);
    SortMirrors(Tags(levels, order), Tagged(runs), levels);
    SortVals(Tags(levels, order));
    assert Vals(Tags(levels, order)) == order;
  }

  lemma TagsMirror<V>(levels: Levels<V>, order: seq<nat>, runs: seq<Run<V>>)
    requires Filled(levels) && AllOccupied(levels, order) && runs == RunsAt(levels, order)
    ensures NonEmpty(runs) && Mirrors(Tags(levels, order), Tagged(runs), levels)
  {
  }

  // ---- a drain visits level after level -----------------------------------------------------------------------------

  lemma {:induction false} FlattenVisits<V>(k: int, levels: Levels<V>, order: seq<nat>)
    requires AllOccupied(levels, order)
    ensures WithKey(k, Flatten(RunsAt(levels, order))) == Visit(k, levels, order)
  {
    if order != [] {
      var runs := RunsAt(levels, order);
      FlattenVisits(k, levels, order[1..]);
      assert runs[1..] == RunsAt(levels, order[1..]);
      WithKeyAppend(k, runs[0], Flatten(runs[1..]));
    }
  }

  /** Every pooled run holds the pairs of its leaves in the order of the leaves. */
  ghost predicate Leafed<V>(k: int, levels: Levels<V>, pool: Levels<V>, leaves: seq<seq<nat>>) {
    && |leaves| == |pool|
    && forall p :: 0 <= p < |pool| && pool[p].Some? ==>
         AllOccupied(levels, leaves[p]) && WithKey(k, pool[p].value) == Visit(k, levels, leaves[p])
  }

  lemma {:induction false} ReducedLeafed<V>(k: int, levels: Levels<V>, pool: Levels<V>, leaves: seq<seq<nat>>)
    requires Live(pool) > 1 && AllGood(pool) && Leafed(k, levels, pool, leaves)
    ensures var p := NextTwo(pool); Leafed(k, levels, Reduced(pool), leaves + [leaves[p.0] + leaves[p.1]])
  {
    var p := NextTwo(pool);
    MergeWithKey(k, pool[p.0].value, pool[p.1].value);
    VisitAppend(k, levels, leaves[p.0], leaves[p.1]);
  }

  lemma {:induction false} ReduceVisits<V>(k: int, levels: Levels<V>, pool: Levels<V>, leaves: seq<seq<nat>>)
    requires Live(pool) > 0 && AllGood(pool) && Leafed(k, levels, pool, leaves)
    ensures AllOccupied(levels, ReduceOrder(pool, leaves))
    ensures WithKey(k, Reduce(pool)) == Visit(k, levels, ReduceOrder(pool, leaves))
    decreases Live(pool)
  {
    if Live(pool) == 1 {
      LiveSome(pool);
    } else {
      var p := NextTwo(pool);
      ReducedKeeps(pool);
      ReducedLeafed(k, levels, pool, leaves);
      ReduceVisits(k, levels, Reduced(pool), leaves + [leaves[p.0] + leaves[p.1]]);
    }
  }

  lemma SinglesLeafed<V>(k: int, levels: Levels<V>, order: seq<nat>)
    requires AllOccupied(levels, order)
    ensures Leafed(k, levels, Pool(RunsAt(levels, order)), Singles(order))
  {
    forall m | 0 <= m < |order| ensures Visit(k, levels, Singles(order)[m]) == WithKey(k, levels[order[m]].value) {
      VisitOne(k, levels, order[m]);
    }
  }

  lemma PoolGood<V>(levels: Levels<V>, order: seq<nat>)
    requires AllOccupied(levels, order) && AllGood(levels)
    ensures AllGood(Pool(RunsAt(levels, order)))
  {
  }

  /** A drain holds every key in the order in which it visits the levels. */
  lemma {:induction false} DrainVisits<V>(k: int, levels: Levels<V>)
    requires Filled(levels) && AllGood(levels)
    ensures AllOccupied(levels, Order(levels)) && WithKey(k, Drain(levels)) == Visit(k, levels, Order(levels))
  {
    var occupied, runs := OccupiedAt(levels, |levels|), Occupied(levels);
    OccupiedRuns(levels, |levels|);
    assert levels[..|levels|] == levels;
    assert |runs| == |occupied|;
    if |runs| == 1 {
      VisitOne(k, levels, occupied[0]);
      assert runs[0] == levels[occupied[0]].value && occupied == [occupied[0]];
    } else if |runs| > 1 {
      SortedAtOccupied(levels);
      CombineVisits(k, levels, SortedAt(levels));
    }
  }

  lemma {:induction false} CombineVisits<V>(k: int, levels: Levels<V>, order: seq<nat>)
    requires AllOccupied(levels, order) && AllGood(levels) && order != [] && NonEmpty(RunsAt(levels, order))
    ensures var runs := RunsAt(levels, order);
            if DisjointChain(runs) then WithKey(k, Combine(runs)) == Visit(k, levels, order)
            else && Live(Pool(runs)) > 0
                 && AllOccupied(levels, ReduceOrder(Pool(runs), Singles(order)))
                 && WithKey(k, Combine(runs)) == Visit(k, levels, ReduceOrder(Pool(runs), Singles(order)))
  {
    var runs := RunsAt(levels, order);
    if DisjointChain(runs) {
      FlattenVisits(k, levels, order);
    } else {
      PoolLive(runs);
      PoolGood(levels, order);
      SinglesLeafed(k, levels, order);
      ReduceVisits(k, levels, Pool(runs), Singles(order));
    }
  }

  // ---- every occupied level is visited once -------------------------------------------------------------------

  /** Leaves as slots, so that sums over slots apply. */
  function LeafRun(leaf: seq<nat>): (r: Run<nat>)
    ensures |r| == |leaf| && forall m :: 0 <= m < |r| ==> r[m] == Pair(0, leaf[m])
  {
    seq(|leaf|, m requires 0 <= m < |leaf| => Pair(0, leaf[m]))
  }

  function LeafPool<V>(pool: Levels<V>, leaves: seq<seq<nat>>): (slots: Levels<nat>)
    requires |leaves| == |pool|
    ensures |slots| == |pool|
    ensures forall p :: 0 <= p < |slots| ==> slots[p] == if pool[p].Some? then Some(LeafRun(leaves[p])) else None
  {
    seq(|pool|, p requires 0 <= p < |pool| => if pool[p].Some? then Some(LeafRun(leaves[p])) else None)
  }

  lemma LeafRunAppend(a: seq<nat>, b: seq<nat>)
    ensures LeafRun(a + b) == LeafRun(a) + LeafRun(b)
  {
  }

  lemma LeafPoolMerge<V>(pool: Levels<V>, leaves: seq<seq<nat>>, i: nat, j: nat, merged: Run<V>)
    requires |leaves| == |pool| && i < |pool| && j < |pool|
    ensures LeafPool(pool[i := None][j := None] + [Some(merged)], leaves + [leaves[i] + leaves[j]])
         == LeafPool(pool, leaves)[i := None][j := None] + [Some(LeafRun(leaves[i] + leaves[j]))]
  {
  }

  lemma {:induction false} ReducedLeaves<V>(pool: Levels<V>, leaves: seq<seq<nat>>)
    requires Live(pool) > 1 && |leaves| == |pool|
    ensures var p := NextTwo(pool);
            SlotSum(LeafPool(Reduced(pool), leaves + [leaves[p.0] + leaves[p.1]])) == SlotSum(LeafPool(pool, leaves))
  {
    var p, slots := NextTwo(pool), LeafPool(pool, leaves);
    LeafRunAppend(leaves[p.0], leaves[p.1]);
    LeafPoolMerge(pool, leaves, p.0, p.1, Merge(pool[p.0].value, pool[p.1].value));
    MergeSlots(slots, p.0, p.1, LeafRun(leaves[p.0] + leaves[p.1]));
  }

  lemma {:induction false} OnlySlot<V, W>(pool: Levels<V>, slots: Levels<W>, i: nat)
    requires Live(pool) == 1 && |slots| == |pool| && i < |pool| && pool[i].Some?
    requires forall p :: 0 <= p < |pool| ==> (slots[p].Some? <==> pool[p].Some?)
    ensures SlotSum(slots) == multiset(slots[i].value)
  {
    FreeSlot(pool, i);
    LiveSome(pool[i := None]);
    FreeSlot(slots, i);
    var others, rest := pool[i := None], slots[i := None];
    forall p | 0 <= p < |rest| ensures rest[p].None? {
      assert others[p].None?;
    }
    EmptyLevels(0, rest);
  }

  lemma {:induction false} ReduceOrderLeaves<V>(pool: Levels<V>, leaves: seq<seq<nat>>)
    requires Live(pool) > 0 && |leaves| == |pool|
    ensures multiset(LeafRun(ReduceOrder(pool, leaves))) == SlotSum(LeafPool(pool, leaves))
    decreases Live(pool)
  {
    if Live(pool) == 1 {
      LiveSome(pool);
      OnlySlot(pool, LeafPool(pool, leaves), Shortest(pool, |pool|).value);
    } else {
      var p := NextTwo(pool);
      ReducedLeaves(pool, leaves);
      ReduceOrderLeaves(Reduced(pool), leaves + [leaves[p.0] + leaves[p.1]]);
    }
  }

  lemma {:induction false} SinglesSum<V>(runs: seq<Run<V>>, order: seq<nat>)
    requires |runs| == |order|
    ensures SlotSum(LeafPool(Pool(runs), Singles(order))) == multiset(LeafRun(order))
  {
    var slots := LeafPool(Pool(runs), Singles(order));
    if order == [] {
      assert slots == [];
    } else {
      var m := |order| - 1;
      SinglesSum(runs[..m], order[..m]);
      SplitTop(slots);
      assert slots[..m] == LeafPool(Pool(runs[..m]), Singles(order[..m]));
      assert LeafRun(order) == LeafRun(order[..m]) + LeafRun([order[m]]);
    }
  }

  lemma {:induction false} LeafRunCounts(leaf: seq<nat>, i: nat)
    ensures multiset(LeafRun(leaf))[Pair(0, i)] == multiset(leaf)[i]
  {
    if leaf != [] {
      var m := |leaf| - 1;
      LeafRunCounts(leaf[..m], i);
      assert leaf == leaf[..m] + [leaf[m]] && LeafRun(leaf) == LeafRun(leaf[..m]) + [Pair(0, leaf[m])];
    }
  }

  /** A drain visits every occupied level exactly once. */
  lemma OrderVisitsOnce<V>(levels: Levels<V>, i: nat)
    requires Filled(levels)
    ensures multiset(Order(levels))[i] == if i < |levels| && levels[i].Some? then 1 else 0
  {
    OccupiedCounts(levels, |levels|, i);
    if |OccupiedAt(levels, |levels|)| > 1 {
      SortedAtOccupied(levels);
      var order := SortedAt(levels);
      var runs := RunsAt(levels, order);
      if !DisjointChain(runs) {
        PoolLive(runs);
        ReduceOrderLeaves(Pool(runs), Singles(order));
        SinglesSum(runs, order);
        LeafRunCounts(order, i);
        LeafRunCounts(ReduceOrder(Pool(runs), Singles(order)), i);
      }
    }
  }

  lemma CountSnoc(order: seq<nat>, x: nat, i: nat)
    ensures multiset(order + [x])[i] == multiset(order)[i] + (if x == i then 1 else 0)
  {
  }

  lemma {:induction false} OccupiedCounts<V>(levels: Levels<V>, n: nat, i: nat)
    requires n <= |levels|
    ensures multiset(OccupiedAt(levels, n))[i] == if i < n && levels[i].Some? then 1 else 0
  {
    if n > 0 {
      OccupiedCounts(levels, n - 1, i);
      OccupiedStep(levels, n, OccupiedAt(levels, n - 1), i);
    }
  }

  lemma OccupiedStep<V>(levels: Levels<V>, n: nat, before: seq<nat>, i: nat)
    requires 0 < n <= |levels| && before == OccupiedAt(levels, n - 1)
    requires multiset(before)[i] == if i < n - 1 && levels[i].Some? then 1 else 0
    ensures multiset(OccupiedAt(levels, n))[i] == if i < n && levels[i].Some? then 1 else 0
  {
    if levels[n - 1].Some? {
      assert OccupiedAt(levels, n) == before + [n - 1];
      CountSnoc(before, n - 1, i);
    } else {
      assert OccupiedAt(levels, n) == before + [] == before;
    }
  }

  // ---- exactly when a drain is stable -------------------------------------------------------------------------

  ghost predicate Distinct<T>(s: seq<T>) {
    forall x, y :: 0 <= x < y < |s| ==> s[x] != s[y]
  }

  /** The list holds every occupied level from `n` on once and nothing else. */
  ghost predicate Covers<V>(levels: Levels<V>, order: seq<nat>, n: nat) {
    && AllOccupied(levels, order)
    && (forall a :: 0 <= a < |order| ==> n <= order[a])
    && Distinct(order)
    && (forall i :: n <= i < |levels| && levels[i].Some? ==> i in order)
  }

  lemma OnceOnly(order: seq<nat>, a: nat, b: nat)
    requires a < b < |order| && order[a] == order[b]
    ensures multiset(order)[order[a]] >= 2
  {
    assert order == order[..b] + [order[b]] + order[b + 1..];
    assert order[a] == order[..b][a];
    assert order[a] in multiset(order[..b]);
  }

  lemma OrderCovers<V>(levels: Levels<V>)
    requires Filled(levels)
    ensures Covers(levels, Order(levels), 0)
  {
    var order := Order(levels);
    forall a | 0 <= a < |order| ensures order[a] < |levels| && levels[order[a]].Some? {
      OrderVisitsOnce(levels, order[a]);
      assert order[a] in multiset(order);
    }
    forall a, b | 0 <= a < b < |order| ensures order[a] != order[b] {
      OrderVisitsOnce(levels, order[a]);
      if order[a] == order[b] { OnceOnly(order, a, b); }
    }
    forall i | 0 <= i < |levels| && levels[i].Some? ensures i in order {
      OrderVisitsOnce(levels, i);
      assert i in multiset(order);
    }
  }

  /** Two levels that share key `k` are visited higher level first. */
  ghost predicate HigherFirstFor<V>(k: int, levels: Levels<V>, order: seq<nat>)
    requires AllOccupied(levels, order)
  {
    forall a, b :: 0 <= a < b < |order| && Has(k, levels[order[a]].value) && Has(k, levels[order[b]].value) ==>
      order[a] > order[b]
  }

  lemma {:induction false} VisitsNothing<V>(k: int, levels: Levels<V>, order: seq<nat>)
    requires AllOccupied(levels, order) && forall b :: 0 <= b < |order| ==> !Has(k, levels[order[b]].value)
    ensures Visit(k, levels, order) == []
  {
    if order != [] {
      WithKeyEmpty(k, levels[order[0]].value);
      VisitsNothing(k, levels, order[1..]);
    }
  }

  lemma SplitAround<T>(s: seq<T>, a: nat)
    requires a < |s|
    ensures s == s[..a] + ([s[a]] + s[a + 1..])
  {
  }

  /** A level after which no level with key `k` is visited may as well be visited last. */
  lemma {:induction false} VisitLast<V>(k: int, levels: Levels<V>, before: seq<nat>, n: nat, after: seq<nat>)
    requires AllOccupied(levels, before) && AllOccupied(levels, after) && n < |levels| && levels[n].Some?
    requires Has(k, levels[n].value) ==> forall b :: 0 <= b < |after| ==> !Has(k, levels[after[b]].value)
    ensures AllOccupied(levels, before + ([n] + after)) && AllOccupied(levels, before + after)
    ensures Visit(k, levels, before + ([n] + after)) == Visit(k, levels, before + after) + WithKey(k, levels[n].value)
  {
    VisitAppend(k, levels, [n], after);
    VisitAppend(k, levels, before, [n] + after);
    VisitAppend(k, levels, before, after);
    VisitOne(k, levels, n);
    if Has(k, levels[n].value) {
      VisitsNothing(k, levels, after);
    } else {
      WithKeyEmpty(k, levels[n].value);
    }
    Regroup(Visit(k, levels, before), WithKey(k, levels[n].value), Visit(k, levels, after));
    Regroup(Visit(k, levels, before), Visit(k, levels, after), WithKey(k, levels[n].value));
  }

  lemma AroundAt<T>(before: seq<T>, x: T, after: seq<T>)
    ensures var whole, rest, m := before + ([x] + after), before + after, |before|;
            && |whole| == |rest| + 1 && whole[m] == x
            && (forall a :: 0 <= a < m ==> rest[a] == before[a] == whole[a])
            && (forall a :: m <= a < |rest| ==> rest[a] == after[a - m] == whole[a + 1])
            && (forall b :: 0 <= b < |after| ==> after[b] == whole[m + 1 + b] == rest[m + b])
            && (forall y :: y in whole ==> y == x || y in rest)
  {
  }

  lemma RestDistinct<T>(before: seq<T>, x: T, after: seq<T>)
    requires Distinct(before + ([x] + after))
    ensures Distinct(before + after)
  {
    var whole, rest := before + ([x] + after), before + after;
    AroundAt(before, x, after);
    forall a, b | 0 <= a < b < |rest| ensures rest[a] != rest[b] {
      var c, d := if a < |before| then a else a + 1, if b < |before| then b else b + 1;
      assert rest[a] == whole[c] && rest[b] == whole[d];
    }
  }

  /** Without its lowest level the list covers the levels above. */
  lemma CoversRest<V>(levels: Levels<V>, before: seq<nat>, n: nat, after: seq<nat>)
    requires n < |levels| && Covers(levels, before + ([n] + after), n)
    ensures Covers(levels, before + after, n + 1)
  {
    var order, rest := before + ([n] + after), before + after;
    AroundAt(before, n, after);
    RestDistinct(before, n, after);
    forall a | 0 <= a < |rest| ensures n < rest[a] < |levels| && levels[rest[a]].Some? {
      var c := if a < |before| then a else a + 1;
      assert rest[a] == order[c] && order[c] != order[|before|];
    }
  }

  lemma HigherFirstRest<V>(k: int, levels: Levels<V>, before: seq<nat>, n: nat, after: seq<nat>)
    requires AllOccupied(levels, before + ([n] + after)) && AllOccupied(levels, before + after)
    requires HigherFirstFor(k, levels, before + ([n] + after))
    ensures HigherFirstFor(k, levels, before + after)
  {
    var order, rest := before + ([n] + after), before + after;
    AroundAt(before, n, after);
    forall a, b | 0 <= a < b < |rest| && Has(k, levels[rest[a]].value) && Has(k, levels[rest[b]].value)
      ensures rest[a] > rest[b]
    {
      var c, d := if a < |before| then a else a + 1, if b < |before| then b else b + 1;
      assert rest[a] == order[c] && rest[b] == order[d];
    }
  }

  lemma LowestAfterSharing<V>(k: int, levels: Levels<V>, before: seq<nat>, n: nat, after: seq<nat>)
    requires n < |levels| && levels[n].Some? && Covers(levels, before + ([n] + after), n)
    requires HigherFirstFor(k, levels, before + ([n] + after))
    ensures AllOccupied(levels, before) && AllOccupied(levels, after)
    ensures Has(k, levels[n].value) ==> forall b :: 0 <= b < |after| ==> !Has(k, levels[after[b]].value)
  {
    var order := before + ([n] + after);
    AroundAt(before, n, after);
    forall b | 0 <= b < |after| && Has(k, levels[n].value) ensures !Has(k, levels[after[b]].value) {
      assert after[b] == order[|before| + 1 + b] && order[|before|] == n;
    }
  }

  lemma {:induction false} ArrivalsFrom<V>(k: int, levels: Levels<V>, n: nat)
    requires n < |levels|
    ensures Arrivals(k, levels[n..])
         == Arrivals(k, levels[n + 1..]) + (if levels[n].Some? then WithKey(k, levels[n].value) else [])
  {
    assert levels[n..][0] == levels[n] && levels[n..][1..] == levels[n + 1..];
  }

  lemma CoversSkip<V>(levels: Levels<V>, order: seq<nat>, n: nat)
    requires n <= |levels| && Covers(levels, order, n)
    ensures n == |levels| ==> order == []
    ensures n < |levels| && levels[n].None? ==> Covers(levels, order, n + 1)
    ensures n < |levels| && levels[n].Some? ==> n in order
  {
    assert order != [] ==> n <= order[0] < |levels|;
  }

  /** Visiting sharing levels from the highest down visits the pairs in arrival order. */
  lemma {:induction false} DescendingVisit<V>(k: int, levels: Levels<V>, order: seq<nat>, n: nat)
    requires n <= |levels| && Covers(levels, order, n) && HigherFirstFor(k, levels, order)
    ensures Visit(k, levels, order) == Arrivals(k, levels[n..])
    decreases |levels| - n, 0
  {
    CoversSkip(levels, order, n);
    if n < |levels| {
      ArrivalsFrom(k, levels, n);
      if levels[n].None? {
        DescendingVisit(k, levels, order, n + 1);
      } else {
        var a :| 0 <= a < |order| && order[a] == n;
        SplitAround(order, a);
        DescendingStep(k, levels, order[..a], n, order[a + 1..]);
      }
    }
  }

  lemma {:induction false} DescendingStep<V>(k: int, levels: Levels<V>, before: seq<nat>, n: nat, after: seq<nat>)
    requires n < |levels| && levels[n].Some? && Covers(levels, before + ([n] + after), n)
    requires HigherFirstFor(k, levels, before + ([n] + after))
    ensures Visit(k, levels, before + ([n] + after)) == Arrivals(k, levels[n + 1..]) + WithKey(k, levels[n].value)
    decreases |levels| - n - 1, 1
  {
    CoversRest(levels, before, n, after);
    HigherFirstRest(k, levels, before, n, after);
    LowestAfterSharing(k, levels, before, n, after);
    VisitLast(k, levels, before, n, after);
    DescendingVisit(k, levels, before + after, n + 1);
  }

  // ---- the other direction ------------------------------------------------------------------------------------

  ghost predicate Before<T>(s: seq<T>, p: T, q: T) {
    exists x, y :: 0 <= x < y < |s| && s[x] == p && s[y] == q
  }

  lemma BeforeInParts<T>(s: seq<T>, t: seq<T>, p: T, q: T)
    requires p in s && q in t
    ensures Before(s + t, p, q)
  {
    var x :| 0 <= x < |s| && s[x] == p;
    var y :| 0 <= y < |t| && t[y] == q;
    assert (s + t)[x] == p && (s + t)[|s| + y] == q;
  }

  lemma NotBoth<T>(s: seq<T>, p: T, q: T)
    requires Distinct(s) && Before(s, p, q)
    ensures !Before(s, q, p)
  {
  }

  lemma {:induction false} WithKeyDistinct<V>(k: int, s: Run<V>)
    requires Distinct(s)
    ensures Distinct(WithKey(k, s)) && forall p :: p in WithKey(k, s) ==> p in s
  {
    if s != [] {
      WithKeyDistinct(k, s[1..]);
      assert s[0] !in s[1..];
    }
  }

  lemma {:induction false} VisitHas<V>(k: int, levels: Levels<V>, order: seq<nat>, a: nat, p: Pair<V>)
    requires AllOccupied(levels, order) && a < |order| && p in WithKey(k, levels[order[a]].value)
    ensures p in Visit(k, levels, order)
  {
    if a > 0 { VisitHas(k, levels, order[1..], a - 1, p); }
  }

  lemma {:induction false} VisitBefore<V>(k: int, levels: Levels<V>, order: seq<nat>, a: nat, b: nat, p: Pair<V>,
                                          q: Pair<V>)
    requires AllOccupied(levels, order) && a < b < |order|
    requires p in WithKey(k, levels[order[a]].value) && q in WithKey(k, levels[order[b]].value)
    ensures Before(Visit(k, levels, order), p, q)
  {
    VisitHas(k, levels, order[..b], a, p);
    VisitHas(k, levels, order[b..], 0, q);
    VisitAppend(k, levels, order[..b], order[b..]);
    assert order == order[..b] + order[b..];
    BeforeInParts(Visit(k, levels, order[..b]), Visit(k, levels, order[b..]), p, q);
  }

  lemma {:induction false} ArrivalsHas<V>(k: int, levels: Levels<V>, i: nat, p: Pair<V>)
    requires i < |levels| && levels[i].Some? && p in WithKey(k, levels[i].value)
    ensures p in Arrivals(k, levels)
  {
    if i > 0 { ArrivalsHas(k, levels[1..], i - 1, p); }
  }

  lemma {:induction false} ArrivalsBefore<V>(k: int, levels: Levels<V>, i: nat, j: nat, p: Pair<V>, q: Pair<V>)
    requires i < j < |levels| && levels[i].Some? && levels[j].Some?
    requires p in WithKey(k, levels[i].value) && q in WithKey(k, levels[j].value)
    ensures Before(Arrivals(k, levels), q, p)
  {
    if i == 0 {
      ArrivalsHas(k, levels[1..], j - 1, q);
      BeforeInParts(Arrivals(k, levels[1..]), WithKey(k, levels[0].value), q, p);
    } else {
      ArrivalsBefore(k, levels[1..], i - 1, j - 1, p, q);
      BeforeExtended(Arrivals(k, levels[1..]), if levels[0].Some? then WithKey(k, levels[0].value) else [], q, p);
    }
  }

  lemma BeforeExtended<T>(s: seq<T>, t: seq<T>, p: T, q: T)
    requires Before(s, p, q)
    ensures Before(s + t, p, q)
  {
    var x, y :| 0 <= x < y < |s| && s[x] == p && s[y] == q;
    assert (s + t)[x] == p && (s + t)[y] == q;
  }

  lemma {:induction false} LowerFirstShows<V>(k: int, levels: Levels<V>, order: seq<nat>, a: nat, b: nat)
    requires AllOccupied(levels, order) && a < b < |order| && order[a] < order[b]
    requires Has(k, levels[order[a]].value) && Has(k, levels[order[b]].value)
    requires Distinct(Arrivals(k, levels))
    ensures Visit(k, levels, order) != Arrivals(k, levels)
  {
    WithKeyEmpty(k, levels[order[a]].value);
    WithKeyEmpty(k, levels[order[b]].value);
    var p, q := WithKey(k, levels[order[a]].value)[0], WithKey(k, levels[order[b]].value)[0];
    VisitBefore(k, levels, order, a, b, p, q);
    ArrivalsBefore(k, levels, order[a], order[b], p, q);
    if Visit(k, levels, order) == Arrivals(k, levels) { NotBoth(Arrivals(k, levels), q, p); }
  }

  /** Of two levels that share a key the higher one, which holds the earlier arrivals, is visited first. */
  ghost predicate HigherFirst<V>(levels: Levels<V>, order: seq<nat>)
    requires AllOccupied(levels, order)
  {
    forall k :: HigherFirstFor(k, levels, order)
  }

  /** A drain is the stable sort of the pushes if it visits levels that share a key higher level first, and only then
      if the pushed pairs can be told apart. */
  lemma {:induction false} StableExactly<V>(ops: seq<Op<V>>)
    requires Legal(ops)
    ensures var levels := After(ops).levels;
            && Covers(levels, Order(levels), 0)
            && (HigherFirst(levels, Order(levels)) ==> Drain(levels) == StableSort(Since(ops)))
            && (Distinct(Since(ops)) && Drain(levels) == StableSort(Since(ops)) ==> HigherFirst(levels, Order(levels)))
  {
    var levels, since := After(ops).levels, Since(ops);
    OrderCovers(levels);
    StableSortCharacterised(since, Drain(levels));
    TakeReturnsHistory(ops);
    if HigherFirst(levels, Order(levels)) {
      forall k ensures WithKey(k, Drain(levels)) == WithKey(k, since) {
        DrainVisits(k, levels);
        DescendingVisit(k, levels, Order(levels), 0);
        assert levels[0..] == levels && Arrivals(k, levels) == WithKey(k, since);
      }
    }
    if Distinct(since) && Drain(levels) == StableSort(since) {
      forall k ensures HigherFirstFor(k, levels, Order(levels)) {
        StableHigherFirst(k, levels, since);
      }
    }
  }

  lemma {:induction false} StableHigherFirst<V>(k: int, levels: Levels<V>, since: Run<V>)
    requires Filled(levels) && AllGood(levels) && Covers(levels, Order(levels), 0)
    requires Distinct(since) && Arrivals(k, levels) == WithKey(k, since) == WithKey(k, Drain(levels))
    ensures HigherFirstFor(k, levels, Order(levels))
  {
    DrainVisits(k, levels);
    WithKeyDistinct(k, since);
    ArrivedHigherFirst(k, levels, Order(levels));
  }

  lemma {:induction false} ArrivedHigherFirst<V>(k: int, levels: Levels<V>, order: seq<nat>)
    requires AllOccupied(levels, order) && Distinct(order)
    requires Distinct(Arrivals(k, levels)) && Visit(k, levels, order) == Arrivals(k, levels)
    ensures HigherFirstFor(k, levels, order)
  {
    forall a, b | 0 <= a < b < |order| && Has(k, levels[order[a]].value) && Has(k, levels[order[b]].value)
      ensures order[a] > order[b]
    {
      if order[a] < order[b] { LowerFirstShows(k, levels, order, a, b); }
    }
  }
}
