/**
 Draining the levels into one sorted run: concatenation when the runs form a chain, otherwise
 merging the two shortest runs until one is left.
 */
module BufferDrain {
  import opened Wrappers
  import opened Runs
  import opened BufferLevels

  // ---- what a drain returns ---------------------------------------------------------------------

  /** The runs of the occupied slots, lowest slot first. */
  function Occupied<V>(slots: Levels<V>): (runs: seq<Run<V>>)
    ensures |runs| == Live(slots)
  {
    if slots == [] then []
    else (if slots[0].Some? then [slots[0].value] else []) + Occupied(slots[1..])
  }

  predicate NonEmpty<V>(runs: seq<Run<V>>) {
    forall i :: 0 <= i < |runs| ==> runs[i] != []
  }

  function Tagged<V>(runs: seq<Run<V>>): (t: seq<Pair<Run<V>>>)
    requires NonEmpty(runs)
    ensures |t| == |runs| && forall i :: 0 <= i < |t| ==> t[i] == Pair(First(runs[i]), runs[i])
  {
    seq(|runs|, i requires 0 <= i < |runs| => Pair(First(runs[i]), runs[i]))
  }

  function Untagged<V>(t: seq<Pair<Run<V>>>): (runs: seq<Run<V>>)
    ensures |runs| == |t| && forall i :: 0 <= i < |t| ==> runs[i] == t[i].val
  {
    seq(|t|, i requires 0 <= i < |t| => t[i].val)
  }

  /** The runs stably sorted by their first keys. */
  function ByFirstKey<V>(runs: seq<Run<V>>): seq<Run<V>>
    requires NonEmpty(runs)
  {
    Untagged(StableSort(Tagged(runs)))
  }

  /** Every run ends no later than the next one starts. */
  predicate DisjointChain<V>(runs: seq<Run<V>>)
    requires NonEmpty(runs)
  {
    forall i :: 0 <= i < |runs| - 1 ==> Last(runs[i]) <= First(runs[i + 1])
  }

  function Flatten<V>(runs: seq<Run<V>>): Run<V> {
    if runs == [] then [] else runs[0] + Flatten(runs[1..])
  }

  function Pool<V>(runs: seq<Run<V>>): (pool: Levels<V>)
    ensures |pool| == |runs| && forall i :: 0 <= i < |pool| ==> pool[i] == Some(runs[i])
  {
    seq(|runs|, i requires 0 <= i < |runs| => Some(runs[i]))
  }

  /** The first run the heap yields among slots `..n`: the shortest, and of these the last. */
  function Shortest<V>(pool: Levels<V>, n: nat): (i: Option<nat>)
    requires n <= |pool|
    ensures i.Some? ==> i.value < n && pool[i.value].Some?
    ensures i.None? <==> forall k :: 0 <= k < n ==> pool[k].None?
    ensures i.Some? ==> forall k :: 0 <= k < n && pool[k].Some? ==>
                          |pool[i.value].value| < |pool[k].value|
                          || (|pool[i.value].value| == |pool[k].value| && k <= i.value)
  {
    if n == 0 then None
    else match Shortest(pool, n - 1)
      case None => if pool[n - 1].Some? then Some(n - 1) else None
      case Some(j) =>
        if pool[n - 1].Some? && |pool[n - 1].value| <= |pool[j].value| then Some(n - 1) else Some(j)
  }

  lemma {:induction false} FreeSlot<V>(pool: Levels<V>, i: nat)
    requires i < |pool| && pool[i].Some?
    ensures Live(pool[i := None]) == Live(pool) - 1
    ensures SlotSum(pool) == SlotSum(pool[i := None]) + multiset(pool[i].value)
  {
    if i > 0 {
      assert pool[i := None][1..] == pool[1..][i - 1 := None];
      FreeSlot(pool[1..], i - 1);
    }
  }

  lemma {:induction false} AddSlot<V>(pool: Levels<V>, r: Run<V>)
    ensures Live(pool + [Some(r)]) == Live(pool) + 1
    ensures SlotSum(pool + [Some(r)]) == SlotSum(pool) + multiset(r)
  {
    SplitTop(pool + [Some(r)]);
    assert (pool + [Some(r)])[..|pool|] == pool;
  }

  lemma {:induction false} LiveSome<V>(pool: Levels<V>)
    ensures Live(pool) > 0 <==> exists k :: 0 <= k < |pool| && pool[k].Some?
  {
    if pool != [] {
      LiveSome(pool[1..]);
      if k :| 0 <= k < |pool[1..]| && pool[1..][k].Some? {
        assert pool[k + 1].Some?;
      }
      if k :| 0 < k < |pool| && pool[k].Some? {
        assert pool[1..][k - 1].Some?;
      }
    }
  }

  /** The slots of the two runs that are merged next. */
  function NextTwo<V>(pool: Levels<V>): (p: (nat, nat))
    requires Live(pool) > 1
    ensures p.0 < |pool| && p.1 < |pool| && p.0 != p.1 && pool[p.0].Some? && pool[p.1].Some?
  {
    LiveSome(pool);
    var ia := Shortest(pool, |pool|).value;
    FreeSlot(pool, ia);
    LiveSome(pool[ia := None]);
    (ia, Shortest(pool[ia := None], |pool|).value)
  }

  /** The pool after the two shortest runs were merged into a new slot. */
  function Reduced<V>(pool: Levels<V>): (r: Levels<V>)
    requires Live(pool) > 1
    ensures Live(r) == Live(pool) - 1
  {
    var p := NextTwo(pool);
    var rest := pool[p.0 := None][p.1 := None];
    var merged := Merge(pool[p.0].value, pool[p.1].value);
    FreeSlot(pool, p.0);
    FreeSlot(pool[p.0 := None], p.1);
    AddSlot(rest, merged);
    rest + [Some(merged)]
  }

  function Reduce<V>(pool: Levels<V>): Run<V>
    requires Live(pool) > 0
    decreases Live(pool)
  {
    if Live(pool) == 1 then
      LiveSome(pool);
      pool[Shortest(pool, |pool|).value].value
    else Reduce(Reduced(pool))
  }

  lemma PoolLive<V>(runs: seq<Run<V>>)
    ensures Live(Pool(runs)) == |runs|
  {
    if runs != [] {
      assert Pool(runs)[1..] == Pool(runs[1..]);
      PoolLive(runs[1..]);
    }
  }

  lemma {:induction false} OccupiedMember<V>(slots: Levels<V>, r: Run<V>)
    ensures r in Occupied(slots) <==> exists k :: 0 <= k < |slots| && slots[k] == Some(r)
  {
    if slots != [] {
      OccupiedMember(slots[1..], r);
      if k :| 0 <= k < |slots[1..]| && slots[1..][k] == Some(r) {
        assert slots[k + 1] == Some(r);
      }
      if k :| 0 < k < |slots| && slots[k] == Some(r) {
        assert slots[1..][k - 1] == Some(r);
      }
    }
  }

  lemma {:induction false} OccupiedFilled<V>(levels: Levels<V>)
    requires Filled(levels)
    ensures NonEmpty(Occupied(levels))
  {
    forall i | 0 <= i < |Occupied(levels)| ensures Occupied(levels)[i] != [] {
      OccupiedMember(levels, Occupied(levels)[i]);
    }
  }

  /** Sorting rearranges the runs and nothing else. */
  lemma ByFirstKeyMembers<V>(runs: seq<Run<V>>)
    requires NonEmpty(runs)
    ensures |ByFirstKey(runs)| == |runs| && NonEmpty(ByFirstKey(runs))
    ensures forall i :: 0 <= i < |runs| ==> exists j :: 0 <= j < |runs| && ByFirstKey(runs)[i] == runs[j]
  {
    var t := Tagged(runs);
    StableSortSorts(t);
    forall i | 0 <= i < |runs| ensures exists j :: 0 <= j < |runs| && ByFirstKey(runs)[i] == runs[j] {
      assert StableSort(t)[i] in multiset(t);
      var j :| 0 <= j < |t| && t[j] == StableSort(t)[i];
      assert ByFirstKey(runs)[i] == runs[j];
    }
  }

  /** Several runs, sorted by first key: concatenated if they form a chain, otherwise reduced by merging. */
  function Combine<V>(sorted: seq<Run<V>>): Run<V>
    requires sorted != [] && NonEmpty(sorted)
  {
    if DisjointChain(sorted) then Flatten(sorted)
    else
      PoolLive(sorted);
      Reduce(Pool(sorted))
  }

  /** What `take_sorted` returns. */
  function Drain<V>(levels: Levels<V>): Run<V>
    requires Filled(levels)
  {
    var runs := Occupied(levels);
    if |runs| == 0 then []
    else if |runs| == 1 then runs[0]
    else
      OccupiedFilled(levels);
      ByFirstKeyMembers(runs);
      Combine(ByFirstKey(runs))
  }

  // ---- a drain sorts and loses nothing ------------------------------------------------------------

  ghost function RunSum<V>(runs: seq<Run<V>>): multiset<Pair<V>> {
    if runs == [] then multiset{} else multiset(runs[0]) + RunSum(runs[1..])
  }

  lemma {:induction false} OccupiedSum<V>(slots: Levels<V>)
    ensures RunSum(Occupied(slots)) == SlotSum(slots)
  {
    if slots != [] {
      OccupiedSum(slots[1..]);
      if slots[0].Some? {
        assert Occupied(slots)[1..] == Occupied(slots[1..]);
      } else {
        assert Occupied(slots) == Occupied(slots[1..]);
      }
    }
  }

  lemma {:induction false} PoolSum<V>(runs: seq<Run<V>>)
    ensures SlotSum(Pool(runs)) == RunSum(runs)
  {
    if runs != [] {
      assert Pool(runs)[1..] == Pool(runs[1..]);
      PoolSum(runs[1..]);
    }
  }

  lemma {:induction false} MergeTagSum<V>(a: seq<Pair<Run<V>>>, b: seq<Pair<Run<V>>>)
    ensures RunSum(Untagged(Merge(a, b))) == RunSum(Untagged(a)) + RunSum(Untagged(b))
    decreases |a| + |b|
  {
    if a == [] || b == [] {
    } else if a[0].key <= b[0].key {
      MergeTagSum(a[1..], b);
      assert Untagged(a)[1..] == Untagged(a[1..]);
      assert Untagged(Merge(a, b))[1..] == Untagged(Merge(a[1..], b));
    } else {
      MergeTagSum(a, b[1..]);
      assert Untagged(b)[1..] == Untagged(b[1..]);
      assert Untagged(Merge(a, b))[1..] == Untagged(Merge(a, b[1..]));
    }
  }

  lemma {:induction false} RunSumAppend<V>(s: seq<Run<V>>, t: seq<Run<V>>)
    ensures RunSum(s + t) == RunSum(s) + RunSum(t)
  {
    if s == [] {
      assert s + t == t;
    } else {
      assert (s + t)[1..] == s[1..] + t;
      RunSumAppend(s[1..], t);
    }
  }

  lemma {:induction false} SortTagSum<V>(t: seq<Pair<Run<V>>>)
    ensures RunSum(Untagged(StableSort(t))) == RunSum(Untagged(t))
  {
    if t != [] {
      var front, last := t[..|t| - 1], t[|t| - 1..];
      SortTagSum(front);
      MergeTagSum(StableSort(front), last);
      RunSumAppend(Untagged(front), Untagged(last));
      assert Untagged(t) == Untagged(front) + Untagged(last);
    }
  }

  lemma {:induction false} ByFirstKeySum<V>(runs: seq<Run<V>>)
    requires NonEmpty(runs)
    ensures RunSum(ByFirstKey(runs)) == RunSum(runs)
  {
    SortTagSum(Tagged(runs));
    assert Untagged(Tagged(runs)) == runs;
  }

  ghost predicate AllGood<V>(pool: Levels<V>) {
    forall k :: 0 <= k < |pool| && pool[k].Some? ==> GoodRun(pool[k].value)
  }

  lemma {:induction false} ReducedKeeps<V>(pool: Levels<V>)
    requires Live(pool) > 1 && AllGood(pool)
    ensures AllGood(Reduced(pool)) && SlotSum(Reduced(pool)) == SlotSum(pool)
  {
    var p := NextTwo(pool);
    var a, b := pool[p.0].value, pool[p.1].value;
    assert GoodRun(Merge(a, b)) && multiset(Merge(a, b)) == multiset(a) + multiset(b) by { MergeStable(a, b); }
    MergeSlots(pool, p.0, p.1, Merge(a, b));
  }

  lemma {:induction false} MergeSlots<V>(pool: Levels<V>, i: nat, j: nat, r: Run<V>)
    requires i < |pool| && j < |pool| && i != j && pool[i].Some? && pool[j].Some?
    requires multiset(r) == multiset(pool[i].value) + multiset(pool[j].value)
    ensures SlotSum(pool[i := None][j := None] + [Some(r)]) == SlotSum(pool)
  {
    FreeSlot(pool, i);
    FreeSlot(pool[i := None], j);
    AddSlot(pool[i := None][j := None], r);
  }

  lemma {:induction false} LastSlot<V>(pool: Levels<V>)
    requires Live(pool) == 1
    ensures Shortest(pool, |pool|).Some?
    ensures SlotSum(pool) == multiset(Reduce(pool))
  {
    LiveSome(pool);
    var i := Shortest(pool, |pool|).value;
    FreeSlot(pool, i);
    LiveSome(pool[i := None]);
    EmptyLevels(0, pool[i := None]);
  }

  lemma {:induction false} ReduceSorts<V>(pool: Levels<V>)
    requires Live(pool) > 0 && AllGood(pool)
    ensures Sorted(Reduce(pool)) && multiset(Reduce(pool)) == SlotSum(pool)
    decreases Live(pool)
  {
    if Live(pool) == 1 {
      LastSlot(pool);
    } else {
      ReducedKeeps(pool);
      ReduceSorts(Reduced(pool));
    }
  }

  ghost predicate AllGoodRuns<V>(runs: seq<Run<V>>) {
    forall i :: 0 <= i < |runs| ==> GoodRun(runs[i])
  }

  lemma {:induction false} FlattenSorts<V>(runs: seq<Run<V>>)
    requires AllGoodRuns(runs) && DisjointChain(runs)
    ensures multiset(Flatten(runs)) == RunSum(runs)
    ensures Sorted(Flatten(runs))
    ensures runs != [] ==> Flatten(runs) != [] && Flatten(runs)[0] == runs[0][0]
  {
    if runs != [] {
      var rest := runs[1..];
      forall i | 0 <= i < |rest| - 1 ensures Last(rest[i]) <= First(rest[i + 1]) {
        assert rest[i] == runs[i + 1] && rest[i + 1] == runs[i + 2];
      }
      FlattenSorts(rest);
      if rest != [] {
        assert Last(runs[0]) <= First(runs[1]) == Flatten(rest)[0].key;
      }
    }
  }

  lemma {:induction false} OccupiedGood<V>(levels: Levels<V>)
    requires AllGood(levels)
    ensures AllGoodRuns(Occupied(levels))
  {
    var runs := Occupied(levels);
    forall i | 0 <= i < |runs| ensures GoodRun(runs[i]) {
      OccupiedMember(levels, runs[i]);
    }
  }

  lemma {:induction false} CombineSorts<V>(sorted: seq<Run<V>>)
    requires sorted != [] && NonEmpty(sorted) && AllGoodRuns(sorted)
    ensures Sorted(Combine(sorted)) && multiset(Combine(sorted)) == RunSum(sorted)
  {
    if DisjointChain(sorted) {
      FlattenSorts(sorted);
    } else {
      PoolLive(sorted);
      PoolSum(sorted);
      ReduceSorts(Pool(sorted));
    }
  }

  lemma {:induction false} SortedRunsGood<V>(runs: seq<Run<V>>)
    requires AllGoodRuns(runs)
    ensures NonEmpty(runs) && NonEmpty(ByFirstKey(runs)) && |ByFirstKey(runs)| == |runs|
    ensures AllGoodRuns(ByFirstKey(runs)) && RunSum(ByFirstKey(runs)) == RunSum(runs)
  {
    ByFirstKeySum(runs);
    ByFirstKeyMembers(runs);
  }

  /** A drain returns exactly the stored pairs, sorted by key. */
  lemma {:induction false} DrainSorts<V>(levels: Levels<V>)
    requires Filled(levels) && AllGood(levels)
    ensures Sorted(Drain(levels)) && multiset(Drain(levels)) == SlotSum(levels)
  {
    var runs := Occupied(levels);
    OccupiedSum(levels);
    OccupiedGood(levels);
    if |runs| == 1 {
      assert RunSum(runs[1..]) == multiset{};
    } else if |runs| > 1 {
      SortedRunsGood(runs);
      CombineSorts(ByFirstKey(runs));
    }
  }

  // ---- a drain keeps the order of equal keys that share a run ----------------------------------------

  /** Run `r` has all of `history`'s pairs for each of its keys, in their order. */
  ghost predicate Faithful<V>(r: Run<V>, history: Run<V>) {
    forall k :: Has(k, r) ==> WithKey(k, r) == WithKey(k, history)
  }

  /** Two faithful runs drawn from disjoint parts of the history share no key. */
  lemma FaithfulDisjoint<V>(k: int, a: Run<V>, b: Run<V>, history: Run<V>)
    requires Faithful(a, history) && Faithful(b, history)
    requires multiset(a) + multiset(b) <= multiset(history)
    ensures !(Has(k, a) && Has(k, b))
  {
    if Has(k, a) && Has(k, b) {
      WithKeyEmpty(k, a);
      var p := WithKey(k, history)[0];
      assert p in multiset(WithKey(k, history));
      KeyOfWithKey(k, history);
      WithKeyCount(a, p);
      WithKeyCount(b, p);
      WithKeyCount(history, p);
      assert false;
    }
  }

  lemma {:induction false} KeyOfWithKey<V>(k: int, s: Run<V>)
    ensures forall i :: 0 <= i < |WithKey(k, s)| ==> WithKey(k, s)[i].key == k
  {
    if s != [] { KeyOfWithKey(k, s[1..]); }
  }

  /** A run that combines two faithful ones key by key is faithful. */
  lemma {:induction false} FaithfulCombined<V>(r: Run<V>, a: Run<V>, b: Run<V>, history: Run<V>)
    requires Faithful(a, history) && Faithful(b, history)
    requires multiset(a) + multiset(b) <= multiset(history)
    requires forall k :: WithKey(k, r) == WithKey(k, a) + WithKey(k, b)
    ensures Faithful(r, history)
  {
    forall k | Has(k, r) ensures WithKey(k, r) == WithKey(k, history) {
      FaithfulDisjoint(k, a, b, history);
      WithKeyEmpty(k, r);
      WithKeyEmpty(k, a);
      WithKeyEmpty(k, b);
      assert WithKey(k, r) == WithKey(k, a) + WithKey(k, b);
      if Has(k, a) {
        assert WithKey(k, a) + [] == WithKey(k, a);
      } else {
        assert [] + WithKey(k, b) == WithKey(k, b);
      }
    }
  }

  ghost predicate AllFaithful<V>(pool: Levels<V>, history: Run<V>) {
    forall k :: 0 <= k < |pool| && pool[k].Some? ==> Faithful(pool[k].value, history)
  }

  lemma {:induction false} ReducedFaithful<V>(pool: Levels<V>, history: Run<V>)
    requires Live(pool) > 1 && AllGood(pool) && AllFaithful(pool, history)
    requires SlotSum(pool) <= multiset(history)
    ensures AllFaithful(Reduced(pool), history)
  {
    var p := NextTwo(pool);
    TwoSlots(pool, p.0, p.1);
    FaithfulMerge(pool[p.0].value, pool[p.1].value, history);
  }

  lemma {:induction false} TwoSlots<V>(pool: Levels<V>, i: nat, j: nat)
    requires i < |pool| && j < |pool| && i != j && pool[i].Some? && pool[j].Some?
    ensures multiset(pool[i].value) + multiset(pool[j].value) <= SlotSum(pool)
  {
    FreeSlot(pool, i);
    FreeSlot(pool[i := None], j);
  }

  lemma {:induction false} FaithfulMerge<V>(a: Run<V>, b: Run<V>, history: Run<V>)
    requires Sorted(a) && Sorted(b) && Faithful(a, history) && Faithful(b, history)
    requires multiset(a) + multiset(b) <= multiset(history)
    ensures Faithful(Merge(a, b), history)
  {
    forall k ensures WithKey(k, Merge(a, b)) == WithKey(k, a) + WithKey(k, b) {
      MergeWithKey(k, a, b);
    }
    FaithfulCombined(Merge(a, b), a, b, history);
  }

  lemma {:induction false} ReduceFaithful<V>(pool: Levels<V>, history: Run<V>)
    requires Live(pool) > 0 && AllGood(pool) && AllFaithful(pool, history)
    requires SlotSum(pool) <= multiset(history)
    ensures Faithful(Reduce(pool), history)
    decreases Live(pool)
  {
    if Live(pool) == 1 {
      LiveSome(pool);
    } else {
      ReducedKeeps(pool);
      ReducedFaithful(pool, history);
      ReduceFaithful(Reduced(pool), history);
    }
  }

  lemma {:induction false} FlattenFaithful<V>(runs: seq<Run<V>>, history: Run<V>)
    requires AllGoodRuns(runs) && DisjointChain(runs)
    requires AllFaithfulRuns(runs, history)
    requires RunSum(runs) <= multiset(history)
    ensures Faithful(Flatten(runs), history)
  {
    if runs != [] {
      var rest := runs[1..];
      forall i | 0 <= i < |rest| - 1 ensures Last(rest[i]) <= First(rest[i + 1]) {
        assert rest[i] == runs[i + 1] && rest[i + 1] == runs[i + 2];
      }
      FlattenSorts(rest);
      FlattenFaithful(rest, history);
      forall k ensures WithKey(k, Flatten(runs)) == WithKey(k, runs[0]) + WithKey(k, Flatten(rest)) {
        WithKeyAppend(k, runs[0], Flatten(rest));
      }
      FaithfulCombined(Flatten(runs), runs[0], Flatten(rest), history);
    }
  }

  ghost predicate AllFaithfulRuns<V>(runs: seq<Run<V>>, history: Run<V>) {
    forall i :: 0 <= i < |runs| ==> Faithful(runs[i], history)
  }

  lemma {:induction false} CombineFaithful<V>(sorted: seq<Run<V>>, history: Run<V>)
    requires sorted != [] && NonEmpty(sorted) && AllGoodRuns(sorted) && AllFaithfulRuns(sorted, history)
    requires RunSum(sorted) <= multiset(history)
    ensures Faithful(Combine(sorted), history)
  {
    if DisjointChain(sorted) {
      FlattenFaithful(sorted, history);
    } else {
      PoolLive(sorted);
      PoolSum(sorted);
      ReduceFaithful(Pool(sorted), history);
    }
  }

  /** If no key is split over two runs, a drain keeps the arrival order of every key. */
  lemma {:induction false} DrainFaithful<V>(levels: Levels<V>, history: Run<V>)
    requires Filled(levels) && AllGood(levels) && AllFaithful(levels, history)
    requires SlotSum(levels) == multiset(history)
    ensures Faithful(Drain(levels), history)
  {
    var runs := Occupied(levels);
    OccupiedSum(levels);
    OccupiedGood(levels);
    forall i | 0 <= i < |runs| ensures Faithful(runs[i], history) {
      OccupiedMember(levels, runs[i]);
    }
    if |runs| > 1 {
      SortedRunsGood(runs);
      ByFirstKeyMembers(runs);
      assert AllFaithfulRuns(ByFirstKey(runs), history);
      CombineFaithful(ByFirstKey(runs), history);
    }
  }

  /** A faithful drain of the whole history is the stable sort of the history. */
  lemma {:induction false} DrainStable<V>(levels: Levels<V>, history: Run<V>)
    requires Filled(levels) && AllGood(levels) && AllFaithful(levels, history)
    requires SlotSum(levels) == multiset(history)
    ensures Drain(levels) == StableSort(history)
  {
    var out := Drain(levels);
    DrainSorts(levels);
    DrainFaithful(levels, history);
    forall k ensures WithKey(k, out) == WithKey(k, history) {
      HasOfMultiset(k, out, history);
      WithKeyEmpty(k, out);
      WithKeyEmpty(k, history);
    }
    StableSortCharacterised(history, out);
  }
}
