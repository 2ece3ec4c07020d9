/**
 The binary counter of sorted runs: at most one run a level, pushes carry upward by merging.

 `Carry` and `Append` say what the two ways of pushing a sorted run do to the levels, and the lemmas
 say what every push keeps: the balance of the levels, the arrival order of equal keys, the stored
 pairs, and the account of merges against pushes.
 */
module BufferLevels {
  import opened Wrappers
  import opened Basics
  import opened Runs
  import opened Gallop
  import Bags

  type Run<V> = seq<Pair<V>>
  type Levels<V> = seq<Option<Run<V>>>

  // ---- the levels -----------------------------------------------------------------------------

  /** A run that may sit in a level: not empty and sorted. */
  ghost predicate GoodRun<V>(r: Run<V>) {
    r != [] && Sorted(r)
  }

  /** Level `k` (counted from `base`) is free or holds a good run of at least `2^k` pairs. */
  ghost predicate Balanced<V>(levels: Levels<V>, base: nat) {
    forall k :: 0 <= k < |levels| && levels[k].Some? ==>
      GoodRun(levels[k].value) && |levels[k].value| >= Pow2(base + k)
  }

  /** The number of occupied slots. */
  function Live<V>(slots: Levels<V>): (n: nat)
    ensures n <= |slots|
  {
    if slots == [] then 0 else (if slots[0].Some? then 1 else 0) + Live(slots[1..])
  }

  /** All stored pairs. */
  ghost function SlotSum<V>(slots: Levels<V>): multiset<Pair<V>> {
    if slots == [] then multiset{}
    else (if slots[0].Some? then multiset(slots[0].value) else multiset{}) + SlotSum(slots[1..])
  }

  /** The stored pairs with key `k`, from the highest level down and in run order within a level. */
  ghost function Arrivals<V>(k: int, levels: Levels<V>): Run<V> {
    if levels == [] then []
    else Arrivals(k, levels[1..]) + (if levels[0].Some? then WithKey(k, levels[0].value) else [])
  }

  // ---- what a push does -----------------------------------------------------------------------

  function First<V>(r: Run<V>): int
    requires r != []
  {
    r[0].key
  }

  function Last<V>(r: Run<V>): int
    requires r != []
  {
    r[|r| - 1].key
  }

  predicate Filled<V>(levels: Levels<V>) {
    forall k :: 0 <= k < |levels| && levels[k].Some? ==> levels[k].value != []
  }

  /** Pushing a sorted run: append, prepend, settle in a free level, or merge and carry. */
  function Carry<V>(levels: Levels<V>, run: Run<V>): (r: Levels<V>)
    requires Filled(levels) && run != []
  {
    if levels == [] then [Some(run)]
    else match levels[0]
      case None => [Some(run)] + levels[1..]
      case Some(existing) =>
        if Last(existing) <= First(run) then [Some(existing + run)] + levels[1..]
        else if Last(run) < First(existing) then [Some(run + existing)] + levels[1..]
        else [None] + Carry(levels[1..], Merge(existing, run))
  }

  /** The number of merges that `Carry` performs. */
  ghost function Carries<V>(levels: Levels<V>, run: Run<V>): nat
    requires Filled(levels) && run != []
  {
    if levels == [] || levels[0].None? then 0
    else
      var existing := levels[0].value;
      if Last(existing) <= First(run) || Last(run) < First(existing) then 0
      else 1 + Carries(levels[1..], Merge(existing, run))
  }

  /** The lowest of the first `n` levels whose run ends with the greatest key. */
  function Farthest<V>(levels: Levels<V>, n: nat): (i: Option<nat>)
    requires n <= |levels| && Filled(levels)
    ensures i.Some? ==> i.value < n && levels[i.value].Some?
  {
    if n == 0 then None
    else if levels[n - 1].None? then Farthest(levels, n - 1)
    else match Farthest(levels, n - 1)
      case None => Some(n - 1)
      case Some(j) =>
        if Last(levels[n - 1].value) > Last(levels[j].value) then Some(n - 1) else Some(j)
  }

  /** Pushing a sorted run that is expected to follow everything stored so far. */
  function Append<V>(levels: Levels<V>, run: Run<V>): (r: Levels<V>)
    requires Filled(levels) && run != []
  {
    match Farthest(levels, |levels|)
    case None => [Some(run)]
    case Some(i) =>
      if Last(levels[i].value) <= First(run) then levels[i := Some(levels[i].value + run)]
      else Carry(levels, run)
  }

  // ---- Carry ----------------------------------------------------------------------------------

  lemma TailBalanced<V>(levels: Levels<V>, base: nat)
    requires levels != [] && Balanced(levels, base)
    ensures Balanced(levels[1..], base + 1)
  {
    forall k | 0 <= k < |levels[1..]| && levels[1..][k].Some?
      ensures GoodRun(levels[1..][k].value) && |levels[1..][k].value| >= Pow2(base + 1 + k)
    {
      assert levels[1..][k] == levels[k + 1] && base + 1 + k == base + (k + 1);
    }
  }

  lemma {:induction false} ArrivalsBottom<V>(k: int, slot: Option<Run<V>>, tail: Levels<V>)
    ensures Arrivals(k, [slot] + tail) == Arrivals(k, tail) + (if slot.Some? then WithKey(k, slot.value) else [])
  {
    assert ([slot] + tail)[1..] == tail;
  }

  lemma {:induction false} WithKeyBeyond<V>(k: int, r: Run<V>)
    requires GoodRun(r) && (k < First(r) || Last(r) < k)
    ensures WithKey(k, r) == []
  {
    WithKeyAbsent(k, r);
  }

  lemma {:induction false} PrependWithKey<V>(k: int, existing: Run<V>, run: Run<V>)
    requires GoodRun(existing) && GoodRun(run) && Last(run) < First(existing)
    ensures WithKey(k, run + existing) == WithKey(k, existing) + WithKey(k, run)
  {
    WithKeyAppend(k, run, existing);
    if k < First(existing) { WithKeyBeyond(k, existing); } else { WithKeyBeyond(k, run); }
  }

  /** How the run that `Carry` leaves in the bottom slot, or carries, relates to the two it came from. */
  ghost predicate Combines<V>(k: int, r: Run<V>, existing: Run<V>, run: Run<V>) {
    WithKey(k, r) == WithKey(k, existing) + WithKey(k, run)
  }

  lemma {:induction false} ReplaceBottom<V>(k: int, tail: Levels<V>, existing: Run<V>, run: Run<V>, r: Run<V>)
    requires Combines(k, r, existing, run)
    ensures Arrivals(k, [Some(r)] + tail) == Arrivals(k, [Some(existing)] + tail) + WithKey(k, run)
  {
    ArrivalsBottom(k, Some(r), tail);
    ArrivalsBottom(k, Some(existing), tail);
    Regroup(Arrivals(k, tail), WithKey(k, existing), WithKey(k, run));
  }

  lemma {:induction false} CarryPast<V>(k: int, tail: Levels<V>, existing: Run<V>, run: Run<V>, r: Run<V>,
                                        carried: Levels<V>)
    requires Combines(k, r, existing, run)
    requires Arrivals(k, carried) == Arrivals(k, tail) + WithKey(k, r)
    ensures Arrivals(k, [None] + carried) == Arrivals(k, [Some(existing)] + tail) + WithKey(k, run)
  {
    ArrivalsBottom(k, None, carried);
    ArrivalsBottom(k, Some(existing), tail);
    Regroup(Arrivals(k, tail), WithKey(k, existing), WithKey(k, run));
  }

  /** A pushed run arrives after everything that is stored. */
  lemma {:induction false} CarryArrivals<V>(k: int, levels: Levels<V>, run: Run<V>, base: nat)
    requires Balanced(levels, base) && GoodRun(run)
    ensures Arrivals(k, Carry(levels, run)) == Arrivals(k, levels) + WithKey(k, run)
    decreases |levels|, 1
  {
    if levels == [] {
    } else if levels[0].None? {
      assert levels == [None] + levels[1..];
      ArrivalsBottom(k, Some(run), levels[1..]);
      ArrivalsBottom(k, None, levels[1..]);
    } else {
      var existing, tail := levels[0].value, levels[1..];
      assert levels == [Some(existing)] + tail;
      if Last(existing) <= First(run) {
        WithKeyAppend(k, existing, run);
        ReplaceBottom(k, tail, existing, run, existing + run);
      } else if Last(run) < First(existing) {
        PrependWithKey(k, existing, run);
        ReplaceBottom(k, tail, existing, run, run + existing);
      } else {
        TailBalanced(levels, base);
        CarryMerged(k, existing, tail, run, base);
      }
    }
  }

  lemma {:induction false} CarryMerged<V>(k: int, existing: Run<V>, tail: Levels<V>, run: Run<V>, base: nat)
    requires Balanced(tail, base + 1) && GoodRun(existing) && GoodRun(run)
    requires Last(existing) > First(run) && Last(run) >= First(existing)
    ensures Arrivals(k, [None] + Carry(tail, Merge(existing, run)))
         == Arrivals(k, [Some(existing)] + tail) + WithKey(k, run)
    decreases |tail| + 1, 0
  {
    var merged := Merge(existing, run);
    assert GoodRun(merged) by { MergeStable(existing, run); }
    assert Combines(k, merged, existing, run) by { MergeWithKey(k, existing, run); }
    CarryArrivals(k, tail, merged, base + 1);
    CarryPast(k, tail, existing, run, merged, Carry(tail, merged));
  }

  /** A push keeps the balance: a run carried out of level `k` has at least `2^(k+1)` pairs. */
  lemma {:induction false} CarryBalanced<V>(levels: Levels<V>, run: Run<V>, base: nat)
    requires Balanced(levels, base) && GoodRun(run) && |run| >= Pow2(base)
    ensures Balanced(Carry(levels, run), base)
    decreases |levels|
  {
    if levels == [] {
    } else if levels[0].None? {
      ReplaceBalanced(levels, base, 0, run);
      assert levels[0 := Some(run)] == [Some(run)] + levels[1..];
    } else {
      var existing, tail := levels[0].value, levels[1..];
      assert |existing| >= Pow2(base + 0);
      if Last(existing) <= First(run) {
        ReplaceBalanced(levels, base, 0, existing + run);
        assert levels[0 := Some(existing + run)] == [Some(existing + run)] + tail;
      } else if Last(run) < First(existing) {
        ReplaceBalanced(levels, base, 0, run + existing);
        assert levels[0 := Some(run + existing)] == [Some(run + existing)] + tail;
      } else {
        var merged := Merge(existing, run);
        assert GoodRun(merged) by { MergeStable(existing, run); }
        assert |merged| >= 2 * Pow2(base) == Pow2(base + 1);
        TailBalanced(levels, base);
        CarryBalanced(tail, merged, base + 1);
        ShiftBalanced(Carry(tail, merged), base);
      }
    }
  }

  lemma ReplaceBalanced<V>(levels: Levels<V>, base: nat, i: nat, r: Run<V>)
    requires i < |levels| && Balanced(levels, base) && GoodRun(r) && |r| >= Pow2(base + i)
    ensures Balanced(levels[i := Some(r)], base)
  {
  }

  lemma ShiftBalanced<V>(tail: Levels<V>, base: nat)
    requires Balanced(tail, base + 1)
    ensures Balanced([None] + tail, base)
  {
    var levels := [None] + tail;
    forall k | 0 <= k < |levels| && levels[k].Some?
      ensures GoodRun(levels[k].value) && |levels[k].value| >= Pow2(base + k)
    {
      assert levels[k] == tail[k - 1] && base + k == base + 1 + (k - 1);
    }
  }

  /** Every merge frees a run and only the push itself adds one. */
  lemma {:induction false} CarryAccount<V>(levels: Levels<V>, run: Run<V>)
    requires Filled(levels) && run != []
    ensures Carries(levels, run) + Live(Carry(levels, run)) <= Live(levels) + 1
    decreases |levels|
  {
    if levels != [] {
      var tail := levels[1..];
      assert Carry(levels, run) == [Carry(levels, run)[0]] + Carry(levels, run)[1..];
      if levels[0].Some? && Carry(levels, run)[0].None? {
        CarryAccount(tail, Merge(levels[0].value, run));
        assert Carry(levels, run)[1..] == Carry(tail, Merge(levels[0].value, run));
      } else {
        assert Carry(levels, run)[1..] == tail;
      }
    }
  }

  // ---- Append -----------------------------------------------------------------------------------

  /** The scan finds the greatest last key, strictly greater than that of every lower level. */
  lemma {:induction false} FarthestIsGreatest<V>(levels: Levels<V>, n: nat)
    requires n <= |levels| && Filled(levels)
    ensures Farthest(levels, n).None? <==> forall k :: 0 <= k < n ==> levels[k].None?
    ensures Farthest(levels, n).Some? ==>
              var i := Farthest(levels, n).value;
              forall k :: 0 <= k < n && levels[k].Some? ==>
                if k < i then Last(levels[k].value) < Last(levels[i].value)
                else Last(levels[k].value) <= Last(levels[i].value)
  {
    if n > 0 {
      FarthestIsGreatest(levels, n - 1);
    }
  }

  /** Extending the run of level `i` keeps arrival order when every lower level ends before the new run. */
  lemma {:induction false} ExtendArrivals<V>(k: int, levels: Levels<V>, run: Run<V>, i: nat, base: nat)
    requires Balanced(levels, base) && GoodRun(run)
    requires i < |levels| && levels[i].Some?
    requires forall j :: 0 <= j < i && levels[j].Some? ==> Last(levels[j].value) < First(run)
    ensures Arrivals(k, levels[i := Some(levels[i].value + run)]) == Arrivals(k, levels) + WithKey(k, run)
    decreases i
  {
    var tail := levels[1..];
    assert levels == [levels[0]] + tail;
    if i == 0 {
      var existing := levels[0].value;
      assert levels[0 := Some(existing + run)] == [Some(existing + run)] + tail;
      WithKeyAppend(k, existing, run);
      ReplaceBottom(k, tail, existing, run, existing + run);
    } else {
      var tail' := tail[i - 1 := Some(tail[i - 1].value + run)];
      assert levels[i := Some(levels[i].value + run)] == [levels[0]] + tail';
      TailBalanced(levels, base);
      ExtendArrivals(k, tail, run, i - 1, base + 1);
      ExtendPast(k, levels[0], tail, tail', run);
    }
  }

  lemma {:induction false} ExtendPast<V>(k: int, slot: Option<Run<V>>, tail: Levels<V>, tail': Levels<V>, run: Run<V>)
    requires GoodRun(run) && (slot.Some? ==> GoodRun(slot.value) && Last(slot.value) < First(run))
    requires Arrivals(k, tail') == Arrivals(k, tail) + WithKey(k, run)
    ensures Arrivals(k, [slot] + tail') == Arrivals(k, [slot] + tail) + WithKey(k, run)
  {
    ArrivalsBottom(k, slot, tail);
    ArrivalsBottom(k, slot, tail');
    if slot.Some? {
      assert WithKey(k, slot.value) == [] || WithKey(k, run) == [] by {
        if k < First(run) { WithKeyBeyond(k, run); } else { WithKeyBeyond(k, slot.value); }
      }
      Regroup(Arrivals(k, tail), WithKey(k, slot.value), WithKey(k, run));
    } else {
      Regroup(Arrivals(k, tail), [], WithKey(k, run));
    }
  }

  lemma {:induction false} EmptyLevels<V>(k: int, levels: Levels<V>)
    requires forall j :: 0 <= j < |levels| ==> levels[j].None?
    ensures Arrivals(k, levels) == [] && Live(levels) == 0 && SlotSum(levels) == multiset{}
    decreases |levels|
  {
    if levels != [] { EmptyLevels(k, levels[1..]); }
  }

  lemma {:induction false} AppendArrivals<V>(k: int, levels: Levels<V>, run: Run<V>)
    requires Balanced(levels, 0) && GoodRun(run)
    ensures Arrivals(k, Append(levels, run)) == Arrivals(k, levels) + WithKey(k, run)
  {
    FarthestIsGreatest(levels, |levels|);
    match Farthest(levels, |levels|)
    case None =>
      EmptyLevels(k, levels);
    case Some(i) =>
      if Last(levels[i].value) <= First(run) {
        ExtendArrivals(k, levels, run, i, 0);
      } else {
        CarryArrivals(k, levels, run, 0);
      }
  }

  lemma AppendBalanced<V>(levels: Levels<V>, run: Run<V>)
    requires Balanced(levels, 0) && GoodRun(run)
    ensures Balanced(Append(levels, run), 0)
  {
    match Farthest(levels, |levels|)
    case None =>
    case Some(i) =>
      if Last(levels[i].value) <= First(run) {
        ReplaceBalanced(levels, 0, i, levels[i].value + run);
      } else {
        CarryBalanced(levels, run, 0);
      }
  }

  lemma {:induction false} ReplaceLive<V>(slots: Levels<V>, i: nat, r: Run<V>)
    requires i < |slots| && slots[i].Some?
    ensures Live(slots[i := Some(r)]) == Live(slots)
  {
    if i > 0 {
      assert slots[i := Some(r)][1..] == slots[1..][i - 1 := Some(r)];
      ReplaceLive(slots[1..], i - 1, r);
    }
  }

  /** The merges of a push through `Append`, which only merges when it falls back to `Carry`. */
  ghost function AppendCarries<V>(levels: Levels<V>, run: Run<V>): nat
    requires Filled(levels) && run != []
  {
    match Farthest(levels, |levels|)
    case None => 0
    case Some(i) => if Last(levels[i].value) <= First(run) then 0 else Carries(levels, run)
  }

  lemma {:induction false} AppendAccount<V>(levels: Levels<V>, run: Run<V>)
    requires Filled(levels) && run != []
    ensures AppendCarries(levels, run) + Live(Append(levels, run)) <= Live(levels) + 1
  {
    match Farthest(levels, |levels|)
    case None =>
      assert Live([Some(run)]) == 1;
    case Some(i) =>
      if Last(levels[i].value) <= First(run) {
        ReplaceLive(levels, i, levels[i].value + run);
      } else {
        CarryAccount(levels, run);
      }
  }

  // ---- what balance and arrival order give --------------------------------------------------------

  /** `n` occupied levels, each of at least `2^k` pairs, hold at least `2^n - 1` pairs between them. */
  lemma {:induction false} RunsAreLogarithmic<V>(levels: Levels<V>)
    requires Balanced(levels, 0)
    ensures Pow2(Live(levels)) <= |SlotSum(levels)| + 1
    decreases |levels|
  {
    if levels != [] {
      var n := |levels| - 1;
      RunsAreLogarithmic(levels[..n]);
      SplitTop(levels);
      if levels[n].Some? {
        Pow2Monotone(Live(levels[..n]), n);
        assert |levels[n].value| >= Pow2(0 + n);
      }
    }
  }

  lemma {:induction false} SplitTop<V>(slots: Levels<V>)
    requires slots != []
    ensures var n := |slots| - 1;
            && Live(slots) == Live(slots[..n]) + (if slots[n].Some? then 1 else 0)
            && SlotSum(slots) == SlotSum(slots[..n]) + (if slots[n].Some? then multiset(slots[n].value) else multiset{})
    decreases |slots|
  {
    var n := |slots| - 1;
    if n > 0 {
      SplitTop(slots[1..]);
      assert slots[1..][..n - 1] == slots[..n][1..];
    }
  }

  lemma {:induction false} Pow2Monotone(a: nat, b: nat)
    requires a <= b
    ensures Pow2(a) <= Pow2(b)
    decreases b - a
  {
    if a < b { Pow2Monotone(a, b - 1); }
  }

  /** Which pairs are stored can be read off the arrivals key by key. */
  lemma {:induction false} ArrivalsCount<V>(levels: Levels<V>, p: Pair<V>)
    ensures SlotSum(levels)[p] == multiset(Arrivals(p.key, levels))[p]
    decreases |levels|
  {
    if levels != [] {
      ArrivalsCount(levels[1..], p);
      if levels[0].Some? {
        WithKeyCount(levels[0].value, p);
      }
    }
  }

  lemma ArrivalsDetermineContents<V>(levels: Levels<V>, history: Run<V>)
    requires forall k :: Arrivals(k, levels) == WithKey(k, history)
    ensures SlotSum(levels) == multiset(history)
  {
    forall p: Pair<V> ensures SlotSum(levels)[p] == multiset(history)[p] {
      ArrivalsCount(levels, p);
      WithKeyCount(history, p);
      assert Arrivals(p.key, levels) == WithKey(p.key, history);
    }
    Bags.SameMultiset(SlotSum(levels), multiset(history));
  }
}
