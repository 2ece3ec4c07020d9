/**
 The merge buffer itself, and what its callers get over every sequence of operations.
 */
module SortBuffer {
  import opened Wrappers
  import opened Runs
  import opened Gallop
  import opened BufferLevels
  import opened BufferDrain

  // ---- the heap of run lengths --------------------------------------------------------------------

  /** A heap entry: the length of a pooled run and the run's slot. */
  datatype Queued = Queued(len: nat, idx: nat)

  /** The order of the heap: shorter first, and of equal lengths the later slot first. */
  predicate Above(a: Queued, b: Queued) {
    a.len < b.len || (a.len == b.len && a.idx >= b.idx)
  }

  ghost predicate HeapOf<V>(pool: Levels<V>, heap: set<Queued>) {
    forall q :: q in heap <==> q.idx < |pool| && pool[q.idx].Some? && q.len == |pool[q.idx].value|
  }

  lemma {:induction false} HeapTop(heap: set<Queued>)
    requires heap != {}
    ensures exists top :: top in heap && forall q :: q in heap ==> Above(top, q)
  {
    var x :| x in heap;
    var rest := heap - {x};
    if rest == {} {
      assert heap == {x};
      assert forall q :: q in heap ==> Above(x, q);
    } else {
      HeapTop(rest);
      var t :| t in rest && forall q :: q in rest ==> Above(t, q);
      var top := if Above(t, x) then t else x;
      assert forall q :: q in heap ==> q == x || q in rest;
      assert top in heap && forall q :: q in heap ==> Above(top, q);
    }
  }

  method PopHeap(heap: set<Queued>) returns (top: Queued, rest: set<Queued>)
    requires heap != {}
    ensures top in heap && rest == heap - {top}
    ensures forall q :: q in heap ==> Above(top, q)
  {
    HeapTop(heap);
    top :| top in heap && forall q :: q in heap ==> Above(top, q);
    rest := heap - {top};
  }

  lemma {:induction false} TopIsShortest<V>(pool: Levels<V>, heap: set<Queued>, top: Queued)
    requires HeapOf(pool, heap) && top in heap && forall q :: q in heap ==> Above(top, q)
    ensures Shortest(pool, |pool|) == Some(top.idx)
  {
    var i := Shortest(pool, |pool|).value;
    assert Queued(|pool[i].value|, i) in heap;
    assert Above(top, Queued(|pool[i].value|, i));
  }

  /** Merging the two shortest pooled runs until one is left. */
  method ReducePool<V>(runs: seq<Run<V>>) returns (out: Run<V>)
    requires runs != [] && AllGoodRuns(runs)
    ensures Live(Pool(runs)) > 0 && out == Reduce(Pool(runs))
  {
    var pool := Pool(runs);
    PoolLive(runs);
    var heap: set<Queued> := {};
    for i := 0 to |pool|
      invariant forall q :: q in heap <==> q.idx < i && q.len == |pool[q.idx].value|
      invariant |heap| == i
    {
      heap := heap + {Queued(|pool[i].value|, i)};
    }
    while |heap| > 1
      invariant HeapOf(pool, heap) && |heap| == Live(pool) > 0 && AllGood(pool)
      invariant Reduce(pool) == Reduce(Pool(runs))
      decreases |heap|
    {
      pool, heap := MergeTwoShortest(pool, heap);
    }
    assert |heap| == 1;
    var top, _ := PopHeap(heap);
    TopIsShortest(pool, heap, top);
    out := pool[top.idx].value;
  }

  /** Pops the heap's top and takes its run out of the pool. */
  method PopShortest<V>(pool: Levels<V>, heap: set<Queued>)
    returns (idx: nat, run: Run<V>, pool': Levels<V>, heap': set<Queued>)
    requires HeapOf(pool, heap) && heap != {}
    ensures Shortest(pool, |pool|) == Some(idx) && run == pool[idx].value
    ensures pool' == pool[idx := None]
    ensures HeapOf(pool', heap') && |heap'| == |heap| - 1
  {
    var top, rest := PopHeap(heap);
    TopIsShortest(pool, heap, top);
    idx, heap' := top.idx, rest;
    run := pool[idx].value;
    pool' := pool[idx := None];
  }

  /** One round of the reduction: pop twice, merge, and queue the result under a fresh slot. */
  method MergeTwoShortest<V>(pool: Levels<V>, heap: set<Queued>) returns (pool': Levels<V>, heap': set<Queued>)
    requires HeapOf(pool, heap) && |heap| == Live(pool) > 1 && AllGood(pool)
    ensures pool' == Reduced(pool) && AllGood(pool')
    ensures HeapOf(pool', heap') && |heap'| == Live(pool') == |heap| - 1
  {
    ReducedKeeps(pool);
    var ia, a, pool1, heap1 := PopShortest(pool, heap);
    var ib, b, pool2, heap2 := PopShortest(pool1, heap1);
    assert NextTwo(pool) == (ia, ib) && GoodRun(a) && GoodRun(b);
    var merged := MergeSortedByKeyGallop(a, b);
    pool', heap' := QueueRun(pool2, heap2, merged);
  }

  method QueueRun<V>(pool: Levels<V>, heap: set<Queued>, run: Run<V>) returns (pool': Levels<V>, heap': set<Queued>)
    requires HeapOf(pool, heap)
    ensures pool' == pool + [Some(run)]
    ensures HeapOf(pool', heap') && |heap'| == |heap| + 1
  {
    pool' := pool + [Some(run)];
    heap' := heap + {Queued(|run|, |pool|)};
    forall q ensures q in heap' <==> q.idx < |pool'| && pool'[q.idx].Some? && q.len == |pool'[q.idx].value| {
      assert q.idx < |pool| ==> pool'[q.idx] == pool[q.idx];
    }
  }

  /** The drain of runs that form a chain. */
  method Concatenate<V>(runs: seq<Run<V>>) returns (out: Run<V>)
    ensures out == Flatten(runs)
  {
    out := [];
    for i := 0 to |runs|
      invariant Flatten(runs) == out + Flatten(runs[i..])
    {
      assert runs[i..][0] == runs[i] && runs[i..][1..] == runs[i + 1..];
      out := out + runs[i];
    }
  }

  // ---- the buffer -----------------------------------------------------------------------------------

  /** Between two levels: what is below stays, and carrying `pending` into the rest gives the target. */
  ghost predicate Carrying<V>(target: Levels<V>, levels: Levels<V>, pending: Run<V>, lvl: nat) {
    && lvl <= |levels| && GoodRun(pending)
    && Filled(levels[lvl..]) && AllGood(levels)
    && target == levels[..lvl] + Carry(levels[lvl..], pending)
  }

  predicate Settles<V>(levels: Levels<V>, pending: Run<V>, lvl: nat)
    requires lvl <= |levels| && pending != [] && Filled(levels)
  {
    lvl == |levels| || levels[lvl].None?
    || Last(levels[lvl].value) <= First(pending) || Last(pending) < First(levels[lvl].value)
  }

  /** Every way in which a carry ends. */
  lemma {:induction false} CarrySettles<V>(target: Levels<V>, levels: Levels<V>, pending: Run<V>, lvl: nat)
    requires Carrying(target, levels, pending, lvl)
    ensures lvl == |levels| ==> target == levels + [Some(pending)]
    ensures lvl < |levels| && levels[lvl].None? ==> target == levels[lvl := Some(pending)]
    ensures lvl < |levels| && levels[lvl].Some? ==>
              var existing := levels[lvl].value;
              if Last(existing) <= First(pending) then target == levels[lvl := Some(existing + pending)]
              else Last(pending) < First(existing) ==> target == levels[lvl := Some(pending + existing)]
    ensures Settles(levels, pending, lvl) ==> Carries(levels[lvl..], pending) == 0
  {
    if lvl < |levels| {
      assert levels[lvl..][0] == levels[lvl] && levels[lvl..][1..] == levels[lvl + 1..];
      forall r: Run<V> ensures levels[lvl := Some(r)] == levels[..lvl] + ([Some(r)] + levels[lvl + 1..]) {
      }
    }
  }

  /** A merge moves the carry one level up and leaves the level free. */
  lemma {:induction false} CarryMoves<V>(target: Levels<V>, levels: Levels<V>, pending: Run<V>, lvl: nat)
    requires Carrying(target, levels, pending, lvl)
    requires lvl < |levels| && levels[lvl].Some?
    requires Last(levels[lvl].value) > First(pending) && Last(pending) >= First(levels[lvl].value)
    ensures Carrying(target, levels[lvl := None], Merge(levels[lvl].value, pending), lvl + 1)
    ensures Carries(levels[lvl..], pending)
              == 1 + Carries(levels[lvl := None][lvl + 1..], Merge(levels[lvl].value, pending))
  {
    var merged, upper := Merge(levels[lvl].value, pending), levels[lvl + 1..];
    assert levels[lvl..][0] == levels[lvl] && levels[lvl..][1..] == upper;
    assert GoodRun(merged) by { MergeStable(levels[lvl].value, pending); }
    assert levels[lvl := None][lvl + 1..] == upper;
    assert levels[..lvl] + ([None] + Carry(upper, merged)) == levels[lvl := None][..lvl + 1] + Carry(upper, merged);
  }

  /** `merges` is ghost: the galloping merges that pushes have performed. */
  class MergeBuffer<V> {
    var levels: Levels<V>
    ghost var merges: nat

    ghost predicate Valid()
      reads this
    {
      Balanced(levels, 0)
    }

    constructor ()
      ensures Valid() && levels == [] && merges == 0
    {
      levels, merges := [], 0;
    }

    /** The buffer after a first push of the run. */
    constructor FromSorted(sorted: Run<V>)
      requires Sorted(sorted)
      ensures Valid() && merges == 0
      ensures levels == if sorted == [] then [] else Carry([], sorted)
    {
      levels := if sorted == [] then [] else [Some(sorted)];
      merges := 0;
    }

    method Clear()
      modifies this
      ensures Valid() && levels == [] && merges == old(merges)
    {
      levels := [];
    }

    method IsEmpty() returns (b: bool)
      requires Valid()
      ensures b <==> SlotSum(levels) == multiset{}
    {
      b := forall k :: 0 <= k < |levels| ==> levels[k].None?;
      EmptyIffNoPairs(levels);
    }

    method MergeUnsorted(run: Run<V>)
      requires Valid()
      modifies this
      ensures Valid()
      ensures levels == if run == [] then old(levels) else Carry(old(levels), StableSort(run))
      ensures merges == old(merges) + if run == [] then 0 else Carries(old(levels), StableSort(run))
    {
      if run == [] { return; }
      StableSortSorts(run);
      MergeSorted(StableSort(run));
    }

    method AppendSorted(run: Run<V>)
      requires Valid() && Sorted(run)
      modifies this
      ensures Valid()
      ensures levels == if run == [] then old(levels) else Append(old(levels), run)
      ensures merges == old(merges) + if run == [] then 0 else AppendCarries(old(levels), run)
    {
      if run == [] { return; }
      AppendBalanced(levels, run);
      var nRuns := 0;
      var onlyIdx: Option<nat>, maxIdx: Option<nat> := None, None;
      for i := 0 to |levels|
        invariant nRuns == 0 <==> maxIdx.None?
        invariant onlyIdx.Some? <==> maxIdx.Some?
        invariant nRuns == 1 ==> onlyIdx == maxIdx
        invariant maxIdx == Farthest(levels, i)
      {
        if levels[i].Some? {
          nRuns := nRuns + 1;
          if onlyIdx.None? { onlyIdx := Some(i); }
          match maxIdx
          case None => maxIdx := Some(i);
          case Some(j) =>
            if Last(levels[i].value) > Last(levels[j].value) { maxIdx := Some(i); }
        }
      }
      if nRuns == 0 {
        levels := [];
        levels := levels + [Some(run)];
        return;
      }
      if nRuns == 1 {
        var idx := onlyIdx.value;
        if !(Last(levels[idx].value) > First(run)) {
          levels := levels[idx := Some(levels[idx].value + run)];
        } else {
          MergeSorted(run);
        }
        return;
      }
      var mx := maxIdx.value;
      if !(Last(levels[mx].value) > First(run)) {
        levels := levels[mx := Some(levels[mx].value + run)];
        return;
      }
      MergeSorted(run);
    }

    method MergeSorted(run: Run<V>)
      requires Valid() && Sorted(run)
      modifies this
      ensures Valid()
      ensures levels == if run == [] then old(levels) else Carry(old(levels), run)
      ensures merges == old(merges) + if run == [] then 0 else Carries(old(levels), run)
    {
      if run == [] { return; }
      CarryBalanced(levels, run, 0);
      ghost var target := Carry(levels, run);
      var pending, lvl := run, 0;
      assert levels[..0] == [] && levels[0..] == levels;
      while true
        invariant 0 <= lvl <= |levels| && Carrying(target, levels, pending, lvl)
        invariant merges + Carries(levels[lvl..], pending) == old(merges) + Carries(old(levels), run)
        decreases |levels| - lvl
      {
        if |levels| == lvl {
          CarrySettles(target, levels, pending, lvl);
          levels := levels + [Some(pending)];
          break;
        }
        ghost var before := levels;
        match levels[lvl]
        case None =>
          CarrySettles(target, levels, pending, lvl);
          levels := levels[lvl := Some(pending)];
          break;
        case Some(existing) =>
          levels := levels[lvl := None];
          if Last(existing) <= First(pending) {
            CarrySettles(target, before, pending, lvl);
            levels := levels[lvl := Some(existing + pending)];
            assert levels == before[lvl := Some(existing + pending)];
            break;
          }
          if Last(pending) < First(existing) {
            CarrySettles(target, before, pending, lvl);
            levels := levels[lvl := Some(pending + existing)];
            assert levels == before[lvl := Some(pending + existing)];
            break;
          }
          CarryMoves(target, before, pending, lvl);
          pending := MergeSortedByKeyGallop(existing, pending);
          merges := merges + 1;
          lvl := lvl + 1;
      }
    }

    method TakeSorted() returns (out: Run<V>)
      requires Valid()
      modifies this
      ensures Valid() && levels == [] && merges == old(merges)
      ensures out == Drain(old(levels))
    {
      var runs := Occupied(levels);
      OccupiedGood(levels);
      levels := [];
      if |runs| == 0 { return []; }
      if |runs| == 1 { return runs[0]; }
      SortedRunsGood(runs);
      runs := ByFirstKey(runs);
      if DisjointChain(runs) {
        out := Concatenate(runs);
        return;
      }
      out := ReducePool(runs);
    }

    /** How many levels are occupied. */
    method Runs() returns (n: nat)
      ensures n == |set k | 0 <= k < |levels| && levels[k].Some?|
    {
      n := 0;
      ghost var occupied: set<int> := {};
      for i := 0 to |levels|
        invariant occupied == (set k | 0 <= k < i && levels[k].Some?) && n == |occupied|
      {
        if levels[i].Some? {
          n := n + 1;
          occupied := occupied + {i};
        }
      }
    }
  }

  /** The number of occupied levels, counted by their indices. */
  lemma OccupiedIndices<V>(levels: Levels<V>, m: nat, before: set<int>, all: set<int>)
    requires |levels| == m + 1 && before == (set k | 0 <= k < m && levels[..m][k].Some?)
    requires all == (set k | 0 <= k < |levels| && levels[k].Some?)
    ensures |all| == |before| + (if levels[m].Some? then 1 else 0)
  {
    assert all == before + (if levels[m].Some? then {m} else {});
    assert m !in before;
  }

  lemma {:induction false} LiveIsCardinality<V>(levels: Levels<V>)
    ensures |set k | 0 <= k < |levels| && levels[k].Some?| == Live(levels)
  {
    if levels != [] {
      var m := |levels| - 1;
      LiveIsCardinality(levels[..m]);
      SplitTop(levels);
      OccupiedIndices(levels, m, set k | 0 <= k < |levels[..m]| && levels[..m][k].Some?,
                      set k | 0 <= k < |levels| && levels[k].Some?);
    }
  }

  lemma {:induction false} EmptyIffNoPairs<V>(levels: Levels<V>)
    requires Filled(levels)
    ensures SlotSum(levels) == multiset{} <==> forall k :: 0 <= k < |levels| ==> levels[k].None?
  {
    if k :| 0 <= k < |levels| && levels[k].Some? {
      FreeSlot(levels, k);
      assert levels[k].value[0] in SlotSum(levels);
    } else {
      EmptyLevels(0, levels);
    }
  }
}
