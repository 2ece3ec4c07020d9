/**
 The merge buffer over whole runs of operations: what every reachable buffer keeps, and what every
 drain returns in terms of the pushes alone.
 */
module BufferHistory {
  import opened Wrappers
  import opened Runs
  import opened Gallop
  import opened BufferLevels
  import opened BufferDrain
  import opened SortBuffer

  datatype Op<V> =
    | PushUnsorted(run: Run<V>)
    | PushAppend(run: Run<V>)
    | PushSorted(run: Run<V>)
    | Clear
    | Take

  /** The two pushes that expect a sorted run. */
  ghost predicate Legal<V>(ops: seq<Op<V>>) {
    forall i :: 0 <= i < |ops| && (ops[i].PushAppend? || ops[i].PushSorted?) ==> Sorted(ops[i].run)
  }

  // ---- the reference: pushes alone ------------------------------------------------------------------

  /** Everything pushed since the last clear or drain, in arrival order. */
  function Since<V>(ops: seq<Op<V>>): Run<V> {
    if ops == [] then []
    else Extended(Since(ops[..|ops| - 1]), ops[|ops| - 1])
  }

  function Extended<V>(since: Run<V>, op: Op<V>): Run<V> {
    if op.Clear? || op.Take? then [] else since + op.run
  }

  predicate IsPush<V>(op: Op<V>) {
    !op.Clear? && !op.Take? && op.run != []
  }

  /** What had been pushed since the last clear or drain when each drain happened. */
  function Histories<V>(ops: seq<Op<V>>): seq<Run<V>> {
    if ops == [] then []
    else
      var front := ops[..|ops| - 1];
      Histories(front) + (if ops[|ops| - 1].Take? then [Since(front)] else [])
  }

  /** The number of pushes of a non-empty run. */
  function Pushes<V>(ops: seq<Op<V>>): nat {
    if ops == [] then 0
    else Pushes(ops[..|ops| - 1]) + (if IsPush(ops[|ops| - 1]) then 1 else 0)
  }

  // ---- the buffer -----------------------------------------------------------------------------------

  /** The levels, and the merges performed by pushes so far. */
  datatype State<V> = State(levels: Levels<V>, merges: nat)

  /** What a buffer with history `since` and `pushes` pushes keeps. */
  ghost predicate Sound<V>(st: State<V>, since: Run<V>, pushes: nat) {
    && Balanced(st.levels, 0)
    && (forall k :: Arrivals(k, st.levels) == WithKey(k, since))
    && st.merges + Live(st.levels) <= pushes
  }

  ghost function Next<V>(st: State<V>, op: Op<V>): State<V>
    requires Filled(st.levels)
  {
    match op
    case PushUnsorted(run) =>
      if run == [] then st
      else State(Carry(st.levels, StableSort(run)), st.merges + Carries(st.levels, StableSort(run)))
    case PushAppend(run) =>
      if run == [] then st
      else State(Append(st.levels, run), st.merges + AppendCarries(st.levels, run))
    case PushSorted(run) =>
      if run == [] then st
      else State(Carry(st.levels, run), st.merges + Carries(st.levels, run))
    case Clear => State([], st.merges)
    case Take => State([], st.merges)
  }

  lemma {:induction false} PushSound<V>(st: State<V>, since: Run<V>, pushes: nat, run: Run<V>, sorted: Run<V>)
    requires Sound(st, since, pushes) && GoodRun(sorted) && SameByKey(sorted, run)
    ensures Sound(State(Carry(st.levels, sorted), st.merges + Carries(st.levels, sorted)), since + run, pushes + 1)
  {
    CarryBalanced(st.levels, sorted, 0);
    CarryAccount(st.levels, sorted);
    forall k ensures Arrivals(k, Carry(st.levels, sorted)) == WithKey(k, since + run) {
      CarryArrivals(k, st.levels, sorted, 0);
      WithKeyAppend(k, since, run);
      assert WithKey(k, sorted) == WithKey(k, run);
    }
  }

  lemma AppendSound<V>(st: State<V>, since: Run<V>, pushes: nat, run: Run<V>)
    requires Sound(st, since, pushes) && GoodRun(run)
    ensures Sound(State(Append(st.levels, run), st.merges + AppendCarries(st.levels, run)), since + run, pushes + 1)
  {
    AppendBalanced(st.levels, run);
    AppendAccount(st.levels, run);
    forall k ensures Arrivals(k, Append(st.levels, run)) == WithKey(k, since + run) {
      AppendArrivals(k, st.levels, run);
      WithKeyAppend(k, since, run);
    }
  }

  lemma NextSound<V>(st: State<V>, since: Run<V>, pushes: nat, op: Op<V>)
    requires Sound(st, since, pushes) && Legal([op])
    ensures Sound(Next(st, op), Extended(since, op), pushes + (if IsPush(op) then 1 else 0))
  {
    assert [op][0] == op;
    if !IsPush(op) {
      assert op.Clear? || op.Take? || (op.run == [] && since + op.run == since);
    } else {
      match op
      case PushUnsorted(run) =>
        StableSortSorts(run);
        PushSound(st, since, pushes, run, StableSort(run));
      case PushAppend(run) =>
        AppendSound(st, since, pushes, run);
      case PushSorted(run) =>
        PushSound(st, since, pushes, run, run);
    }
  }

  /** The buffer after a sequence of operations: in every reachable buffer the levels are balanced,
      equal keys keep their arrival order, and merges plus runs stay within the pushes. */
  ghost function After<V>(ops: seq<Op<V>>): (st: State<V>)
    requires Legal(ops)
    ensures Sound(st, Since(ops), Pushes(ops))
  {
    if ops == [] then State([], 0)
    else
      var front := After(ops[..|ops| - 1]);
      NextSound(front, Since(ops[..|ops| - 1]), Pushes(ops[..|ops| - 1]), ops[|ops| - 1]);
      Next(front, ops[|ops| - 1])
  }

  // ---- pushes in order --------------------------------------------------------------------------------

  ghost predicate Follows<V>(a: Run<V>, b: Run<V>) {
    forall p, q :: p in a && q in b ==> p.key <= q.key
  }

  ghost predicate Precedes<V>(a: Run<V>, b: Run<V>) {
    forall p, q :: p in a && q in b ==> q.key < p.key
  }

  /** The run comes after everything stored, or before it. */
  ghost predicate Outside<V>(since: Run<V>, run: Run<V>) {
    Follows(since, run) || Precedes(since, run)
  }

  lemma StoredIsPushed<V>(st: State<V>, since: Run<V>, pushes: nat, existing: Run<V>, p: Pair<V>)
    requires Sound(st, since, pushes) && st.levels == [Some(existing)] && p in existing
    ensures p in since
  {
    ArrivalsDetermineContents(st.levels, since);
    assert st.levels[1..] == [];
    assert SlotSum(st.levels) == multiset(existing);
    assert p in multiset(since);
  }

  lemma {:induction false} OutsideIsFree<V>(st: State<V>, since: Run<V>, pushes: nat, run: Run<V>)
    requires Sound(st, since, pushes) && |st.levels| <= 1 && GoodRun(run) && Outside(since, run)
    ensures Carries(st.levels, run) == 0 && |Carry(st.levels, run)| == 1
    ensures AppendCarries(st.levels, run) == 0 && |Append(st.levels, run)| == 1
  {
    var levels := st.levels;
    FarthestIsGreatest(levels, |levels|);
    if levels != [] && levels[0].Some? {
      var existing := levels[0].value;
      assert levels == [Some(existing)];
      StoredIsPushed(st, since, pushes, existing, existing[0]);
      StoredIsPushed(st, since, pushes, existing, existing[|existing| - 1]);
      assert run[0] in run && run[|run| - 1] in run;
      assert Last(existing) <= First(run) || Last(run) < First(existing);
    }
  }

  lemma {:induction false} SortedOutside<V>(since: Run<V>, run: Run<V>)
    requires Outside(since, run)
    ensures Outside(since, StableSort(run))
  {
    var sorted := StableSort(run);
    StableSortSorts(run);
    forall p, q | p in since && q in sorted
      ensures (Follows(since, run) ==> p.key <= q.key) && (Precedes(since, run) ==> q.key < p.key)
    {
      assert q in multiset(sorted);
      assert q in run;
    }
  }

  /** A buffer whose every push comes after everything stored, or before it, holds one run and never merges. */
  lemma {:induction false} OutsidePushesNeverMerge<V>(ops: seq<Op<V>>)
    requires Legal(ops)
    requires forall i :: 0 <= i < |ops| && IsPush(ops[i]) ==> Outside(Since(ops[..i]), ops[i].run)
    ensures After(ops).merges == 0 && |After(ops).levels| <= 1
  {
    if ops != [] {
      var m := |ops| - 1;
      var front := ops[..m];
      forall i | 0 <= i < m && IsPush(front[i]) ensures Outside(Since(front[..i]), front[i].run) {
        assert front[..i] == ops[..i];
      }
      OutsidePushesNeverMerge(front);
      if IsPush(ops[m]) {
        var st, run := After(front), ops[m].run;
        SortedOutside(Since(front), run);
        StableSortSorts(run);
        OutsideIsFree(st, Since(front), Pushes(front), if ops[m].PushUnsorted? then StableSort(run) else run);
      }
    }
  }

  /** What the drains of a sequence of operations return. */
  ghost function Drained<V>(ops: seq<Op<V>>): seq<Run<V>>
    requires Legal(ops)
  {
    if ops == [] then []
    else
      var front := ops[..|ops| - 1];
      Drained(front) + (if ops[|ops| - 1].Take? then [Drain(After(front).levels)] else [])
  }

  // ---- every reachable buffer -----------------------------------------------------------------------

  /** No key is stored in two levels. */
  ghost predicate KeysApart<V>(levels: Levels<V>) {
    forall i, j, k :: 0 <= i < j < |levels| && levels[i].Some? && levels[j].Some? ==>
      !(Has(k, levels[i].value) && Has(k, levels[j].value))
  }

  lemma {:induction false} ArrivalsOfHolder<V>(k: int, levels: Levels<V>, i: nat)
    requires i < |levels| && levels[i].Some?
    requires forall j :: 0 <= j < |levels| && j != i && levels[j].Some? ==> !Has(k, levels[j].value)
    ensures Arrivals(k, levels) == WithKey(k, levels[i].value)
    decreases i
  {
    if i == 0 {
      NoHolder(k, levels[1..]);
    } else {
      ArrivalsOfHolder(k, levels[1..], i - 1);
      if levels[0].Some? {
        WithKeyEmpty(k, levels[0].value);
      }
    }
  }

  lemma {:induction false} NoHolder<V>(k: int, levels: Levels<V>)
    requires forall j :: 0 <= j < |levels| && levels[j].Some? ==> !Has(k, levels[j].value)
    ensures Arrivals(k, levels) == []
    decreases |levels|
  {
    if levels != [] {
      NoHolder(k, levels[1..]);
      if levels[0].Some? {
        WithKeyEmpty(k, levels[0].value);
      }
    }
  }

  lemma {:induction false} ApartFaithful<V>(levels: Levels<V>, history: Run<V>)
    requires KeysApart(levels)
    requires forall k :: Arrivals(k, levels) == WithKey(k, history)
    ensures AllFaithful(levels, history)
  {
    forall i, k | 0 <= i < |levels| && levels[i].Some? && Has(k, levels[i].value)
      ensures WithKey(k, levels[i].value) == WithKey(k, history)
    {
      ArrivalsOfHolder(k, levels, i);
      assert Arrivals(k, levels) == WithKey(k, history);
    }
  }

  lemma {:induction false} HolderArrives<V>(k: int, levels: Levels<V>, i: nat)
    requires i < |levels| && levels[i].Some? && Has(k, levels[i].value)
    ensures |Arrivals(k, levels)| >= 1
    decreases i
  {
    if i == 0 {
      WithKeyEmpty(k, levels[0].value);
    } else {
      HolderArrives(k, levels[1..], i - 1);
    }
  }

  lemma {:induction false} TwoHoldersArrive<V>(k: int, levels: Levels<V>, i: nat, j: nat)
    requires i < j < |levels| && levels[i].Some? && levels[j].Some?
    requires Has(k, levels[i].value) && Has(k, levels[j].value)
    ensures |Arrivals(k, levels)| >= 2
    decreases i
  {
    if i == 0 {
      WithKeyEmpty(k, levels[0].value);
      HolderArrives(k, levels[1..], j - 1);
    } else {
      TwoHoldersArrive(k, levels[1..], i - 1, j - 1);
    }
  }

  lemma {:induction false} DistinctOnce<V>(k: int, s: Run<V>)
    requires DistinctKeys(s)
    ensures |WithKey(k, s)| <= 1
  {
    if s != [] {
      if s[0].key == k {
        WithKeyAbsent(k, s[1..]);
      } else {
        DistinctOnce(k, s[1..]);
      }
    }
  }

  lemma {:induction false} DistinctApart<V>(levels: Levels<V>, history: Run<V>)
    requires DistinctKeys(history)
    requires forall k :: Arrivals(k, levels) == WithKey(k, history)
    ensures KeysApart(levels)
  {
    forall i, j, k | 0 <= i < j < |levels| && levels[i].Some? && levels[j].Some?
      ensures !(Has(k, levels[i].value) && Has(k, levels[j].value))
    {
      DistinctOnce(k, history);
      assert Arrivals(k, levels) == WithKey(k, history);
      if Has(k, levels[i].value) && Has(k, levels[j].value) {
        TwoHoldersArrive(k, levels, i, j);
        assert false;
      }
    }
  }

  lemma {:induction false} OneRunApart<V>(levels: Levels<V>, i: nat, j: nat)
    requires i < j < |levels| && levels[i].Some? && levels[j].Some?
    ensures Live(levels) >= 2
    decreases i
  {
    if i == 0 {
      LiveSome(levels[1..]);
      assert levels[1..][j - 1].Some?;
    } else {
      OneRunApart(levels[1..], i - 1, j - 1);
    }
  }

  /** The drain of any reachable buffer: a sorted permutation of everything pushed since the last clear
      or drain, and the stable sort of it whenever no key is stored in two levels, so in particular when
      the pushed keys are distinct or one run is stored. */
  lemma {:induction false} TakeReturnsHistory<V>(ops: seq<Op<V>>)
    requires Legal(ops)
    ensures var levels := After(ops).levels;
            && Sorted(Drain(levels)) && multiset(Drain(levels)) == multiset(Since(ops))
            && (KeysApart(levels) ==> Drain(levels) == StableSort(Since(ops)))
            && (DistinctKeys(Since(ops)) || Live(levels) <= 1 ==> KeysApart(levels))
  {
    var levels, since := After(ops).levels, Since(ops);
    ArrivalsDetermineContents(levels, since);
    DrainSorts(levels);
    if KeysApart(levels) {
      ApartFaithful(levels, since);
      DrainStable(levels, since);
    }
    if DistinctKeys(since) {
      DistinctApart(levels, since);
    }
    if Live(levels) <= 1 {
      forall i, j | 0 <= i < j < |levels| && levels[i].Some? && levels[j].Some? ensures false {
        OneRunApart(levels, i, j);
      }
    }
  }

  lemma {:induction false} WithinLogarithm<V>(st: State<V>, since: Run<V>, pushes: nat)
    requires Sound(st, since, pushes)
    ensures Live(st.levels) <= Log2(|since| + 1)
  {
    ArrivalsDetermineContents(st.levels, since);
    assert |SlotSum(st.levels)| == |since|;
    RunsAreLogarithmic(st.levels);
    Log2Exact(|since| + 1, Live(st.levels));
  }

  /** `n` pairs never occupy more runs than the logarithm of `n + 1`. */
  lemma {:induction false} RunsWithinLogarithm<V>(ops: seq<Op<V>>)
    requires Legal(ops)
    ensures Live(After(ops).levels) <= Log2(|Since(ops)| + 1)
  {
    WithinLogarithm(After(ops), Since(ops), Pushes(ops));
  }

  /** Every drain of every sequence of operations returns what the pushes alone determine. */
  lemma {:induction false} EveryDrain<V>(ops: seq<Op<V>>)
    requires Legal(ops)
    ensures |Drained(ops)| == |Histories(ops)|
    ensures forall i :: 0 <= i < |Drained(ops)| ==>
              && Sorted(Drained(ops)[i]) && multiset(Drained(ops)[i]) == multiset(Histories(ops)[i])
              && (DistinctKeys(Histories(ops)[i]) ==> Drained(ops)[i] == StableSort(Histories(ops)[i]))
  {
    if ops != [] {
      var front := ops[..|ops| - 1];
      EveryDrain(front);
      TakeReturnsHistory(front);
    }
  }

  const OLDER: Run<char> := [Pair(5, 'a'), Pair(9, 'b')]
  const MIDDLE: Run<char> := [Pair(7, 'c')]
  const NEWER: Run<char> := [Pair(1, 'd'), Pair(5, 'e')]
  const MERGED: Run<char> := [Pair(5, 'a'), Pair(7, 'c'), Pair(9, 'b')]

  lemma {:induction false} AfterPush<V>(ops: seq<Op<V>>, run: Run<V>)
    requires Legal(ops) && Sorted(run) && run != []
    ensures Legal(ops + [PushSorted(run)])
    ensures After(ops + [PushSorted(run)]).levels == Carry(After(ops).levels, run)
    ensures Since(ops + [PushSorted(run)]) == Since(ops) + run
  {
    assert (ops + [PushSorted(run)])[..|ops|] == ops;
  }

  lemma MergeOlderMiddle()
    ensures Merge(OLDER, MIDDLE) == MERGED
  {
    MergeTakeLeft(OLDER, MIDDLE, 1);
    assert OLDER[1..] == [Pair(9, 'b')] && OLDER[..1] == [Pair(5, 'a')];
    MergeTakeRight([Pair(9, 'b')], MIDDLE, 1);
    assert MIDDLE[1..] == [] && MIDDLE[..1] == MIDDLE;
  }

  lemma TwoRuns<V>(a: Run<V>, b: Run<V>)
    ensures Occupied([Some(a), Some(b)]) == [a, b] && Flatten([a, b]) == a + b
  {
    assert [Some(a), Some(b)][1..] == [Some(b)] && [Some(b)][1..] == [];
    assert [a, b][1..] == [b] && [b][1..] == [];
    assert Flatten([b]) == b by { assert b + [] == b; }
  }

  lemma {:induction false} SortedStays<V>(s: Run<V>)
    requires Sorted(s)
    ensures StableSort(s) == s
  {
    StableSortCharacterised(s, s);
  }

  lemma InOrderStays<V>(runs: seq<Run<V>>)
    requires |runs| == 2 && NonEmpty(runs) && First(runs[0]) <= First(runs[1])
    ensures ByFirstKey(runs) == runs
  {
    SortedStays(Tagged(runs));
    assert Untagged(Tagged(runs)) == runs;
  }

  lemma {:induction false} CombineChain<V>(runs: seq<Run<V>>)
    requires |runs| == 2 && NonEmpty(runs) && Last(runs[0]) <= First(runs[1])
    ensures Combine(runs) == Flatten(runs)
  {
  }

  lemma {:induction false} DrainRuns<V>(levels: Levels<V>, runs: seq<Run<V>>)
    requires Filled(levels) && Occupied(levels) == runs && |runs| > 1 && NonEmpty(runs) && ByFirstKey(runs) == runs
    ensures Drain(levels) == Combine(runs)
  {
  }

  lemma DrainChain<V>(a: Run<V>, b: Run<V>, runs: seq<Run<V>>)
    requires runs == [a, b] && NonEmpty(runs) && Last(runs[0]) <= First(runs[1]) && First(runs[0]) <= First(runs[1])
    ensures Filled([Some(a), Some(b)]) && Drain([Some(a), Some(b)]) == a + b
  {
    TwoRuns(a, b);
    InOrderStays(runs);
    CombineChain(runs);
    assert runs[0] == a && runs[1] == b;
    DrainRuns([Some(a), Some(b)], runs);
  }

  lemma CarryOlder()
    ensures Carry([], OLDER) == [Some(OLDER)]
    ensures Filled([Some(OLDER)]) && Carry([Some(OLDER)], MIDDLE) == [None, Some(MERGED)]
    ensures Filled([None, Some(MERGED)]) && Carry([None, Some(MERGED)], NEWER) == [Some(NEWER), Some(MERGED)]
  {
    MergeOlderMiddle();
    var one: Levels<char>, two: Levels<char> := [Some(OLDER)], [None, Some(MERGED)];
    assert one[1..] == [] && two[1..] == [Some(MERGED)];
    assert Carry([], MERGED) == [Some(MERGED)];
    assert Carry(one, MIDDLE) == [None] + [Some(MERGED)];
    assert Carry(two, NEWER) == [Some(NEWER)] + [Some(MERGED)];
  }

  /** A push onto known levels. */
  lemma {:induction false} PushOnto<V>(ops: seq<Op<V>>, run: Run<V>, levels: Levels<V>, since: Run<V>, after: Levels<V>)
    requires Legal(ops) && After(ops).levels == levels && Since(ops) == since && Sorted(run) && run != []
    requires Filled(levels) && Carry(levels, run) == after
    ensures Legal(ops + [PushSorted(run)])
    ensures After(ops + [PushSorted(run)]).levels == after && Since(ops + [PushSorted(run)]) == since + run
  {
    AfterPush(ops, run);
  }

  lemma {:induction false} LevelsSplit(ops: seq<Op<char>>)
    requires ops == [] + [PushSorted(OLDER)] + [PushSorted(MIDDLE)] + [PushSorted(NEWER)]
    ensures Legal(ops) && After(ops).levels == [Some(NEWER), Some(MERGED)] && Since(ops) == [] + OLDER + MIDDLE + NEWER
  {
    CarryOlder();
    PushOnto([], OLDER, [], [], [Some(OLDER)]);
    PushOnto([] + [PushSorted(OLDER)], MIDDLE, [Some(OLDER)], [] + OLDER, [None, Some(MERGED)]);
    PushOnto([] + [PushSorted(OLDER)] + [PushSorted(MIDDLE)], NEWER, [None, Some(MERGED)], [] + OLDER + MIDDLE,
             [Some(NEWER), Some(MERGED)]);
  }

  /** A key that is stored in two levels can come out in the wrong order: the run that starts first is put first. */
  lemma {:induction false} SplitKeyComesOutOfOrder(ops: seq<Op<char>>)
    requires ops == [PushSorted(OLDER), PushSorted(MIDDLE), PushSorted(NEWER)]
    ensures Legal(ops) && Drain(After(ops).levels) == NEWER + MERGED
    ensures Drain(After(ops).levels) != StableSort(Since(ops))
  {
    assert ops == [] + [PushSorted(OLDER)] + [PushSorted(MIDDLE)] + [PushSorted(NEWER)];
    LevelsSplit(ops);
    DrainChain(NEWER, MERGED, [NEWER, MERGED]);
    OutOfOrder(Since(ops));
  }

  lemma {:induction false} OutOfOrder(since: Run<char>)
    requires since == [] + OLDER + MIDDLE + NEWER
    ensures NEWER + MERGED != StableSort(since)
  {
    StableSortSorts(since);
    assert since[0] == Pair(5, 'a') && WithKey(5, since)[0] == Pair(5, 'a');
    var out := NEWER + MERGED;
    assert out[0].key == 1 && out[1..][0] == Pair(5, 'e');
    assert WithKey(5, out) == WithKey(5, out[1..]);
    assert WithKey(5, out[1..])[0] == Pair(5, 'e');
  }

  // ---- the class runs the sequence --------------------------------------------------------------------

  /** One operation on a buffer, with the run it drains, if any. */
  method Apply<V>(buffer: MergeBuffer<V>, op: Op<V>) returns (out: seq<Run<V>>)
    requires buffer.Valid() && Legal([op])
    modifies buffer
    ensures buffer.Valid()
    ensures State(buffer.levels, buffer.merges) == Next(State(old(buffer.levels), old(buffer.merges)), op)
    ensures out == if op.Take? then [Drain(old(buffer.levels))] else []
  {
    assert [op][0] == op;
    out := [];
    match op
    case PushUnsorted(run) => buffer.MergeUnsorted(run);
    case PushAppend(run) => buffer.AppendSorted(run);
    case PushSorted(run) => buffer.MergeSorted(run);
    case Clear => buffer.Clear();
    case Take =>
      var drained := buffer.TakeSorted();
      out := [drained];
  }

  /** Runs a sequence of operations on a new buffer and collects what the drains return. `merges` is ghost: the merges
      that the pushes have performed. */
  method Replay<V>(ops: seq<Op<V>>) returns (drained: seq<Run<V>>, runs: nat, ghost merges: nat)
    requires Legal(ops)
    ensures |drained| == |Histories(ops)|
    ensures forall i :: 0 <= i < |drained| ==>
              && Sorted(drained[i]) && multiset(drained[i]) == multiset(Histories(ops)[i])
              && (DistinctKeys(Histories(ops)[i]) ==> drained[i] == StableSort(Histories(ops)[i]))
    ensures runs <= Log2(|Since(ops)| + 1)
    ensures merges + runs <= Pushes(ops)
  {
    var buffer := new MergeBuffer<V>();
    drained := [];
    for i := 0 to |ops|
      invariant buffer.Valid() && fresh(buffer)
      invariant State(buffer.levels, buffer.merges) == After(ops[..i])
      invariant drained == Drained(ops[..i])
    {
      assert ops[..i + 1][..i] == ops[..i];
      assert [ops[i]][0] == ops[i];
      var out := Apply(buffer, ops[i]);
      drained := drained + out;
    }
    assert ops[..|ops|] == ops;
    runs := buffer.Runs();
    merges := buffer.merges;
    LiveIsCardinality(buffer.levels);
    EveryDrain(ops);
    RunsWithinLogarithm(ops);
  }
}
