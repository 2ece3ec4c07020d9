/**
 The reorder buffer: releases blocks in height order without gaps, whatever the order of arrival.

 `start` and `log` are ghost: the first expected height, and every insertion so far in order of arrival.

 Heights are unsigned 32-bit numbers. The next height overflows exactly when all heights from `start` to the greatest
 one have arrived, so until then one must be missing.
 */
module ReorderBuffer {
  import opened Wrappers

  const U32_MAX := 0xFFFF_FFFF

  datatype Arrival<T> = Arrival(height: nat, block: T)

  // ---- the history ----------------------------------------------------------------------------------------

  /** The block that came first for each height that has arrived. */
  function Firsts<T>(log: seq<Arrival<T>>): map<nat, T> {
    if log == [] then map[]
    else Added(Firsts(log[..|log| - 1]), log[|log| - 1])
  }

  function Added<T>(firsts: map<nat, T>, a: Arrival<T>): map<nat, T> {
    if a.height in firsts then firsts else firsts[a.height := a.block]
  }

  /** An arrival is kept exactly if it is the first for its height. */
  lemma {:induction false} FirstsAreFirst<T>(log: seq<Arrival<T>>, h: nat)
    ensures h in Firsts(log) <==> exists i :: 0 <= i < |log| && log[i].height == h
    ensures h in Firsts(log) ==> exists i :: 0 <= i < |log| && log[i] == Arrival(h, Firsts(log)[h])
                                             && forall j :: 0 <= j < i ==> log[j].height != h
  {
    if log != [] {
      var m := |log| - 1;
      FirstsAreFirst(log[..m], h);
      if h in Firsts(log[..m]) {
        var i :| 0 <= i < m && log[..m][i] == Arrival(h, Firsts(log[..m])[h])
                 && forall j :: 0 <= j < i ==> log[..m][j].height != h;
        assert log[i] == Arrival(h, Firsts(log)[h]);
        assert forall j :: 0 <= j < i ==> log[j] == log[..m][j];
      } else {
        assert forall j :: 0 <= j < m ==> log[j] == log[..m][j];
      }
    }
  }

  /** The least height from `start` that has not arrived. */
  ghost predicate IsNext<T>(firsts: map<nat, T>, start: nat, n: nat) {
    start <= n && n !in firsts && forall h :: start <= h < n ==> h in firsts
  }

  /** The first arrivals of the heights from `start` up to, but not including, `n`. */
  function Released<T>(firsts: map<nat, T>, start: nat, n: nat): (out: seq<T>)
    requires start <= n && forall h :: start <= h < n ==> h in firsts
    ensures |out| == n - start && forall i :: 0 <= i < |out| ==> out[i] == firsts[start + i]
  {
    seq(n - start, i requires 0 <= i < n - start => firsts[start + i])
  }

  lemma ReleasedGrows<T>(firsts: map<nat, T>, start: nat, n: nat)
    requires start <= n && forall h :: start <= h <= n ==> h in firsts
    ensures Released(firsts, start, n + 1) == Released(firsts, start, n) + [firsts[n]]
  {
  }

  /** An arrival changes nothing of what has been released. */
  lemma ReleasedStays<T>(firsts: map<nat, T>, start: nat, n: nat, a: Arrival<T>)
    requires IsNext(firsts, start, n)
    ensures Released(Added(firsts, a), start, n) == Released(firsts, start, n)
  {
  }

  /** Everything from `start` through `h` has arrived. */
  ghost predicate AllArrived<T>(firsts: map<nat, T>, start: nat, h: nat) {
    forall k :: start <= k <= h ==> k in firsts
  }

  /** What has arrived does not leave again. */
  lemma {:induction false} FirstsGrow<T>(log: seq<Arrival<T>>, longer: seq<Arrival<T>>, start: nat, h: nat)
    requires log <= longer && AllArrived(Firsts(log), start, h)
    ensures AllArrived(Firsts(longer), start, h)
  {
    if |log| < |longer| {
      FirstsGrow(log, longer[..|longer| - 1], start, h);
    } else {
      assert log == longer;
    }
  }

  /** How many insertions came too late: below the first height, or when everything through their height had arrived. */
  ghost function Late<T>(log: seq<Arrival<T>>, start: nat): nat {
    if log == [] then 0
    else
      var before, h := log[..|log| - 1], log[|log| - 1].height;
      Late(before, start) + (if IsLate(Firsts(before), start, h) then 1 else 0)
  }

  ghost predicate IsLate<T>(firsts: map<nat, T>, start: nat, h: nat) {
    h < start || AllArrived(firsts, start, h)
  }

  lemma LateBelowNext<T>(firsts: map<nat, T>, start: nat, n: nat, h: nat)
    requires IsNext(firsts, start, n)
    ensures IsLate(firsts, start, h) <==> h < n
  {
  }

  lemma {:induction false} LogGrows<T>(log: seq<Arrival<T>>, a: Arrival<T>, start: nat)
    ensures Firsts(log + [a]) == Added(Firsts(log), a)
    ensures Late(log + [a], start) == Late(log, start) + (if IsLate(Firsts(log), start, a.height) then 1 else 0)
  {
    assert (log + [a])[..|log|] == log;
  }

  function Saturated(n: nat): nat {
    if n < U32_MAX then n else U32_MAX
  }

  /** The greatest height that has arrived, of those from `start`. */
  ghost predicate IsGreatest<T>(firsts: map<nat, T>, start: nat, m: Option<nat>) {
    match m
    case None => forall h :: h in firsts ==> h < start
    case Some(top) => top >= start && top in firsts && forall h :: h in firsts ==> h <= top
  }

  /** The pending blocks are the first arrivals from height `n` on. */
  ghost predicate Holds<T>(pending: map<nat, T>, firsts: map<nat, T>, n: nat) {
    && (forall h :: h in pending <==> h >= n && h in firsts)
    && (forall h :: h in pending ==> pending[h] == firsts[h])
  }

  lemma HoldsNext<T>(pending: map<nat, T>, firsts: map<nat, T>, n: nat)
    requires Holds(pending, firsts, n) && n in pending
    ensures n in firsts && pending[n] == firsts[n] && Holds(pending - {n}, firsts, n + 1)
    ensures |pending - {n}| < |pending|
  {
    assert (pending - {n}).Keys == pending.Keys - {n};
  }

  lemma LateChangesNothing<T>(firsts: map<nat, T>, start: nat, n: nat, pending: map<nat, T>, top: Option<nat>,
                              a: Arrival<T>)
    requires IsNext(firsts, start, n) && Holds(pending, firsts, n + 1) && IsGreatest(firsts, start, top) && a.height < n
    ensures IsNext(Added(firsts, a), start, n) && Holds(pending, Added(firsts, a), n + 1)
            && IsGreatest(Added(firsts, a), start, top)
  {
  }

  lemma NewArrival<T>(firsts: map<nat, T>, start: nat, n: nat, pending: map<nat, T>, top: Option<nat>, a: Arrival<T>)
    requires IsNext(firsts, start, n) && Holds(pending, firsts, n + 1) && IsGreatest(firsts, start, top)
             && a.height >= n
    ensures Holds(Added(pending, a), Added(firsts, a), n)
    ensures forall h :: start <= h < n ==> h in Added(firsts, a)
    ensures IsGreatest(Added(firsts, a), start, Some(if top.None? || a.height > top.value then a.height else top.value))
  {
  }

  /** Two histories with the same heights agree on the next height. */
  lemma NextIsUnique<T, S>(firsts: map<nat, T>, other: map<nat, S>, start: nat, n: nat, m: nat)
    requires IsNext(firsts, start, n) && IsNext(other, start, m)
    requires forall h :: h >= start ==> (h in firsts <==> h in other)
    ensures n == m
  {
  }

  // ---- the buffer -------------------------------------------------------------------------------------------

  class ReorderBuffer<T> {
    var nextHeight: nat
    var pending: map<nat, T>
    const maxBufferHint: nat
    var maxSeen: Option<nat>
    var droppedTooLow: nat

    ghost const start: nat
    ghost var log: seq<Arrival<T>>

    /** The fields are determined by the history: what is pending are the first arrivals above the next height. */
    ghost predicate Valid()
      reads this
    {
      && IsNext(Firsts(log), start, nextHeight) && nextHeight <= U32_MAX
      && Holds(pending, Firsts(log), nextHeight + 1)
      && IsGreatest(Firsts(log), start, maxSeen)
      && droppedTooLow == Saturated(Late(log, start))
    }

    constructor (startLowerBound: nat, maxBufferHint: nat)
      requires startLowerBound <= U32_MAX
      ensures Valid() && log == [] && start == startLowerBound && nextHeight == startLowerBound
      ensures this.maxBufferHint == maxBufferHint
    {
      nextHeight := startLowerBound;
      pending := map[];
      this.maxBufferHint := maxBufferHint;
      maxSeen := None;
      droppedTooLow := 0;
      start := startLowerBound;
      log := [];
    }

    /** Releases what becomes contiguous: the first arrivals of the heights from the old next one to the new next
        one. */
    method Insert(height: nat, block: T) returns (ready: seq<T>)
      requires Valid() && height <= U32_MAX
      requires !AllArrived(Firsts(log + [Arrival(height, block)]), start, U32_MAX)
      modifies this
      ensures Valid() && log == old(log) + [Arrival(height, block)]
      ensures nextHeight >= old(nextHeight)
      ensures Released(Firsts(log), start, nextHeight) == Released(Firsts(old(log)), start, old(nextHeight)) + ready
    {
      ghost var before, a := Firsts(log), Arrival(height, block);
      LogGrows(log, a, start);
      LateBelowNext(before, start, nextHeight, height);
      ReleasedStays(before, start, nextHeight, a);
      log := log + [a];
      if height < nextHeight {
        LateChangesNothing(before, start, nextHeight, pending, maxSeen, a);
        droppedTooLow := if droppedTooLow < U32_MAX then droppedTooLow + 1 else U32_MAX;
        return [];
      }
      NewArrival(before, start, nextHeight, pending, maxSeen, a);
      if maxSeen.None? || height > maxSeen.value {
        maxSeen := Some(height);
      }
      if height !in pending {
        pending := pending[height := block];
      }
      ready := Drain(Added(before, a));
    }

    /** Takes the contiguous blocks from the next height on out of the pending ones. */
    method Drain(ghost firsts: map<nat, T>) returns (ready: seq<T>)
      requires start <= nextHeight && forall h :: start <= h < nextHeight ==> h in firsts
      requires Holds(pending, firsts, nextHeight) && nextHeight <= U32_MAX && !AllArrived(firsts, start, U32_MAX)
      modifies this`nextHeight, this`pending
      ensures IsNext(firsts, start, nextHeight) && old(nextHeight) <= nextHeight <= U32_MAX
      ensures Holds(pending, firsts, nextHeight + 1)
      ensures Released(firsts, start, nextHeight) == Released(firsts, start, old(nextHeight)) + ready
    {
      ready := [];
      while nextHeight in pending
        invariant old(nextHeight) <= nextHeight <= U32_MAX && forall h :: start <= h < nextHeight ==> h in firsts
        invariant Holds(pending, firsts, nextHeight)
        invariant Released(firsts, start, nextHeight) == Released(firsts, start, old(nextHeight)) + ready
        decreases |pending|
      {
        ReleasedGrows(firsts, start, nextHeight);
        HoldsNext(pending, firsts, nextHeight);
        ready := ready + [pending[nextHeight]];
        pending := pending - {nextHeight};
        nextHeight := nextHeight + 1;
      }
    }

    /** There is a gap exactly if something is pending; it reaches from the least missing height to the greatest
        seen. */
    function GapSpan(): (gap: Option<(nat, nat)>)
      requires Valid()
      reads this
      ensures gap.Some? <==> pending != map[]
      ensures gap.Some? ==> IsNext(Firsts(log), start, gap.value.0) && IsGreatest(Firsts(log), start, Some(gap.value.1))
    {
      match maxSeen
      case None => None
      case Some(top) =>
        assert top >= nextHeight ==> top in pending;
        if top >= nextHeight then Some((nextHeight, top)) else None
    }
  }
}
