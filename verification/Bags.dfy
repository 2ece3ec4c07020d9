/** Sums over shards: bags of rows and counts, indexed by shard. */
module Bags {

  ghost function BagSum<T>(bags: seq<multiset<T>>): multiset<T> {
    if bags == [] then multiset{} else bags[0] + BagSum(bags[1..])
  }

  lemma {:induction false} BagSumAdd<T>(bags: seq<multiset<T>>, i: nat, b: multiset<T>)
    requires i < |bags|
    ensures BagSum(bags[i := bags[i] + b]) == BagSum(bags) + b
  {
    if i > 0 {
      assert bags[i := bags[i] + b][1..] == bags[1..][i - 1 := bags[1..][i - 1] + b];
      BagSumAdd(bags[1..], i - 1, b);
    }
  }

  lemma {:induction false} BagSumLast<T>(bags: seq<multiset<T>>)
    requires bags != []
    ensures BagSum(bags) == BagSum(bags[..|bags| - 1]) + bags[|bags| - 1]
  {
    if |bags| > 1 {
      BagSumLast(bags[1..]);
      assert bags[1..][..|bags| - 2] == bags[..|bags| - 1][1..];
    } else {
      assert bags[1..] == [];
    }
  }

  lemma {:induction false} BagSumEmpty<T>(bags: seq<multiset<T>>)
    requires forall i :: 0 <= i < |bags| ==> bags[i] == multiset{}
    ensures BagSum(bags) == multiset{}
  {
    if bags != [] { BagSumEmpty(bags[1..]); }
  }

  /** Adding `more[i]` to every bag adds the sum of `more`. */
  lemma {:induction false} BagSumZip<T>(bags: seq<multiset<T>>, more: seq<multiset<T>>)
    requires |bags| == |more|
    ensures BagSum(seq(|bags|, i requires 0 <= i < |bags| => bags[i] + more[i])) == BagSum(bags) + BagSum(more)
  {
    if bags != [] {
      BagSumZip(bags[1..], more[1..]);
      assert seq(|bags|, i requires 0 <= i < |bags| => bags[i] + more[i])[1..]
          == seq(|bags[1..]|, i requires 0 <= i < |bags[1..]| => bags[1..][i] + more[1..][i]);
    }
  }

  function Count(flags: seq<bool>): (c: nat)
    ensures c <= |flags|
  {
    if flags == [] then 0 else (if flags[0] then 1 else 0) + Count(flags[1..])
  }

  lemma {:induction false} CountClear(flags: seq<bool>, i: nat)
    requires i < |flags| && flags[i]
    ensures Count(flags[i := false]) == Count(flags) - 1
  {
    if i > 0 {
      assert flags[i := false][1..] == flags[1..][i - 1 := false];
      CountClear(flags[1..], i - 1);
    }
  }

  lemma {:induction false} CountExtremes(flags: seq<bool>)
    ensures Count(flags) == 0 <==> forall i :: 0 <= i < |flags| ==> !flags[i]
    ensures Count(flags) == |flags| <==> forall i :: 0 <= i < |flags| ==> flags[i]
  {
    if flags != [] {
      CountExtremes(flags[1..]);
      if Count(flags[1..]) < |flags[1..]| {
        var i :| 0 <= i < |flags[1..]| && !flags[1..][i];
        assert !flags[i + 1];
      }
      if Count(flags[1..]) > 0 {
        var i :| 0 <= i < |flags[1..]| && flags[1..][i];
        assert flags[i + 1];
      }
    }
  }

  function Total(counts: seq<nat>): nat {
    if counts == [] then 0 else counts[0] + Total(counts[1..])
  }

  lemma {:induction false} TotalChange(counts: seq<nat>, i: nat, c: nat)
    requires i < |counts|
    ensures Total(counts[i := c]) == Total(counts) - counts[i] + c
  {
    if i > 0 {
      assert counts[i := c][1..] == counts[1..][i - 1 := c];
      TotalChange(counts[1..], i - 1, c);
    }
  }

  lemma SameMultiset<T>(a: multiset<T>, b: multiset<T>)
    requires forall p :: a[p] == b[p]
    ensures a == b
  {
  }
}
