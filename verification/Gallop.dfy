/**
 The galloping searches and the galloping merge of two sorted runs.

 Each search reports, as a ghost result, how many key comparisons it made.
 */
module Gallop {
  import opened Runs

  /** `r` is the first index of `s[..n]` whose key is at least `pivot`. */
  ghost predicate IsLowerBound<V>(s: seq<Pair<V>>, n: nat, pivot: int, r: nat)
    requires n <= |s|
  {
    && r <= n
    && (forall i :: 0 <= i < r ==> s[i].key < pivot)
    && (forall i :: r <= i < n ==> pivot <= s[i].key)
  }

  /** `r` is the first index of `s[..n]` whose key exceeds `pivot`. */
  ghost predicate IsUpperBound<V>(s: seq<Pair<V>>, n: nat, pivot: int, r: nat)
    requires n <= |s|
  {
    && r <= n
    && (forall i :: 0 <= i < r ==> s[i].key <= pivot)
    && (forall i :: r <= i < n ==> pivot < s[i].key)
  }

  function Pow2(n: nat): (r: nat)
    ensures r > n
  {
    if n == 0 then 1 else 2 * Pow2(n - 1)
  }

  /** The integer part of the binary logarithm. */
  ghost function Log2(n: nat): nat
    requires n > 0
  {
    if n == 1 then 0 else 1 + Log2(n / 2)
  }

  /** The logarithm is the largest exponent whose power fits. */
  lemma {:induction false} Log2Exact(n: nat, j: nat)
    requires n > 0
    ensures Pow2(j) <= n <==> j <= Log2(n)
  {
    if n == 1 {
      if j > 0 { assert Pow2(j) > 1; }
    } else if j > 0 {
      Log2Exact(n / 2, j - 1);
    }
  }

  /** The comparison budget of a search that ends at `r`. */
  ghost predicate WithinBudget(n: nat, r: nat, cmps: nat) {
    if n == 0 then cmps == 0
    else if r == 0 then cmps == 1
    else cmps <= 2 * Log2(r) + 2
  }

  /** Halving: a probe of a window shorter than `Pow2(j)` leaves one shorter than `Pow2(j - 1)`. */
  lemma HalvedWindow(lo: nat, hi: nat, j: nat)
    requires lo < hi && hi - lo < Pow2(j)
    ensures j > 0
    ensures (hi - lo) / 2 < Pow2(j - 1)
    ensures hi - (lo + (hi - lo) / 2) - 1 < Pow2(j - 1)
  {
  }

  /** lower_bound by doubling and then halving. */
  method GallopRightSlice<V>(s: seq<Pair<V>>, n: nat, pivot: int) returns (r: nat, ghost cmps: nat)
    requires Sorted(s) && n <= |s|
    ensures IsLowerBound(s, n, pivot, r)
    ensures WithinBudget(n, r, cmps)
  {
    cmps := 0;
    if n == 0 { return 0, cmps; }
    cmps := 1;
    if !(s[0].key < pivot) { return 0, cmps; }
    var last, ofs := 0, 1;
    ghost var j: nat := 0;
    while last + ofs < n
      invariant last < n && s[last].key < pivot
      invariant ofs == Pow2(j) && last == ofs - 1 && cmps == j + 1
      decreases n - last
    {
      cmps := cmps + 1;
      if s[last + ofs].key < pivot {
        last := last + ofs;
        ofs := ofs * 2;
        j := j + 1;
      } else {
        break;
      }
    }
    ghost var m: nat := j;
    var lo, hi := last + 1, if last + ofs < n then last + ofs else n;
    while lo < hi
      invariant last + 1 <= lo <= hi <= n
      invariant hi - lo < Pow2(m) && cmps + m <= 2 * j + 2
      invariant forall i :: 0 <= i < lo ==> s[i].key < pivot
      invariant forall i :: hi <= i < n ==> pivot <= s[i].key
    {
      HalvedWindow(lo, hi, m);
      m := m - 1;
      var mid := lo + (hi - lo) / 2;
      cmps := cmps + 1;
      if s[mid].key < pivot {
        lo := mid + 1;
      } else {
        hi := mid;
      }
    }
    Log2Exact(lo, j);
    return lo, cmps;
  }

  /** upper_bound by doubling and then halving. */
  method GallopLeftSlice<V>(s: seq<Pair<V>>, n: nat, pivot: int) returns (r: nat, ghost cmps: nat)
    requires Sorted(s) && n <= |s|
    ensures IsUpperBound(s, n, pivot, r)
    ensures WithinBudget(n, r, cmps)
  {
    cmps := 0;
    if n == 0 { return 0, cmps; }
    cmps := 1;
    if s[0].key > pivot { return 0, cmps; }
    var last, ofs := 0, 1;
    ghost var j: nat := 0;
    while last + ofs < n
      invariant last < n && s[last].key <= pivot
      invariant ofs == Pow2(j) && last == ofs - 1 && cmps == j + 1
      decreases n - last
    {
      cmps := cmps + 1;
      if !(s[last + ofs].key > pivot) {
        last := last + ofs;
        ofs := ofs * 2;
        j := j + 1;
      } else {
        break;
      }
    }
    ghost var m: nat := j;
    var lo, hi := last + 1, if last + ofs < n then last + ofs else n;
    while lo < hi
      invariant last + 1 <= lo <= hi <= n
      invariant hi - lo < Pow2(m) && cmps + m <= 2 * j + 2
      invariant forall i :: 0 <= i < lo ==> s[i].key <= pivot
      invariant forall i :: hi <= i < n ==> pivot < s[i].key
    {
      HalvedWindow(lo, hi, m);
      m := m - 1;
      var mid := lo + (hi - lo) / 2;
      cmps := cmps + 1;
      if !(s[mid].key > pivot) {
        lo := mid + 1;
      } else {
        hi := mid;
      }
    }
    Log2Exact(lo, j);
    return lo, cmps;
  }

  /** What the loop keeps: the pairs emitted so far, followed by the merge of the rest, are the merge. */
  ghost predicate Emitted<V>(a: seq<Pair<V>>, b: seq<Pair<V>>, i: nat, j: nat, out: seq<Pair<V>>) {
    i <= |a| && j <= |b| && Merge(a, b) == out + Merge(a[i..], b[j..])
  }

  lemma SliceOfRest<T>(s: seq<T>, i: nat, e: nat)
    requires i + e <= |s|
    ensures s[i..][..e] == s[i..i + e] && s[i..][e..] == s[i + e..]
  {
  }

  lemma {:induction false} EmitLeft<V>(a: seq<Pair<V>>, b: seq<Pair<V>>, all: seq<Pair<V>>, out: seq<Pair<V>>, e: nat)
    requires b != [] && IsUpperBound(a, |a|, b[0].key, e) && all == out + Merge(a, b)
    ensures all == out + a[..e] + Merge(a[e..], b)
  {
    MergeTakeLeft(a, b, e);
  }

  lemma {:induction false} EmitRight<V>(a: seq<Pair<V>>, b: seq<Pair<V>>, all: seq<Pair<V>>, out: seq<Pair<V>>, e: nat)
    requires a != [] && IsLowerBound(b, |b|, a[0].key, e) && all == out + Merge(a, b)
    ensures all == out + b[..e] + Merge(a, b[e..])
  {
    MergeTakeRight(a, b, e);
  }

  /** The block of the left run up to and including the keys equal to the right head. */
  method TakeLeftBlock<V>(a: seq<Pair<V>>, b: seq<Pair<V>>, i: nat, j: nat, out: seq<Pair<V>>)
    returns (i': nat, out': seq<Pair<V>>)
    requires Sorted(a) && i < |a| && j < |b| && Emitted(a, b, i, j, out)
    ensures i <= i' <= |a| && Emitted(a, b, i', j, out')
    ensures i' < |a| ==> b[j].key < a[i'].key
  {
    var end, _ := GallopLeftSlice(a[i..], |a| - i, b[j].key);
    assert i + end < |a| ==> a[i + end] == a[i..][end];
    EmitLeft(a[i..], b[j..], Merge(a, b), out, end);
    SliceOfRest(a, i, end);
    i', out' := i + end, out + a[i..i + end];
  }

  /** The block of the right run strictly below the left head. */
  method TakeRightBlock<V>(a: seq<Pair<V>>, b: seq<Pair<V>>, i: nat, j: nat, out: seq<Pair<V>>)
    returns (j': nat, out': seq<Pair<V>>)
    requires Sorted(b) && i < |a| && j < |b| && Emitted(a, b, i, j, out)
    ensures j <= j' <= |b| && Emitted(a, b, i, j', out')
    ensures b[j].key < a[i].key ==> j < j'
  {
    var end, _ := GallopRightSlice(b[j..], |b| - j, a[i].key);
    assert b[j] == b[j..][0];
    EmitRight(a[i..], b[j..], Merge(a, b), out, end);
    SliceOfRest(b, j, end);
    j', out' := j + end, out + b[j..j + end];
  }

  /** Once one run is used up, the rest of the other completes the merge. */
  lemma {:induction false} EmitRest<V>(a: seq<Pair<V>>, b: seq<Pair<V>>, i: nat, j: nat, out: seq<Pair<V>>)
    requires Emitted(a, b, i, j, out) && (i == |a| || j == |b|)
    ensures Merge(a, b) == out + a[i..] + b[j..]
  {
    assert Merge(a[i..], b[j..]) == a[i..] + b[j..];
  }

  lemma {:induction false} MergeLeftFirst<V>(a: seq<Pair<V>>, b: seq<Pair<V>>)
    requires Sorted(a) && a != [] && b != [] && a[|a| - 1].key <= b[0].key
    ensures Merge(a, b) == a + b
  {
    MergeTakeLeft(a, b, |a|);
    assert a[..|a|] == a && a[|a|..] == [];
  }

  lemma {:induction false} MergeRightFirst<V>(a: seq<Pair<V>>, b: seq<Pair<V>>)
    requires Sorted(b) && a != [] && b != [] && b[|b| - 1].key < a[0].key
    ensures Merge(a, b) == b + a
  {
    MergeTakeRight(a, b, |b|);
    assert b[..|b|] == b && b[|b|..] == [];
  }

  /**
   The merge by blocks: a block of the left run, then a block of the right run, until one run is
   used up. Every full round consumes at least one pair, because a left block that leaves pairs
   behind leaves them strictly above the right head.
   */
  method MergeSortedByKeyGallop<V>(a: seq<Pair<V>>, b: seq<Pair<V>>) returns (out: seq<Pair<V>>)
    requires Sorted(a) && Sorted(b)
    ensures out == Merge(a, b)
  {
    var na, nb := |a|, |b|;
    if na == 0 { return b; }
    if nb == 0 { return a; }
    if a[na - 1].key <= b[0].key {
      MergeLeftFirst(a, b);
      return a + b;
    }
    if b[nb - 1].key < a[0].key {
      MergeRightFirst(a, b);
      return b + a;
    }

    // `a[i..]` and `b[j..]` are what the two consuming iterators still hold.
    var i, j := 0, 0;
    out := [];
    while true
      invariant 0 <= i <= na && 0 <= j <= nb && Emitted(a, b, i, j, out)
      decreases na - i + nb - j
    {
      if j == nb || i == na { break; }
      i, out := TakeLeftBlock(a, b, i, j, out);
      if i == na || j == nb { break; }
      j, out := TakeRightBlock(a, b, i, j, out);
    }
    EmitRest(a, b, i, j, out);
    out := out + a[i..] + b[j..];
  }
}
