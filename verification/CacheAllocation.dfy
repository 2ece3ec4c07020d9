/**
 Dividing the cache over the columns by largest remainder, in whole megabytes.

 Weights and megabytes are unsigned 64-bit numbers whose products saturate; the sum of the weights must fit.
 The sort of the standard library is modelled by an insertion sort, which gives the same result because no two
 shares compare equal.
 */
module CacheAllocation {
  import opened Wrappers
  import opened Basics

  const U64_MAX := 0xFFFF_FFFF_FFFF_FFFF

  datatype DbDef = DbDef(shards: nat, weight: nat)

  datatype Share = Share(idx: nat, base: nat, rem: nat)

  function SumWeights(defs: seq<DbDef>): nat {
    if defs == [] then 0 else SumWeights(defs[..|defs| - 1]) + defs[|defs| - 1].weight
  }

  function SaturatingMul(a: nat, b: nat): nat {
    if a * b < U64_MAX then a * b else U64_MAX
  }

  // ---- shares ---------------------------------------------------------------------------------------------------

  function ShareOf(defs: seq<DbDef>, total: nat, sum: nat, i: nat): Share
    requires i < |defs| && sum > 0
  {
    if defs[i].weight == 0 then Share(i, 0, 0)
    else Share(i, SaturatingMul(total, defs[i].weight) / sum, SaturatingMul(total, defs[i].weight) % sum)
  }

  function SharesOf(defs: seq<DbDef>, total: nat, sum: nat): (v: seq<Share>)
    requires sum > 0
    ensures |v| == |defs| && forall i :: 0 <= i < |v| ==> v[i] == ShareOf(defs, total, sum, i)
  {
    seq(|defs|, i requires 0 <= i < |defs| => ShareOf(defs, total, sum, i))
  }

  function SumBase(v: seq<Share>): nat {
    if v == [] then 0 else v[0].base + SumBase(v[1..])
  }

  function SumRem(v: seq<Share>): nat {
    if v == [] then 0 else v[0].rem + SumRem(v[1..])
  }

  /** The order of the shares: by index, or by falling remainder and then by index. */
  predicate Before(byIdx: bool, a: Share, b: Share) {
    if byIdx then a.idx < b.idx else a.rem > b.rem || (a.rem == b.rem && a.idx < b.idx)
  }

  function Insert(byIdx: bool, x: Share, v: seq<Share>): (w: seq<Share>)
    ensures |w| == |v| + 1
  {
    if v == [] || Before(byIdx, x, v[0]) then [x] + v else [v[0]] + Insert(byIdx, x, v[1..])
  }

  function Sort(byIdx: bool, v: seq<Share>): (w: seq<Share>)
    ensures |w| == |v|
  {
    if v == [] then [] else Insert(byIdx, v[0], Sort(byIdx, v[1..]))
  }

  ghost predicate Known(v: seq<Share>, defs: seq<DbDef>) {
    forall x :: x in v ==> x.idx < |defs|
  }

  /** Gives one unit to each of the first shares with a weight, while units last. */
  function Give(v: seq<Share>, units: nat, defs: seq<DbDef>): (w: seq<Share>)
    requires Known(v, defs)
    ensures |w| == |v|
  {
    if v == [] || units == 0 then v
    else if defs[v[0].idx].weight > 0 then [v[0].(base := v[0].base + 1)] + Give(v[1..], units - 1, defs)
    else [v[0]] + Give(v[1..], units, defs)
  }

  // ---- sorting ------------------------------------------------------------------------------------------------

  ghost predicate DistinctIdx(v: seq<Share>) {
    forall i, j :: 0 <= i < j < |v| ==> v[i].idx != v[j].idx
  }

  ghost predicate InOrder(byIdx: bool, v: seq<Share>) {
    forall i, j :: 0 <= i < j < |v| ==> Before(byIdx, v[i], v[j])
  }

  lemma {:induction false} InsertMembers(byIdx: bool, x: Share, v: seq<Share>)
    ensures forall y :: y in Insert(byIdx, x, v) <==> y == x || y in v
    ensures SumBase(Insert(byIdx, x, v)) == x.base + SumBase(v)
    ensures SumRem(Insert(byIdx, x, v)) == x.rem + SumRem(v)
  {
    if v == [] || Before(byIdx, x, v[0]) {
      assert ([x] + v)[1..] == v;
    } else {
      InsertMembers(byIdx, x, v[1..]);
      assert Insert(byIdx, x, v)[1..] == Insert(byIdx, x, v[1..]);
    }
  }

  lemma {:induction false} InsertOrders(byIdx: bool, x: Share, v: seq<Share>)
    requires InOrder(byIdx, v) && forall i :: 0 <= i < |v| ==> v[i].idx != x.idx
    ensures InOrder(byIdx, Insert(byIdx, x, v))
  {
    if v != [] && !Before(byIdx, x, v[0]) {
      var rest := Insert(byIdx, x, v[1..]);
      InsertOrders(byIdx, x, v[1..]);
      InsertMembers(byIdx, x, v[1..]);
      forall i | 0 <= i < |rest| ensures Before(byIdx, v[0], rest[i]) {
        assert rest[i] in rest;
      }
    }
  }

  lemma {:induction false} SortKeeps(byIdx: bool, v: seq<Share>)
    requires DistinctIdx(v)
    ensures InOrder(byIdx, Sort(byIdx, v))
    ensures forall y :: y in Sort(byIdx, v) <==> y in v
    ensures SumBase(Sort(byIdx, v)) == SumBase(v) && SumRem(Sort(byIdx, v)) == SumRem(v)
  {
    if v != [] {
      SortKeeps(byIdx, v[1..]);
      var rest := Sort(byIdx, v[1..]);
      forall i | 0 <= i < |rest| ensures rest[i].idx != v[0].idx {
        assert rest[i] in v[1..];
      }
      InsertOrders(byIdx, v[0], rest);
      InsertMembers(byIdx, v[0], rest);
      assert forall y :: y in v <==> y == v[0] || y in v[1..];
    }
  }

  /** Sorting distinct shares leaves them distinct. */
  lemma {:induction false} SortDistinct(byIdx: bool, v: seq<Share>)
    requires DistinctIdx(v)
    ensures DistinctIdx(Sort(byIdx, v))
  {
    SortKeeps(byIdx, v);
    var w := Sort(byIdx, v);
    forall i, j | 0 <= i < j < |w| ensures w[i].idx != w[j].idx {
      assert w[i] in v && w[j] in v && Before(byIdx, w[i], w[j]);
    }
  }

  /** Shares in index order whose indices are all below their number stand at their indices. */
  lemma {:induction false} IndexOrderIsPosition(v: seq<Share>, i: nat)
    requires InOrder(true, v) && i < |v| && forall j :: 0 <= j < |v| ==> v[j].idx < |v|
    ensures v[i].idx == i
  {
    AtLeastPosition(v, i);
    AtMostPosition(v, i);
  }

  lemma {:induction false} AtLeastPosition(v: seq<Share>, i: nat)
    requires InOrder(true, v) && i < |v|
    ensures v[i].idx >= i
  {
    if i > 0 {
      AtLeastPosition(v, i - 1);
      assert Before(true, v[i - 1], v[i]);
    }
  }

  lemma {:induction false} AtMostPosition(v: seq<Share>, i: nat)
    requires InOrder(true, v) && i < |v| && forall j :: 0 <= j < |v| ==> v[j].idx < |v|
    ensures v[i].idx <= i
    decreases |v| - i
  {
    if i < |v| - 1 {
      AtMostPosition(v, i + 1);
      assert Before(true, v[i], v[i + 1]);
    }
  }

  // ---- giving out the rest --------------------------------------------------------------------------------------

  /** How many of the shares have a weight. */
  function Weighted(v: seq<Share>, defs: seq<DbDef>): (n: nat)
    requires Known(v, defs)
    ensures n <= |v|
  {
    if v == [] then 0 else (if defs[v[0].idx].weight > 0 then 1 else 0) + Weighted(v[1..], defs)
  }

  predicate Gets(v: seq<Share>, units: nat, defs: seq<DbDef>, p: nat)
    requires p < |v| && Known(v, defs)
  {
    defs[v[p].idx].weight > 0 && Weighted(v[..p], defs) < units
  }

  /** A share gets a unit exactly if it has a weight and fewer than all units went to shares before it. */
  lemma {:induction false} GiveAt(v: seq<Share>, units: nat, defs: seq<DbDef>, p: nat)
    requires p < |v| && Known(v, defs)
    ensures Give(v, units, defs)[p] == v[p].(base := v[p].base + (if Gets(v, units, defs, p) then 1 else 0))
  {
    if units > 0 && p > 0 {
      GiveAt(v[1..], if defs[v[0].idx].weight > 0 then units - 1 else units, defs, p - 1);
      assert v[..p][1..] == v[1..][..p - 1];
    }
  }

  lemma {:induction false} GiveSum(v: seq<Share>, units: nat, defs: seq<DbDef>)
    requires Known(v, defs)
    ensures SumBase(Give(v, units, defs)) == SumBase(v) + if units < Weighted(v, defs) then units else Weighted(v, defs)
  {
    if v != [] && units > 0 {
      var rest := Give(v[1..], if defs[v[0].idx].weight > 0 then units - 1 else units, defs);
      GiveSum(v[1..], if defs[v[0].idx].weight > 0 then units - 1 else units, defs);
      assert Give(v, units, defs)[1..] == rest;
    }
  }

  lemma {:induction false} WeightedMonotone(v: seq<Share>, defs: seq<DbDef>, p: nat, q: nat)
    requires p <= q <= |v| && Known(v, defs)
    ensures Weighted(v[..p], defs) <= Weighted(v[..q], defs)
  {
    if p > 0 {
      assert v[..p][1..] == v[1..][..p - 1] && v[..q][1..] == v[1..][..q - 1];
      WeightedMonotone(v[1..], defs, p - 1, q - 1);
    }
  }

  // ---- the allocation -------------------------------------------------------------------------------------------

  function Distributed(v: seq<Share>, units: nat, defs: seq<DbDef>): (w: seq<Share>)
    requires DistinctIdx(v) && Known(v, defs)
    ensures |w| == |v|
  {
    SortKeeps(false, v);
    Sort(true, Give(Sort(false, v), units, defs))
  }

  /** Sorts the shares in place. */
  method SortInPlace(byIdx: bool, shares: array<Share>)
    modifies shares
    ensures shares[..] == Sort(byIdx, old(shares[..]))
  {
    var sorted := Sort(byIdx, shares[..]);
    for i := 0 to shares.Length
      invariant shares[..i] == sorted[..i]
    {
      shares[i] := sorted[i];
    }
  }

  lemma {:induction false} WeightedNext(v: seq<Share>, defs: seq<DbDef>, p: nat)
    requires p < |v| && Known(v, defs)
    ensures Weighted(v[..p + 1], defs) == Weighted(v[..p], defs) + if defs[v[p].idx].weight > 0 then 1 else 0
  {
    if p > 0 {
      assert v[..p][1..] == v[1..][..p - 1] && v[..p + 1][1..] == v[1..][..p];
      WeightedNext(v[1..], defs, p - 1);
    } else {
      assert v[..1][1..] == [];
    }
  }

  /** The loop between the two sorts. */
  method GiveUnits(shares: array<Share>, remainder: nat, defs: seq<DbDef>)
    requires Known(shares[..], defs)
    modifies shares
    ensures shares[..] == Give(old(shares[..]), remainder, defs)
  {
    ghost var s := shares[..];
    ghost var g := Give(s, remainder, defs);
    var left := remainder;
    for i := 0 to shares.Length
      invariant forall j :: 0 <= j < i ==> shares[j] == g[j]
      invariant forall j :: i <= j < shares.Length ==> shares[j] == s[j]
      invariant left == if Weighted(s[..i], defs) < remainder then remainder - Weighted(s[..i], defs) else 0
    {
      GiveAt(s, remainder, defs, i);
      WeightedNext(s, defs, i);
      if left == 0 {
        forall j | i <= j < shares.Length ensures g[j] == s[j] {
          GiveAt(s, remainder, defs, j);
          WeightedMonotone(s, defs, i, j);
        }
        break;
      }
      assert shares[i] == s[i] && s[i] in s;
      if defs[shares[i].idx].weight > 0 {
        shares[i] := shares[i].(base := shares[i].base + 1);
        left := left - 1;
      }
    }
    assert shares[..] == g;
  }

  method DistributeRemainderMb(shares: array<Share>, remainder: nat, defs: seq<DbDef>)
    requires DistinctIdx(shares[..]) && Known(shares[..], defs)
    modifies shares
    ensures shares[..] == Distributed(old(shares[..]), remainder, defs)
  {
    SortKeeps(false, shares[..]);
    SortInPlace(false, shares);
    GiveUnits(shares, remainder, defs);
    SortInPlace(true, shares);
  }

  method ComputeSharesMb(defs: seq<DbDef>, total: nat, sum: nat) returns (v: seq<Share>)
    requires sum > 0
    ensures v == SharesOf(defs, total, sum)
  {
    v := [];
    for idx := 0 to |defs|
      invariant |v| == idx && forall j :: 0 <= j < idx ==> v[j] == ShareOf(defs, total, sum, j)
    {
      var w := defs[idx].weight;
      if w == 0 {
        v := v + [Share(idx, 0, 0)];
        continue;
      }
      var prod := SaturatingMul(total, w);
      v := v + [Share(idx, prod / sum, prod % sum)];
    }
  }

  /** The shares before and after the rest is given out, in index order. */
  function FinalShares(defs: seq<DbDef>, total: nat): (v: seq<Share>)
    requires SumWeights(defs) > 0
    ensures |v| == |defs|
  {
    var shares := SharesOf(defs, total, SumWeights(defs));
    Distributed(shares, Left(defs, total), defs)
  }

  /** The megabytes that are left after every column has had its quota rounded down. */
  function Left(defs: seq<DbDef>, total: nat): nat
    requires SumWeights(defs) > 0
  {
    var given := SumBase(SharesOf(defs, total, SumWeights(defs)));
    if total >= given then total - given else 0
  }

  /** The megabytes of each column over all its shards. */
  function Allocation(defs: seq<DbDef>, total: nat): (mb: seq<nat>)
    ensures |mb| == |defs|
  {
    if SumWeights(defs) == 0 || total == 0 then seq(|defs|, _ => 0)
    else seq(|defs|, i requires 0 <= i < |defs| => FinalShares(defs, total)[i].base)
  }

  lemma NothingLeft(v: seq<Share>, defs: seq<DbDef>)
    requires InOrder(true, v) && Known(v, defs)
    ensures Distributed(v, 0, defs) == v
  {
    SortKeeps(false, v);
    SortDistinct(false, v);
    var s := Sort(false, v);
    SortKeeps(true, s);
    SameOrder(Sort(true, s), v);
  }

  /** There is one way to put shares in index order. */
  lemma {:induction false} SameOrder(a: seq<Share>, b: seq<Share>)
    requires |a| == |b| && InOrder(true, a) && InOrder(true, b) && forall x :: x in a <==> x in b
    ensures a == b
  {
    if a != [] {
      assert a[0] in b && b[0] in a;
      var i :| 0 <= i < |b| && b[i] == a[0];
      var j :| 0 <= j < |a| && a[j] == b[0];
      assert a[0] == b[0];
      assert forall x :: x in a[1..] <==> x in a && x != a[0];
      assert forall x :: x in b[1..] <==> x in b && x != b[0];
      SameOrder(a[1..], b[1..]);
    }
  }

  /** Giving units changes neither indices nor the order. */
  lemma {:induction false} GiveIndices(s: seq<Share>, units: nat, defs: seq<DbDef>)
    requires Known(s, defs)
    ensures forall j :: 0 <= j < |s| ==> Give(s, units, defs)[j].idx == s[j].idx
    ensures DistinctIdx(s) ==> DistinctIdx(Give(s, units, defs))
  {
    forall j | 0 <= j < |s| ensures Give(s, units, defs)[j].idx == s[j].idx {
      GiveAt(s, units, defs, j);
    }
  }

  /** Shares `0, 1, …` end in their places, and each is where it stood in the order of remainders, plus what it got
      there. */
  lemma DistributedAt(v: seq<Share>, units: nat, defs: seq<DbDef>, i: nat) returns (p: nat)
    requires |v| == |defs| && i < |v| && DistinctIdx(v) && Known(v, defs)
    ensures Known(Sort(false, v), defs) && p < |v|
    ensures Sort(false, v)[p] in v && Sort(false, v)[p].idx == i
    ensures var share := Sort(false, v)[p];
            Distributed(v, units, defs)[i]
            == share.(base := share.base + (if Gets(Sort(false, v), units, defs, p) then 1 else 0))
  {
    SortKeeps(false, v);
    SortDistinct(false, v);
    var s := Sort(false, v);
    var g := Give(s, units, defs);
    GiveIndices(s, units, defs);
    SortKeeps(true, g);
    var r := Sort(true, g);
    forall j | 0 <= j < |r| ensures r[j].idx < |r| {
      assert r[j] in g;
      var k :| 0 <= k < |g| && g[k] == r[j];
      assert s[k] in s;
    }
    IndexOrderIsPosition(r, i);
    assert r[i] in g;
    p :| 0 <= p < |g| && g[p] == r[i];
    GiveAt(s, units, defs, p);
    assert s[p] in s;
  }

  /** Column `i` ends with its quota rounded down, plus one if it stands among the first in the order of remainders. */
  lemma FinalAt(defs: seq<DbDef>, total: nat, i: nat) returns (p: nat)
    requires SumWeights(defs) > 0 && i < |defs|
    ensures var s := Sort(false, SharesOf(defs, total, SumWeights(defs)));
            var share := ShareOf(defs, total, SumWeights(defs), i);
            && p < |s| && s[p] == share && Known(s, defs)
            && FinalShares(defs, total)[i]
               == share.(base := share.base + (if Gets(s, Left(defs, total), defs, p) then 1 else 0))
  {
    p := DistributedAt(SharesOf(defs, total, SumWeights(defs)), Left(defs, total), defs, i);
  }

  lemma {:induction false} FinalIndices(defs: seq<DbDef>, total: nat)
    requires SumWeights(defs) > 0
    ensures forall i :: 0 <= i < |defs| ==> FinalShares(defs, total)[i].idx == i
  {
    forall i | 0 <= i < |defs| ensures FinalShares(defs, total)[i].idx == i {
      var p := FinalAt(defs, total, i);
    }
  }

  /** A column's megabytes are divided over its shards; a column without shards makes the program panic. */
  method CollectAllocationsMb(shares: seq<Share>, defs: seq<DbDef>) returns (out: Result<seq<nat>, string>)
    requires |shares| == |defs| && forall i :: 0 <= i < |shares| ==> shares[i].idx == i
    ensures out.Err? <==> exists i :: 0 <= i < |defs| && defs[i].shards == 0
    ensures out.Ok? ==>
              |out.value| == |defs| && forall i :: 0 <= i < |defs| ==> out.value[i] == shares[i].base / defs[i].shards
  {
    var mb: seq<nat> := [];
    for i := 0 to |shares|
      invariant |mb| == i && forall j :: 0 <= j < i ==> defs[j].shards > 0 && mb[j] == shares[j].base / defs[j].shards
    {
      var shards := defs[shares[i].idx].shards;
      if shards == 0 {
        return Err("must have at least 1 shard");
      }
      mb := mb + [if shards == 1 then shares[i].base else shares[i].base / shards];
    }
    out := Ok(mb);
  }

  predicate Allocates(defs: seq<DbDef>, total: nat) {
    total > 0 && SumWeights(defs) > 0
  }

  /** The shares rounded down, with the rest given out if there is any. */
  method RoundedShares(defs: seq<DbDef>, total: nat) returns (rounded: seq<Share>)
    requires SumWeights(defs) > 0
    ensures rounded == FinalShares(defs, total)
  {
    var v := ComputeSharesMb(defs, total, SumWeights(defs));
    var shares := new Share[|v|](i requires 0 <= i < |v| => v[i]);
    assert shares[..] == v;
    var baseSum := SumBase(v);
    var remainder := if total >= baseSum then total - baseSum else 0;
    if remainder > 0 {
      DistributeRemainderMb(shares, remainder, defs);
    } else {
      NothingLeft(v, defs);
    }
    rounded := shares[..];
  }

  method AllocateCacheMb(defs: seq<DbDef>, total: nat) returns (out: Result<seq<nat>, string>)
    requires total <= U64_MAX && SumWeights(defs) <= U64_MAX
    ensures out.Err? <==> Allocates(defs, total) && exists i :: 0 <= i < |defs| && defs[i].shards == 0
    ensures out.Ok? ==> |out.value| == |defs|
    ensures out.Ok? && Allocates(defs, total) ==> forall i :: 0 <= i < |defs| ==>
              defs[i].shards > 0 && out.value[i] == Allocation(defs, total)[i] / defs[i].shards
    ensures out.Ok? && !Allocates(defs, total) ==> forall i :: 0 <= i < |defs| ==> out.value[i] == 0
  {
    if defs == [] || total == 0 {
      return Ok(seq(|defs|, _ => 0));
    }
    if SumWeights(defs) == 0 {
      return Ok(seq(|defs|, _ => 0));
    }
    var shares := RoundedShares(defs, total);
    FinalIndices(defs, total);
    out := CollectAllocationsMb(shares, defs);
  }

  // ---- what the allocation means --------------------------------------------------------------------------------

  function Quota(defs: seq<DbDef>, total: nat, i: nat): nat
    requires i < |defs| && SumWeights(defs) > 0
  {
    total * defs[i].weight / SumWeights(defs)
  }

  function Remainder(defs: seq<DbDef>, total: nat, i: nat): nat
    requires i < |defs| && SumWeights(defs) > 0
  {
    total * defs[i].weight % SumWeights(defs)
  }

  ghost predicate NoOverflow(defs: seq<DbDef>, total: nat) {
    forall i :: 0 <= i < |defs| ==> total * defs[i].weight <= U64_MAX
  }

  lemma {:induction false} SumsAppend(v: seq<Share>, x: Share)
    ensures SumBase(v + [x]) == SumBase(v) + x.base && SumRem(v + [x]) == SumRem(v) + x.rem
  {
    if v == [] {
      assert [x][1..] == [];
    } else {
      assert (v + [x])[1..] == v[1..] + [x];
      SumsAppend(v[1..], x);
    }
  }

  /** The shares account for all of the total, and with saturated products for at most that. */
  lemma {:induction false} SharesAccount(defs: seq<DbDef>, total: nat, sum: nat, k: nat)
    requires sum > 0 && k <= |defs|
    ensures var v := SharesOf(defs, total, sum)[..k];
            && sum * SumBase(v) + SumRem(v) <= total * SumWeights(defs[..k])
            && (NoOverflow(defs, total) ==> sum * SumBase(v) + SumRem(v) == total * SumWeights(defs[..k]))
  {
    var v := SharesOf(defs, total, sum);
    if k > 0 {
      SharesAccount(defs, total, sum, k - 1);
      var share, w := v[k - 1], defs[k - 1].weight;
      assert v[..k] == v[..k - 1] + [share] && defs[..k][..k - 1] == defs[..k - 1];
      SumsAppend(v[..k - 1], share);
      OneShare(defs, total, sum, k - 1);
      Distributes(sum, SumBase(v[..k - 1]), share.base);
      Distributes(total, SumWeights(defs[..k - 1]), w);
    }
  }

  lemma OneShare(defs: seq<DbDef>, total: nat, sum: nat, i: nat)
    requires sum > 0 && i < |defs|
    ensures var share, prod := ShareOf(defs, total, sum, i), total * defs[i].weight;
            && sum * share.base + share.rem <= prod
            && (prod <= U64_MAX ==>
                 sum * share.base + share.rem == prod && share.base == prod / sum && share.rem == prod % sum)
            && share.rem < sum && (share.rem > 0 ==> defs[i].weight > 0)
  {
    DivMod(SaturatingMul(total, defs[i].weight), sum);
    if defs[i].weight == 0 { ZeroDiv(sum, total, defs[i].weight); }
  }

  lemma ZeroDiv(m: nat, t: nat, w: nat)
    requires m > 0 && w == 0
    ensures t * w == 0 && 0 / m == 0 && 0 % m == 0
  {
  }

  /** Remainders are below the sum of the weights and only columns with a weight have one. */
  ghost predicate ProperRems(v: seq<Share>, defs: seq<DbDef>, sum: nat) {
    Known(v, defs) && forall x :: x in v ==> x.rem < sum && (x.rem > 0 ==> defs[x.idx].weight > 0)
  }

  /** So few shares cannot have so much remainder. */
  lemma {:induction false} RemsAreFew(v: seq<Share>, defs: seq<DbDef>, sum: nat)
    requires sum > 0 && ProperRems(v, defs, sum)
    ensures SumRem(v) <= Weighted(v, defs) * (sum - 1)
  {
    if v != [] {
      assert v[0] in v;
      RemsAreFew(v[1..], defs, sum);
      assert (Weighted(v[1..], defs) + 1) * (sum - 1) == Weighted(v[1..], defs) * (sum - 1) + (sum - 1);
    }
  }

  /** The order in which the rest is given out, with what is known about it. */
  lemma SortedShares(defs: seq<DbDef>, total: nat) returns (s: seq<Share>)
    requires SumWeights(defs) > 0
    ensures s == Sort(false, SharesOf(defs, total, SumWeights(defs))) && InOrder(false, s) && Known(s, defs)
    ensures ProperRems(s, defs, SumWeights(defs))
    ensures SumBase(s) == SumBase(SharesOf(defs, total, SumWeights(defs)))
    ensures SumWeights(defs) * SumBase(s) + SumRem(s) <= total * SumWeights(defs)
    ensures NoOverflow(defs, total) ==> SumWeights(defs) * SumBase(s) + SumRem(s) == total * SumWeights(defs)
  {
    var sum := SumWeights(defs);
    var v := SharesOf(defs, total, sum);
    SortKeeps(false, v);
    s := Sort(false, v);
    SharesAccount(defs, total, sum, |defs|);
    assert v[..|defs|] == v && defs[..|defs|] == defs;
    forall x | x in s ensures x.rem < sum && x.idx < |defs| && (x.rem > 0 ==> defs[x.idx].weight > 0) {
      var i :| 0 <= i < |v| && v[i] == x;
      OneShare(defs, total, sum, i);
    }
  }

  /** What is left times the sum of the weights is what the remainders add up to, so it is less than the number of
      columns that have a remainder. */
  lemma LeftIsSmall(defs: seq<DbDef>, total: nat) returns (s: seq<Share>)
    requires SumWeights(defs) > 0 && NoOverflow(defs, total)
    ensures s == Sort(false, SharesOf(defs, total, SumWeights(defs))) && InOrder(false, s)
    ensures ProperRems(s, defs, SumWeights(defs))
    ensures SumWeights(defs) * Left(defs, total) == SumRem(s) && SumBase(s) + Left(defs, total) == total
    ensures Left(defs, total) <= Weighted(s, defs)
  {
    s := SortedShares(defs, total);
    RemsAreFew(s, defs, SumWeights(defs));
    Accounts(SumWeights(defs), SumBase(s), total, SumRem(s), Weighted(s, defs));
  }

  lemma Accounts(m: nat, base: nat, total: nat, rems: nat, n: nat)
    requires m > 0 && m * base + rems == total * m && rems <= n * (m - 1)
    ensures base <= total && m * (total - base) == rems && total - base <= n
  {
    NotMore(m, base, total, rems);
    Distributes(m, base, total - base);
    FewUnits(m, total - base, n);
  }

  lemma NotMore(m: nat, base: nat, total: nat, rest: nat)
    requires m > 0 && m * base + rest <= total * m
    ensures base <= total
  {
    if base > total { OneMore(m, base, total); }
  }

  lemma FewUnits(m: nat, units: nat, n: nat)
    requires m > 0 && m * units <= n * (m - 1)
    ensures units <= n
  {
    Distributes(n, m - 1, 1);
    if units > n { OneMore(m, units, n); }
  }

  // ---- the theorems ---------------------------------------------------------------------------------------------

  function SumOf(mb: seq<nat>): nat {
    if mb == [] then 0 else SumOf(mb[..|mb| - 1]) + mb[|mb| - 1]
  }

  lemma {:induction false} SumOfBases(v: seq<Share>, mb: seq<nat>)
    requires |v| == |mb| && forall i :: 0 <= i < |v| ==> mb[i] == v[i].base
    ensures SumOf(mb) == SumBase(v)
  {
    if v != [] {
      var m := |v| - 1;
      SumOfBases(v[..m], mb[..m]);
      SumsAppend(v[..m], v[m]);
      assert v == v[..m] + [v[m]];
    }
  }

  /** What is given out: the quotas rounded down, and one unit for each weighted column while units last. */
  lemma GivenOut(defs: seq<DbDef>, total: nat) returns (s: seq<Share>)
    requires Allocates(defs, total)
    ensures s == Sort(false, SharesOf(defs, total, SumWeights(defs))) && Known(s, defs)
    ensures SumBase(s) <= total && Left(defs, total) == total - SumBase(s)
    ensures SumOf(Allocation(defs, total))
         == SumBase(s) + if Left(defs, total) < Weighted(s, defs) then Left(defs, total) else Weighted(s, defs)
  {
    s := SortedShares(defs, total);
    NotMore(SumWeights(defs), SumBase(s), total, SumRem(s));
    var v, units := SharesOf(defs, total, SumWeights(defs)), Left(defs, total);
    SortDistinct(false, v);
    GiveIndices(s, units, defs);
    GiveSum(s, units, defs);
    SortKeeps(true, Give(s, units, defs));
    SumOfBases(FinalShares(defs, total), Allocation(defs, total));
  }

  /** The whole cache is allocated exactly when what is left over the rounded quotas is not more than the number of
      columns with a weight; otherwise less is. */
  lemma AllocatedExactlyIf(defs: seq<DbDef>, total: nat) returns (s: seq<Share>)
    requires Allocates(defs, total)
    ensures s == Sort(false, SharesOf(defs, total, SumWeights(defs))) && Known(s, defs)
    ensures SumOf(Allocation(defs, total)) == total <==> Left(defs, total) <= Weighted(s, defs)
    ensures SumOf(Allocation(defs, total)) <= total
  {
    s := GivenOut(defs, total);
  }

  /** Without overflow the whole cache is allocated. */
  lemma AllocatedExactly(defs: seq<DbDef>, total: nat)
    requires Allocates(defs, total) && NoOverflow(defs, total)
    ensures SumOf(Allocation(defs, total)) == total
  {
    var s := LeftIsSmall(defs, total);
    var s' := AllocatedExactlyIf(defs, total);
  }

  /** With overflow it need not be: half of 128 gigabytes is lost here. */
  lemma OverflowLoses()
    ensures var defs, total := [DbDef(1, 0x1_0000_0000_0000), DbDef(1, 0x1_0000_0000_0000)], 128 * 1024;
            && Allocates(defs, total) && !NoOverflow(defs, total)
            && SumOf(Allocation(defs, total)) == 64 * 1024
  {
    var heavy, total := DbDef(1, 0x1_0000_0000_0000), 128 * 1024;
    var defs := [heavy, heavy];
    assert defs[..1] == [heavy] && defs[..1][..0] == [];
    assert SumWeights(defs[..1]) == SumWeights(defs[..1][..0]) + 0x1_0000_0000_0000;
    assert SumWeights(defs) == SumWeights(defs[..1]) + 0x1_0000_0000_0000;
    var share := Share(0, 0x7FFF, 0x1_FFFF_FFFF_FFFF);
    var v := SharesOf(defs, total, 0x2_0000_0000_0000);
    assert v == [share, share.(idx := 1)];
    assert v[1..] == [share.(idx := 1)] && v[1..][1..] == [];
    var s := GivenOut(defs, total);
    assert Sort(false, v) == v;
    assert Weighted(s, defs) == 2;
  }

  lemma {:induction false} SumRemSplit(s: seq<Share>, p: nat)
    requires p <= |s| && forall j :: p <= j < |s| ==> s[j].rem == 0
    ensures SumRem(s) == SumRem(s[..p])
  {
    if s != [] {
      if p > 0 {
        assert s[..p][1..] == s[1..][..p - 1];
        SumRemSplit(s[1..], p - 1);
      } else {
        assert s[..0] == s[1..][..0];
        SumRemSplit(s[1..], 0);
      }
    }
  }

  /** Only shares with a remainder get a unit: the shares before one without could not leave units for it. */
  lemma {:induction false} GetsHasRemainder(s: seq<Share>, units: nat, defs: seq<DbDef>, sum: nat, p: nat)
    requires sum > 0 && InOrder(false, s) && ProperRems(s, defs, sum) && sum * units == SumRem(s)
    requires p < |s| && Gets(s, units, defs, p)
    ensures s[p].rem > 0
  {
    if s[p].rem == 0 {
      forall j | p < j < |s| ensures s[j].rem == 0 {
        assert Before(false, s[p], s[j]);
      }
      SumRemSplit(s, p);
      RemsAreFew(s[..p], defs, sum);
      FewUnits(sum, units, Weighted(s[..p], defs));
    }
  }

  /** Without overflow every column gets its quota, rounded down or up; an exact quota is met exactly. */
  lemma QuotaRounded(defs: seq<DbDef>, total: nat, i: nat)
    requires Allocates(defs, total) && NoOverflow(defs, total) && i < |defs|
    ensures Allocation(defs, total)[i] == Quota(defs, total, i)
         || Allocation(defs, total)[i] == Quota(defs, total, i) + 1
    ensures Remainder(defs, total, i) == 0 ==> Allocation(defs, total)[i] == Quota(defs, total, i)
  {
    var sum := SumWeights(defs);
    var s := LeftIsSmall(defs, total);
    var p := FinalAt(defs, total, i);
    OneShare(defs, total, sum, i);
    if Gets(s, Left(defs, total), defs, p) {
      GetsHasRemainder(s, Left(defs, total), defs, sum, p);
    }
    if defs[i].weight == 0 { ZeroDiv(sum, total, defs[i].weight); }
  }

  /** The columns that are rounded up are those with the largest remainders; of equal remainders the first ones. */
  lemma LargestRemaindersFirst(defs: seq<DbDef>, total: nat, i: nat, j: nat)
    requires Allocates(defs, total) && NoOverflow(defs, total) && i < |defs| && j < |defs|
    requires Allocation(defs, total)[i] > Quota(defs, total, i)
    requires Allocation(defs, total)[j] == Quota(defs, total, j) && defs[j].weight > 0
    ensures Remainder(defs, total, i) > Remainder(defs, total, j)
         || (Remainder(defs, total, i) == Remainder(defs, total, j) && i < j)
  {
    var sum := SumWeights(defs);
    var s := LeftIsSmall(defs, total);
    var p := FinalAt(defs, total, i);
    var q := FinalAt(defs, total, j);
    OneShare(defs, total, sum, i);
    OneShare(defs, total, sum, j);
    if q <= p { WeightedMonotone(s, defs, q, p); }
    assert Before(false, s[p], s[q]);
  }

  /** A column without weight gets nothing, also with overflow. */
  lemma WeightlessGetsNothing(defs: seq<DbDef>, total: nat, i: nat)
    requires i < |defs| && defs[i].weight == 0
    ensures Allocation(defs, total)[i] == 0
  {
    if Allocates(defs, total) { var p := FinalAt(defs, total, i); }
  }

  /** What all shards of the first `k` columns have together, and how many shards there are beyond one a column. */
  function OverShards(defs: seq<DbDef>, mb: seq<nat>, k: nat): nat
    requires k <= |defs| == |mb| && forall i :: 0 <= i < |defs| ==> defs[i].shards > 0
  {
    if k == 0 then 0 else OverShards(defs, mb, k - 1) + mb[k - 1] / defs[k - 1].shards * defs[k - 1].shards
  }

  function ExtraShards(defs: seq<DbDef>, k: nat): nat
    requires k <= |defs| && forall i :: 0 <= i < |defs| ==> defs[i].shards > 0
  {
    if k == 0 then 0 else ExtraShards(defs, k - 1) + (defs[k - 1].shards - 1)
  }

  lemma {:induction false} ShardLoss(defs: seq<DbDef>, mb: seq<nat>, k: nat)
    requires k <= |defs| == |mb| && forall i :: 0 <= i < |defs| ==> defs[i].shards > 0
    ensures SumOf(mb[..k]) - ExtraShards(defs, k) <= OverShards(defs, mb, k) <= SumOf(mb[..k])
  {
    if k > 0 {
      ShardLoss(defs, mb, k - 1);
      DivMod(mb[k - 1], defs[k - 1].shards);
      assert mb[..k][..k - 1] == mb[..k - 1];
    }
  }

  /** Without overflow dividing the columns over their shards loses at most one megabyte for every shard but one of a
      column, and nothing else of the cache is lost. */
  lemma {:induction false} LossOverShards(defs: seq<DbDef>, total: nat)
    requires Allocates(defs, total) && NoOverflow(defs, total) && forall i :: 0 <= i < |defs| ==> defs[i].shards > 0
    ensures total - ExtraShards(defs, |defs|) <= OverShards(defs, Allocation(defs, total), |defs|) <= total
  {
    AllocatedExactly(defs, total);
    ShardLoss(defs, Allocation(defs, total), |defs|);
    assert Allocation(defs, total)[..|defs|] == Allocation(defs, total);
  }
}
