/**
 Partitioning of byte keys: the little-endian value of the bytes modulo the shard count, computed by a
 fold that never leaves 128 bits; and the little-endian increment.
 */
module Partitioning {
  import opened Basics

  newtype byte = x: int | 0 <= x < 0x100
  newtype u128 = x: int | 0 <= x < 0x1_0000_0000_0000_0000_0000_0000_0000_0000

  const USIZE_LIMIT := 0x1_0000_0000_0000_0000

  function Pow256(k: nat): (p: nat)
    ensures p >= 1
  {
    if k == 0 then 1 else 256 * Pow256(k - 1)
  }

  /** The value of little-endian bytes. */
  function LeValue(bytes: seq<byte>): nat {
    if bytes == [] then 0 else bytes[0] as nat + 256 * LeValue(bytes[1..])
  }

  lemma {:induction false} LeValueAppend(a: seq<byte>, b: seq<byte>)
    ensures LeValue(a + b) == LeValue(a) + Pow256(|a|) * LeValue(b)
  {
    if a == [] {
      assert a + b == b;
    } else {
      assert (a + b)[1..] == a[1..] + b;
      LeValueAppend(a[1..], b);
      calc {
        LeValue(a + b);
        a[0] as nat + 256 * (LeValue(a[1..]) + Pow256(|a| - 1) * LeValue(b));
        { Distribute(256, LeValue(a[1..]), Pow256(|a| - 1), LeValue(b)); }
        a[0] as nat + 256 * LeValue(a[1..]) + 256 * Pow256(|a| - 1) * LeValue(b);
      }
    }
  }

  lemma Distribute(k: int, x: int, y: int, z: int)
    ensures k * (x + y * z) == k * x + k * y * z
  {
  }

  lemma {:induction false} LeValueBound(bytes: seq<byte>)
    ensures LeValue(bytes) < Pow256(|bytes|)
  {
    if bytes != [] { LeValueBound(bytes[1..]); }
  }

  /** Keys of one length are told apart by their values. */
  lemma {:induction false} LeValueInjective(a: seq<byte>, b: seq<byte>)
    requires |a| == |b| && LeValue(a) == LeValue(b)
    ensures a == b
  {
    if a != [] {
      LeValueInjective(a[1..], b[1..]);
      assert a == [a[0]] + a[1..] && b == [b[0]] + b[1..];
    }
  }

  // ---- modular arithmetic -------------------------------------------------------------------------------------

  lemma AtLeast(d: int, m: int)
    requires d >= 1 && m > 0
    ensures d * m >= m
  {
    assert (d - 1) * m >= 0;
    assert d * m == (d - 1) * m + m;
  }

  lemma Minus(a: int, b: int, m: int)
    ensures (a - b) * m == a * m - b * m
  {
  }

  /** A multiple of `m` that is closer to zero than `m` is zero. */
  lemma SmallMultiple(d: int, m: int)
    requires m > 0 && -m < d * m < m
    ensures d == 0
  {
    if d >= 1 { AtLeast(d, m); }
    if d <= -1 {
      AtLeast(-d, m);
      Minus(0, d, m);
    }
  }

  lemma QuotientUnique(x: int, q: int, r: int, m: int)
    requires m > 0 && 0 <= r < m && x == q * m + r
    ensures x % m == r && x / m == q
  {
    DivMod(x, m);
    Minus(q, x / m, m);
    SmallMultiple(q - x / m, m);
  }

  lemma ModPlusMultiple(x: int, k: int, m: int)
    requires m > 0
    ensures (x + k * m) % m == x % m
  {
    DivMod(x, m);
    Minus(x / m, -k, m);
    Minus(0, k, m);
    QuotientUnique(x + k * m, x / m + k, x % m, m);
  }

  /** Reducing a summand first changes nothing. */
  lemma ModOfSum(x: int, y: int, m: int)
    requires m > 0
    ensures (x % m + y) % m == (x + y) % m
  {
    DivMod(x, m);
    ModPlusMultiple(x % m + y, x / m, m);
  }

  /** Reducing a factor first changes nothing. */
  lemma ModOfProduct(x: int, y: int, m: int)
    requires m > 0
    ensures ((x % m) * y) % m == (x * y) % m
  {
    var q, r := x / m, x % m;
    DivMod(x, m);
    Product(q, m, r, y);
    ModPlusMultiple(r * y, q * y, m);
  }

  lemma Product(q: int, m: int, r: int, y: int)
    ensures (q * m + r) * y == r * y + (q * y) * m
  {
  }

  // ---- the fold -----------------------------------------------------------------------------------------------

  /** What the fold has reached after a chunk: the next power and the value so far. */
  function FoldPow(m: nat, pow: nat, chunk: seq<byte>): nat
    requires m > 0
  {
    (pow * Pow256(|chunk|)) % m
  }

  function FoldAcc(m: nat, pow: nat, acc: nat, chunk: seq<byte>): nat
    requires m > 0
  {
    (acc + pow * LeValue(chunk)) % m
  }

  /** Folding two chunks one after the other is folding them joined. */
  lemma FoldComposes(m: nat, pow: nat, acc: nat, a: seq<byte>, b: seq<byte>)
    requires m > 0
    ensures FoldPow(m, FoldPow(m, pow, a), b) == FoldPow(m, pow, a + b)
    ensures FoldAcc(m, FoldPow(m, pow, a), FoldAcc(m, pow, acc, a), b) == FoldAcc(m, pow, acc, a + b)
  {
    PowAdd(|a|, |b|);
    ModOfProduct(pow * Pow256(|a|), Pow256(|b|), m);
    assert pow * Pow256(|a|) * Pow256(|b|) == pow * (Pow256(|a|) * Pow256(|b|));
    var p, v := pow * Pow256(|a|), LeValue(b);
    calc {
      FoldAcc(m, FoldPow(m, pow, a), FoldAcc(m, pow, acc, a), b);
      ((acc + pow * LeValue(a)) % m + (p % m) * v) % m;
      { ModOfSum(acc + pow * LeValue(a), (p % m) * v, m); }
      (acc + pow * LeValue(a) + (p % m) * v) % m;
      { ModOfSum((p % m) * v, acc + pow * LeValue(a), m);
        ModOfProduct(p, v, m);
        ModOfSum(p * v, acc + pow * LeValue(a), m); }
      (acc + pow * LeValue(a) + p * v) % m;
      { LeValueAppend(a, b); Distribute(pow, LeValue(a), Pow256(|a|), v); }
      FoldAcc(m, pow, acc, a + b);
    }
  }

  lemma {:induction false} PowAdd(i: nat, j: nat)
    ensures Pow256(i + j) == Pow256(i) * Pow256(j)
  {
    if i > 0 { PowAdd(i - 1, j); }
  }

  lemma FoldNothing(m: nat, pow: nat, acc: nat)
    requires pow < m && acc < m
    ensures FoldPow(m, pow, []) == pow && FoldAcc(m, pow, acc, []) == acc
  {
    SmallMod(pow, m);
    SmallMod(acc, m);
  }

  /** Started at one and zero, the fold is the value modulo `m`. */
  lemma {:induction false} FoldFromStart(m: nat, bytes: seq<byte>)
    requires m > 0
    ensures FoldAcc(m, 1, 0, bytes) == LeValue(bytes) % m < m
  {
  }

  lemma OneByte(b: byte)
    ensures |[b]| == 1 && LeValue([b]) == b as nat && Pow256(1) == 256
  {
  }

  lemma Commute(x: nat, y: nat)
    ensures x * y == y * x
  {
  }

  lemma FoldByte(m: nat, pow: nat, acc: nat, done: seq<byte>, b: byte)
    requires m > 0
    ensures FoldPow(m, pow, done + [b]) == (FoldPow(m, pow, done) * 256) % m
    ensures FoldAcc(m, pow, acc, done + [b]) == (FoldAcc(m, pow, acc, done) + b as nat * FoldPow(m, pow, done)) % m
  {
    FoldComposes(m, pow, acc, done, [b]);
    FoldOne(m, FoldPow(m, pow, done), FoldAcc(m, pow, acc, done), b);
  }

  lemma FoldOne(m: nat, pow: nat, acc: nat, b: byte)
    requires m > 0
    ensures FoldPow(m, pow, [b]) == (pow * 256) % m && FoldAcc(m, pow, acc, [b]) == (acc + b as nat * pow) % m
  {
    OneByte(b);
    Commute(pow, b as nat);
    assert FoldAcc(m, pow, acc, [b]) == (acc + pow * LeValue([b])) % m;
  }

  method LeModFoldChunk(m: u128, pow: u128, acc: u128, chunk: seq<byte>) returns (pow': u128, acc': u128)
    requires 0 < m as int < USIZE_LIMIT
    requires m > 1 ==> pow < m && acc < m
    ensures if m == 1 then pow' == pow && acc' == acc
            else && pow' < m && acc' < m
                 && pow' as nat == FoldPow(m as nat, pow as nat, chunk)
                 && acc' as nat == FoldAcc(m as nat, pow as nat, acc as nat, chunk)
  {
    pow', acc' := pow, acc;
    if m == 1 { return; }
    FoldNothing(m as nat, pow as nat, acc as nat);
    for i := 0 to |chunk|
      invariant pow' < m && acc' < m
      invariant pow' as nat == FoldPow(m as nat, pow as nat, chunk[..i])
      invariant acc' as nat == FoldAcc(m as nat, pow as nat, acc as nat, chunk[..i])
    {
      var b := chunk[i] as u128;
      assert chunk[..i + 1] == chunk[..i] + [chunk[i]];
      FoldByte(m as nat, pow as nat, acc as nat, chunk[..i], chunk[i]);
      NoOverflow(b as nat, pow' as nat, acc' as nat);
      acc' := (acc' + b * pow') % m;
      pow' := (pow' * 256) % m;
    }
    assert chunk[..|chunk|] == chunk;
  }

  lemma NoOverflow(b: nat, p: nat, a: nat)
    requires b < 256 && p < USIZE_LIMIT && a < USIZE_LIMIT
    ensures 0 <= b * p <= a + b * p < 256 * USIZE_LIMIT && p * 256 < 256 * USIZE_LIMIT
  {
    assert b * p <= 255 * p by { Minus(255, b, p); }
  }

  method PartitionBytesLe(n: nat, bytes: seq<byte>) returns (shard: nat)
    requires 0 < n < USIZE_LIMIT
    ensures shard == LeValue(bytes) % n
  {
    FoldFromStart(n, bytes);
    var m := n as u128;
    if m == 1 {
      return 0;
    }
    var pow: u128, acc: u128 := 1, 0;
    pow, acc := LeModFoldChunk(m, pow, acc, bytes);
    SmallMod(acc as nat, n);
    shard := (acc % m) as nat;
  }

  // ---- where keys go --------------------------------------------------------------------------------------------

  method IncLe(bytes: array<byte>)
    modifies bytes
    ensures LeValue(bytes[..]) == (LeValue(old(bytes[..])) + 1) % Pow256(bytes.Length)
  {
    ghost var before := bytes[..];
    for i := 0 to bytes.Length
      invariant bytes[i..] == before[i..]
      invariant LeValue(bytes[..i]) == 0 && LeValue(before[..i]) == Pow256(i) - 1
    {
      if bytes[i] != 0xFF {
        bytes[i] := bytes[i] + 1;
        assert before == before[..i] + before[i..];
        assert bytes[..] == bytes[..i] + ([before[i] + 1] + before[i + 1..]);
        CarryStops(before[..i], bytes[..i], before[i..]);
        LeValueBound(bytes[..]);
        SmallMod(LeValue(bytes[..]), Pow256(bytes.Length));
        return;
      }
      assert bytes[i..][1..] == before[i..][1..];
      CarryGoesOn(before[..i], bytes[..i]);
      assert before[..i + 1] == before[..i] + [0xFF];
      bytes[i] := 0;
      assert bytes[..i + 1] == bytes[..i] + [0] && bytes[i + 1..] == before[i + 1..];
    }
    assert bytes[..bytes.Length] == bytes[..] && before[..bytes.Length] == before;
    QuotientUnique(Pow256(bytes.Length), 1, 0, Pow256(bytes.Length));
  }

  lemma SmallMod(x: nat, m: nat)
    requires x < m
    ensures x % m == x
  {
    QuotientUnique(x, 0, x, m);
  }

  lemma {:induction false} CarryStops(low: seq<byte>, zeros: seq<byte>, rest: seq<byte>)
    requires |low| == |zeros| && LeValue(low) == Pow256(|low|) - 1 && LeValue(zeros) == 0
    requires rest != [] && rest[0] < 0xFF
    ensures LeValue(zeros + ([rest[0] + 1] + rest[1..])) == LeValue(low + rest) + 1
  {
    var more := [rest[0] + 1] + rest[1..];
    assert more[1..] == rest[1..];
    LeValueAppend(zeros, more);
    LeValueAppend(low, rest);
    OneMore(Pow256(|low|), LeValue(more), LeValue(rest));
  }

  lemma {:induction false} CarryGoesOn(low: seq<byte>, zeros: seq<byte>)
    requires |low| == |zeros| && LeValue(low) == Pow256(|low|) - 1 && LeValue(zeros) == 0
    ensures LeValue(low + [0xFF]) == Pow256(|low| + 1) - 1 && LeValue(zeros + [0]) == 0
  {
    LeValueAppend(low, [0xFF]);
    LeValueAppend(zeros, [0]);
    assert LeValue([0xFF as byte]) == 255 && LeValue([0 as byte]) == 0;
    TopAndNothing(Pow256(|low|), LeValue([0xFF as byte]), LeValue([0 as byte]));
  }

  lemma TopAndNothing(p: nat, top: nat, nothing: nat)
    requires top == 255 && nothing == 0
    ensures p * top == 255 * p && p * nothing == 0
  {
  }

  /** Of any `n` consecutive keys exactly one goes to each shard. */
  lemma ConsecutiveKeysCoverShards(n: nat, keys: seq<seq<byte>>, shard: nat)
    requires n > 0 && |keys| == n && shard < n
    requires forall i :: 0 < i < n ==> LeValue(keys[i]) == LeValue(keys[i - 1]) + 1
    ensures exists i :: 0 <= i < n && LeValue(keys[i]) % n == shard
    ensures forall i, j :: 0 <= i < n && 0 <= j < n ==>
              (LeValue(keys[i]) % n == shard && LeValue(keys[j]) % n == shard ==> i == j)
  {
    var v := LeValue(keys[0]);
    forall i | 0 <= i < n ensures LeValue(keys[i]) == v + i {
      Counting(n, keys, i);
    }
    var at := Reaches(v, shard, n);
    assert LeValue(keys[at]) % n == shard;
    forall i, j | 0 <= i < n && 0 <= j < n && LeValue(keys[i]) % n == shard && LeValue(keys[j]) % n == shard
      ensures i == j
    {
      SameResidue(LeValue(keys[i]), LeValue(keys[j]), n);
    }
  }

  lemma Reaches(v: nat, r: nat, n: nat) returns (at: nat)
    requires r < n
    ensures at < n && (v + at) % n == r
  {
    at := (r - v) % n;
    DivMod(r - v, n);
    Minus(0, (r - v) / n, n);
    QuotientUnique(v + at, -((r - v) / n), r, n);
  }

  lemma {:induction false} Counting(n: nat, keys: seq<seq<byte>>, i: nat)
    requires i < n == |keys| && forall i :: 0 < i < n ==> LeValue(keys[i]) == LeValue(keys[i - 1]) + 1
    ensures LeValue(keys[i]) == LeValue(keys[0]) + i
  {
    if i > 0 { Counting(n, keys, i - 1); }
  }

  lemma SameResidue(x: int, y: int, n: nat)
    requires n > 0 && x % n == y % n && x - y < n && y - x < n
    ensures x == y
  {
    DivMod(x, n);
    DivMod(y, n);
    Minus(x / n, y / n, n);
    SmallMultiple(x / n - y / n, n);
  }

  /** If `n` divides 256^j, only the first `j` bytes of a key matter. */
  lemma {:induction false} LowBytesDecide(n: nat, j: nat, bytes: seq<byte>)
    requires n > 0 && j <= |bytes| && Pow256(j) % n == 0
    ensures LeValue(bytes) % n == LeValue(bytes[..j]) % n
  {
    var rest, k := LeValue(bytes[j..]), Pow256(j) / n;
    assert bytes == bytes[..j] + bytes[j..];
    LeValueAppend(bytes[..j], bytes[j..]);
    DivMod(Pow256(j), n);
    Product(k, n, 0, rest);
    ModPlusMultiple(LeValue(bytes[..j]), k * rest, n);
  }
}
