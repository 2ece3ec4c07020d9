/**
 Hierarchical pointers: a pointer of depth `d` is the path of its indices, root first.

 `widths` gives the size in bytes of every index of a pointer type.
 */
module Pointers {
  import opened Wrappers
  import opened Partitioning

  function Limit(width: nat): (n: nat)
    ensures n > 0
  {
    Pow256(width)
  }

  /** A pointer of the type with these widths. */
  predicate IsPointer(widths: seq<nat>, p: seq<nat>) {
    |p| == |widths| > 0 && forall i :: 0 <= i < |p| ==> p[i] < Limit(widths[i])
  }

  function Parent(p: seq<nat>): seq<nat>
    requires |p| > 1
  {
    p[..|p| - 1]
  }

  function FromParent(parent: seq<nat>, index: nat): seq<nat> {
    parent + [index]
  }

  /** Is there a next index of this width after the pointer's last one? */
  predicate HasNext(p: seq<nat>, width: nat) {
    p != [] && p[|p| - 1] + 1 < Limit(width)
  }

  /** The pointer with the next index. After the greatest index of the width the addition overflows: it wraps around
      to zero here, as in a build without overflow checks; a build with them stops. */
  function NextIndex(p: seq<nat>, width: nat): (q: seq<nat>)
    requires p != []
    ensures |q| == |p|
  {
    p[..|p| - 1] + [(p[|p| - 1] + 1) % Limit(width)]
  }

  lemma WrapsToZero(x: nat, limit: nat)
    requires x < limit
    ensures (x + 1) % limit == if x + 1 < limit then x + 1 else 0
  {
  }

  lemma NextIndexIs(p: seq<nat>, width: nat)
    requires p != [] && p[|p| - 1] < Limit(width)
    ensures NextIndex(p, width)[..|p| - 1] == p[..|p| - 1]
    ensures NextIndex(p, width)[|p| - 1] == if HasNext(p, width) then p[|p| - 1] + 1 else 0
  {
    WrapsToZero(p[|p| - 1], Limit(width));
  }

  /** The half-open range of the children of `p`, whose last index has the given width. */
  function FkRange(p: seq<nat>, width: nat): (seq<nat>, seq<nat>)
    requires p != []
  {
    (FromParent(p, 0), FromParent(NextIndex(p, width), 0))
  }

  // ---- order --------------------------------------------------------------------------------------------------

  /** The derived order: the parent decides, then the index. */
  predicate Less(a: seq<nat>, b: seq<nat>)
    requires |a| == |b|
  {
    a != [] && (a[0] < b[0] || (a[0] == b[0] && Less(a[1..], b[1..])))
  }

  lemma {:induction false} LessTransitive(a: seq<nat>, b: seq<nat>, c: seq<nat>)
    requires |a| == |b| == |c| && Less(a, b) && Less(b, c)
    ensures Less(a, c)
  {
    if a[0] == b[0] == c[0] { LessTransitive(a[1..], b[1..], c[1..]); }
  }

  lemma {:induction false} LessTotal(a: seq<nat>, b: seq<nat>)
    requires |a| == |b|
    ensures Less(a, b) || a == b || Less(b, a)
    ensures !(Less(a, b) && Less(b, a)) && !(a == b && Less(a, b))
  {
    if a != [] {
      LessTotal(a[1..], b[1..]);
      if a[0] == b[0] && a[1..] == b[1..] { assert a == [a[0]] + a[1..] && b == [b[0]] + b[1..]; }
    }
  }

  predicate InRange(q: seq<nat>, from: seq<nat>, until: seq<nat>)
    requires |q| == |from| == |until|
  {
    !Less(q, from) && Less(q, until)
  }

  lemma NothingBelowZero(index: nat)
    ensures !Less([index], [0])
  {
    assert [index][1..] == [];
  }

  lemma Wraps(x: nat, limit: nat)
    requires limit > 0
    ensures (x + 1) % limit == x + 1 <==> x + 1 < limit
    ensures x + 1 >= limit ==> (x + 1) % limit <= x
  {
  }

  /** At any depth the range of a pointer holds exactly its children; after the greatest index it holds nothing. */
  lemma {:induction false} FkRangeIsChildren(p: seq<nat>, q: seq<nat>, width: nat)
    requires p != [] && |q| == |p| + 1
    ensures InRange(q, FkRange(p, width).0, FkRange(p, width).1) <==> Parent(q) == p && HasNext(p, width)
  {
    var (from, until) := FkRange(p, width);
    if |p| == 1 {
      Wraps(p[0], Limit(width));
      assert q[1..] == [q[1]] && from[1..] == [0] && until[1..] == [0];
      NothingBelowZero(q[1]);
      assert Parent(q) == [q[0]] && p == [p[0]];
    } else {
      FkRangeIsChildren(p[1..], q[1..], width);
      assert from[1..] == FkRange(p[1..], width).0 && until[1..] == FkRange(p[1..], width).1;
      assert Parent(q)[1..] == Parent(q[1..]);
      assert p == [p[0]] + p[1..] && Parent(q) == [q[0]] + Parent(q)[1..];
    }
  }

  /** The bounds of the range are pointers of the child type, also after the greatest index. */
  lemma RangeOfPointers(widths: seq<nat>, p: seq<nat>, childWidth: nat)
    requires IsPointer(widths, p)
    ensures var range := FkRange(p, widths[|p| - 1]);
            IsPointer(widths + [childWidth], range.0) && IsPointer(widths + [childWidth], range.1)
  {
  }

  // ---- bytes --------------------------------------------------------------------------------------------------

  /** An index as little-endian bytes of a width. */
  function ToLe(n: nat, width: nat): (bytes: seq<byte>)
    ensures |bytes| == width
  {
    if width == 0 then [] else [(n % 256) as byte] + ToLe(n / 256, width - 1)
  }

  lemma {:induction false} ToLeValue(n: nat, width: nat)
    requires n < Limit(width)
    ensures LeValue(ToLe(n, width)) == n
  {
    if width > 0 {
      ToLeValue(n / 256, width - 1);
      assert ToLe(n, width)[1..] == ToLe(n / 256, width - 1);
    }
  }

  lemma {:induction false} ValueToLe(bytes: seq<byte>)
    ensures ToLe(LeValue(bytes), |bytes|) == bytes
  {
    LeValueBound(bytes);
    ToLeValue(LeValue(bytes), |bytes|);
    LeValueInjective(ToLe(LeValue(bytes), |bytes|), bytes);
  }

  function Size(widths: seq<nat>): nat {
    if widths == [] then 0 else Size(widths[..|widths| - 1]) + widths[|widths| - 1]
  }

  function AsLeBytes(widths: seq<nat>, p: seq<nat>): (bytes: seq<byte>)
    requires |p| == |widths|
    ensures |bytes| == Size(widths)
  {
    if p == [] then []
    else AsLeBytes(widths[..|p| - 1], p[..|p| - 1]) + ToLe(p[|p| - 1], widths[|p| - 1])
  }

  /** Reads a pointer back; bytes of a wrong length make it panic. */
  function FromLeBytes(widths: seq<nat>, bytes: seq<byte>): Option<seq<nat>> {
    if |bytes| != Size(widths) then None
    else if widths == [] then Some([])
    else
      var parentSize := Size(widths[..|widths| - 1]);
      match FromLeBytes(widths[..|widths| - 1], bytes[..parentSize])
      case None => None
      case Some(parent) => Some(FromParent(parent, LeValue(bytes[parentSize..])))
  }

  /** Decoding the encoded bytes gives the pointer back. */
  lemma {:induction false} DecodeEncode(widths: seq<nat>, p: seq<nat>)
    requires |p| == |widths| && forall i :: 0 <= i < |p| ==> p[i] < Limit(widths[i])
    ensures FromLeBytes(widths, AsLeBytes(widths, p)) == Some(p)
  {
    if p != [] {
      var m := |p| - 1;
      DecodeEncode(widths[..m], p[..m]);
      ToLeValue(p[m], widths[m]);
      var bytes, front := AsLeBytes(widths, p), AsLeBytes(widths[..m], p[..m]);
      assert bytes[..|front|] == front && bytes[|front|..] == ToLe(p[m], widths[m]);
      assert p == p[..m] + [p[m]];
    }
  }

  /** Bytes of the right length decode to a pointer that encodes to them: the encoding is onto. */
  lemma {:induction false} EncodeDecode(widths: seq<nat>, bytes: seq<byte>)
    ensures var p := FromLeBytes(widths, bytes);
            && (p.Some? <==> |bytes| == Size(widths))
            && (p.Some? ==>
                  && |p.value| == |widths| && (forall i :: 0 <= i < |widths| ==> p.value[i] < Limit(widths[i]))
                  && AsLeBytes(widths, p.value) == bytes)
  {
    if |bytes| == Size(widths) && widths != [] {
      var m := |widths| - 1;
      var front, back := bytes[..Size(widths[..m])], bytes[Size(widths[..m])..];
      EncodeDecode(widths[..m], front);
      LeValueBound(back);
      ValueToLe(back);
      var p := FromLeBytes(widths, bytes).value;
      assert p[..m] == FromLeBytes(widths[..m], front).value;
      assert bytes == front + back;
    }
  }

  /** The bytes of every index stand at its own place, root first, lowest byte first. */
  lemma {:induction false} BytesOfIndex(widths: seq<nat>, p: seq<nat>, i: nat)
    requires i < |p| == |widths| && p[i] < Limit(widths[i])
    ensures var from, until := Size(widths[..i]), Size(widths[..i + 1]);
            from <= until <= |AsLeBytes(widths, p)| && until - from == widths[i]
            && LeValue(AsLeBytes(widths, p)[from..until]) == p[i]
  {
    var m := |p| - 1;
    var bytes, front := AsLeBytes(widths, p), AsLeBytes(widths[..m], p[..m]);
    if i == m {
      assert widths[..m + 1] == widths && bytes[|front|..|bytes|] == ToLe(p[m], widths[m]);
      ToLeValue(p[m], widths[m]);
    } else {
      BytesOfIndex(widths[..m], p[..m], i);
      assert widths[..m][..i] == widths[..i] && widths[..m][..i + 1] == widths[..i + 1];
      var from, until := Size(widths[..i]), Size(widths[..i + 1]);
      assert bytes[from..until] == front[from..until];
    }
  }

  // ---- text ---------------------------------------------------------------------------------------------------

  function Digit(d: nat): (c: char)
    requires d < 10
    ensures IsDigit(c) && DigitValue(c) == d && c == "0123456789"[d]
  {
    '0' + d as char
  }

  predicate IsDigit(c: char) {
    '0' <= c <= '9'
  }

  function DigitValue(c: char): (d: nat)
    requires IsDigit(c)
    ensures d < 10
  {
    c as int - '0' as int
  }

  function Decimal(n: nat): (s: string)
    ensures s != [] && forall i :: 0 <= i < |s| ==> IsDigit(s[i])
  {
    if n < 10 then [Digit(n)] else Decimal(n / 10) + [Digit(n % 10)]
  }

  function Number(s: string): nat
    requires forall i :: 0 <= i < |s| ==> IsDigit(s[i])
  {
    if s == [] then 0 else 10 * Number(s[..|s| - 1]) + DigitValue(s[|s| - 1])
  }

  lemma {:induction false} NumberOfDecimal(n: nat)
    ensures Number(Decimal(n)) == n
  {
    if n >= 10 {
      NumberOfDecimal(n / 10);
      var s := Decimal(n);
      assert s[..|s| - 1] == Decimal(n / 10);
    } else {
      assert Decimal(n)[..0] == [];
    }
  }

  datatype ParseError = Format | BadIndex

  /** An unsigned number as Rust parses it: an optional plus sign, then digits, within the width. */
  function ParseIndex(s: string, limit: nat): Result<nat, ParseError> {
    var digits := Unsigned(s);
    if AllDigits(digits) && Number(digits) < limit then Ok(Number(digits)) else Err(BadIndex)
  }

  function Unsigned(s: string): string {
    if s != [] && s[0] == '+' then s[1..] else s
  }

  predicate AllDigits(s: string) {
    s != [] && forall i :: 0 <= i < |s| ==> IsDigit(s[i])
  }

  function UrlEncode(p: seq<nat>): string
    requires p != []
  {
    if |p| == 1 then Decimal(p[0]) else UrlEncode(Parent(p)) + "-" + Decimal(p[|p| - 1])
  }

  /** The position of the last dash, or the length if there is none. */
  function LastDash(s: string): (i: nat)
    ensures i <= |s|
    ensures i < |s| ==> s[i] == '-' && '-' !in s[i + 1..]
    ensures i == |s| ==> '-' !in s
  {
    if s == [] then 0
    else if s[|s| - 1] == '-' then |s| - 1
    else
      var i := LastDash(s[..|s| - 1]);
      assert s == s[..|s| - 1] + [s[|s| - 1]];
      if i == |s| - 1 then |s|
      else
        assert s[i + 1..] == s[..|s| - 1][i + 1..] + [s[|s| - 1]];
        i
  }

  /** A pointer and its child's index; an error of the pointer comes first. */
  function Below(parent: Result<seq<nat>, ParseError>, index: Result<nat, ParseError>): Result<seq<nat>, ParseError> {
    match parent
    case Err(e) => Err(e)
    case Ok(p) =>
      match index
      case Ok(idx) => Ok(FromParent(p, idx))
      case Err(e) => Err(e)
  }

  /** The parent is what stands before the last dash; a root pointer has no dash. */
  function Parse(widths: seq<nat>, s: string): Result<seq<nat>, ParseError>
    requires widths != []
  {
    var last := |widths| - 1;
    if last == 0 then
      if '-' in s then Err(Format) else Below(Ok([]), ParseIndex(s, Limit(widths[0])))
    else
      var dash := LastDash(s);
      if dash == |s| then Err(Format)
      else Below(Parse(widths[..last], s[..dash]), ParseIndex(s[dash + 1..], Limit(widths[last])))
  }

  lemma {:induction false} ParseDecimal(n: nat, limit: nat)
    requires n < limit
    ensures ParseIndex(Decimal(n), limit) == Ok(n) && '-' !in Decimal(n)
  {
    NumberOfDecimal(n);
    assert IsDigit(Decimal(n)[0]);
  }

  lemma {:induction false} DashBeforeDigits(front: string, digits: string)
    requires '-' !in digits
    ensures LastDash(front + "-" + digits) == |front|
  {
    var s := front + "-" + digits;
    assert s[|front|] == '-' && s[|front| + 1..] == digits;
    LastDashIs(s, |front|);
  }

  lemma InTail(s: string, j: int, i: int)
    ensures 0 <= j < i < |s| ==> s[i] in s[j + 1..]
  {
    if 0 <= j < i < |s| { assert s[j + 1..][i - j - 1] == s[i]; }
  }

  lemma {:induction false} LastDashIs(s: string, i: nat)
    requires i < |s| && s[i] == '-' && '-' !in s[i + 1..]
    ensures LastDash(s) == i
  {
    var j := LastDash(s);
    InTail(s, j, i);
    InTail(s, i, j);
  }

  lemma {:induction false} ParseChild(widths: seq<nat>, front: string, parent: seq<nat>, back: string, n: nat)
    requires |widths| > 1 && Parse(widths[..|widths| - 1], front) == Ok(parent)
    requires '-' !in back && ParseIndex(back, Limit(widths[|widths| - 1])) == Ok(n)
    ensures Parse(widths, front + "-" + back) == Ok(FromParent(parent, n))
  {
    DashBeforeDigits(front, back);
    var s := front + "-" + back;
    assert s[..|front|] == front && s[|front| + 1..] == back;
  }

  /** Parsing the printed form gives the pointer back. */
  lemma {:induction false} ParsePrint(widths: seq<nat>, p: seq<nat>)
    requires IsPointer(widths, p)
    ensures Parse(widths, UrlEncode(p)) == Ok(p)
  {
    var m := |p| - 1;
    if m == 0 {
      ParseDecimal(p[0], Limit(widths[0]));
      assert p == FromParent([], p[0]);
    } else {
      var parent := Parent(p);
      var front := UrlEncode(parent);
      assert FromParent(parent, p[m]) == p;
      assert UrlEncode(p) == front + "-" + Decimal(p[m]);
      assert Parse(widths[..m], front) == Ok(parent) by {
        ParsePrint(widths[..m], parent);
      }
      ParseDecimal(p[m], Limit(widths[m]));
      ParseChild(widths, front, parent, Decimal(p[m]), p[m]);
    }
  }

  /** Different pointers of one type print differently. */
  lemma {:induction false} PrintInjective(widths: seq<nat>, p: seq<nat>, q: seq<nat>)
    requires IsPointer(widths, p) && IsPointer(widths, q) && UrlEncode(p) == UrlEncode(q)
    ensures p == q
  {
    ParsePrint(widths, p);
    ParsePrint(widths, q);
  }

  lemma PointerBelow(widths: seq<nat>, parent: seq<nat>, n: nat)
    requires widths != [] && n < Limit(widths[|widths| - 1])
    requires if |widths| == 1 then parent == [] else IsPointer(widths[..|widths| - 1], parent)
    ensures IsPointer(widths, FromParent(parent, n))
  {
  }

  /** Whatever parses is a pointer of the type. */
  lemma {:induction false} ParsedIsPointer(widths: seq<nat>, s: string)
    requires widths != [] && Parse(widths, s).Ok?
    ensures IsPointer(widths, Parse(widths, s).value)
    decreases |widths|
  {
    var last := |widths| - 1;
    if last == 0 {
      PointerBelow(widths, [], ParseIndex(s, Limit(widths[0])).value);
    } else {
      var front, back := s[..LastDash(s)], s[LastDash(s) + 1..];
      var parent, index := Parse(widths[..last], front), ParseIndex(back, Limit(widths[last]));
      assert Below(parent, index).Ok?;
      ParsedIsPointer(widths[..last], front);
      PointerBelow(widths, parent.value, index.value);
    }
  }

  lemma {:induction false} PrintParse(widths: seq<nat>, s: string)
    requires widths != [] && Parse(widths, s).Ok?
    ensures Parse(widths, UrlEncode(Parse(widths, s).value)) == Parse(widths, s)
  {
    ParsedIsPointer(widths, s);
    ParsePrint(widths, Parse(widths, s).value);
  }

  // ---- what parses ----------------------------------------------------------------------------------------------

  predicate Zeros(s: string) {
    forall i :: 0 <= i < |s| ==> s[i] == '0'
  }

  predicate IsSign(plus: string) {
    plus == "" || plus == "+"
  }

  /** A plus sign or none, any number of zeros, and the decimal digits. */
  ghost predicate SpellsIndex(s: string, n: nat) {
    exists plus, zeros :: s == plus + zeros + Decimal(n) && IsSign(plus) && Zeros(zeros)
  }

  /** Spelled indices, root first, with dashes between them. */
  ghost predicate Spells(s: string, p: seq<nat>)
    requires p != []
    decreases |p|
  {
    if |p| == 1 then SpellsIndex(s, p[0])
    else
      exists front, back :: s == front + "-" + back && Spells(front, Parent(p)) && SpellsIndex(back, p[|p| - 1])
  }

  lemma {:induction false} NumberAfterZeros(zeros: string, s: string)
    requires Zeros(zeros) && forall i :: 0 <= i < |s| ==> IsDigit(s[i])
    ensures Number(zeros + s) == Number(s)
    decreases |zeros| + |s|
  {
    var all := zeros + s;
    if s != [] {
      NumberAfterZeros(zeros, s[..|s| - 1]);
      assert all[..|all| - 1] == zeros + s[..|s| - 1];
    } else if zeros != [] {
      NumberAfterZeros(zeros[..|zeros| - 1], []);
      assert all == zeros && zeros[..|zeros| - 1] + [] == zeros[..|zeros| - 1];
    }
  }

  /** Digits are zeros before the decimal digits of their number. */
  lemma {:induction false} DigitsSpell(s: string) returns (zeros: string)
    requires AllDigits(s)
    ensures s == zeros + Decimal(Number(s)) && Zeros(zeros)
  {
    var m := |s| - 1;
    var front, last := s[..m], s[m];
    assert s == front + [last];
    if front == [] {
      zeros := "";
      assert Number(s) == DigitValue(last);
    } else {
      zeros := DigitsSpell(front);
      if Number(front) == 0 {
        assert Decimal(0) == ['0'];
        zeros := front;
      } else {
        assert Number(s) / 10 == Number(front) && Number(s) % 10 == DigitValue(last);
        assert s == zeros + (Decimal(Number(front)) + [last]);
      }
    }
  }

  lemma {:induction false} ParseSigned(s: string, plus: string, digits: string, limit: nat)
    requires s == plus + digits && IsSign(plus) && AllDigits(digits)
    ensures ParseIndex(s, limit) == if Number(digits) < limit then Ok(Number(digits)) else Err(BadIndex)
    ensures '-' !in s
  {
    if plus == "" {
      assert s == digits && IsDigit(s[0]);
    } else {
      assert s[0] == '+' && s[1..] == digits;
    }
  }

  lemma SignOf(s: string) returns (plus: string)
    ensures IsSign(plus) && s == plus + Unsigned(s)
  {
    plus := if s != [] && s[0] == '+' then "+" else "";
  }

  lemma ParsedIsSpelled(s: string, limit: nat) returns (plus: string, zeros: string)
    requires ParseIndex(s, limit).Ok?
    ensures ParseIndex(s, limit).value < limit && IsSign(plus) && Zeros(zeros)
    ensures s == plus + zeros + Decimal(ParseIndex(s, limit).value)
  {
    var digits := Unsigned(s);
    plus := SignOf(s);
    zeros := DigitsSpell(digits);
    assert plus + zeros + Decimal(Number(digits)) == plus + (zeros + Decimal(Number(digits)));
  }

  lemma {:induction false} SpelledParses(s: string, limit: nat, n: nat, plus: string, zeros: string)
    requires s == plus + zeros + Decimal(n) && IsSign(plus) && Zeros(zeros)
    ensures '-' !in s && ParseIndex(s, limit) == if n < limit then Ok(n) else Err(BadIndex)
  {
    var digits := zeros + Decimal(n);
    NumberAfterZeros(zeros, Decimal(n));
    NumberOfDecimal(n);
    assert s == plus + digits;
    assert AllDigits(digits);
    ParseSigned(s, plus, digits, limit);
  }

  /** An index parses exactly if it is spelled and within the width. */
  lemma ParseIndexExactly(s: string, limit: nat, n: nat)
    ensures ParseIndex(s, limit) == Ok(n) <==> n < limit && SpellsIndex(s, n)
    ensures SpellsIndex(s, n) ==> '-' !in s
  {
    if ParseIndex(s, limit) == Ok(n) {
      var plus, zeros := ParsedIsSpelled(s, limit);
    }
    if SpellsIndex(s, n) {
      var plus, zeros :| s == plus + zeros + Decimal(n) && IsSign(plus) && Zeros(zeros);
      SpelledParses(s, limit, n, plus, zeros);
    }
  }

  lemma {:induction false} SpellsChild(s: string, front: string, back: string, p: seq<nat>)
    requires |p| > 1 && s == front + "-" + back && Spells(front, Parent(p)) && SpellsIndex(back, p[|p| - 1])
    ensures Spells(s, p)
  {
  }

  lemma SplitAtDash(s: string) returns (front: string, back: string)
    requires LastDash(s) < |s|
    ensures front == s[..LastDash(s)] && back == s[LastDash(s) + 1..] && s == front + "-" + back
    ensures multiset(s)['-'] == multiset(front)['-'] + 1
  {
    front, back := s[..LastDash(s)], s[LastDash(s) + 1..];
    assert s == front + "-" + back;
  }

  lemma ParsedChild(widths: seq<nat>, s: string, p: seq<nat>) returns (front: string, back: string)
    requires |widths| > 1 && Parse(widths, s) == Ok(p)
    ensures |p| > 1 && s == front + "-" + back
    ensures Parse(widths[..|widths| - 1], front) == Ok(Parent(p)) && SpellsIndex(back, p[|p| - 1])
  {
    front, back := SplitAtDash(s);
    var m := |widths| - 1;
    var parent, index := Parse(widths[..m], front), ParseIndex(back, Limit(widths[m]));
    assert Below(parent, index) == Ok(p);
    ParsedIsPointer(widths[..m], front);
    assert Parent(p) == parent.value && p[|p| - 1] == index.value;
    ParseIndexExactly(back, Limit(widths[m]), index.value);
  }

  lemma {:induction false} SpelledChild(widths: seq<nat>, front: string, back: string, parent: seq<nat>, n: nat)
    requires |widths| > 1 && n < Limit(widths[|widths| - 1]) && SpellsIndex(back, n)
    requires Parse(widths[..|widths| - 1], front) == Ok(parent)
    ensures Parse(widths, front + "-" + back) == Ok(FromParent(parent, n))
  {
    ParseIndexExactly(back, Limit(widths[|widths| - 1]), n);
    ParseChild(widths, front, parent, back, n);
  }

  lemma ParentIsPointer(widths: seq<nat>, p: seq<nat>)
    requires |widths| > 1 && IsPointer(widths, p)
    ensures IsPointer(widths[..|widths| - 1], Parent(p)) && p[|p| - 1] < Limit(widths[|widths| - 1])
    ensures p == FromParent(Parent(p), p[|p| - 1])
  {
  }

  lemma {:induction false} ParseRootExactly(widths: seq<nat>, s: string, p: seq<nat>)
    requires |widths| == 1
    ensures Parse(widths, s) == Ok(p) <==> IsPointer(widths, p) && Spells(s, p)
  {
    if |p| == 1 { ParseIndexExactly(s, Limit(widths[0]), p[0]); }
    assert |p| == 1 ==> p == [] + [p[0]];
  }

  /** Exactly the spellings of a pointer parse to it; the printed form is the one without signs and leading zeros. */
  lemma {:induction false} ParseExactly(widths: seq<nat>, s: string, p: seq<nat>)
    requires widths != []
    ensures Parse(widths, s) == Ok(p) <==> IsPointer(widths, p) && Spells(s, p)
    decreases |widths|
  {
    if |widths| == 1 {
      ParseRootExactly(widths, s, p);
    } else {
      var above := widths[..|widths| - 1];
      if Parse(widths, s) == Ok(p) {
        var front, back := ParsedChild(widths, s, p);
        ParseExactly(above, front, Parent(p));
        SpellsChild(s, front, back, p);
        ParsedIsPointer(widths, s);
      }
      if IsPointer(widths, p) && Spells(s, p) {
        var front, back :| s == front + "-" + back && Spells(front, Parent(p)) && SpellsIndex(back, p[|p| - 1]);
        ParentIsPointer(widths, p);
        ParseExactly(above, front, Parent(p));
        SpelledChild(widths, front, back, Parent(p), p[|p| - 1]);
      }
    }
  }

  /** A text with the wrong number of dashes has the wrong format; what else does not parse has a bad index. */
  lemma {:induction false} FormatExactly(widths: seq<nat>, s: string)
    requires widths != []
    ensures Parse(widths, s) == Err(Format) <==> multiset(s)['-'] != |widths| - 1
    decreases |widths|
  {
    if |widths| > 1 && LastDash(s) < |s| {
      var front, back := SplitAtDash(s);
      FormatExactly(widths[..|widths| - 1], front);
    }
  }
}
