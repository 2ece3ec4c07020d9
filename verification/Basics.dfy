/** Facts about integers, sets of integers and sequences that several components need. */
module Basics {

  predicate IsLeast(k: int, ks: set<int>) {
    k in ks && forall x :: x in ks ==> k <= x
  }

  lemma {:induction false} LeastExists(ks: set<int>)
    requires ks != {}
    ensures exists k :: IsLeast(k, ks)
  {
    if forall x :: x !in ks { assert false; }
    var x :| x in ks;
    var rest := ks - {x};
    if rest == {} {
      assert ks == {x};
      assert IsLeast(x, ks);
    } else {
      LeastExists(rest);
      var k :| IsLeast(k, rest);
      assert forall y :: y in ks ==> y == x || y in rest;
      assert IsLeast(if k < x then k else x, ks);
    }
  }

  lemma DivMod(x: int, m: int)
    requires m > 0
    ensures x == (x / m) * m + x % m && 0 <= x % m < m
  {
  }

  lemma Distributes(m: int, x: int, y: int)
    ensures m * (x + y) == m * x + m * y
  {
  }

  lemma OneMore(m: int, a: int, b: int)
    requires a > b
    ensures a == b + 1 ==> m * a == m * b + m
    ensures m >= 0 ==> m * a >= m * b + m
  {
    Distributes(m, b, 1);
    Distributes(m, b + 1, a - b - 1);
  }

  lemma Regroup<T>(a: seq<T>, b: seq<T>, c: seq<T>)
    ensures a + (b + c) == a + b + c
    ensures b == [] || c == [] ==> a + c + b == a + b + c
    ensures a + [] == a
  {
  }
}
