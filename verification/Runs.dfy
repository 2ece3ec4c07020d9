/**
 Key/value runs and what it means to sort and to merge them.

 A table key is `Copy` and of fixed width, so the order `K::compare` gives finitely many
 keys is the order of the integers; a key is therefore an `int` here. Values are arbitrary.
 */
module Runs {

  datatype Pair<V> = Pair(key: int, val: V)

  ghost predicate Sorted<V>(s: seq<Pair<V>>) {
    forall i, j :: 0 <= i < j < |s| ==> s[i].key <= s[j].key
  }

  ghost predicate DistinctKeys<V>(s: seq<Pair<V>>) {
    forall i, j :: 0 <= i < j < |s| ==> s[i].key != s[j].key
  }

  /** The pairs of `s` that carry key `k`, in their order in `s`. */
  ghost function WithKey<V>(k: int, s: seq<Pair<V>>): (r: seq<Pair<V>>)
    ensures |r| <= |s|
  {
    if s == [] then [] else (if s[0].key == k then [s[0]] else []) + WithKey(k, s[1..])
  }

  ghost predicate Has<V>(k: int, s: seq<Pair<V>>) {
    exists i :: 0 <= i < |s| && s[i].key == k
  }

  /** `s` and `t` hold the same pairs and agree on the order of pairs with equal keys. */
  ghost predicate SameByKey<V>(s: seq<Pair<V>>, t: seq<Pair<V>>) {
    forall k :: WithKey(k, s) == WithKey(k, t)
  }

  /** The one-element-at-a-time merge that takes from the left on ties. */
  function Merge<V>(a: seq<Pair<V>>, b: seq<Pair<V>>): (m: seq<Pair<V>>)
    ensures |m| == |a| + |b|
  {
    if a == [] then b
    else if b == [] then a
    else if a[0].key <= b[0].key then [a[0]] + Merge(a[1..], b)
    else [b[0]] + Merge(a, b[1..])
  }

  /** The library's stable sort: pairs are merged in from the left one at a time. */
  function StableSort<V>(s: seq<Pair<V>>): (r: seq<Pair<V>>)
    ensures |r| == |s|
  {
    if s == [] then [] else Merge(StableSort(s[..|s| - 1]), s[|s| - 1..])
  }

  // ---- WithKey ----------------------------------------------------------------------------

  lemma {:induction false} WithKeyAppend<V>(k: int, s: seq<Pair<V>>, t: seq<Pair<V>>)
    ensures WithKey(k, s + t) == WithKey(k, s) + WithKey(k, t)
  {
    if s == [] {
      assert s + t == t;
    } else {
      var head := if s[0].key == k then [s[0]] else [];
      calc {
        WithKey(k, s + t);
        { assert (s + t)[0] == s[0] && (s + t)[1..] == s[1..] + t; }
        head + WithKey(k, s[1..] + t);
        { WithKeyAppend(k, s[1..], t); }
        head + (WithKey(k, s[1..]) + WithKey(k, t));
        head + WithKey(k, s[1..]) + WithKey(k, t);
      }
    }
  }

  lemma {:induction false} WithKeyEmpty<V>(k: int, s: seq<Pair<V>>)
    ensures WithKey(k, s) == [] <==> !Has(k, s)
  {
    if s != [] {
      WithKeyEmpty(k, s[1..]);
      if Has(k, s[1..]) {
        var i :| 0 <= i < |s[1..]| && s[1..][i].key == k;
        assert s[i + 1].key == k;
      }
      if Has(k, s) && s[0].key != k {
        var i :| 0 <= i < |s| && s[i].key == k;
        assert s[1..][i - 1].key == k;
      }
    }
  }

  /** How often a pair occurs is how often it occurs among the pairs with its key. */
  lemma {:induction false} WithKeyCount<V>(s: seq<Pair<V>>, p: Pair<V>)
    ensures multiset(s)[p] == multiset(WithKey(p.key, s))[p]
  {
    if s != [] {
      WithKeyCount(s[1..], p);
      assert s == [s[0]] + s[1..];
    }
  }

  lemma SameByKeyPermutes<V>(s: seq<Pair<V>>, t: seq<Pair<V>>)
    requires SameByKey(s, t)
    ensures multiset(s) == multiset(t)
  {
    forall p: Pair<V> ensures multiset(s)[p] == multiset(t)[p] {
      WithKeyCount(s, p);
      WithKeyCount(t, p);
      assert WithKey(p.key, s) == WithKey(p.key, t);
    }
  }

  lemma HasOfMultiset<V>(k: int, s: seq<Pair<V>>, t: seq<Pair<V>>)
    requires multiset(s) == multiset(t)
    ensures Has(k, s) <==> Has(k, t)
  {
    if Has(k, s) {
      var i :| 0 <= i < |s| && s[i].key == k;
      assert s[i] in multiset(s);
      assert s[i] in t;
    }
    if Has(k, t) {
      var i :| 0 <= i < |t| && t[i].key == k;
      assert t[i] in multiset(t);
      assert t[i] in s;
    }
  }

  lemma {:induction false} WithKeyAbsent<V>(k: int, s: seq<Pair<V>>)
    requires forall i :: 0 <= i < |s| ==> s[i].key != k
    ensures WithKey(k, s) == []
  {
    WithKeyEmpty(k, s);
  }

  // ---- a sorted run is determined by its equal-key order ------------------------------------

  lemma SortedHeadsAgree<V>(s: seq<Pair<V>>, t: seq<Pair<V>>)
    requires Sorted(s) && Sorted(t) && SameByKey(s, t) && s != [] && t != []
    ensures s[0] == t[0]
  {
    var k, l := s[0].key, t[0].key;
    SameByKeyPermutes(s, t);
    HasOfMultiset(k, s, t);
    HasOfMultiset(l, s, t);
    assert Has(k, s) && Has(l, t);
    var i :| 0 <= i < |t| && t[i].key == k;
    var j :| 0 <= j < |s| && s[j].key == l;
    assert WithKey(k, s)[0] == s[0] && WithKey(l, t)[0] == t[0];
    assert WithKey(k, s) == WithKey(k, t);
  }

  lemma SameByKeyTails<V>(s: seq<Pair<V>>, t: seq<Pair<V>>)
    requires s != [] && t != [] && s[0] == t[0] && SameByKey(s, t)
    ensures SameByKey(s[1..], t[1..])
  {
    forall k ensures WithKey(k, s[1..]) == WithKey(k, t[1..]) {
      assert WithKey(k, s) == WithKey(k, t);
      assert WithKey(k, s[1..]) == if s[0].key == k then WithKey(k, s)[1..] else WithKey(k, s);
    }
  }

  /** Two sorted runs that agree key by key are the same run. */
  lemma {:induction false} SortedUnique<V>(s: seq<Pair<V>>, t: seq<Pair<V>>)
    requires Sorted(s) && Sorted(t) && SameByKey(s, t)
    ensures s == t
    decreases |s|
  {
    SameByKeyPermutes(s, t);
    assert |s| == |multiset(s)| == |multiset(t)| == |t|;
    if s != [] {
      SortedHeadsAgree(s, t);
      SameByKeyTails(s, t);
      SortedUnique(s[1..], t[1..]);
      assert s == [s[0]] + s[1..] && t == [t[0]] + t[1..];
    }
  }

  // ---- Merge --------------------------------------------------------------------------------

  lemma {:induction false} MergeWithKey<V>(k: int, a: seq<Pair<V>>, b: seq<Pair<V>>)
    requires Sorted(a) && Sorted(b)
    ensures WithKey(k, Merge(a, b)) == WithKey(k, a) + WithKey(k, b)
    decreases |a| + |b|
  {
    if a == [] || b == [] {
    } else if a[0].key <= b[0].key {
      MergeWithKey(k, a[1..], b);
      assert Merge(a, b)[1..] == Merge(a[1..], b);
    } else {
      MergeWithKey(k, a, b[1..]);
      assert Merge(a, b)[1..] == Merge(a, b[1..]);
      if b[0].key == k {
        WithKeyAbsent(k, a);
      }
    }
  }

  /** The stable merge is sorted and keeps, for every key, the left run's pairs before the right run's. */
  lemma {:induction false} MergeStable<V>(a: seq<Pair<V>>, b: seq<Pair<V>>)
    requires Sorted(a) && Sorted(b)
    ensures Sorted(Merge(a, b)) && SameByKey(Merge(a, b), a + b)
    ensures multiset(Merge(a, b)) == multiset(a) + multiset(b)
  {
    forall k ensures WithKey(k, Merge(a, b)) == WithKey(k, a + b) {
      MergeWithKey(k, a, b);
      WithKeyAppend(k, a, b);
    }
    MergeSorted(a, b);
    SameByKeyPermutes(Merge(a, b), a + b);
  }

  lemma {:induction false} MergeSorted<V>(a: seq<Pair<V>>, b: seq<Pair<V>>)
    requires Sorted(a) && Sorted(b)
    ensures Sorted(Merge(a, b))
    ensures forall i :: 0 <= i < |a| + |b| ==>
              (a != [] && a[0].key <= Merge(a, b)[i].key) || (b != [] && b[0].key <= Merge(a, b)[i].key)
    decreases |a| + |b|
  {
    if a == [] || b == [] {
    } else if a[0].key <= b[0].key {
      MergeSorted(a[1..], b);
    } else {
      MergeSorted(a, b[1..]);
    }
  }

  /** The other direction: sortedness and the equal-key order leave no choice but the stable merge. */
  lemma {:induction false} MergeCharacterised<V>(a: seq<Pair<V>>, b: seq<Pair<V>>, m: seq<Pair<V>>)
    requires Sorted(a) && Sorted(b)
    ensures m == Merge(a, b) <==> Sorted(m) && SameByKey(m, a + b)
  {
    MergeStable(a, b);
    if Sorted(m) && SameByKey(m, a + b) {
      SortedUnique(m, Merge(a, b));
    }
  }

  /** A whole block of the left run that does not exceed the right head is taken at once. */
  lemma {:induction false} MergeTakeLeft<V>(a: seq<Pair<V>>, b: seq<Pair<V>>, e: nat)
    requires e <= |a| && b != []
    requires forall i :: 0 <= i < e ==> a[i].key <= b[0].key
    ensures Merge(a, b) == a[..e] + Merge(a[e..], b)
    decreases e
  {
    if e > 0 {
      calc {
        Merge(a, b);
        [a[0]] + Merge(a[1..], b);
        { MergeTakeLeft(a[1..], b, e - 1); }
        [a[0]] + (a[1..][..e - 1] + Merge(a[1..][e - 1..], b));
        { assert a[1..][..e - 1] == a[1..e] && a[1..][e - 1..] == a[e..]; }
        [a[0]] + (a[1..e] + Merge(a[e..], b));
        [a[0]] + a[1..e] + Merge(a[e..], b);
        { assert a[..e] == [a[0]] + a[1..e]; }
        a[..e] + Merge(a[e..], b);
      }
    }
  }

  /** A whole block of the right run strictly below the left head is taken at once. */
  lemma {:induction false} MergeTakeRight<V>(a: seq<Pair<V>>, b: seq<Pair<V>>, e: nat)
    requires e <= |b| && a != []
    requires forall i :: 0 <= i < e ==> b[i].key < a[0].key
    ensures Merge(a, b) == b[..e] + Merge(a, b[e..])
    decreases e
  {
    if e > 0 {
      calc {
        Merge(a, b);
        [b[0]] + Merge(a, b[1..]);
        { MergeTakeRight(a, b[1..], e - 1); }
        [b[0]] + (b[1..][..e - 1] + Merge(a, b[1..][e - 1..]));
        { assert b[1..][..e - 1] == b[1..e] && b[1..][e - 1..] == b[e..]; }
        [b[0]] + (b[1..e] + Merge(a, b[e..]));
        [b[0]] + b[1..e] + Merge(a, b[e..]);
        { assert b[..e] == [b[0]] + b[1..e]; }
        b[..e] + Merge(a, b[e..]);
      }
    } else {
      assert b[..0] == [] && b[0..] == b;
    }
  }

  // ---- StableSort ---------------------------------------------------------------------------

  lemma {:induction false} StableSortSorts<V>(s: seq<Pair<V>>)
    ensures Sorted(StableSort(s)) && SameByKey(StableSort(s), s)
    ensures multiset(StableSort(s)) == multiset(s)
  {
    if s != [] {
      var front, last := s[..|s| - 1], s[|s| - 1..];
      StableSortSorts(front);
      MergeStable(StableSort(front), last);
      assert s == front + last;
      forall k ensures WithKey(k, StableSort(s)) == WithKey(k, s) {
        MergeWithKey(k, StableSort(front), last);
        WithKeyAppend(k, front, last);
        assert WithKey(k, StableSort(front)) == WithKey(k, front);
      }
    }
    SameByKeyPermutes(StableSort(s), s);
  }

  /** The stable sort is the only sorted arrangement that keeps the order of equal keys. */
  lemma {:induction false} StableSortCharacterised<V>(s: seq<Pair<V>>, r: seq<Pair<V>>)
    ensures r == StableSort(s) <==> Sorted(r) && SameByKey(r, s)
  {
    StableSortSorts(s);
    if Sorted(r) && SameByKey(r, s) {
      SortedUnique(r, StableSort(s));
    }
  }
}
