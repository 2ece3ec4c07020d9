/**
 The weight batcher: cuts an ordered stream into batches by weight or by number of items.

 Of the durability modes only Immediate and None are used; weights saturate at the width of `usize`.
 `items` and `sent` are ghost: everything pushed, and every batch handed out.
 */
module WeightBatcher {
  import opened Wrappers

  const USIZE_MAX := 0xFFFF_FFFF_FFFF_FFFF

  datatype Durability = Immediate | NotDurable

  datatype Config = Config(minWeight: nat, cap: nat, mode: Durability)

  // ---- where a stream is cut --------------------------------------------------------------------------------

  function WeightSum<T>(items: seq<T>, weightOf: T -> nat): nat {
    if items == [] then 0 else WeightSum(items[..|items| - 1], weightOf) + weightOf(items[|items| - 1])
  }

  function Flatten<T>(batches: seq<seq<T>>): seq<T> {
    if batches == [] then [] else Flatten(batches[..|batches| - 1]) + batches[|batches| - 1]
  }

  lemma {:induction false} WeightGrows<T>(items: seq<T>, item: T, weightOf: T -> nat)
    ensures WeightSum(items + [item], weightOf) == WeightSum(items, weightOf) + weightOf(item)
  {
    assert (items + [item])[..|items|] == items;
  }

  /** Enough for a batch: always in Immediate mode, else enough weight or enough items. */
  ghost predicate Full<T>(c: Config, batch: seq<T>, weightOf: T -> nat) {
    c.mode.Immediate? || WeightSum(batch, weightOf) >= c.minWeight || |batch| >= c.cap
  }

  /** No beginning of the batch was enough. */
  ghost predicate Growing<T>(c: Config, batch: seq<T>, weightOf: T -> nat) {
    forall k :: 0 < k <= |batch| ==> !Full(c, batch[..k], weightOf)
  }

  /** A batch that was cut at the first point where it was enough. */
  ghost predicate CutEarly<T>(c: Config, batch: seq<T>, weightOf: T -> nat) {
    batch != [] && Full(c, batch, weightOf) && Growing(c, batch[..|batch| - 1], weightOf)
  }

  /** The batches and the rest are the stream, every batch was cut at its first possible point, the rest not yet. */
  ghost predicate IsCut<T>(c: Config, items: seq<T>, batches: seq<seq<T>>, rest: seq<T>, weightOf: T -> nat) {
    && Flatten(batches) + rest == items
    && (forall i :: 0 <= i < |batches| ==> CutEarly(c, batches[i], weightOf))
    && Growing(c, rest, weightOf)
  }

  lemma {:induction false} FlattenFront<T>(batches: seq<seq<T>>)
    requires batches != []
    ensures Flatten(batches) == batches[0] + Flatten(batches[1..])
  {
    if |batches| > 1 {
      var m := |batches| - 1;
      FlattenFront(batches[..m]);
      assert batches[..m][1..] == batches[1..][..m - 1];
      assert batches[1..][m - 1] == batches[m];
    }
  }

  lemma FullBeginning<T>(c: Config, a: seq<T>, b: seq<T>, weightOf: T -> nat)
    requires a != [] && a <= b && Full(c, a, weightOf)
    ensures !Growing(c, b, weightOf) && (|a| < |b| ==> !CutEarly(c, b, weightOf))
  {
    assert b[..|a|] == a;
    if |a| < |b| { assert b[..|b| - 1][..|a|] == a; }
  }

  /** Of two beginnings of one stream, the one that was cut at its first possible point is not the longer one. */
  lemma CutNotLonger<T>(c: Config, items: seq<T>, a: seq<T>, b: seq<T>, weightOf: T -> nat)
    requires a <= items && b <= items && CutEarly(c, a, weightOf)
    requires CutEarly(c, b, weightOf) || Growing(c, b, weightOf)
    ensures CutEarly(c, b, weightOf) ==> a == b
    ensures Growing(c, b, weightOf) ==> |b| < |a|
  {
    if |a| <= |b| {
      FullBeginning(c, a, b, weightOf);
    } else if CutEarly(c, b, weightOf) {
      FullBeginning(c, b, a, weightOf);
    }
  }

  /** A stream can be cut in one way only. */
  lemma {:induction false} CutIsUnique<T>(c: Config, items: seq<T>, batches: seq<seq<T>>, rest: seq<T>,
                                          others: seq<seq<T>>, left: seq<T>, weightOf: T -> nat)
    requires IsCut(c, items, batches, rest, weightOf) && IsCut(c, items, others, left, weightOf)
    ensures batches == others && rest == left
    decreases |batches| + |others|
  {
    if batches == [] && others == [] {
      assert Flatten(batches) + rest == rest && Flatten(others) + left == left;
    } else if batches == [] {
      FlattenFront(others);
      CutNotLonger(c, items, others[0], rest, weightOf);
    } else if others == [] {
      FlattenFront(batches);
      CutNotLonger(c, items, batches[0], left, weightOf);
    } else {
      FlattenFront(batches);
      FlattenFront(others);
      assert batches[0] <= items && others[0] <= items;
      CutNotLonger(c, items, batches[0], others[0], weightOf);
      var first := batches[0];
      assert items[|first|..] == Flatten(batches[1..]) + rest == Flatten(others[1..]) + left;
      CutIsUnique(c, items[|first|..], batches[1..], rest, others[1..], left, weightOf);
      assert batches == [first] + batches[1..] && others == [first] + others[1..];
    }
  }

  lemma PushCuts<T>(c: Config, items: seq<T>, batches: seq<seq<T>>, rest: seq<T>, item: T, weightOf: T -> nat)
    requires IsCut(c, items, batches, rest, weightOf)
    ensures if Full(c, rest + [item], weightOf) then IsCut(c, items + [item], batches + [rest + [item]], [], weightOf)
            else IsCut(c, items + [item], batches, rest + [item], weightOf)
  {
    var grown := rest + [item];
    assert grown[..|grown| - 1] == rest && grown[..|grown|] == grown;
    assert Flatten(batches) + grown == items + [item];
    if Full(c, grown, weightOf) {
      assert (batches + [grown])[..|batches|] == batches;
      assert Flatten(batches + [grown]) + [] == items + [item];
    } else {
      assert forall k :: 0 < k < |grown| ==> grown[..k] == rest[..k];
    }
  }

  lemma ImmediateKeepsNothing<T>(c: Config, items: seq<T>, batches: seq<seq<T>>, rest: seq<T>, weightOf: T -> nat)
    requires IsCut(c, items, batches, rest, weightOf) && c.mode.Immediate?
    ensures rest == []
  {
    if rest != [] { assert Full(c, rest[..1], weightOf); }
  }

  // ---- the batcher ------------------------------------------------------------------------------------------

  class WeightBatcher<T> {
    var buf: seq<T>
    var weight: nat
    const config: Config

    ghost const weightOf: T -> nat
    ghost var items: seq<T>
    ghost var sent: seq<seq<T>>

    ghost predicate Valid()
      reads this
    {
      && config.minWeight <= USIZE_MAX
      && weight == (if WeightSum(buf, weightOf) < USIZE_MAX then WeightSum(buf, weightOf) else USIZE_MAX)
      && IsCut(config, items, sent, buf, weightOf)
    }

    constructor (config: Config, ghost weightOf: T -> nat)
      requires config.minWeight <= USIZE_MAX
      ensures Valid() && this.config == config && this.weightOf == weightOf && items == [] && sent == [] && buf == []
    {
      buf, weight := [], 0;
      this.config := config;
      this.weightOf := weightOf;
      items, sent := [], [];
    }

    method TakeInner() returns (batch: seq<T>)
      modifies this`buf, this`weight
      ensures batch == old(buf) && buf == [] && weight == 0
    {
      weight := 0;
      batch := buf;
      buf := [];
    }

    method PushWith(item: T, w: nat) returns (out: Option<seq<T>>)
      requires Valid() && w == weightOf(item)
      modifies this
      ensures Valid() && items == old(items) + [item]
      ensures sent == if out.Some? then old(sent) + [out.value] else old(sent)
    {
      PushCuts(config, items, sent, buf, item, weightOf);
      items := items + [item];
      match config.mode
      case Immediate =>
        ImmediateKeepsNothing(config, old(items), sent, buf, weightOf);
        assert buf + [item] == [item];
        sent := sent + [[item]];
        out := Some([item]);
      case NotDurable =>
        WeightGrows(buf, item, weightOf);
        weight := if weight + w < USIZE_MAX then weight + w else USIZE_MAX;
        buf := buf + [item];
        if weight >= config.minWeight || |buf| >= config.cap {
          var batch := TakeInner();
          sent := sent + [batch];
          out := Some(batch);
        } else {
          out := None;
        }
    }

    /** Hands out what is left; in Immediate mode nothing ever is. */
    method Flush() returns (out: Option<seq<T>>)
      requires Valid()
      modifies this`buf, this`weight
      ensures buf == [] && items == old(items) && sent == old(sent)
      ensures out == if old(buf) == [] then None else Some(old(buf))
    {
      match config.mode
      case Immediate =>
        ImmediateKeepsNothing(config, items, sent, buf, weightOf);
        out := None;
      case NotDurable =>
        if buf == [] {
          out := None;
        } else {
          var batch := TakeInner();
          out := Some(batch);
        }
    }
  }
}
