/**
 The sort stage of a synchronisation: blocks arrive in batches and in any order, and leave in height order, cut anew.

 The stage ends when its input ends or at a shutdown; either way `input` is what it received until then.
 */
module SortStage {
  import R = ReorderBuffer
  import W = WeightBatcher

  function Concat<T>(input: seq<seq<R.Arrival<T>>>): seq<R.Arrival<T>> {
    if input == [] then [] else Concat(input[..|input| - 1]) + input[|input| - 1]
  }

  /** The batches for persistence, of which the last one may be what was left over. */
  ghost predicate IsOutput<T(!new)>(firsts: map<nat, T>, start: nat, c: W.Config, weightOf: T -> nat,
                                    out: seq<seq<T>>)
  {
    exists n: nat, batches: seq<seq<T>>, rest: seq<T> ::
      && R.IsNext(firsts, start, n)
      && W.IsCut(c, R.Released(firsts, start, n), batches, rest, weightOf)
      && out == batches + (if rest == [] then [] else [rest])
  }

  /** Feeds released blocks to the batcher. */
  method Feed<T>(ready: seq<T>, batcher: W.WeightBatcher<T>, weightOf: T -> nat, sent: seq<seq<T>>)
    returns (out: seq<seq<T>>)
    requires batcher.Valid() && batcher.weightOf == weightOf && sent == batcher.sent
    modifies batcher
    ensures batcher.Valid() && batcher.items == old(batcher.items) + ready && out == batcher.sent
  {
    out := sent;
    for i := 0 to |ready|
      invariant batcher.Valid() && batcher.items == old(batcher.items) + ready[..i] && out == batcher.sent
    {
      var full := batcher.PushWith(ready[i], weightOf(ready[i]));
      if full.Some? {
        out := out + [full.value];
      }
    }
    assert ready[..|ready|] == ready;
  }

  /** The batcher has been pushed exactly what the reorder buffer has released, and has handed out `sent`. */
  ghost predicate InStep<T>(reorder: R.ReorderBuffer<T>, batcher: W.WeightBatcher<T>, sent: seq<seq<T>>)
    reads reorder, batcher
  {
    && reorder.Valid() && batcher.Valid() && sent == batcher.sent
    && batcher.items == R.Released(R.Firsts(reorder.log), reorder.start, reorder.nextHeight)
  }

  method AcceptOne<T>(a: R.Arrival<T>, reorder: R.ReorderBuffer<T>, batcher: W.WeightBatcher<T>, weightOf: T -> nat,
                      sent: seq<seq<T>>)
    returns (out: seq<seq<T>>)
    requires InStep(reorder, batcher, sent) && batcher.weightOf == weightOf && a.height <= R.U32_MAX
    requires !R.AllArrived(R.Firsts(reorder.log + [a]), reorder.start, R.U32_MAX)
    modifies reorder, batcher
    ensures InStep(reorder, batcher, out) && reorder.log == old(reorder.log) + [a]
  {
    var ready := reorder.Insert(a.height, a.block);
    out := Feed(ready, batcher, weightOf, sent);
  }

  lemma {:induction false} StillMissing<T>(log: seq<R.Arrival<T>>, longer: seq<R.Arrival<T>>, start: nat)
    requires log <= longer && !R.AllArrived(R.Firsts(longer), start, R.U32_MAX)
    ensures !R.AllArrived(R.Firsts(log), start, R.U32_MAX)
  {
    if R.AllArrived(R.Firsts(log), start, R.U32_MAX) { R.FirstsGrow(log, longer, start, R.U32_MAX); }
  }

  lemma {:induction false} ConcatPrefix<T>(input: seq<seq<R.Arrival<T>>>, i: nat)
    requires i <= |input|
    ensures Concat(input[..i]) <= Concat(input)
    decreases |input|
  {
    if i < |input| {
      ConcatPrefix(input[..|input| - 1], i);
      assert input[..|input| - 1][..i] == input[..i];
    } else {
      assert input[..i] == input;
    }
  }

  method Accept<T>(blocks: seq<R.Arrival<T>>, reorder: R.ReorderBuffer<T>, batcher: W.WeightBatcher<T>,
                   weightOf: T -> nat, sent: seq<seq<T>>)
    returns (out: seq<seq<T>>)
    requires InStep(reorder, batcher, sent) && batcher.weightOf == weightOf
    requires forall j :: 0 <= j < |blocks| ==> blocks[j].height <= R.U32_MAX
    requires !R.AllArrived(R.Firsts(reorder.log + blocks), reorder.start, R.U32_MAX)
    modifies reorder, batcher
    ensures InStep(reorder, batcher, out) && reorder.log == old(reorder.log) + blocks
  {
    out := sent;
    for j := 0 to |blocks|
      invariant InStep(reorder, batcher, out)
      invariant reorder.log == old(reorder.log) + blocks[..j]
    {
      StillMissing(old(reorder.log) + blocks[..j] + [blocks[j]], old(reorder.log) + blocks, reorder.start);
      out := AcceptOne(blocks[j], reorder, batcher, weightOf, out);
    }
    assert blocks[..|blocks|] == blocks;
  }

  method Sort<T(!new)>(input: seq<seq<R.Arrival<T>>>, start: nat, hint: nat, config: W.Config, weightOf: T -> nat)
    returns (out: seq<seq<T>>)
    requires config.minWeight <= W.USIZE_MAX
    requires start <= R.U32_MAX
    requires forall i, j :: 0 <= i < |input| && 0 <= j < |input[i]| ==> input[i][j].height <= R.U32_MAX
    requires !R.AllArrived(R.Firsts(Concat(input)), start, R.U32_MAX)
    ensures IsOutput(R.Firsts(Concat(input)), start, config, weightOf, out)
  {
    var reorder := new R.ReorderBuffer<T>(start, hint);
    var batcher := new W.WeightBatcher<T>(config, weightOf);
    out := [];
    for i := 0 to |input|
      invariant fresh(reorder) && fresh(batcher) && InStep(reorder, batcher, out)
      invariant reorder.log == Concat(input[..i]) && reorder.start == start
    {
      assert input[..i + 1][..i] == input[..i];
      ConcatPrefix(input, i + 1);
      StillMissing(Concat(input[..i + 1]), Concat(input), start);
      out := Accept(input[i], reorder, batcher, weightOf, out);
    }
    assert input[..|input|] == input;
    ghost var cut, rest := out, batcher.buf;
    ghost var n := reorder.nextHeight;
    var last := batcher.Flush();
    if last.Some? {
      out := out + [last.value];
    }
    assert R.IsNext(R.Firsts(Concat(input)), start, n)
        && W.IsCut(config, R.Released(R.Firsts(Concat(input)), start, n), cut, rest, weightOf)
        && out == cut + (if rest == [] then [] else [rest]);
  }

  /** Together the batches are the first arrivals from `start` up to the first height that is missing. */
  lemma {:induction false} OutputIsPrefix<T(!new)>(firsts: map<nat, T>, start: nat, c: W.Config, weightOf: T -> nat,
                                                   out: seq<seq<T>>)
    requires IsOutput(firsts, start, c, weightOf, out)
    ensures exists n: nat :: R.IsNext(firsts, start, n) && W.Flatten(out) == R.Released(firsts, start, n)
  {
    var n: nat, batches: seq<seq<T>>, rest: seq<T> :|
      && R.IsNext(firsts, start, n)
      && W.IsCut(c, R.Released(firsts, start, n), batches, rest, weightOf)
      && out == batches + (if rest == [] then [] else [rest]);
    if rest == [] {
      assert out == batches;
    } else {
      assert out[..|out| - 1] == batches;
    }
  }

  /** Every arrival carries the one block of its height. */
  ghost predicate OneBlockPerHeight<T>(log: seq<R.Arrival<T>>, blockAt: nat -> T) {
    forall i :: 0 <= i < |log| ==> log[i].block == blockAt(log[i].height)
  }

  lemma {:induction false} FirstsAreBlocks<T>(log: seq<R.Arrival<T>>, blockAt: nat -> T)
    requires OneBlockPerHeight(log, blockAt)
    ensures forall h :: h in R.Firsts(log) ==> R.Firsts(log)[h] == blockAt(h)
  {
    if log != [] { FirstsAreBlocks(log[..|log| - 1], blockAt); }
  }

  lemma SameFirstsSameOutput<T(!new)>(firsts: map<nat, T>, others: map<nat, T>, start: nat, c: W.Config,
                                      weightOf: T -> nat, out: seq<seq<T>>, other: seq<seq<T>>)
    requires IsOutput(firsts, start, c, weightOf, out) && IsOutput(others, start, c, weightOf, other)
    requires forall h :: h >= start ==> (h in firsts <==> h in others)
    requires forall h :: h >= start && h in firsts ==> firsts[h] == others[h]
    ensures out == other
  {
    var n: nat, batches: seq<seq<T>>, rest: seq<T> :|
      && R.IsNext(firsts, start, n)
      && W.IsCut(c, R.Released(firsts, start, n), batches, rest, weightOf)
      && out == batches + (if rest == [] then [] else [rest]);
    var m: nat, parts: seq<seq<T>>, left: seq<T> :|
      && R.IsNext(others, start, m)
      && W.IsCut(c, R.Released(others, start, m), parts, left, weightOf)
      && other == parts + (if left == [] then [] else [left]);
    R.NextIsUnique(firsts, others, start, n, m);
    assert R.Released(firsts, start, n) == R.Released(others, start, n);
    W.CutIsUnique(c, R.Released(firsts, start, n), batches, rest, parts, left, weightOf);
  }

  /** Confluence: if the same heights arrive, the batches are the same, whatever the order and the duplicates. */
  lemma {:induction false} ArrivalOrderIsIrrelevant<T(!new)>(log: seq<R.Arrival<T>>, shuffled: seq<R.Arrival<T>>,
                                                             blockAt: nat -> T, start: nat, c: W.Config,
                                                             weightOf: T -> nat, out: seq<seq<T>>, other: seq<seq<T>>)
    requires OneBlockPerHeight(log, blockAt) && OneBlockPerHeight(shuffled, blockAt)
    requires forall h: nat :: h >= start ==> (Arrives(log, h) <==> Arrives(shuffled, h))
    requires IsOutput(R.Firsts(log), start, c, weightOf, out) && IsOutput(R.Firsts(shuffled), start, c, weightOf, other)
    ensures out == other
  {
    FirstsAreBlocks(log, blockAt);
    FirstsAreBlocks(shuffled, blockAt);
    forall h: nat ensures h in R.Firsts(log) <==> Arrives(log, h) {
      R.FirstsAreFirst(log, h);
    }
    forall h: nat ensures h in R.Firsts(shuffled) <==> Arrives(shuffled, h) {
      R.FirstsAreFirst(shuffled, h);
    }
    SameFirstsSameOutput(R.Firsts(log), R.Firsts(shuffled), start, c, weightOf, out, other);
  }

  ghost predicate Arrives<T>(log: seq<R.Arrival<T>>, h: nat) {
    exists i :: 0 <= i < |log| && log[i].height == h
  }
}
