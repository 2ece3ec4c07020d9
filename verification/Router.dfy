/**
 The sharded router: it cuts a batch into per-shard buckets and sends each shard its commands.

 A shard's sender is the sequence of commands sent to it so far; all senders are connected.
 */
module Router {
  import opened Wrappers
  import Bags

  datatype Partitioning<!K, !V> = ByKey(kp: K -> nat) | ByValue(vp: V -> nat)

  /** The commands a shard's writer receives; `S` is what a query hands its answers to. */
  datatype Command<K, V, S> =
    | MergeUnsortedInserts(pairs: seq<(K, V)>)
    | WriteInsertNow(key: K, val: V)
    | ReadyForFlush(shards: nat)
    | QueryAndWrite(lastShards: Option<nat>, values: seq<(nat, V)>, sink: S)
    | FlushWhenReady
    | Flush

  function ShardOf<K, V>(part: Partitioning<K, V>, k: K, v: V): nat {
    match part
    case ByKey(kp) => kp(k)
    case ByValue(vp) => vp(v)
  }

  /** The partitioner only names existing shards. */
  ghost predicate Within<K(!new), V(!new)>(part: Partitioning<K, V>, n: nat) {
    match part
    case ByKey(kp) => forall k :: kp(k) < n
    case ByValue(vp) => forall v :: vp(v) < n
  }

  // ---- what each shard is sent ---------------------------------------------------------------------

  /** The pairs routed to one shard, in their order. */
  function Routed<K, V>(pairs: seq<(K, V)>, part: Partitioning<K, V>, sid: nat): seq<(K, V)> {
    if pairs == [] then []
    else
      var last := pairs[|pairs| - 1];
      Routed(pairs[..|pairs| - 1], part, sid) + (if ShardOf(part, last.0, last.1) == sid then [last] else [])
  }

  /** The commands that an insert batch sends to shard `sid` of `n`. */
  function InsertCommands<K, V, S>(pairs: seq<(K, V)>, lastShards: Option<nat>, part: Partitioning<K, V>, n: nat,
                                   sid: nat)
    : seq<Command<K, V, S>>
  {
    var own := if n == 1 then pairs else Routed(pairs, part, sid);
    (if own == [] then [] else [MergeUnsortedInserts(own)])
    + (if lastShards.Some? then [ReadyForFlush(lastShards.value)] else [])
  }

  /** The positions and values routed to one shard. */
  function RoutedValues<V>(values: seq<V>, vp: V -> nat, sid: nat): seq<(nat, V)> {
    if values == [] then []
    else
      var pos := |values| - 1;
      RoutedValues(values[..pos], vp, sid) + (if vp(values[pos]) == sid then [(pos, values[pos])] else [])
  }

  function Enumerated<V>(values: seq<V>): (e: seq<(nat, V)>)
    ensures |e| == |values| && forall i :: 0 <= i < |e| ==> e[i] == (i, values[i])
  {
    seq(|values|, i requires 0 <= i < |values| => (i, values[i]))
  }

  /** The commands that a query sends to shard `sid` of `n`. */
  function QueryCommands<K, V, S>(values: seq<V>, isLast: bool, sink: S, vp: V -> nat, n: nat, sid: nat)
    : seq<Command<K, V, S>>
  {
    if n == 1 then [QueryAndWrite(if isLast then Some(1) else None, Enumerated(values), sink)]
    else
      var own := RoutedValues(values, vp, sid);
      if own == [] && !isLast then []
      else [QueryAndWrite(if isLast then Some(n) else None, own, sink)]
  }

  // ---- routing loses nothing ------------------------------------------------------------------------

  /** All pairs of the first `m` shards' buckets. */
  ghost function BucketSum<K, V>(pairs: seq<(K, V)>, part: Partitioning<K, V>, m: nat): multiset<(K, V)> {
    if m == 0 then multiset{} else BucketSum(pairs, part, m - 1) + multiset(Routed(pairs, part, m - 1))
  }

  /** A bucket holds exactly the pairs whose shard it is, each as often as in the batch. */
  lemma {:induction false} RoutedExactly<K, V>(pairs: seq<(K, V)>, part: Partitioning<K, V>, sid: nat, p: (K, V))
    ensures multiset(Routed(pairs, part, sid))[p] ==
              if ShardOf(part, p.0, p.1) == sid then multiset(pairs)[p] else 0
  {
    if pairs != [] {
      RoutedExactly(pairs[..|pairs| - 1], part, sid, p);
      assert pairs == pairs[..|pairs| - 1] + [pairs[|pairs| - 1]];
    }
  }

  lemma {:induction false} BucketSumExactly<K, V>(pairs: seq<(K, V)>, part: Partitioning<K, V>, m: nat, p: (K, V),
                                                  home: nat, c: nat)
    requires forall sid: nat :: multiset(Routed(pairs, part, sid))[p] == if home == sid then c else 0
    ensures BucketSum(pairs, part, m)[p] == if home < m then c else 0
  {
    if m > 0 {
      BucketSumExactly(pairs, part, m - 1, p, home, c);
      Plus(BucketSum(pairs, part, m - 1), multiset(Routed(pairs, part, m - 1)), p);
    }
  }

  lemma Plus<T>(a: multiset<T>, b: multiset<T>, p: T)
    ensures (a + b)[p] == a[p] + b[p]
  {
  }

  /** The buckets of all shards together are the batch. */
  lemma {:induction false} BucketsPartition<K(!new), V(!new)>(pairs: seq<(K, V)>, part: Partitioning<K, V>, n: nat)
    requires Within(part, n)
    ensures BucketSum(pairs, part, n) == multiset(pairs)
  {
    forall p: (K, V) ensures BucketSum(pairs, part, n)[p] == multiset(pairs)[p] {
      forall sid: nat
        ensures multiset(Routed(pairs, part, sid))[p]
             == if ShardOf(part, p.0, p.1) == sid then multiset(pairs)[p] else 0
      {
        RoutedExactly(pairs, part, sid, p);
      }
      BucketSumExactly(pairs, part, n, p, ShardOf(part, p.0, p.1), multiset(pairs)[p]);
    }
    Bags.SameMultiset(BucketSum(pairs, part, n), multiset(pairs));
  }

  lemma {:induction false} RoutedPositionsBelow<V>(values: seq<V>, vp: V -> nat, sid: nat)
    ensures forall p :: p in RoutedValues(values, vp, sid) ==> p.0 < |values|
  {
    if values != [] { RoutedPositionsBelow(values[..|values| - 1], vp, sid); }
  }

  /** A queried position goes, once, to the shard of its value and to no other, with its value. */
  lemma {:induction false} RoutedOnce<V>(values: seq<V>, vp: V -> nat, sid: nat, p: (nat, V))
    ensures multiset(RoutedValues(values, vp, sid))[p] ==
              if p.0 < |values| && values[p.0] == p.1 && vp(p.1) == sid then 1 else 0
  {
    if values != [] {
      var pos := |values| - 1;
      RoutedOnce(values[..pos], vp, sid, p);
      RoutedPositionsBelow(values[..pos], vp, sid);
    }
  }

  // ---- the router -----------------------------------------------------------------------------------

  class ShardedRouter<K(==, !new), V(==, !new), S> {
    const part: Partitioning<K, V>
    var senders: seq<seq<Command<K, V, S>>>

    ghost predicate Valid()
      reads this
    {
      |senders| > 0 && Within(part, |senders|)
    }

    constructor (part: Partitioning<K, V>, shards: nat)
      requires shards > 0 && Within(part, shards)
      ensures Valid() && this.part == part && senders == seq(shards, _ => [])
    {
      this.part := part;
      senders := seq(shards, _ => []);
    }

    method Send(sid: nat, cmd: Command<K, V, S>)
      requires sid < |senders|
      modifies this`senders
      ensures senders == old(senders)[sid := old(senders)[sid] + [cmd]]
    {
      senders := senders[sid := senders[sid] + [cmd]];
    }

    method Bucket(pairs: seq<(K, V)>) returns (buckets: seq<seq<(K, V)>>)
      requires Valid()
      ensures |buckets| == |senders|
      ensures forall sid :: 0 <= sid < |buckets| ==> buckets[sid] == Routed(pairs, part, sid)
    {
      buckets := seq(|senders|, _ => []);
      for i := 0 to |pairs|
        invariant |buckets| == |senders|
        invariant forall sid :: 0 <= sid < |buckets| ==> buckets[sid] == Routed(pairs[..i], part, sid)
      {
        var (k, v) := pairs[i];
        var sid := ShardOf(part, k, v);
        assert pairs[..i + 1][..i] == pairs[..i];
        buckets := buckets[sid := buckets[sid] + [(k, v)]];
      }
      assert pairs[..|pairs|] == pairs;
    }

    method ReadyForFlush(shards: nat)
      modifies this`senders
      ensures |senders| == |old(senders)|
      ensures forall sid :: 0 <= sid < |senders| ==>
                senders[sid] == old(senders)[sid] + [Command.ReadyForFlush(shards)]
    {
      for i := 0 to |senders|
        invariant |senders| == |old(senders)|
        invariant forall sid :: 0 <= sid < i ==>
                    senders[sid] == old(senders)[sid] + [Command.ReadyForFlush(shards)]
        invariant forall sid :: i <= sid < |senders| ==> senders[sid] == old(senders)[sid]
      {
        Send(i, Command.ReadyForFlush(shards));
      }
    }

    method MergeUnsortedInserts(pairs: seq<(K, V)>, lastShards: Option<nat>)
      requires Valid()
      modifies this`senders
      ensures Valid() && |senders| == |old(senders)|
      ensures forall sid :: 0 <= sid < |senders| ==>
                senders[sid] == old(senders)[sid] + InsertCommands(pairs, lastShards, part, |senders|, sid)
    {
      SendBuckets(pairs);
      label sent:
      if lastShards.Some? {
        ReadyForFlush(lastShards.value);
      }
      assert forall sid :: 0 <= sid < |senders| ==>
        senders[sid]
            == old@sent(senders)[sid] + (if lastShards.Some? then [Command.ReadyForFlush(lastShards.value)] else []);
    }

    method SendBuckets(pairs: seq<(K, V)>)
      requires Valid()
      modifies this`senders
      ensures |senders| == |old(senders)|
      ensures forall sid :: 0 <= sid < |senders| ==>
                senders[sid] == old(senders)[sid] + InsertCommands(pairs, None, part, |senders|, sid)
    {
      var n := |senders|;
      if pairs == [] { return; }
      if n == 1 {
        Send(0, Command.MergeUnsortedInserts(pairs));
        return;
      }
      var buckets := Bucket(pairs);
      for sid := 0 to n
        invariant |senders| == n
        invariant forall s :: 0 <= s < sid ==>
                    senders[s] == old(senders)[s] + InsertCommands(pairs, None, part, n, s)
        invariant forall s :: sid <= s < n ==> senders[s] == old(senders)[s]
      {
        var own := buckets[sid];
        assert InsertCommands<K, V, S>(pairs, None, part, n, sid)
            == if own == [] then [] else [Command.MergeUnsortedInserts(own)];
        if own == [] {
          assert senders[sid] + [] == senders[sid];
          continue;
        }
        Send(sid, Command.MergeUnsortedInserts(own));
      }
    }

    method WriteInsertNow(k: K, v: V)
      requires Valid()
      modifies this`senders
      ensures Valid()
      ensures var sid := if |senders| == 1 then 0 else ShardOf(part, k, v);
              senders == old(senders)[sid := old(senders)[sid] + [Command.WriteInsertNow(k, v)]]
    {
      if |senders| == 1 {
        Send(0, Command.WriteInsertNow(k, v));
      } else {
        Send(ShardOf(part, k, v), Command.WriteInsertNow(k, v));
      }
    }

    /** Only an index that is partitioned by value, or not at all, can be queried. */
    method QueryAndWrite(values: seq<V>, isLast: bool, sink: S) returns (ok: bool)
      requires Valid()
      modifies this`senders
      ensures Valid() && |senders| == |old(senders)|
      ensures ok <==> |senders| == 1 || part.ByValue?
      ensures !ok ==> senders == old(senders)
      ensures ok ==> forall sid :: 0 <= sid < |senders| ==>
                senders[sid] == old(senders)[sid]
                  + QueryCommands(values, isLast, sink, if part.ByValue? then part.vp else _ => 0, |senders|, sid)
    {
      var n := |senders|;
      if n == 1 {
        Send(0, Command.QueryAndWrite(if isLast then Some(1) else None, Enumerated(values), sink));
        return true;
      }
      if part.ByKey? { return false; }
      var vp := part.vp;
      if values == [] && !isLast { return true; }
      var buckets := BucketValues(values, vp);
      for sid := 0 to n
        invariant |senders| == n
        invariant forall s :: 0 <= s < sid ==>
                    senders[s] == old(senders)[s] + QueryCommands(values, isLast, sink, vp, n, s)
        invariant forall s :: sid <= s < n ==> senders[s] == old(senders)[s]
      {
        if buckets[sid] == [] && !isLast { continue; }
        Send(sid, Command.QueryAndWrite(if isLast then Some(n) else None, buckets[sid], sink));
      }
      ok := true;
    }

    method BucketValues(values: seq<V>, vp: V -> nat) returns (buckets: seq<seq<(nat, V)>>)
      requires forall v :: vp(v) < |senders|
      ensures |buckets| == |senders|
      ensures forall sid :: 0 <= sid < |buckets| ==> buckets[sid] == RoutedValues(values, vp, sid)
    {
      buckets := seq(|senders|, _ => []);
      for pos := 0 to |values|
        invariant |buckets| == |senders|
        invariant forall sid :: 0 <= sid < |buckets| ==> buckets[sid] == RoutedValues(values[..pos], vp, sid)
      {
        var sid := vp(values[pos]);
        assert values[..pos + 1][..pos] == values[..pos];
        buckets := buckets[sid := buckets[sid] + [(pos, values[pos])]];
      }
      assert values[..|values|] == values;
    }
  }
}
