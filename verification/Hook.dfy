/**
 The hook that turns answered queries into input rows, and the source shard that runs it.

 A transaction is known by its block pointer, which has fixed width and is an integer here.
 */
module Hook {
  import opened Wrappers
  import opened Router
  import IndexShards

  const GENESIS := 0
  const COINBASE := 0xFFFF

  datatype TxPointer = TxPointer(parent: int, index: nat)

  /** The row of an input: the `id` table stores nothing beside the key. */
  datatype Payload = Nothing | Utxo(pointer: TxPointer)

  datatype InputRef = InputRef(txHash: int, index: nat)

  /** An input reference, the transaction that contains it and its position there. */
  datatype Entry = Entry(ref: InputRef, owner: int, position: nat)

  type Rows = seq<(TxPointer, Payload)>
  type Answers = seq<(nat, Option<int>)>
  type InputRouter = ShardedRouter<TxPointer, Payload, ()>
  type Msg = Command<TxPointer, Payload, ()>
  type Cmd = Command<int, int, seq<Entry>>

  /** The id of an input; the position is truncated to 16 bits. */
  function IdOf(e: Entry): TxPointer {
    TxPointer(e.owner, e.position % 0x1_0000)
  }

  /** Where an input's output lives: known, the coinbase marker, or unknown. */
  function UtxoOf(e: Entry, found: Option<int>): TxPointer {
    match found
    case Some(tx) => TxPointer(tx, e.ref.index)
    case None => if e.ref.index == COINBASE then TxPointer(GENESIS, e.ref.index) else TxPointer(GENESIS, 0)
  }

  ghost predicate InRange(refs: seq<Entry>, out: Answers) {
    forall i :: 0 <= i < |out| ==> out[i].0 < |refs|
  }

  /** The id names the transaction that contains the input and the input's position, of which only 16 bits are kept. */
  ghost predicate Names(id: TxPointer, owner: int, position: nat) {
    && id.parent == owner && id.index < 0x1_0000 && (position - id.index) % 0x1_0000 == 0
    && (position < 0x1_0000 ==> id.index == position)
  }

  /** It points to the spent output, or, if its transaction is not known, is one of the two markers. */
  ghost predicate Locates(pointer: TxPointer, ref: InputRef, found: Option<int>) {
    && (found.Some? ==> pointer.parent == found.value && pointer.index == ref.index)
    && (found.None? ==> pointer.parent == 0 && pointer.index == if ref.index == 0xFFFF then 0xFFFF else 0)
  }

  ghost predicate AreIds(rows: Rows, refs: seq<Entry>, out: Answers)
    requires InRange(refs, out)
  {
    && |rows| == |out|
    && forall i :: 0 <= i < |out| ==>
         rows[i].1 == Nothing && (var e := refs[out[i].0]; Names(rows[i].0, e.owner, e.position))
  }

  ghost predicate ArePointers(rows: Rows, refs: seq<Entry>, out: Answers)
    requires InRange(refs, out)
  {
    && |rows| == |out|
    && forall i :: 0 <= i < |out| ==>
         && rows[i].1.Utxo?
         && (var e := refs[out[i].0];
             Names(rows[i].0, e.owner, e.position) && Locates(rows[i].1.pointer, e.ref, out[i].1))
  }

  function IdRows(refs: seq<Entry>, out: Answers): (rows: Rows)
    requires InRange(refs, out)
    ensures |rows| == |out|
  {
    seq(|out|, i requires 0 <= i < |out| => (IdOf(refs[out[i].0]), Nothing))
  }

  function PointerRows(refs: seq<Entry>, out: Answers): (rows: Rows)
    requires InRange(refs, out)
    ensures |rows| == |out|
  {
    seq(|out|, i requires 0 <= i < |out| => (IdOf(refs[out[i].0]), Utxo(UtxoOf(refs[out[i].0], out[i].1))))
  }

  /** Writes the rows of the answered references and passes the last-shards signal to both tables. */
  method Sink(ids: InputRouter, pointers: InputRouter, refs: seq<Entry>, lastShards: Option<nat>, out: Answers)
    returns (r: Result<(), nat>)
    requires ids != pointers && ids.Valid() && pointers.Valid()
    modifies ids`senders, pointers`senders
    ensures ids.Valid() && pointers.Valid()
    ensures |ids.senders| == |old(ids.senders)| && |pointers.senders| == |old(pointers.senders)|
    ensures r.Ok? <==> InRange(refs, out)
    ensures r.Err? ==> ids.senders == old(ids.senders) && pointers.senders == old(pointers.senders)
    ensures r.Ok? ==> AreIds(IdRows(refs, out), refs, out) && ArePointers(PointerRows(refs, out), refs, out)
    ensures r.Ok? ==> forall sid :: 0 <= sid < |ids.senders| ==>
              ids.senders[sid] == old(ids.senders)[sid]
                + InsertCommands(IdRows(refs, out), lastShards, ids.part, |ids.senders|, sid)
    ensures r.Ok? ==> forall sid :: 0 <= sid < |pointers.senders| ==>
              pointers.senders[sid] == old(pointers.senders)[sid]
                + InsertCommands(PointerRows(refs, out), lastShards, pointers.part, |pointers.senders|, sid)
  {
    var idRows: Rows, pointerRows: Rows := [], [];
    for i := 0 to |out|
      invariant InRange(refs, out[..i])
      invariant idRows == IdRows(refs, out[..i]) && pointerRows == PointerRows(refs, out[..i])
    {
      var (index, found) := out[i];
      if index >= |refs| { return Err(index); }
      var e := refs[index];
      assert out[..i + 1] == out[..i] + [out[i]];
      idRows := idRows + [(IdOf(e), Nothing)];
      pointerRows := pointerRows + [(IdOf(e), Utxo(UtxoOf(e, found)))];
    }
    assert out[..|out|] == out;
    ids.MergeUnsortedInserts(idRows, lastShards);
    pointers.MergeUnsortedInserts(pointerRows, lastShards);
    r := Ok(());
  }

  // ---- the source shard -------------------------------------------------------------------------------

  /** The two routers an index shard's sink writes to, as one list of destination shards. */
  datatype Sinks = Sinks(
    idShards: nat, idPart: Partitioning<TxPointer, Payload>,
    pointerShards: nat, pointerPart: Partitioning<TxPointer, Payload>)
  {
    ghost predicate Valid() {
      idShards > 0 && pointerShards > 0 && Within(idPart, idShards) && Within(pointerPart, pointerShards)
    }

    function Channels(): nat { idShards + pointerShards }
  }

  /** A message on its way to destination shard `chan`. */
  datatype Outgoing = Outgoing(chan: nat, msg: Msg)

  /** The bucket of one shard, unless it is empty. */
  function BucketSend(rows: Rows, part: Partitioning<TxPointer, Payload>, n: nat, sid: nat, offset: nat)
    : seq<Outgoing>
  {
    var own := if n == 1 then rows else Routed(rows, part, sid);
    if own == [] then [] else [Outgoing(offset + sid, MergeUnsortedInserts(own))]
  }

  /** The buckets of the first `m` shards, in shard order. */
  function BucketSends(rows: Rows, part: Partitioning<TxPointer, Payload>, n: nat, m: nat, offset: nat): seq<Outgoing> {
    if m == 0 then []
    else BucketSends(rows, part, n, m - 1, offset) + BucketSend(rows, part, n, m - 1, offset)
  }

  function ReadySends(shards: nat, m: nat, offset: nat): seq<Outgoing> {
    if m == 0 then [] else ReadySends(shards, m - 1, offset) + [Outgoing(offset + m - 1, ReadyForFlush(shards))]
  }

  /** One router's sends: all buckets first, then the signal to every shard. */
  function RouterSends(rows: Rows, lastShards: Option<nat>, part: Partitioning<TxPointer, Payload>, n: nat, offset: nat)
    : seq<Outgoing>
  {
    BucketSends(rows, part, n, n, offset)
    + (if lastShards.Some? then ReadySends(lastShards.value, n, offset) else [])
  }

  /** Everything the sink sends for one answered query, in order. */
  function SinkSends(s: Sinks, refs: seq<Entry>, lastShards: Option<nat>, out: Answers): seq<Outgoing>
    requires InRange(refs, out)
  {
    RouterSends(IdRows(refs, out), lastShards, s.idPart, s.idShards, 0)
    + RouterSends(PointerRows(refs, out), lastShards, s.pointerPart, s.pointerShards, s.idShards)
  }

  /** The messages for one channel, in order. */
  function To(sends: seq<Outgoing>, chan: nat): seq<Msg> {
    if sends == [] then []
    else (if sends[0].chan == chan then [sends[0].msg] else []) + To(sends[1..], chan)
  }

  lemma {:induction false} ToAppend(a: seq<Outgoing>, b: seq<Outgoing>, chan: nat)
    ensures To(a + b, chan) == To(a, chan) + To(b, chan)
  {
    if a == [] {
      assert a + b == b;
    } else {
      var head: seq<Msg> := if a[0].chan == chan then [a[0].msg] else [];
      calc {
        To(a + b, chan);
        { assert (a + b)[0] == a[0] && (a + b)[1..] == a[1..] + b; }
        head + To(a[1..] + b, chan);
        { ToAppend(a[1..], b, chan); }
        head + (To(a[1..], chan) + To(b, chan));
        head + To(a[1..], chan) + To(b, chan);
      }
    }
  }

  lemma Beside<T>(a: seq<T>, b: seq<T>)
    ensures a == [] ==> a + b == b
    ensures b == [] ==> a + b == a
  {
  }

  lemma {:induction false} ToOne(o: Outgoing, chan: nat)
    ensures To([o], chan) == if o.chan == chan then [o.msg] else []
  {
    assert [o][1..] == [];
  }

  lemma {:induction false} BucketSendTo(rows: Rows, part: Partitioning<TxPointer, Payload>, n: nat, sid: nat,
                                        offset: nat, chan: nat)
    ensures To(BucketSend(rows, part, n, sid, offset), chan)
         == if chan == offset + sid then InsertCommands(rows, None, part, n, sid) else []
  {
    InsertCommandsOf(rows, None, part, n, sid);
    var own := if n == 1 then rows else Routed(rows, part, sid);
    ToOne(Outgoing(offset + sid, MergeUnsortedInserts(own)), chan);
  }

  /** If only shard `chan - offset` sends anything on the channel, that is all the channel gets. */
  lemma {:induction false} OneShardSends(rows: Rows, part: Partitioning<TxPointer, Payload>, n: nat, m: nat,
                                         offset: nat, chan: nat, own: seq<Msg>)
    requires forall sid: nat ::
               To(BucketSend(rows, part, n, sid, offset), chan) == if chan == offset + sid then own else []
    ensures To(BucketSends(rows, part, n, m, offset), chan) == if offset <= chan < offset + m then own else []
  {
    if m > 0 {
      var below, last := BucketSends(rows, part, n, m - 1, offset), BucketSend(rows, part, n, m - 1, offset);
      OneShardSends(rows, part, n, m - 1, offset, chan, own);
      ToAppend(below, last, chan);
      Beside(To(below, chan), To(last, chan));
    }
  }

  lemma {:induction false} BucketSendsTo(rows: Rows, part: Partitioning<TxPointer, Payload>, n: nat, offset: nat,
                                         chan: nat)
    ensures To(BucketSends(rows, part, n, n, offset), chan)
         == if offset <= chan < offset + n then InsertCommands(rows, None, part, n, chan - offset) else []
  {
    var own: seq<Msg> := if offset <= chan then InsertCommands(rows, None, part, n, chan - offset) else [];
    forall sid: nat
      ensures To(BucketSend(rows, part, n, sid, offset), chan) == if chan == offset + sid then own else []
    {
      BucketSendTo(rows, part, n, sid, offset, chan);
    }
    OneShardSends(rows, part, n, n, offset, chan, own);
  }

  lemma {:induction false} InsertCommandsOf(rows: Rows, lastShards: Option<nat>, part: Partitioning<TxPointer, Payload>,
                                            n: nat, sid: nat)
    ensures var own := if n == 1 then rows else Routed(rows, part, sid);
            var inserts: seq<Msg> := if own == [] then [] else [MergeUnsortedInserts(own)];
            && InsertCommands(rows, None, part, n, sid) == inserts
            && (lastShards.Some? ==>
                InsertCommands(rows, lastShards, part, n, sid) == inserts + [Command.ReadyForFlush(lastShards.value)])
  {
  }

  lemma {:induction false} ReadySendsTo(shards: nat, m: nat, offset: nat, chan: nat)
    ensures To(ReadySends(shards, m, offset), chan)
         == if offset <= chan < offset + m then [Command.ReadyForFlush(shards)] else []
  {
    if m > 0 {
      var last := Outgoing(offset + m - 1, ReadyForFlush(shards));
      ReadySendsTo(shards, m - 1, offset, chan);
      ToAppend(ReadySends(shards, m - 1, offset), [last], chan);
      ToOne(last, chan);
      Beside(To(ReadySends(shards, m - 1, offset), chan), To([last], chan));
    }
  }

  /** What the send loops put on one channel is what the router promises that shard. */
  lemma {:induction false} RouterSendsTo(rows: Rows, lastShards: Option<nat>, part: Partitioning<TxPointer, Payload>,
                                         n: nat, offset: nat, chan: nat)
    ensures To(RouterSends(rows, lastShards, part, n, offset), chan)
         == if offset <= chan < offset + n then InsertCommands(rows, lastShards, part, n, chan - offset) else []
  {
    var buckets := BucketSends(rows, part, n, n, offset);
    BucketSendsTo(rows, part, n, offset, chan);
    if lastShards.None? {
      Beside(buckets, []);
    } else {
      var signals := ReadySends(lastShards.value, n, offset);
      ReadySendsTo(lastShards.value, n, offset, chan);
      ToAppend(buckets, signals, chan);
      if offset <= chan < offset + n {
        WithSignal(rows, lastShards.value, part, n, chan - offset, To(buckets, chan), To(signals, chan));
      } else {
        Beside(To(buckets, chan), To(signals, chan));
      }
    }
  }

  lemma WithSignal(rows: Rows, last: nat, part: Partitioning<TxPointer, Payload>, n: nat, sid: nat,
                   a: seq<Msg>, b: seq<Msg>)
    requires a == InsertCommands(rows, None, part, n, sid) && b == [Command.ReadyForFlush(last)]
    ensures a + b == InsertCommands(rows, Some(last), part, n, sid)
  {
    InsertCommandsOf(rows, Some(last), part, n, sid);
  }

  function ChannelRows(s: Sinks, ids: Rows, pointers: Rows, lastShards: Option<nat>, chan: nat): seq<Msg> {
    if chan < s.idShards then InsertCommands(ids, lastShards, s.idPart, s.idShards, chan)
    else if chan < s.Channels() then
      InsertCommands(pointers, lastShards, s.pointerPart, s.pointerShards, chan - s.idShards)
    else []
  }

  /** The rows that a query's answers send to one channel, with the signal. */
  function ChannelCommands(s: Sinks, refs: seq<Entry>, lastShards: Option<nat>, out: Answers, chan: nat): seq<Msg>
    requires InRange(refs, out)
  {
    ChannelRows(s, IdRows(refs, out), PointerRows(refs, out), lastShards, chan)
  }

  lemma {:induction false} SinkSendsTo(s: Sinks, refs: seq<Entry>, lastShards: Option<nat>, out: Answers, chan: nat)
    requires InRange(refs, out)
    ensures To(SinkSends(s, refs, lastShards, out), chan) == ChannelCommands(s, refs, lastShards, out, chan)
  {
    var ids, pointers := IdRows(refs, out), PointerRows(refs, out);
    var a := IdSendsTo(s, ids, lastShards, chan);
    var b := PointerSendsTo(s, pointers, lastShards, chan);
    BothRouters(s, ids, pointers, lastShards, chan, a, b);
    assert SinkSends(s, refs, lastShards, out) == a + b;
  }

  lemma IdSendsTo(s: Sinks, ids: Rows, lastShards: Option<nat>, chan: nat) returns (a: seq<Outgoing>)
    ensures a == RouterSends(ids, lastShards, s.idPart, s.idShards, 0)
    ensures To(a, chan) == if chan < s.idShards then InsertCommands(ids, lastShards, s.idPart, s.idShards, chan) else []
  {
    a := RouterSends(ids, lastShards, s.idPart, s.idShards, 0);
    RouterSendsTo(ids, lastShards, s.idPart, s.idShards, 0, chan);
  }

  lemma PointerSendsTo(s: Sinks, pointers: Rows, lastShards: Option<nat>, chan: nat) returns (b: seq<Outgoing>)
    ensures b == RouterSends(pointers, lastShards, s.pointerPart, s.pointerShards, s.idShards)
    ensures To(b, chan)
         == if s.idShards <= chan < s.Channels()
            then InsertCommands(pointers, lastShards, s.pointerPart, s.pointerShards, chan - s.idShards) else []
  {
    b := RouterSends(pointers, lastShards, s.pointerPart, s.pointerShards, s.idShards);
    RouterSendsTo(pointers, lastShards, s.pointerPart, s.pointerShards, s.idShards, chan);
  }

  lemma {:induction false} BothRouters(s: Sinks, ids: Rows, pointers: Rows, lastShards: Option<nat>, chan: nat,
                                       a: seq<Outgoing>, b: seq<Outgoing>)
    requires To(a, chan)
          == if chan < s.idShards then InsertCommands(ids, lastShards, s.idPart, s.idShards, chan) else []
    requires To(b, chan)
          == if s.idShards <= chan < s.Channels()
             then InsertCommands(pointers, lastShards, s.pointerPart, s.pointerShards, chan - s.idShards) else []
    ensures To(a + b, chan) == ChannelRows(s, ids, pointers, lastShards, chan)
  {
    ToAppend(a, b, chan);
    Beside(To(a, chan), To(b, chan));
  }

  /** The answers of one index shard, position by position. */
  ghost function Answered(t: IndexShards.Table, values: seq<(nat, int)>): (out: Answers)
    ensures |out| == |values|
    ensures forall i :: 0 <= i < |out| ==> out[i].0 == values[i].0
  {
    seq(|values|, i requires 0 <= i < |values| => (values[i].0, IndexShards.Lookup(t, values[i].1)))
  }

  /** Every queried position belongs to a reference. */
  ghost predicate Answerable(cmd: Cmd) {
    cmd.QueryAndWrite? ==> forall i :: 0 <= i < |cmd.values| ==> cmd.values[i].0 < |cmd.sink|
  }

  ghost function TableAfter(t: IndexShards.Table, cmd: Cmd): IndexShards.Table {
    if cmd.WriteInsertNow? then IndexShards.InsertRow(t, cmd.key, cmd.val) else t
  }

  /** What an index shard sends while it works off one command; a sink that fails sends nothing. */
  ghost function Sends(s: Sinks, t: IndexShards.Table, cmd: Cmd): seq<Outgoing> {
    if cmd.QueryAndWrite? && Answerable(cmd) && (cmd.values != [] || cmd.lastShards.Some?) then
      SinkSends(s, cmd.sink, cmd.lastShards, Answered(t, cmd.values))
    else []
  }

  /** What an index shard sends while it works off its queue. */
  ghost function Trace(s: Sinks, t: IndexShards.Table, cmds: seq<Cmd>): seq<Outgoing>
    decreases |cmds|
  {
    if cmds == [] then [] else Sends(s, t, cmds[0]) + Trace(s, TableAfter(t, cmds[0]), cmds[1..])
  }
}
