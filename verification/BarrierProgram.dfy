/**
 Storing blocks over a sharded index: the program of the writing thread, the signals it causes, and
 the rows every destination receives compared with the rows an unsharded, sequential run would write.
 */
module BarrierProgram {
  import opened Wrappers
  import opened Bags
  import opened Router
  import opened Hook
  import opened StoreMany
  import opened FlushBarrier
  import IndexShards
  import WriteContext

  // ---- the program of the writing thread ----------------------------------------------------------------------

  function HashesOf(refs: seq<Entry>): (h: seq<int>)
    ensures |h| == |refs| && forall i :: 0 <= i < |h| ==> h[i] == refs[i].ref.txHash
  {
    seq(|refs|, i requires 0 <= i < |refs| => refs[i].ref.txHash)
  }

  /** What one operation sends to shard `sid` of the index, which is partitioned by value. */
  function OpCommands(op: Op, vp: int -> nat, n: nat, sid: nat): seq<Cmd> {
    match op
    case InsertHash(k, v) => if sid == (if n == 1 then 0 else vp(v)) then [WriteInsertNow(k, v)] else []
    case QueryRefs(refs, isLast) => QueryCommands(HashesOf(refs), isLast, refs, vp, n, sid)
  }

  function Commands(ops: seq<Op>, vp: int -> nat, n: nat, sid: nat): seq<Cmd> {
    if ops == [] then [] else OpCommands(ops[0], vp, n, sid) + Commands(ops[1..], vp, n, sid)
  }

  function Post(cmds: seq<Cmd>, sid: nat): (tasks: seq<Task>)
    ensures |tasks| == |cmds| && forall i :: 0 <= i < |tasks| ==> tasks[i] == ToSource(sid, cmds[i])
  {
    seq(|cmds|, i requires 0 <= i < |cmds| => ToSource(sid, cmds[i]))
  }

  function Joined(parts: seq<seq<Task>>): seq<Task> {
    if parts == [] then [] else Joined(parts[..|parts| - 1]) + parts[|parts| - 1]
  }

  /** One operation, shard after shard. */
  function OpParts(op: Op, vp: int -> nat, n: nat): (parts: seq<seq<Task>>)
    ensures |parts| == n && forall to :: 0 <= to < n ==> parts[to] == Post(OpCommands(op, vp, n, to), to)
  {
    seq(n, to requires 0 <= to < n => Post(OpCommands(op, vp, n, to), to))
  }

  function OpTasks(op: Op, vp: int -> nat, n: nat): seq<Task> {
    Joined(OpParts(op, vp, n))
  }

  function FlushAll(m: nat, whenReady: bool): seq<Task> {
    if m == 0 then [] else FlushAll(m - 1, whenReady) + [RequestFlush(m - 1, whenReady)]
  }

  /** All operations in order, then a flush request to every destination. */
  function Program(ops: seq<Op>, vp: int -> nat, n: nat, chans: nat, whenReady: bool): seq<Task> {
    if ops == [] then FlushAll(chans, whenReady)
    else OpTasks(ops[0], vp, n) + Program(ops[1..], vp, n, chans, whenReady)
  }

  /** Is the hook called? */
  predicate HasQuery(ops: seq<Op>) {
    exists i :: 0 <= i < |ops| && ops[i].QueryRefs?
  }

  /** Are the flushes of a transaction deferred, on a context on which they were deferred `before` or not? */
  predicate DeferredFlush(before: bool, ops: seq<Op>) {
    WriteContext.Deferred(before, true, HasQuery(ops))
  }

  /** The system before the writing thread has done anything; the index holds `whole`. */
  ghost function Initial(s: Sinks, whole: IndexShards.Table, ops: seq<Op>, vp: int -> nat, n: nat, before: bool)
    : (y: Sys)
    ensures Wired(s, y)
  {
    ProgramShape(ops, vp, n, s.Channels(), DeferredFlush(before, ops), 0);
    Sys(Program(ops, vp, n, s.Channels(), DeferredFlush(before, ops)),
        seq(n, sid requires 0 <= sid < n => Source(IndexShards.Part(whole, vp, sid), [], [])),
        seq(s.Channels(), chan => Dest([], IDLE)))
  }

  lemma {:induction false} QueuedAppend(a: seq<Task>, b: seq<Task>, sid: nat)
    ensures Queued(a + b, sid) == Queued(a, sid) + Queued(b, sid)
  {
    if a == [] {
      assert a + b == b;
    } else {
      var head: seq<Cmd> := if a[0].ToSource? && a[0].sid == sid then [a[0].cmd] else [];
      calc {
        Queued(a + b, sid);
        { assert (a + b)[0] == a[0] && (a + b)[1..] == a[1..] + b; }
        head + Queued(a[1..] + b, sid);
        { QueuedAppend(a[1..], b, sid); }
        head + (Queued(a[1..], sid) + Queued(b, sid));
        head + Queued(a[1..], sid) + Queued(b, sid);
      }
    }
  }

  lemma {:induction false} QueuedPost(cmds: seq<Cmd>, to: nat, sid: nat)
    ensures Queued(Post(cmds, to), sid) == if to == sid then cmds else []
  {
    if cmds != [] {
      assert Post(cmds, to)[1..] == Post(cmds[1..], to);
      QueuedPost(cmds[1..], to, sid);
    }
  }

  lemma QueuedLast(parts: seq<seq<Task>>, sid: nat)
    requires parts != []
    ensures Queued(Joined(parts), sid)
         == Queued(Joined(parts[..|parts| - 1]), sid) + Queued(parts[|parts| - 1], sid)
  {
    QueuedAppend(Joined(parts[..|parts| - 1]), parts[|parts| - 1], sid);
  }

  /** If only part `sid` sends `sid` anything, that is all it is sent. */
  lemma {:induction false} QueuedJoined(parts: seq<seq<Task>>, sid: nat, own: seq<Cmd>)
    requires forall to :: 0 <= to < |parts| ==> Queued(parts[to], sid) == if to == sid then own else []
    ensures Queued(Joined(parts), sid) == if sid < |parts| then own else []
  {
    if parts != [] {
      QueuedJoined(parts[..|parts| - 1], sid, own);
      QueuedLast(parts, sid);
    }
  }

  lemma {:induction false} QueuedOp(op: Op, vp: int -> nat, n: nat, sid: nat)
    requires sid < n
    ensures Queued(OpTasks(op, vp, n), sid) == OpCommands(op, vp, n, sid)
  {
    var parts, own := OpParts(op, vp, n), OpCommands(op, vp, n, sid);
    forall to | 0 <= to < n ensures Queued(parts[to], sid) == if to == sid then own else [] {
      QueuedPost(OpCommands(op, vp, n, to), to, sid);
    }
    QueuedJoined(parts, sid, own);
  }

  lemma {:induction false} QueuedFlushAll(m: nat, whenReady: bool, sid: nat)
    ensures Queued(FlushAll(m, whenReady), sid) == []
  {
    if m > 0 {
      QueuedFlushAll(m - 1, whenReady, sid);
      QueuedAppend(FlushAll(m - 1, whenReady), [RequestFlush(m - 1, whenReady)], sid);
      assert [RequestFlush(m - 1, whenReady)][1..] == [];
    }
  }

  /** The program gives every index shard its commands, in order. */
  lemma {:induction false} QueuedProgram(ops: seq<Op>, vp: int -> nat, n: nat, chans: nat, whenReady: bool, sid: nat)
    requires sid < n
    ensures Queued(Program(ops, vp, n, chans, whenReady), sid) == Commands(ops, vp, n, sid)
  {
    if ops == [] {
      QueuedFlushAll(chans, whenReady, sid);
    } else {
      QueuedAppend(OpTasks(ops[0], vp, n), Program(ops[1..], vp, n, chans, whenReady), sid);
      QueuedOp(ops[0], vp, n, sid);
      QueuedProgram(ops[1..], vp, n, chans, whenReady, sid);
    }
  }

  lemma {:induction false} FlushTasksAppend(a: seq<Task>, b: seq<Task>, chan: nat)
    ensures FlushTasks(a + b, chan) == FlushTasks(a, chan) + FlushTasks(b, chan)
  {
    if a == [] {
      assert a + b == b;
    } else {
      assert (a + b)[0] == a[0] && (a + b)[1..] == a[1..] + b;
      FlushTasksAppend(a[1..], b, chan);
    }
  }

  lemma {:induction false} NoFlushTasks(a: seq<Task>, chan: nat)
    requires forall i :: 0 <= i < |a| ==> a[i].ToSource?
    ensures FlushTasks(a, chan) == []
  {
    if a != [] { NoFlushTasks(a[1..], chan); }
  }

  lemma {:induction false} JoinedShape(parts: seq<seq<Task>>, n: nat)
    requires forall to, i :: 0 <= to < |parts| && 0 <= i < |parts[to]| ==>
               parts[to][i].ToSource? && parts[to][i].sid < n
    ensures forall i :: 0 <= i < |Joined(parts)| ==> Joined(parts)[i].ToSource? && Joined(parts)[i].sid < n
  {
    if parts != [] { JoinedShape(parts[..|parts| - 1], n); }
  }

  lemma {:induction false} OneRequest(m: nat, whenReady: bool, chan: nat)
    ensures FlushTasks([RequestFlush(m, whenReady)], chan) == if chan == m then [whenReady] else []
  {
    assert [RequestFlush(m, whenReady)][1..] == [];
  }

  lemma {:induction false} FlushAllShape(m: nat, whenReady: bool, chan: nat)
    ensures FlushTasks(FlushAll(m, whenReady), chan) == if chan < m then [whenReady] else []
  {
    if m > 0 {
      FlushAllShape(m - 1, whenReady, chan);
      OneRequest(m - 1, whenReady, chan);
      FlushTasksAppend(FlushAll(m - 1, whenReady), [RequestFlush(m - 1, whenReady)], chan);
    }
  }

  lemma {:induction false} FlushAllWired(m: nat, whenReady: bool)
    ensures forall i :: 0 <= i < |FlushAll(m, whenReady)| ==>
              FlushAll(m, whenReady)[i].RequestFlush? && FlushAll(m, whenReady)[i].chan < m
  {
    if m > 0 { FlushAllWired(m - 1, whenReady); }
  }

  /** The program addresses existing shards only and asks every destination once. */
  lemma {:induction false} ProgramShape(ops: seq<Op>, vp: int -> nat, n: nat, chans: nat, whenReady: bool, chan: nat)
    ensures FlushTasks(Program(ops, vp, n, chans, whenReady), chan) == if chan < chans then [whenReady] else []
    ensures var tasks := Program(ops, vp, n, chans, whenReady);
            forall i :: 0 <= i < |tasks| ==> if tasks[i].ToSource? then tasks[i].sid < n else tasks[i].chan < chans
  {
    if ops == [] {
      FlushAllShape(chans, whenReady, chan);
      FlushAllWired(chans, whenReady);
    } else {
      JoinedShape(OpParts(ops[0], vp, n), n);
      ProgramShape(ops[1..], vp, n, chans, whenReady, chan);
      NoFlushTasks(OpTasks(ops[0], vp, n), chan);
      FlushTasksAppend(OpTasks(ops[0], vp, n), Program(ops[1..], vp, n, chans, whenReady), chan);
    }
  }

  // ---- the signals ------------------------------------------------------------------------------------------

  /** The last operation, and only it, carries the signal. */
  ghost predicate SignalLast(ops: seq<Op>) {
    && ops != [] && ops[|ops| - 1].QueryRefs? && ops[|ops| - 1].isLast
    && NoSignal(ops[..|ops| - 1])
  }

  /** What one index shard sends to one destination over the whole program. */
  ghost function Stream(s: Sinks, t: IndexShards.Table, ops: seq<Op>, vp: int -> nat, n: nat, sid: nat, chan: nat)
    : seq<Msg>
  {
    To(Trace(s, t, Commands(ops, vp, n, sid)), chan)
  }

  lemma {:induction false} TraceAppend(s: Sinks, t: IndexShards.Table, a: seq<Cmd>, b: seq<Cmd>)
    requires |a| <= 1
    ensures Trace(s, t, a + b) ==
              if a == [] then Trace(s, t, b) else Sends(s, t, a[0]) + Trace(s, TableAfter(t, a[0]), b)
  {
    if a == [] {
      assert a + b == b;
    } else {
      assert (a + b)[0] == a[0] && (a + b)[1..] == b;
    }
  }

  lemma {:induction false} RoutedPositions(values: seq<int>, vp: int -> nat, sid: nat)
    ensures forall i :: 0 <= i < |RoutedValues(values, vp, sid)| ==> RoutedValues(values, vp, sid)[i].0 < |values|
  {
    if values != [] { RoutedPositions(values[..|values| - 1], vp, sid); }
  }

  /** The answers a shard gives to one query, whatever the shard count. */
  function OwnValues(refs: seq<Entry>, vp: int -> nat, n: nat, sid: nat): (own: seq<(nat, int)>)
    ensures forall i :: 0 <= i < |own| ==> own[i].0 < |refs|
  {
    RoutedPositions(HashesOf(refs), vp, sid);
    if n == 1 then Enumerated(HashesOf(refs)) else RoutedValues(HashesOf(refs), vp, sid)
  }

  /** A query's messages for a destination: the rows of its answers, and the signal if it is the last query. */
  lemma {:induction false} QueryStream(s: Sinks, t: IndexShards.Table, refs: seq<Entry>, isLast: bool, vp: int -> nat,
                                       n: nat, sid: nat, chan: nat)
    requires n > 0
    ensures var cmds := OpCommands(QueryRefs(refs, isLast), vp, n, sid);
            && |cmds| <= 1
            && To(Trace(s, t, cmds), chan)
               == ChannelCommands(s, refs, if isLast then Some(n) else None,
                                  Answered(t, OwnValues(refs, vp, n, sid)), chan)
            && (cmds != [] ==> TableAfter(t, cmds[0]) == t)
  {
    var cmds := OpCommands(QueryRefs(refs, isLast), vp, n, sid);
    var own := OwnValues(refs, vp, n, sid);
    var last := if isLast then Some(n) else None;
    var out := Answered(t, own);
    SinkSendsTo(s, refs, last, out, chan);
    if own == [] && !isLast {
      NoAnswers(s, refs, out, chan);
      if cmds != [] {
        assert Sends(s, t, cmds[0]) == [];
        assert cmds[1..] == [];
      }
    } else {
      assert cmds == [QueryAndWrite(last, own, refs)] && cmds[1..] == [];
      assert Sends(s, t, cmds[0]) == SinkSends(s, refs, last, out);
      Beside(Sends(s, t, cmds[0]), []);
    }
  }

  lemma NoAnswers(s: Sinks, refs: seq<Entry>, out: Answers, chan: nat)
    requires out == []
    ensures ChannelCommands(s, refs, None, out, chan) == []
  {
    assert IdRows(refs, out) == [] && PointerRows(refs, out) == [];
  }

  lemma InsertShape(rows: Rows, last: Option<nat>, part: Partitioning<TxPointer, Payload>, n: nat, sid: nat)
    ensures var msgs: seq<Msg> := InsertCommands(rows, last, part, n, sid);
            && (last.None? ==> forall i :: 0 <= i < |msgs| ==> msgs[i].MergeUnsortedInserts?)
            && (last.Some? ==> WellEnded(msgs, last.value) && msgs != [])
  {
  }

  ghost predicate InsertsOnly(msgs: seq<Msg>) {
    forall i :: 0 <= i < |msgs| ==> msgs[i].MergeUnsortedInserts?
  }

  lemma QueryStreamShape(s: Sinks, refs: seq<Entry>, last: Option<nat>, out: Answers, chan: nat)
    requires InRange(refs, out) && chan < s.Channels()
    ensures var msgs := ChannelCommands(s, refs, last, out, chan);
            if last.None? then InsertsOnly(msgs) else msgs != [] && WellEnded(msgs, last.value)
  {
    if chan < s.idShards {
      InsertShape(IdRows(refs, out), last, s.idPart, s.idShards, chan);
    } else {
      InsertShape(PointerRows(refs, out), last, s.pointerPart, s.pointerShards, chan - s.idShards);
    }
  }

  /** One operation's part of a stream. */
  lemma {:induction false} StreamHead(s: Sinks, t: IndexShards.Table, ops: seq<Op>, vp: int -> nat, n: nat, sid: nat,
                                      chan: nat)
    requires ops != [] && n > 0
    ensures var cmds, rest := OpCommands(ops[0], vp, n, sid), ops[1..];
            && |cmds| <= 1
            && Stream(s, t, ops, vp, n, sid, chan)
               == To(Trace(s, t, cmds), chan)
                  + Stream(s, if cmds == [] then t else TableAfter(t, cmds[0]), rest, vp, n, sid, chan)
            && (ops[0].InsertHash? ==> To(Trace(s, t, cmds), chan) == [])
  {
    var cmds, later := OpCommands(ops[0], vp, n, sid), Commands(ops[1..], vp, n, sid);
    TraceAppend(s, t, cmds, later);
    if cmds == [] {
      Beside([], Stream(s, t, ops[1..], vp, n, sid, chan));
    } else {
      var t' := TableAfter(t, cmds[0]);
      ToAppend(Sends(s, t, cmds[0]), Trace(s, t', later), chan);
      assert Trace(s, t, cmds) == Sends(s, t, cmds[0]) by {
        assert cmds[1..] == [];
        Beside(Sends(s, t, cmds[0]), []);
      }
    }
  }

  /** A query's part of a stream: inserts only, unless it carries the signal; an insert of a hash has none. */
  lemma {:induction false} HeadShape(s: Sinks, t: IndexShards.Table, op: Op, vp: int -> nat, n: nat, sid: nat,
                                     chan: nat)
    requires n > 0 && chan < s.Channels() && op.QueryRefs?
    ensures var head := To(Trace(s, t, OpCommands(op, vp, n, sid)), chan);
            if op.isLast then head != [] && WellEnded(head, n) else InsertsOnly(head)
  {
    var last := if op.isLast then Some(n) else None;
    var out := Answered(t, OwnValues(op.refs, vp, n, sid));
    QueryStream(s, t, op.refs, op.isLast, vp, n, sid, chan);
    QueryStreamShape(s, op.refs, last, out, chan);
  }

  /** Every index shard's stream to every destination ends in its one signal, whatever the index holds. */
  lemma {:induction false} StreamEnds(s: Sinks, t: IndexShards.Table, ops: seq<Op>, vp: int -> nat, n: nat, sid: nat,
                                      chan: nat)
    requires n > 0 && chan < s.Channels() && SignalLast(ops)
    ensures Stream(s, t, ops, vp, n, sid, chan) != [] && WellEnded(Stream(s, t, ops, vp, n, sid, chan), n)
    decreases |ops|
  {
    var cmds, rest := OpCommands(ops[0], vp, n, sid), ops[1..];
    var head := To(Trace(s, t, cmds), chan);
    if ops[0].QueryRefs? { HeadShape(s, t, ops[0], vp, n, sid, chan); }
    StreamHead(s, t, ops, vp, n, sid, chan);
    var t' := if cmds == [] then t else TableAfter(t, cmds[0]);
    var later := Stream(s, t', rest, vp, n, sid, chan);
    if rest == [] {
      Beside(head, later);
    } else {
      SignalLater(ops);
      StreamEnds(s, t', rest, vp, n, sid, chan);
      PrependInserts(head, later, n);
    }
  }

  lemma SignalLater(ops: seq<Op>)
    requires SignalLast(ops) && |ops| > 1
    ensures SignalLast(ops[1..]) && (ops[0].QueryRefs? ==> !ops[0].isLast)
  {
    assert ops[1..][..|ops[1..]| - 1] == ops[..|ops| - 1][1..];
    assert ops[0] == ops[..|ops| - 1][0];
  }

  lemma PrependInserts(head: seq<Msg>, rest: seq<Msg>, shards: nat)
    requires InsertsOnly(head) && rest != [] && WellEnded(rest, shards)
    ensures head + rest != [] && WellEnded(head + rest, shards)
  {
  }

  /** Without the signal a stream is inserts only, and without a query it is empty. */
  lemma {:induction false} UnsignalledStream(s: Sinks, t: IndexShards.Table, ops: seq<Op>, vp: int -> nat, n: nat,
                                             sid: nat, chan: nat)
    requires n > 0 && chan < s.Channels() && NoSignal(ops)
    ensures InsertsOnly(Stream(s, t, ops, vp, n, sid, chan))
    ensures !HasQuery(ops) ==> Stream(s, t, ops, vp, n, sid, chan) == []
    decreases |ops|
  {
    if ops != [] {
      var cmds := OpCommands(ops[0], vp, n, sid);
      assert ops[0].QueryRefs? ==> HasQuery(ops) && !ops[0].isLast;
      assert HasQuery(ops[1..]) ==> HasQuery(ops);
      if ops[0].QueryRefs? { HeadShape(s, t, ops[0], vp, n, sid, chan); }
      StreamHead(s, t, ops, vp, n, sid, chan);
      UnsignalledStream(s, if cmds == [] then t else TableAfter(t, cmds[0]), ops[1..], vp, n, sid, chan);
    }
  }

  // ---- the rows -----------------------------------------------------------------------------------------------

  /** A reference with the answer to its query. */
  datatype Resolved = Resolved(entry: Entry, found: Option<int>)

  /** What a sequential run over one unsharded index resolves: every reference once, in order, looked up in
      the index as it is when its block is stored. */
  ghost function Resolutions(whole: IndexShards.Table, ops: seq<Op>): seq<Resolved>
    decreases |ops|
  {
    if ops == [] then []
    else
      match ops[0]
      case InsertHash(k, v) => Resolutions(IndexShards.InsertRow(whole, k, v), ops[1..])
      case QueryRefs(refs, _) => ResolveAll(whole, refs) + Resolutions(whole, ops[1..])
  }

  ghost function ResolveAll(whole: IndexShards.Table, refs: seq<Entry>): (out: seq<Resolved>)
    ensures |out| == |refs|
    ensures forall i :: 0 <= i < |out| ==> out[i] == Resolved(refs[i], IndexShards.Lookup(whole, refs[i].ref.txHash))
  {
    seq(|refs|, i requires 0 <= i < |refs| => Resolved(refs[i], IndexShards.Lookup(whole, refs[i].ref.txHash)))
  }

  function IfOwn(row: (TxPointer, Payload), part: Partitioning<TxPointer, Payload>, n: nat, sid: nat): Rows {
    if n == 1 || ShardOf(part, row.0, row.1) == sid then [row] else []
  }

  /** The row of a resolved reference that belongs to destination `chan`, if any. */
  function RowFor(s: Sinks, r: Resolved, chan: nat): Rows {
    if chan < s.idShards then IfOwn((IdOf(r.entry), Nothing), s.idPart, s.idShards, chan)
    else if chan < s.Channels() then
      IfOwn((IdOf(r.entry), Utxo(UtxoOf(r.entry, r.found))), s.pointerPart, s.pointerShards, chan - s.idShards)
    else []
  }

  function RowsFor(s: Sinks, out: seq<Resolved>, chan: nat): Rows {
    if out == [] then [] else RowsFor(s, out[..|out| - 1], chan) + RowFor(s, out[|out| - 1], chan)
  }

  lemma {:induction false} RowsForAppend(s: Sinks, a: seq<Resolved>, b: seq<Resolved>, chan: nat)
    ensures RowsFor(s, a + b, chan) == RowsFor(s, a, chan) + RowsFor(s, b, chan)
  {
    if b == [] {
      assert a + b == a;
    } else {
      var m := |b| - 1;
      assert (a + b)[..|a + b| - 1] == a + b[..m] && (a + b)[|a + b| - 1] == b[m];
      RowsForAppend(s, a, b[..m], chan);
    }
  }

  ghost function Matched(refs: seq<Entry>, out: Answers): (r: seq<Resolved>)
    requires InRange(refs, out)
    ensures |r| == |out|
    ensures forall i :: 0 <= i < |r| ==> r[i] == Resolved(refs[out[i].0], out[i].1)
  {
    seq(|out|, i requires 0 <= i < |out| => Resolved(refs[out[i].0], out[i].1))
  }

  function OwnRows(rows: Rows, part: Partitioning<TxPointer, Payload>, n: nat, sid: nat): Rows {
    if n == 1 then rows else Routed(rows, part, sid)
  }

  lemma OwnRowsLast(rows: Rows, part: Partitioning<TxPointer, Payload>, n: nat, sid: nat)
    requires rows != []
    ensures OwnRows(rows, part, n, sid)
         == OwnRows(rows[..|rows| - 1], part, n, sid) + IfOwn(rows[|rows| - 1], part, n, sid)
  {
  }

  lemma RowsOfInserts(rows: Rows, last: Option<nat>, part: Partitioning<TxPointer, Payload>, n: nat, sid: nat)
    ensures RowsOf(InsertCommands(rows, last, part, n, sid)) == multiset(OwnRows(rows, part, n, sid))
  {
    var own := OwnRows(rows, part, n, sid);
    var inserts: seq<Msg> := if own == [] then [] else [MergeUnsortedInserts(own)];
    InsertCommandsOf(rows, last, part, n, sid);
    if own != [] { RowsOfOne(MergeUnsortedInserts(own)); }
    if last.Some? {
      RowsOfAppend(inserts, [Command.ReadyForFlush(last.value)]);
      RowsOfOne(Command.ReadyForFlush(last.value));
    }
  }

  lemma RowsOfOne(m: Msg)
    ensures RowsOf([m]) == if m.MergeUnsortedInserts? then multiset(m.pairs) else multiset{}
  {
    assert [m][1..] == [];
  }

  /** If each answer's row is the one that would be routed, the rows are the routed ones. */
  lemma {:induction false} OwnRowsAre(s: Sinks, out: seq<Resolved>, chan: nat, rows: Rows,
                                      part: Partitioning<TxPointer, Payload>, n: nat, sid: nat)
    requires |rows| == |out|
    requires forall i :: 0 <= i < |out| ==> RowFor(s, out[i], chan) == IfOwn(rows[i], part, n, sid)
    ensures RowsFor(s, out, chan) == OwnRows(rows, part, n, sid)
  {
    if out != [] {
      OwnRowsAre(s, out[..|out| - 1], chan, rows[..|rows| - 1], part, n, sid);
      OwnRowsLast(rows, part, n, sid);
    }
  }

  lemma {:induction false} AnswersBecomeRows(s: Sinks, refs: seq<Entry>, last: Option<nat>, out: Answers, chan: nat)
    requires InRange(refs, out) && chan < s.Channels()
    ensures RowsOf(ChannelCommands(s, refs, last, out, chan)) == multiset(RowsFor(s, Matched(refs, out), chan))
  {
    if chan < s.idShards {
      IdsBecomeRows(s, refs, out, chan);
      RowsOfInserts(IdRows(refs, out), last, s.idPart, s.idShards, chan);
    } else {
      PointersBecomeRows(s, refs, out, chan);
      RowsOfInserts(PointerRows(refs, out), last, s.pointerPart, s.pointerShards, chan - s.idShards);
    }
  }

  lemma {:induction false} IdsBecomeRows(s: Sinks, refs: seq<Entry>, out: Answers, chan: nat)
    requires InRange(refs, out) && chan < s.idShards
    ensures RowsFor(s, Matched(refs, out), chan) == OwnRows(IdRows(refs, out), s.idPart, s.idShards, chan)
  {
    OwnRowsAre(s, Matched(refs, out), chan, IdRows(refs, out), s.idPart, s.idShards, chan);
  }

  lemma {:induction false} PointersBecomeRows(s: Sinks, refs: seq<Entry>, out: Answers, chan: nat)
    requires InRange(refs, out) && s.idShards <= chan < s.Channels()
    ensures RowsFor(s, Matched(refs, out), chan)
         == OwnRows(PointerRows(refs, out), s.pointerPart, s.pointerShards, chan - s.idShards)
  {
    OwnRowsAre(s, Matched(refs, out), chan, PointerRows(refs, out), s.pointerPart, s.pointerShards, chan - s.idShards);
  }

  // ---- one query over all shards ------------------------------------------------------------------------------

  /** A shard's table holds the keys of its own values like the whole table. */
  ghost predicate Serves(t: IndexShards.Table, whole: IndexShards.Table, vp: int -> nat, sid: nat) {
    forall v, k :: vp(v) == sid ==> ((v, k) in t.byIndex <==> (v, k) in whole.byIndex)
  }

  lemma ServesLookup(t: IndexShards.Table, whole: IndexShards.Table, vp: int -> nat, v: int)
    requires Serves(t, whole, vp, vp(v))
    ensures IndexShards.Lookup(t, v) == IndexShards.Lookup(whole, v)
  {
    forall k ensures k in IndexShards.KeysOf(t, v) <==> k in IndexShards.KeysOf(whole, v) {
      assert (v, k) in t.byIndex <==> (v, k) in whole.byIndex;
    }
    assert IndexShards.KeysOf(t, v) == IndexShards.KeysOf(whole, v);
  }

  lemma {:induction false} OneShardRoutesAll(values: seq<int>, vp: int -> nat)
    requires IndexShards.Within(vp, 1)
    ensures RoutedValues(values, vp, 0) == Enumerated(values)
  {
    if values != [] {
      var m := |values| - 1;
      OneShardRoutesAll(values[..m], vp);
      var v := values[m];
      var home := vp(v);
      assert home < 1;
      assert Enumerated(values) == Enumerated(values[..m]) + [(m, values[m])];
    }
  }

  /** The references a shard resolves, in order. */
  ghost function OwnResolved(whole: IndexShards.Table, refs: seq<Entry>, vp: int -> nat, sid: nat): seq<Resolved> {
    if refs == [] then []
    else
      var m := |refs| - 1;
      OwnResolved(whole, refs[..m], vp, sid)
      + (if vp(refs[m].ref.txHash) != sid then []
         else [Resolved(refs[m], IndexShards.Lookup(whole, refs[m].ref.txHash))])
  }

  lemma {:induction false} RoutedAreOwn(t: IndexShards.Table, whole: IndexShards.Table, refs: seq<Entry>,
                                        vp: int -> nat, sid: nat)
    requires Serves(t, whole, vp, sid)
    ensures var own := RoutedValues(HashesOf(refs), vp, sid);
            && (forall i :: 0 <= i < |own| ==> own[i].0 < |refs|)
            && Matched(refs, Answered(t, own)) == OwnResolved(whole, refs, vp, sid)
  {
    RoutedPositions(HashesOf(refs), vp, sid);
    if refs != [] {
      var m := |refs| - 1;
      RoutedAreOwn(t, whole, refs[..m], vp, sid);
      assert HashesOf(refs)[..m] == HashesOf(refs[..m]);
      var before, own := RoutedValues(HashesOf(refs[..m]), vp, sid), RoutedValues(HashesOf(refs), vp, sid);
      assert own[..|before|] == before;
      assert Matched(refs, Answered(t, own))[..|before|] == Matched(refs[..m], Answered(t, before));
      if vp(refs[m].ref.txHash) == sid { ServesLookup(t, whole, vp, refs[m].ref.txHash); }
    }
  }

  lemma {:induction false} OwnValuesAreOwn(t: IndexShards.Table, whole: IndexShards.Table, refs: seq<Entry>,
                                           vp: int -> nat, n: nat, sid: nat)
    requires Serves(t, whole, vp, sid) && IndexShards.Within(vp, n) && sid < n
    ensures Matched(refs, Answered(t, OwnValues(refs, vp, n, sid))) == OwnResolved(whole, refs, vp, sid)
  {
    RoutedAreOwn(t, whole, refs, vp, sid);
    if n == 1 { OneShardRoutesAll(HashesOf(refs), vp); }
  }

  ghost function QueryBags(s: Sinks, whole: IndexShards.Table, refs: seq<Entry>, vp: int -> nat, n: nat, chan: nat)
    : (bags: seq<multiset<(TxPointer, Payload)>>)
    ensures |bags| == n
    ensures forall sid :: 0 <= sid < n ==> bags[sid] == multiset(RowsFor(s, OwnResolved(whole, refs, vp, sid), chan))
  {
    seq(n, sid requires 0 <= sid < n => multiset(RowsFor(s, OwnResolved(whole, refs, vp, sid), chan)))
  }

  lemma {:induction false} RowsForOne(s: Sinks, r: Resolved, chan: nat)
    ensures RowsFor(s, [r], chan) == RowFor(s, r, chan)
  {
    assert [r][..0] == [];
  }

  /** The last position of a query is answered by its own shard and no other. */
  lemma QueryBagsLast(s: Sinks, whole: IndexShards.Table, refs: seq<Entry>, vp: int -> nat, n: nat, chan: nat)
    requires refs != [] && vp(refs[|refs| - 1].ref.txHash) < n
    ensures var m, home := |refs| - 1, vp(refs[|refs| - 1].ref.txHash);
            var before := QueryBags(s, whole, refs[..m], vp, n, chan);
            QueryBags(s, whole, refs, vp, n, chan)
            == before[home := before[home] + multiset(RowFor(s, ResolveAll(whole, refs)[m], chan))]
  {
    var m, home := |refs| - 1, vp(refs[|refs| - 1].ref.txHash);
    var last := Resolved(refs[m], IndexShards.Lookup(whole, refs[m].ref.txHash));
    RowsForOne(s, last, chan);
    RowsForAppend(s, OwnResolved(whole, refs[..m], vp, home), [last], chan);
    forall sid | 0 <= sid < n && sid != home
      ensures OwnResolved(whole, refs, vp, sid) == OwnResolved(whole, refs[..m], vp, sid)
    {
    }
  }

  /** Every position is answered by exactly one shard: over all shards the rows are the sequential ones. */
  lemma {:induction false} ShardsResolveOnce(s: Sinks, whole: IndexShards.Table, refs: seq<Entry>, vp: int -> nat,
                                             n: nat, chan: nat)
    requires IndexShards.Within(vp, n)
    ensures BagSum(QueryBags(s, whole, refs, vp, n, chan)) == multiset(RowsFor(s, ResolveAll(whole, refs), chan))
  {
    if refs == [] {
      BagSumEmpty(QueryBags(s, whole, refs, vp, n, chan));
    } else {
      var m, hash := |refs| - 1, refs[|refs| - 1].ref.txHash;
      var home := vp(hash);
      assert home < n;
      var before := QueryBags(s, whole, refs[..m], vp, n, chan);
      ShardsResolveOnce(s, whole, refs[..m], vp, n, chan);
      QueryBagsLast(s, whole, refs, vp, n, chan);
      BagSumAdd(before, home, multiset(RowFor(s, ResolveAll(whole, refs)[m], chan)));
      assert ResolveAll(whole, refs)[..m] == ResolveAll(whole, refs[..m]);
    }
  }

  // ---- the whole program --------------------------------------------------------------------------------------

  lemma {:induction false} RowsOfAppend(a: seq<Msg>, b: seq<Msg>)
    ensures RowsOf(a + b) == RowsOf(a) + RowsOf(b)
  {
    if a == [] {
      assert a + b == b;
    } else {
      assert (a + b)[0] == a[0] && (a + b)[1..] == a[1..] + b;
      RowsOfAppend(a[1..], b);
    }
  }

  /** The rows that each index shard sends to one destination. */
  ghost function StreamBags(s: Sinks, tables: seq<IndexShards.Table>, ops: seq<Op>, vp: int -> nat, chan: nat)
    : (bags: seq<multiset<(TxPointer, Payload)>>)
    ensures |bags| == |tables|
    ensures forall sid :: 0 <= sid < |bags| ==>
              bags[sid] == RowsOf(Stream(s, tables[sid], ops, vp, |tables|, sid, chan))
  {
    seq(|tables|, sid requires 0 <= sid < |tables| => RowsOf(Stream(s, tables[sid], ops, vp, |tables|, sid, chan)))
  }

  ghost predicate AllServe(tables: seq<IndexShards.Table>, whole: IndexShards.Table, vp: int -> nat) {
    && IndexShards.Within(vp, |tables|)
    && forall sid :: 0 <= sid < |tables| ==> Serves(tables[sid], whole, vp, sid)
  }

  /** A query's rows, shard by shard, before the rest of the program. */
  lemma {:induction false} QueryBagsHead(s: Sinks, t: IndexShards.Table, whole: IndexShards.Table, ops: seq<Op>,
                                         vp: int -> nat, n: nat, sid: nat, chan: nat)
    requires ops != [] && ops[0].QueryRefs? && sid < n && chan < s.Channels()
    requires IndexShards.Within(vp, n) && Serves(t, whole, vp, sid)
    ensures RowsOf(Stream(s, t, ops, vp, n, sid, chan))
         == multiset(RowsFor(s, OwnResolved(whole, ops[0].refs, vp, sid), chan))
            + RowsOf(Stream(s, t, ops[1..], vp, n, sid, chan))
  {
    var refs := ops[0].refs;
    var cmds := OpCommands(ops[0], vp, n, sid);
    var head := To(Trace(s, t, cmds), chan);
    StreamHead(s, t, ops, vp, n, sid, chan);
    QueryStream(s, t, refs, ops[0].isLast, vp, n, sid, chan);
    RowsOfAppend(head, Stream(s, t, ops[1..], vp, n, sid, chan));
    AnswersBecomeRows(s, refs, if ops[0].isLast then Some(n) else None, Answered(t, OwnValues(refs, vp, n, sid)), chan);
    OwnValuesAreOwn(t, whole, refs, vp, n, sid);
  }

  /** An inserted hash goes to its own shard and sends nothing. */
  lemma InsertServes(s: Sinks, t: IndexShards.Table, whole: IndexShards.Table, ops: seq<Op>, vp: int -> nat, n: nat,
                     sid: nat, chan: nat)
    requires ops != [] && ops[0].InsertHash? && sid < n
    requires IndexShards.Within(vp, n) && Serves(t, whole, vp, sid)
    ensures var home := if n == 1 then 0 else vp(ops[0].hash);
            var t' := if sid == home then IndexShards.InsertRow(t, ops[0].key, ops[0].hash) else t;
            && Serves(t', IndexShards.InsertRow(whole, ops[0].key, ops[0].hash), vp, sid)
            && RowsOf(Stream(s, t, ops, vp, n, sid, chan)) == RowsOf(Stream(s, t', ops[1..], vp, n, sid, chan))
  {
    StreamHead(s, t, ops, vp, n, sid, chan);
    assert vp(ops[0].hash) < n;
    var cmds := OpCommands(ops[0], vp, n, sid);
    var t' := if cmds == [] then t else TableAfter(t, cmds[0]);
    Beside([], Stream(s, t', ops[1..], vp, n, sid, chan));
  }

  function AfterInsert(tables: seq<IndexShards.Table>, k: int, v: int, home: nat): (after: seq<IndexShards.Table>)
    requires home < |tables|
    ensures |after| == |tables|
  {
    tables[home := IndexShards.InsertRow(tables[home], k, v)]
  }

  lemma InsertStep(s: Sinks, tables: seq<IndexShards.Table>, whole: IndexShards.Table, ops: seq<Op>, vp: int -> nat,
                   home: nat, chan: nat)
    requires AllServe(tables, whole, vp) && ops != [] && ops[0].InsertHash?
    requires home < |tables| && home == if |tables| == 1 then 0 else vp(ops[0].hash)
    ensures var after := AfterInsert(tables, ops[0].key, ops[0].hash, home);
            && AllServe(after, IndexShards.InsertRow(whole, ops[0].key, ops[0].hash), vp)
            && StreamBags(s, tables, ops, vp, chan) == StreamBags(s, after, ops[1..], vp, chan)
  {
    var after, n := AfterInsert(tables, ops[0].key, ops[0].hash, home), |tables|;
    forall sid | 0 <= sid < n
      ensures Serves(after[sid], IndexShards.InsertRow(whole, ops[0].key, ops[0].hash), vp, sid)
      ensures RowsOf(Stream(s, tables[sid], ops, vp, n, sid, chan))
           == RowsOf(Stream(s, after[sid], ops[1..], vp, n, sid, chan))
    {
      InsertServes(s, tables[sid], whole, ops, vp, n, sid, chan);
    }
  }

  lemma {:induction false} QueryStep(s: Sinks, tables: seq<IndexShards.Table>, whole: IndexShards.Table, ops: seq<Op>,
                                     vp: int -> nat, chan: nat)
    requires AllServe(tables, whole, vp) && chan < s.Channels() && ops != [] && ops[0].QueryRefs?
    ensures BagSum(StreamBags(s, tables, ops, vp, chan))
         == multiset(RowsFor(s, ResolveAll(whole, ops[0].refs), chan))
            + BagSum(StreamBags(s, tables, ops[1..], vp, chan))
  {
    var n := |tables|;
    var query, rest := QueryBags(s, whole, ops[0].refs, vp, n, chan), StreamBags(s, tables, ops[1..], vp, chan);
    forall sid | 0 <= sid < n
      ensures RowsOf(Stream(s, tables[sid], ops, vp, n, sid, chan)) == query[sid] + rest[sid]
    {
      QueryBagsHead(s, tables[sid], whole, ops, vp, n, sid, chan);
    }
    assert StreamBags(s, tables, ops, vp, chan) == seq(|query|, i requires 0 <= i < |query| => query[i] + rest[i]);
    BagSumZip(query, rest);
    ShardsResolveOnce(s, whole, ops[0].refs, vp, n, chan);
  }

  /** Whatever the shard count and the partitioners, each destination is sent exactly the rows that a
      sequential run over one unsharded index writes and that belong to it. */
  lemma {:induction false} ShardedRowsAreSequential(s: Sinks, tables: seq<IndexShards.Table>, whole: IndexShards.Table,
                                                    ops: seq<Op>, vp: int -> nat, chan: nat)
    requires AllServe(tables, whole, vp) && chan < s.Channels()
    ensures BagSum(StreamBags(s, tables, ops, vp, chan)) == multiset(RowsFor(s, Resolutions(whole, ops), chan))
    decreases |ops|
  {
    if ops == [] {
      BagSumEmpty(StreamBags(s, tables, ops, vp, chan));
    } else if ops[0].InsertHash? {
      var hash := ops[0].hash;
      var sid := vp(hash);
      assert sid < |tables|;
      var home := if |tables| == 1 then 0 else sid;
      InsertStep(s, tables, whole, ops, vp, home, chan);
      ShardedRowsAreSequential(s, AfterInsert(tables, ops[0].key, hash, home),
                               IndexShards.InsertRow(whole, ops[0].key, hash), ops[1..], vp, chan);
    } else {
      QueryStep(s, tables, whole, ops, vp, chan);
      ShardedRowsAreSequential(s, tables, whole, ops[1..], vp, chan);
      RowsForAppend(s, ResolveAll(whole, ops[0].refs), Resolutions(whole, ops[1..]), chan);
    }
  }

  /** The rows of the two input tables after a sequential run. */
  function IdTable(out: seq<Resolved>): (rows: Rows)
    ensures |rows| == |out|
  {
    seq(|out|, k requires 0 <= k < |out| => (IdOf(out[k].entry), Nothing))
  }

  function PointerTable(out: seq<Resolved>): (rows: Rows)
    ensures |rows| == |out|
  {
    seq(|out|, k requires 0 <= k < |out| => (IdOf(out[k].entry), Utxo(UtxoOf(out[k].entry, out[k].found))))
  }

  /** The rows of `n` destinations from `first` on. */
  function DestinationRows(s: Sinks, out: seq<Resolved>, first: nat, n: nat): (own: seq<Rows>)
    ensures |own| == n && forall sid :: 0 <= sid < n ==> own[sid] == RowsFor(s, out, first + sid)
  {
    seq(n, sid requires 0 <= sid < n => RowsFor(s, out, first + sid))
  }

  ghost function BagsOf(own: seq<Rows>): (bags: seq<multiset<(TxPointer, Payload)>>)
    ensures |bags| == |own| && forall sid :: 0 <= sid < |own| ==> bags[sid] == multiset(own[sid])
  {
    seq(|own|, sid requires 0 <= sid < |own| => multiset(own[sid]))
  }

  lemma {:induction false} BagsAreBuckets(bags: seq<multiset<(TxPointer, Payload)>>, rows: Rows,
                                          part: Partitioning<TxPointer, Payload>)
    requires forall sid :: 0 <= sid < |bags| ==> bags[sid] == multiset(Routed(rows, part, sid))
    ensures BagSum(bags) == BucketSum(rows, part, |bags|)
  {
    if bags != [] {
      BagSumLast(bags);
      BagsAreBuckets(bags[..|bags| - 1], rows, part);
    }
  }

  lemma AllShardsTogether(own: seq<Rows>, rows: Rows, part: Partitioning<TxPointer, Payload>)
    requires own != [] && Router.Within(part, |own|)
    requires forall sid :: 0 <= sid < |own| ==> own[sid] == OwnRows(rows, part, |own|, sid)
    ensures BagSum(BagsOf(own)) == multiset(rows)
  {
    if |own| == 1 {
      assert BagsOf(own)[1..] == [];
    } else {
      BagsAreBuckets(BagsOf(own), rows, part);
      BucketsPartition(rows, part, |own|);
    }
  }

  lemma TableTogether(s: Sinks, out: seq<Resolved>, first: nat, own: seq<Rows>, rows: Rows,
                      part: Partitioning<TxPointer, Payload>)
    requires own != [] && Router.Within(part, |own|) && |rows| == |out|
    requires forall sid :: 0 <= sid < |own| ==> own[sid] == RowsFor(s, out, first + sid)
    requires forall sid: nat, k :: sid < |own| && 0 <= k < |out| ==>
               RowFor(s, out[k], first + sid) == IfOwn(rows[k], part, |own|, sid)
    ensures BagSum(BagsOf(own)) == multiset(rows)
  {
    forall sid | 0 <= sid < |own| ensures own[sid] == OwnRows(rows, part, |own|, sid) {
      OwnRowsAre(s, out, first + sid, rows, part, |own|, sid);
    }
    AllShardsTogether(own, rows, part);
  }

  lemma IdRowOwn(s: Sinks, out: seq<Resolved>, sid: nat, k: nat)
    requires sid < s.idShards && k < |out|
    ensures RowFor(s, out[k], 0 + sid) == IfOwn(IdTable(out)[k], s.idPart, s.idShards, sid)
  {
  }

  lemma PointerRowOwn(s: Sinks, out: seq<Resolved>, sid: nat, k: nat)
    requires sid < s.pointerShards && k < |out|
    ensures RowFor(s, out[k], s.idShards + sid) == IfOwn(PointerTable(out)[k], s.pointerPart, s.pointerShards, sid)
  {
  }

  /** Every row of a sequential run belongs to exactly one destination: the destinations of a table together get the
      table. */
  lemma IdsPartition(s: Sinks, out: seq<Resolved>)
    requires s.Valid()
    ensures BagSum(BagsOf(DestinationRows(s, out, 0, s.idShards))) == multiset(IdTable(out))
  {
    var own, rows := DestinationRows(s, out, 0, s.idShards), IdTable(out);
    forall sid: nat, k | sid < |own| && 0 <= k < |out|
      ensures RowFor(s, out[k], 0 + sid) == IfOwn(rows[k], s.idPart, |own|, sid)
    {
      IdRowOwn(s, out, sid, k);
    }
    TableTogether(s, out, 0, own, rows, s.idPart);
  }

  lemma PointersPartition(s: Sinks, out: seq<Resolved>)
    requires s.Valid()
    ensures BagSum(BagsOf(DestinationRows(s, out, s.idShards, s.pointerShards))) == multiset(PointerTable(out))
  {
    var own, rows := DestinationRows(s, out, s.idShards, s.pointerShards), PointerTable(out);
    forall sid: nat, k | sid < |own| && 0 <= k < |out|
      ensures RowFor(s, out[k], s.idShards + sid) == IfOwn(rows[k], s.pointerPart, |own|, sid)
    {
      PointerRowOwn(s, out, sid, k);
    }
    TableTogether(s, out, s.idShards, own, rows, s.pointerPart);
  }

  // ---- every interleaving of a store ------------------------------------------------------------------------

  lemma InitialPending(s: Sinks, whole: IndexShards.Table, ops: seq<Op>, vp: int -> nat, n: nat, before: bool,
                       sid: nat, chan: nat)
    requires sid < n && chan < s.Channels()
    ensures Pending(s, Initial(s, whole, ops, vp, n, before), sid, chan)
         == Stream(s, IndexShards.Part(whole, vp, sid), ops, vp, n, sid, chan)
  {
    var y := Initial(s, whole, ops, vp, n, before);
    var table := IndexShards.Part(whole, vp, sid);
    assert y.sources[sid] == Source(table, [], []) && y.dests[chan] == Dest([], IDLE);
    QueuedProgram(ops, vp, n, s.Channels(), DeferredFlush(before, ops), sid);
    var later := Trace(s, table, Commands(ops, vp, n, sid));
    assert Rest(s, y, sid) == later by {
      Beside([], Queued(y.main, sid));
      Beside([], later);
    }
    Beside([], To(later, chan));
  }

  /** A destination at the start: nothing done, and one flush request on the way. */
  lemma InitialView(s: Sinks, whole: IndexShards.Table, ops: seq<Op>, vp: int -> nat, n: nat, before: bool, chan: nat)
    requires chan < s.Channels()
    ensures var v := ViewOf(s, Initial(s, whole, ops, vp, n, before), chan);
            && v.fsm == IDLE && v.requests == [DeferredFlush(before, ops)] && |v.pending| == n
            && forall sid :: 0 <= sid < n ==>
                 v.pending[sid] == Stream(s, IndexShards.Part(whole, vp, sid), ops, vp, n, sid, chan)
  {
    forall sid | 0 <= sid < n
      ensures Pending(s, Initial(s, whole, ops, vp, n, before), sid, chan)
           == Stream(s, IndexShards.Part(whole, vp, sid), ops, vp, n, sid, chan)
    {
      InitialPending(s, whole, ops, vp, n, before, sid, chan);
    }
    ProgramShape(ops, vp, n, s.Channels(), DeferredFlush(before, ops), chan);
    Beside([], [DeferredFlush(before, ops)]);
  }

  lemma AllExpected(pending: seq<seq<Msg>>)
    requires forall sid :: 0 <= sid < |pending| ==> pending[sid] != []
    ensures Count(Expecting(pending)) == |pending|
  {
    CountExtremes(Expecting(pending));
  }

  /** What a sequential run over one unsharded index leaves for one destination. */
  ghost function Expected(s: Sinks, whole: IndexShards.Table, ops: seq<Op>, chan: nat): multiset<(TxPointer, Payload)> {
    multiset(RowsFor(s, Resolutions(whole, ops), chan))
  }

  lemma InitialExpects(s: Sinks, whole: IndexShards.Table, ops: seq<Op>, vp: int -> nat, n: nat, before: bool,
                       chan: nat)
    requires n > 0 && IndexShards.Within(vp, n) && chan < s.Channels() && SignalLast(ops)
    ensures Expects(ViewOf(s, Initial(s, whole, ops, vp, n, before), chan), Expected(s, whole, ops, chan))
  {
    var tables := IndexShards.Split(whole, vp, n);
    var v := ViewOf(s, Initial(s, whole, ops, vp, n, before), chan);
    InitialView(s, whole, ops, vp, n, before, chan);
    forall sid | 0 <= sid < n ensures v.pending[sid] != [] && WellEnded(v.pending[sid], n) {
      StreamEnds(s, tables[sid], ops, vp, n, sid, chan);
    }
    AllExpected(v.pending);
    assert ToCome(v.pending) == StreamBags(s, tables, ops, vp, chan);
    ShardedRowsAreSequential(s, tables, whole, ops, vp, chan);
  }

  /** Without the signal a destination is starved, unless its flush is not deferred: then there is nothing to wait
      for. */
  lemma InitialUnsignalled(s: Sinks, whole: IndexShards.Table, ops: seq<Op>, vp: int -> nat, n: nat, before: bool,
                           chan: nat)
    requires n > 0 && chan < s.Channels() && NoSignal(ops)
    ensures var v := ViewOf(s, Initial(s, whole, ops, vp, n, before), chan);
            if DeferredFlush(before, ops) then Starved(v) else Direct(v)
  {
    var v := ViewOf(s, Initial(s, whole, ops, vp, n, before), chan);
    InitialView(s, whole, ops, vp, n, before, chan);
    forall sid | 0 <= sid < n ensures InsertsOnly(v.pending[sid]) && (!HasQuery(ops) ==> v.pending[sid] == []) {
      UnsignalledStream(s, IndexShards.Part(whole, vp, sid), ops, vp, n, sid, chan);
    }
  }

  lemma {:induction false} BlocksSignal(blocks: seq<Block>)
    ensures var ops := BlockOps(blocks, true, |blocks|);
            if blocks != [] then SignalLast(ops) && HasQuery(ops) else ops == []
  {
    BlockSignals(blocks, true, |blocks|);
    if blocks != [] { SignalIsQuery(BlockOps(blocks, true, |blocks|)); }
  }

  lemma SignalIsQuery(ops: seq<Op>)
    requires SignalLast(ops)
    ensures HasQuery(ops)
  {
    assert ops[|ops| - 1].QueryRefs?;
  }

  /** Storing nothing: nothing is on the way, and nothing is written. */
  lemma {:induction false} NothingIsSafe(s: Sinks, whole: IndexShards.Table, vp: int -> nat, n: nat, before: bool,
                                         moves: seq<Move>, chan: nat)
    requires n > 0 && chan < s.Channels() && Possible(s, Initial(s, whole, [], vp, n, before), moves)
    ensures var z := Final(s, Initial(s, whole, [], vp, n, before), moves);
            var f := z.dests[chan].fsm;
            && !f.failed && f.sum == 0 && (before ==> f.flushed.None?)
            && (f.flushed.Some? ==>
                  f.flushed.value == [] && forall sid :: 0 <= sid < n ==> Pending(s, z, sid, chan) == [])
            && (Quiet(z) && !before ==> f.flushed.Some?)
  {
    var y := Initial(s, whole, [], vp, n, before);
    InitialUnsignalled(s, whole, [], vp, n, before, chan);
    if before {
      StarvedForEver(s, y, moves, chan);
    } else {
      DirectForEver(s, y, moves, chan);
      if Quiet(Final(s, y, moves)) { QuietView(s, Final(s, y, moves), chan); }
    }
  }

  /** The flush barrier of a store, under every interleaving of the threads: at every moment a destination has at most
      one signal from each index shard, it flushes exactly when it has been asked to and has all of them, and what it
      then writes is what a sequential run over one unsharded index writes there; nothing is left for it. Storing no
      block sends no signal; a destination may then flush without any, and writes nothing. */
  lemma {:induction false} StoreIsSafe(s: Sinks, whole: IndexShards.Table, blocks: seq<Block>, vp: int -> nat, n: nat,
                                       before: bool, moves: seq<Move>, chan: nat)
    requires n > 0 && IndexShards.Within(vp, n) && chan < s.Channels()
    requires Possible(s, Initial(s, whole, BlockOps(blocks, true, |blocks|), vp, n, before), moves)
    ensures var ops := BlockOps(blocks, true, |blocks|);
            var z := Final(s, Initial(s, whole, ops, vp, n, before), moves);
            var f := z.dests[chan].fsm;
            && !f.failed && f.sum <= n && (f.sum > 0 ==> f.shards == Some(n))
            && (blocks != [] ==> (f.flushed.Some? <==> f.waiting && f.sum == n))
            && (f.flushed.Some? ==> multiset(f.flushed.value) == Expected(s, whole, ops, chan))
            && (f.flushed.Some? || f.sum == n ==> forall sid :: 0 <= sid < n ==> Pending(s, z, sid, chan) == [])
  {
    var ops := BlockOps(blocks, true, |blocks|);
    var y := Initial(s, whole, ops, vp, n, before);
    BlocksSignal(blocks);
    if blocks != [] {
      InitialExpects(s, whole, ops, vp, n, before, chan);
      BarrierIsSafe(s, y, moves, chan, Expected(s, whole, ops, chan));
    } else {
      NothingIsSafe(s, whole, vp, n, before, moves, chan);
    }
  }

  /** Every interleaving of a store ends after the same number of moves, and when no thread can move any more a
      destination has flushed the sequential run's rows, unless the flush was deferred before and no block is stored:
      then it never flushes. */
  lemma {:induction false} StoreCompletes(s: Sinks, whole: IndexShards.Table, blocks: seq<Block>, vp: int -> nat,
                                          n: nat, before: bool, moves: seq<Move>, chan: nat)
    requires n > 0 && IndexShards.Within(vp, n) && chan < s.Channels()
    requires Possible(s, Initial(s, whole, BlockOps(blocks, true, |blocks|), vp, n, before), moves)
    ensures var ops := BlockOps(blocks, true, |blocks|);
            var y := Initial(s, whole, ops, vp, n, before);
            var z := Final(s, y, moves);
            var f := z.dests[chan].fsm;
            && |moves| <= Budget(s, y) && (|moves| == Budget(s, y) ==> Quiet(z))
            && (Quiet(z) ==> (f.flushed.Some? <==> WriteContext.Commits(before, blocks != [])))
            && (f.flushed.Some? ==>
                  && WriteContext.Commits(before, blocks != [])
                  && multiset(f.flushed.value) == Expected(s, whole, ops, chan))
  {
    var ops := BlockOps(blocks, true, |blocks|);
    var y := Initial(s, whole, ops, vp, n, before);
    var z := Final(s, y, moves);
    RunsAreBounded(s, y, moves);
    if !Quiet(z) {
      var m :| Enabled(z, m);
      MoveSpendsOne(s, z, m);
    }
    BlocksSignal(blocks);
    StoreIsSafe(s, whole, blocks, vp, n, before, moves, chan);
    if blocks != [] {
      InitialExpects(s, whole, ops, vp, n, before, chan);
      if Quiet(z) { QuietMeansFlushed(s, y, moves, chan, Expected(s, whole, ops, chan)); }
    } else {
      NothingIsSafe(s, whole, vp, n, before, moves, chan);
    }
  }

  // ---- every transaction of a context ---------------------------------------------------------------------------

  lemma {:induction false} SignalledCommit(s: Sinks, whole: IndexShards.Table, ops: seq<Op>, vp: int -> nat, n: nat,
                                           before: bool)
    requires n > 0 && IndexShards.Within(vp, n) && SignalLast(ops)
    ensures CommitEnds(s, Initial(s, whole, ops, vp, n, before))
  {
    var y := Initial(s, whole, ops, vp, n, before);
    forall moves, chan | Possible(s, y, moves) && Quiet(Final(s, y, moves)) && 0 <= chan < s.Channels()
      ensures Final(s, y, moves).dests[chan].fsm.flushed.Some?
    {
      InitialExpects(s, whole, ops, vp, n, before, chan);
      QuietMeansFlushed(s, y, moves, chan, Expected(s, whole, ops, chan));
    }
  }

  lemma {:induction false} UnsignalledCommit(s: Sinks, whole: IndexShards.Table, ops: seq<Op>, vp: int -> nat, n: nat,
                                             before: bool)
    requires n > 0 && s.Channels() > 0 && NoSignal(ops)
    ensures CommitEnds(s, Initial(s, whole, ops, vp, n, before)) <==> !DeferredFlush(before, ops)
  {
    var y := Initial(s, whole, ops, vp, n, before);
    if DeferredFlush(before, ops) {
      var moves := QuietRun(s, y);
      InitialUnsignalled(s, whole, ops, vp, n, before, 0);
      StarvedForEver(s, y, moves, 0);
      assert Final(s, y, moves).dests[0].fsm.flushed.None?;
    } else {
      forall moves, chan | Possible(s, y, moves) && Quiet(Final(s, y, moves)) && 0 <= chan < s.Channels()
        ensures Final(s, y, moves).dests[chan].fsm.flushed.Some?
      {
        InitialUnsignalled(s, whole, ops, vp, n, before, chan);
        DirectForEver(s, y, moves, chan);
        QuietView(s, Final(s, y, moves), chan);
      }
    }
  }

  /** The commit of a transaction ends, in every interleaving, exactly if its flushes are not deferred or its operations
      carry the signal. */
  lemma CommitEndsExactly(s: Sinks, whole: IndexShards.Table, ops: seq<Op>, vp: int -> nat, n: nat, before: bool)
    requires n > 0 && IndexShards.Within(vp, n) && s.Channels() > 0 && (SignalLast(ops) || NoSignal(ops))
    ensures CommitEnds(s, Initial(s, whole, ops, vp, n, before))
       <==> WriteContext.Commits(DeferredFlush(before, ops), SignalLast(ops))
  {
    if SignalLast(ops) {
      SignalledCommit(s, whole, ops, vp, n, before);
    } else {
      UnsignalledCommit(s, whole, ops, vp, n, before);
    }
  }

  /** A transaction stores blocks or deletes rows. Every delete is answered before the next command is sent, so
      nothing of it is on its way when the commit starts. */
  datatype Transaction = Store(blocks: seq<Block>) | Delete(keys: seq<int>)

  function OpsOf(x: Transaction): seq<Op> {
    match x
    case Store(blocks) => BlockOps(blocks, true, |blocks|)
    case Delete(_) => []
  }

  predicate Stores(x: Transaction) {
    x.Store? && x.blocks != []
  }

  function InsertAll(whole: IndexShards.Table, ops: seq<Op>): IndexShards.Table
    decreases |ops|
  {
    if ops == [] then whole
    else
      InsertAll(if ops[0].InsertHash? then IndexShards.InsertRow(whole, ops[0].key, ops[0].hash) else whole, ops[1..])
  }

  function DeleteRows(whole: IndexShards.Table, keys: seq<int>): IndexShards.Table
    decreases |keys|
  {
    if keys == [] then whole else DeleteRows(IndexShards.DeleteRow(whole, keys[0]).0, keys[1..])
  }

  /** The index when a transaction commits, and after a store. */
  function AtCommit(whole: IndexShards.Table, x: Transaction): IndexShards.Table {
    if x.Delete? then DeleteRows(whole, x.keys) else whole
  }

  /** The commits of all transactions of a context end, one after the other. */
  ghost predicate ContextEnds(s: Sinks, whole: IndexShards.Table, xs: seq<Transaction>, vp: int -> nat, n: nat,
                              before: bool)
    decreases |xs|
  {
    xs == []
    || (&& CommitEnds(s, Initial(s, AtCommit(whole, xs[0]), OpsOf(xs[0]), vp, n, before))
        && ContextEnds(s, InsertAll(AtCommit(whole, xs[0]), OpsOf(xs[0])), xs[1..], vp, n, before || Stores(xs[0])))
  }

  /** Once a context has stored a block, it must store one in every transaction. */
  ghost predicate KeepsStoring(xs: seq<Transaction>, before: bool) {
    && (forall j :: 0 <= j < |xs| && before ==> Stores(xs[j]))
    && (forall i, j :: 0 <= i < j < |xs| && Stores(xs[i]) ==> Stores(xs[j]))
  }

  lemma TransactionEnds(s: Sinks, whole: IndexShards.Table, x: Transaction, vp: int -> nat, n: nat, before: bool)
    requires n > 0 && IndexShards.Within(vp, n) && s.Channels() > 0
    ensures CommitEnds(s, Initial(s, whole, OpsOf(x), vp, n, before)) <==> WriteContext.Commits(before, Stores(x))
  {
    if x.Store? { BlocksSignal(x.blocks); }
    CommitEndsExactly(s, whole, OpsOf(x), vp, n, before);
  }

  lemma KeepsStoringRest(xs: seq<Transaction>, before: bool)
    requires xs != []
    ensures KeepsStoring(xs, before)
       <==> WriteContext.Commits(before, Stores(xs[0])) && KeepsStoring(xs[1..], before || Stores(xs[0]))
  {
    var rest, now := xs[1..], before || Stores(xs[0]);
    assert forall j :: 0 <= j < |rest| ==> rest[j] == xs[j + 1];
    if KeepsStoring(xs, before) {
      forall j | 0 <= j < |rest| && now ensures Stores(rest[j]) {
        assert Stores(xs[0]) ==> Stores(xs[j + 1]);
      }
      forall i, j | 0 <= i < j < |rest| && Stores(rest[i]) ensures Stores(rest[j]) {
        assert Stores(xs[i + 1]) ==> Stores(xs[j + 1]);
      }
    }
    if WriteContext.Commits(before, Stores(xs[0])) && KeepsStoring(rest, now) {
      forall j | 0 <= j < |xs| && before ensures Stores(xs[j]) {
        if j > 0 { assert Stores(rest[j - 1]); }
      }
      forall i, j | 0 <= i < j < |xs| && Stores(xs[i]) ensures Stores(xs[j]) {
        assert Stores(rest[j - 1]) <== i == 0 || Stores(rest[i - 1]);
      }
    }
  }

  /** All commits on a context end exactly if no transaction that stores nothing follows one that stores a block. */
  lemma {:induction false} ContextEndsExactly(s: Sinks, whole: IndexShards.Table, xs: seq<Transaction>, vp: int -> nat,
                                              n: nat, before: bool)
    requires n > 0 && IndexShards.Within(vp, n) && s.Channels() > 0
    ensures ContextEnds(s, whole, xs, vp, n, before) <==> KeepsStoring(xs, before)
    decreases |xs|
  {
    if xs != [] {
      var at := AtCommit(whole, xs[0]);
      TransactionEnds(s, at, xs[0], vp, n, before);
      KeepsStoringRest(xs, before);
      ContextEndsExactly(s, InsertAll(at, OpsOf(xs[0])), xs[1..], vp, n, before || Stores(xs[0]));
    }
  }

  /** A store and then a replacement on the same context: the commit of the deletes, with which a replacement begins,
      does not end. However the threads move, no destination ever flushes. */
  lemma {:induction false} ReplacementHangs(s: Sinks, whole: IndexShards.Table, blocks: seq<Block>, keys: seq<int>,
                                            vp: int -> nat, n: nat, moves: seq<Move>, chan: nat)
    requires n > 0 && IndexShards.Within(vp, n) && chan < s.Channels() && blocks != []
    requires Possible(s, Initial(s, AtCommit(whole, Delete(keys)), OpsOf(Delete(keys)), vp, n, true), moves)
    ensures !ContextEnds(s, whole, [Store(blocks), Delete(keys)], vp, n, false)
    ensures var y := Initial(s, AtCommit(whole, Delete(keys)), OpsOf(Delete(keys)), vp, n, Stores(Store(blocks)));
            Final(s, y, moves).dests[chan].fsm.flushed.None?
  {
    var xs, at := [Store(blocks), Delete(keys)], AtCommit(whole, Delete(keys));
    ContextEndsExactly(s, whole, xs, vp, n, false);
    assert Stores(xs[0]) && !Stores(xs[1]);
    InitialUnsignalled(s, at, [], vp, n, true, chan);
    StarvedForEver(s, Initial(s, at, [], vp, n, true), moves, chan);
  }
}
