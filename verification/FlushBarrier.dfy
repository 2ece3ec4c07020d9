/**
 The flush barrier: one writing thread, the source shards of an index and the destination shards of
 the input tables, all connected by FIFO queues, under every interleaving of their moves.
 */
module FlushBarrier {
  import opened Wrappers
  import opened Basics
  import opened Bags
  import opened Router
  import opened Hook
  import IndexShards

  // ---- the destination shard ----------------------------------------------------------------------------

  /** A destination shard's transaction: collected rows, the deferred flush, and the flushed rows. */
  datatype Fsm = Fsm(rows: Rows, sum: nat, shards: Option<nat>, waiting: bool, flushed: Option<Rows>, failed: bool)

  const IDLE := Fsm([], 0, None, false, None, false)

  /** Flushes if the flush was requested and every announced shard has reported. */
  function FlushIfReady(f: Fsm): Fsm {
    if f.waiting && f.shards == Some(f.sum) then f.(flushed := Some(f.rows)) else f
  }

  function StepFsm(f: Fsm, msg: Msg): Fsm {
    if f.flushed.Some? then f.(failed := true)
    else
      match msg
      case MergeUnsortedInserts(rows) => f.(rows := f.rows + rows)
      case FlushWhenReady => if f.waiting then f.(failed := true) else FlushIfReady(f.(waiting := true))
      case Flush => f.(flushed := Some(f.rows))
      case ReadyForFlush(total) => FlushIfReady(f.(sum := f.sum + 1, shards := Some(total)))
      case _ => f.(failed := true)
  }

  // ---- the system -----------------------------------------------------------------------------------------

  /** What the writing thread still has to send. A flush is requested at once, or when the signals are there. */
  datatype Task = ToSource(sid: nat, cmd: Cmd) | RequestFlush(chan: nat, whenReady: bool)

  /** A source shard: its table, its queue, and the sends of the sink it is running. */
  datatype Source = Source(table: IndexShards.Table, queue: seq<Cmd>, sends: seq<Outgoing>)

  /** A message in a destination's queue, with the thread it came from. */
  datatype Letter = FromSource(sid: nat, msg: Msg) | FromMain(whenReady: bool)

  datatype Dest = Dest(inbox: seq<Letter>, fsm: Fsm)

  datatype Sys = Sys(main: seq<Task>, sources: seq<Source>, dests: seq<Dest>)

  /** A move of one thread. */
  datatype Move = Post | Run(sid: nat) | Emit(sid: nat) | Deliver(chan: nat)

  /** Every task and every pending send names an existing shard. */
  ghost predicate Wired(s: Sinks, y: Sys) {
    && |y.dests| == s.Channels()
    && (forall i :: 0 <= i < |y.main| ==>
          if y.main[i].ToSource? then y.main[i].sid < |y.sources| else y.main[i].chan < |y.dests|)
    && (forall i, j :: 0 <= i < |y.sources| && 0 <= j < |y.sources[i].sends| ==>
          y.sources[i].sends[j].chan < |y.dests|)
    && (forall i, j :: 0 <= i < |y.dests| && 0 <= j < |y.dests[i].inbox| && y.dests[i].inbox[j].FromSource? ==>
          y.dests[i].inbox[j].sid < |y.sources|)
  }

  ghost predicate Enabled(y: Sys, m: Move) {
    match m
    case Post => y.main != []
    case Run(sid) => sid < |y.sources| && y.sources[sid].sends == [] && y.sources[sid].queue != []
    case Emit(sid) => sid < |y.sources| && y.sources[sid].sends != []
    case Deliver(chan) => chan < |y.dests| && y.dests[chan].inbox != []
  }

  ghost function PostTask(y: Sys): Sys
    requires y.main != []
    requires if y.main[0].ToSource? then y.main[0].sid < |y.sources| else y.main[0].chan < |y.dests|
  {
    match y.main[0]
    case ToSource(sid, cmd) =>
      var src := y.sources[sid];
      y.(main := y.main[1..], sources := y.sources[sid := src.(queue := src.queue + [cmd])])
    case RequestFlush(chan, whenReady) =>
      var dst := y.dests[chan];
      y.(main := y.main[1..], dests := y.dests[chan := dst.(inbox := dst.inbox + [FromMain(whenReady)])])
  }

  ghost function RunCommand(s: Sinks, y: Sys, sid: nat): Sys
    requires sid < |y.sources| && y.sources[sid].queue != []
  {
    var src := y.sources[sid];
    var cmd := src.queue[0];
    y.(sources := y.sources[sid := Source(TableAfter(src.table, cmd), src.queue[1..], Sends(s, src.table, cmd))])
  }

  ghost function EmitSend(y: Sys, sid: nat): Sys
    requires sid < |y.sources| && y.sources[sid].sends != [] && y.sources[sid].sends[0].chan < |y.dests|
  {
    var src := y.sources[sid];
    var out := src.sends[0];
    var dst := y.dests[out.chan];
    y.(sources := y.sources[sid := src.(sends := src.sends[1..])],
       dests := y.dests[out.chan := dst.(inbox := dst.inbox + [FromSource(sid, out.msg)])])
  }

  function Request(whenReady: bool): Msg {
    if whenReady then FlushWhenReady else Flush
  }

  ghost function DeliverLetter(y: Sys, chan: nat): Sys
    requires chan < |y.dests| && y.dests[chan].inbox != []
  {
    var dst := y.dests[chan];
    var msg := if dst.inbox[0].FromMain? then Request(dst.inbox[0].whenReady) else dst.inbox[0].msg;
    y.(dests := y.dests[chan := Dest(dst.inbox[1..], StepFsm(dst.fsm, msg))])
  }

  ghost function Do(s: Sinks, y: Sys, m: Move): Sys
    requires Wired(s, y) && Enabled(y, m)
  {
    match m
    case Post => PostTask(y)
    case Run(sid) => RunCommand(s, y, sid)
    case Emit(sid) => EmitSend(y, sid)
    case Deliver(chan) => DeliverLetter(y, chan)
  }

  // ---- what is still to come ----------------------------------------------------------------------------

  /** The commands the writing thread still has for one source. */
  ghost function Queued(main: seq<Task>, sid: nat): seq<Cmd> {
    if main == [] then []
    else (if main[0].ToSource? && main[0].sid == sid then [main[0].cmd] else []) + Queued(main[1..], sid)
  }

  /** Everything one source will still send. */
  ghost function Rest(s: Sinks, y: Sys, sid: nat): seq<Outgoing>
    requires sid < |y.sources|
  {
    y.sources[sid].sends + Trace(s, y.sources[sid].table, y.sources[sid].queue + Queued(y.main, sid))
  }

  /** The letters of one source, in order. */
  ghost function Letters(inbox: seq<Letter>, sid: nat): seq<Msg> {
    if inbox == [] then []
    else (if inbox[0].FromSource? && inbox[0].sid == sid then [inbox[0].msg] else []) + Letters(inbox[1..], sid)
  }

  /** What one destination will still receive from one source, in order. */
  ghost function Pending(s: Sinks, y: Sys, sid: nat, chan: nat): seq<Msg>
    requires sid < |y.sources| && chan < |y.dests|
  {
    Letters(y.dests[chan].inbox, sid) + To(Rest(s, y, sid), chan)
  }

  lemma {:induction false} LettersAppend(inbox: seq<Letter>, l: Letter, sid: nat)
    ensures Letters(inbox + [l], sid)
         == Letters(inbox, sid) + (if l.FromSource? && l.sid == sid then [l.msg] else [])
  {
    if inbox == [] {
      assert [l][1..] == [] && inbox + [l] == [l];
    } else {
      LettersAppend(inbox[1..], l, sid);
      LettersHead(inbox, l, sid);
    }
  }

  lemma {:induction false} LettersHead(inbox: seq<Letter>, l: Letter, sid: nat)
    requires inbox != []
    ensures Letters(inbox + [l], sid)
         == (if inbox[0].FromSource? && inbox[0].sid == sid then [inbox[0].msg] else [])
            + Letters(inbox[1..] + [l], sid)
  {
    assert (inbox + [l])[0] == inbox[0] && (inbox + [l])[1..] == inbox[1..] + [l];
  }

  /** Posting a task moves a command from the thread's program to a queue and changes nothing to come. */
  lemma PostKeepsRest(s: Sinks, y: Sys, sid: nat)
    requires Wired(s, y) && y.main != [] && sid < |y.sources|
    ensures Rest(s, PostTask(y), sid) == Rest(s, y, sid)
  {
    var src, src' := y.sources[sid], PostTask(y).sources[sid];
    assert src'.queue + Queued(y.main[1..], sid) == src.queue + Queued(y.main, sid);
  }

  lemma RunKeepsRest(s: Sinks, y: Sys, run: nat, sid: nat)
    requires sid < |y.sources| && run < |y.sources| && y.sources[run].sends == [] && y.sources[run].queue != []
    ensures Rest(s, RunCommand(s, y, run), sid) == Rest(s, y, sid)
  {
    if run == sid {
      var src, later := y.sources[sid], Queued(y.main, sid);
      TraceHead(s, src.table, src.queue, later);
      Beside([], Trace(s, src.table, src.queue + later));
    }
  }

  lemma {:induction false} TraceHead(s: Sinks, t: IndexShards.Table, queue: seq<Cmd>, later: seq<Cmd>)
    requires queue != []
    ensures Trace(s, t, queue + later) == Sends(s, t, queue[0]) + Trace(s, TableAfter(t, queue[0]), queue[1..] + later)
  {
    assert (queue + later)[0] == queue[0] && (queue + later)[1..] == queue[1..] + later;
  }

  lemma EmitMovesHead(s: Sinks, y: Sys, sid: nat, chan: nat)
    requires Wired(s, y) && sid < |y.sources| && y.sources[sid].sends != [] && chan < |y.dests|
    ensures Pending(s, EmitSend(y, sid), sid, chan) == Pending(s, y, sid, chan)
  {
    var src := y.sources[sid];
    var out, inbox := src.sends[0], y.dests[chan].inbox;
    var later := Trace(s, src.table, src.queue + Queued(y.main, sid));
    assert Rest(s, y, sid) == [out] + (src.sends[1..] + later);
    ToAppend([out], src.sends[1..] + later, chan);
    ToOne(out, chan);
    LettersAppend(inbox, FromSource(sid, out.msg), sid);
    if out.chan == chan {
      Regroup(Letters(inbox, sid), [out.msg], To(src.sends[1..] + later, chan));
    } else {
      Beside([], To(src.sends[1..] + later, chan));
    }
  }

  lemma PostKeepsPending(s: Sinks, y: Sys, sid: nat, chan: nat)
    requires Wired(s, y) && y.main != [] && sid < |y.sources| && chan < |y.dests|
    ensures Pending(s, PostTask(y), sid, chan) == Pending(s, y, sid, chan)
  {
    PostKeepsRest(s, y, sid);
    if y.main[0].RequestFlush? { LettersAppend(y.dests[chan].inbox, FromMain(y.main[0].whenReady), sid); }
    Beside(Letters(y.dests[chan].inbox, sid), []);
  }

  lemma RunKeepsPending(s: Sinks, y: Sys, run: nat, sid: nat, chan: nat)
    requires Wired(s, y) && Enabled(y, Run(run)) && sid < |y.sources| && chan < |y.dests|
    ensures Pending(s, RunCommand(s, y, run), sid, chan) == Pending(s, y, sid, chan)
  {
    RunKeepsRest(s, y, run, sid);
  }

  lemma OtherEmitKeepsPending(s: Sinks, y: Sys, from: nat, sid: nat, chan: nat)
    requires Wired(s, y) && Enabled(y, Emit(from)) && from != sid && sid < |y.sources| && chan < |y.dests|
    ensures Pending(s, EmitSend(y, from), sid, chan) == Pending(s, y, sid, chan)
  {
    LettersAppend(y.dests[chan].inbox, FromSource(from, y.sources[from].sends[0].msg), sid);
    Beside(Letters(y.dests[chan].inbox, sid), []);
    assert Rest(s, EmitSend(y, from), sid) == Rest(s, y, sid);
  }

  lemma DeliverKeepsRest(s: Sinks, y: Sys, to: nat, sid: nat)
    requires Enabled(y, Deliver(to)) && sid < |y.sources|
    ensures Rest(s, DeliverLetter(y, to), sid) == Rest(s, y, sid)
  {
  }

  /** Only a delivery changes what a destination still expects, and it takes the first message. */
  lemma MovesKeepPending(s: Sinks, y: Sys, m: Move, sid: nat, chan: nat)
    requires Wired(s, y) && Enabled(y, m) && sid < |y.sources| && chan < |y.dests|
    ensures |Do(s, y, m).sources| == |y.sources| && |Do(s, y, m).dests| == |y.dests|
    ensures var before, after := Pending(s, y, sid, chan), Pending(s, Do(s, y, m), sid, chan);
            if m == Deliver(chan) && y.dests[chan].inbox[0].FromSource? && y.dests[chan].inbox[0].sid == sid
            then before == [y.dests[chan].inbox[0].msg] + after
            else before == after
  {
    match m
    case Post =>
      PostKeepsPending(s, y, sid, chan);
    case Run(run) =>
      RunKeepsPending(s, y, run, sid, chan);
    case Emit(from) =>
      if from == sid { EmitMovesHead(s, y, sid, chan); } else { OtherEmitKeepsPending(s, y, from, sid, chan); }
    case Deliver(to) =>
      DeliverKeepsRest(s, y, to, sid);
      if to == chan { DeliverTakesHead(y.dests[chan].inbox, sid, To(Rest(s, y, sid), chan)); }
  }

  lemma {:induction false} DeliverTakesHead(inbox: seq<Letter>, sid: nat, later: seq<Msg>)
    requires inbox != []
    ensures Letters(inbox, sid) + later
         == (if inbox[0].FromSource? && inbox[0].sid == sid then [inbox[0].msg] else [])
            + (Letters(inbox[1..], sid) + later)
  {
  }

  // ---- one destination's view of the system -----------------------------------------------------------------

  /** A destination's state, what each source will still deliver to it, and the flush requests on the way. */
  datatype View = View(fsm: Fsm, pending: seq<seq<Msg>>, requests: seq<bool>)

  ghost function MainLetters(inbox: seq<Letter>): seq<bool> {
    if inbox == [] then []
    else (if inbox[0].FromMain? then [inbox[0].whenReady] else []) + MainLetters(inbox[1..])
  }

  ghost function FlushTasks(main: seq<Task>, chan: nat): seq<bool> {
    if main == [] then []
    else
      (if main[0].RequestFlush? && main[0].chan == chan then [main[0].whenReady] else []) + FlushTasks(main[1..], chan)
  }

  ghost function ViewOf(s: Sinks, y: Sys, chan: nat): (v: View)
    requires chan < |y.dests|
    ensures |v.pending| == |y.sources|
    ensures forall sid :: 0 <= sid < |v.pending| ==> v.pending[sid] == Pending(s, y, sid, chan)
  {
    View(y.dests[chan].fsm,
         seq(|y.sources|, sid requires 0 <= sid < |y.sources| => Pending(s, y, sid, chan)),
         MainLetters(y.dests[chan].inbox) + FlushTasks(y.main, chan))
  }

  lemma {:induction false} MainLettersAppend(inbox: seq<Letter>, l: Letter)
    ensures MainLetters(inbox + [l]) == MainLetters(inbox) + (if l.FromMain? then [l.whenReady] else [])
  {
    if inbox == [] {
      assert [l][1..] == [] && inbox + [l] == [l];
    } else {
      assert (inbox + [l])[0] == inbox[0] && (inbox + [l])[1..] == inbox[1..] + [l];
      MainLettersAppend(inbox[1..], l);
    }
  }

  lemma {:induction false} PostMovesRequest(s: Sinks, y: Sys, chan: nat)
    requires Wired(s, y) && y.main != [] && chan < |y.dests|
    ensures MainLetters(PostTask(y).dests[chan].inbox) + FlushTasks(PostTask(y).main, chan)
         == MainLetters(y.dests[chan].inbox) + FlushTasks(y.main, chan)
  {
    var inbox, later := y.dests[chan].inbox, FlushTasks(y.main[1..], chan);
    if y.main[0].RequestFlush? && y.main[0].chan == chan {
      MainLettersAppend(inbox, FromMain(y.main[0].whenReady));
      Regroup(MainLetters(inbox), [y.main[0].whenReady], later);
    } else {
      Beside([], later);
    }
  }

  /** Every other thread's moves are invisible to a destination. */
  lemma QuietMove(s: Sinks, y: Sys, m: Move, chan: nat)
    requires Wired(s, y) && Enabled(y, m) && chan < |y.dests| && m != Deliver(chan)
    ensures |Do(s, y, m).dests| == |y.dests| && ViewOf(s, Do(s, y, m), chan) == ViewOf(s, y, chan)
  {
    var z := Do(s, y, m);
    forall sid | 0 <= sid < |y.sources| ensures Pending(s, z, sid, chan) == Pending(s, y, sid, chan) {
      MovesKeepPending(s, y, m, sid, chan);
    }
    match m
    case Post => PostMovesRequest(s, y, chan);
    case Run(_) =>
    case Emit(sid) => MainLettersAppend(y.dests[chan].inbox, FromSource(sid, y.sources[sid].sends[0].msg));
    case Deliver(_) =>
  }

  /** The next request is delivered. */
  function Requested(v: View): View
    requires v.requests != []
  {
    View(StepFsm(v.fsm, Request(v.requests[0])), v.pending, v.requests[1..])
  }

  /** The next message of a source is delivered. */
  function Received(v: View, sid: nat): View
    requires sid < |v.pending| && v.pending[sid] != []
  {
    View(StepFsm(v.fsm, v.pending[sid][0]), v.pending[sid := v.pending[sid][1..]], v.requests)
  }

  lemma DeliverRequest(s: Sinks, y: Sys, chan: nat)
    requires Wired(s, y) && Enabled(y, Deliver(chan)) && y.dests[chan].inbox[0].FromMain?
    ensures var v := ViewOf(s, y, chan);
            v.requests != [] && ViewOf(s, DeliverLetter(y, chan), chan) == Requested(v)
  {
    var z := Do(s, y, Deliver(chan));
    forall sid | 0 <= sid < |y.sources| ensures Pending(s, z, sid, chan) == Pending(s, y, sid, chan) {
      MovesKeepPending(s, y, Deliver(chan), sid, chan);
    }
    var inbox := y.dests[chan].inbox;
    Regroup([inbox[0].whenReady], MainLetters(inbox[1..]), FlushTasks(y.main, chan));
  }

  lemma DeliverMessage(s: Sinks, y: Sys, chan: nat)
    requires Wired(s, y) && Enabled(y, Deliver(chan)) && y.dests[chan].inbox[0].FromSource?
    requires y.dests[chan].inbox[0].sid < |y.sources|
    ensures var v, sid := ViewOf(s, y, chan), y.dests[chan].inbox[0].sid;
            v.pending[sid] != [] && ViewOf(s, DeliverLetter(y, chan), chan) == Received(v, sid)
  {
    var v, z, first := ViewOf(s, y, chan), Do(s, y, Deliver(chan)), y.dests[chan].inbox[0];
    forall sid | 0 <= sid < |y.sources|
      ensures if sid == first.sid then v.pending[sid] == [first.msg] + Pending(s, z, sid, chan)
              else Pending(s, z, sid, chan) == v.pending[sid]
    {
      MovesKeepPending(s, y, Deliver(chan), sid, chan);
    }
    assert v.pending[first.sid][1..] == Pending(s, z, first.sid, chan);
    assert ViewOf(s, z, chan).pending == v.pending[first.sid := v.pending[first.sid][1..]];
    Beside([], MainLetters(y.dests[chan].inbox[1..]));
  }

  /** What a move may do to a destination: nothing, or deliver a request, or deliver a message. */
  ghost predicate ViewStep(v: View, w: View) {
    || w == v
    || (v.requests != [] && w == Requested(v))
    || exists sid :: 0 <= sid < |v.pending| && v.pending[sid] != [] && w == Received(v, sid)
  }

  lemma MoveIsViewStep(s: Sinks, y: Sys, m: Move, chan: nat)
    requires Wired(s, y) && Enabled(y, m) && chan < |y.dests|
    ensures |Do(s, y, m).dests| == |y.dests| && ViewStep(ViewOf(s, y, chan), ViewOf(s, Do(s, y, m), chan))
  {
    if m != Deliver(chan) {
      QuietMove(s, y, m, chan);
    } else if y.dests[chan].inbox[0].FromMain? {
      DeliverRequest(s, y, chan);
    } else {
      DeliverMessage(s, y, chan);
    }
  }

  // ---- the invariant of one destination -------------------------------------------------------------------

  /** Either nothing, or inserts followed by the one signal. */
  ghost predicate WellEnded(msgs: seq<Msg>, shards: nat) {
    msgs == []
    || (&& msgs[|msgs| - 1] == ReadyForFlush(shards)
        && forall i :: 0 <= i < |msgs| - 1 ==> msgs[i].MergeUnsortedInserts?)
  }

  ghost function RowsOf(msgs: seq<Msg>): multiset<(TxPointer, Payload)> {
    if msgs == [] then multiset{}
    else (if msgs[0].MergeUnsortedInserts? then multiset(msgs[0].pairs) else multiset{}) + RowsOf(msgs[1..])
  }

  /** Which sources still have something for the destination. */
  ghost function Expecting(pending: seq<seq<Msg>>): (flags: seq<bool>)
    ensures |flags| == |pending| && forall sid :: 0 <= sid < |flags| ==> flags[sid] == (pending[sid] != [])
  {
    seq(|pending|, sid requires 0 <= sid < |pending| => pending[sid] != [])
  }

  /** The rows each source still has for the destination. */
  ghost function ToCome(pending: seq<seq<Msg>>): (bags: seq<multiset<(TxPointer, Payload)>>)
    ensures |bags| == |pending| && forall sid :: 0 <= sid < |bags| ==> bags[sid] == RowsOf(pending[sid])
  {
    seq(|pending|, sid requires 0 <= sid < |pending| => RowsOf(pending[sid]))
  }

  /** The destination's own bookkeeping. */
  ghost predicate Consistent(f: Fsm, shards: nat) {
    && f.sum <= shards
    && f.shards == (if f.sum == 0 then None else Some(shards))
    && (f.flushed.Some? <==> f.waiting && f.sum == shards)
    && (f.flushed.Some? ==> f.flushed.value == f.rows)
    && !f.failed
  }

  /** What holds of one destination in every reachable state; `total` is all it is ever sent. */
  ghost predicate Expects(v: View, total: multiset<(TxPointer, Payload)>) {
    var shards := |v.pending|;
    && shards > 0
    && Consistent(v.fsm, shards)
    && (forall sid :: 0 <= sid < shards ==> WellEnded(v.pending[sid], shards))
    && v.fsm.sum + Count(Expecting(v.pending)) == shards
    && multiset(v.fsm.rows) + BagSum(ToCome(v.pending)) == total
    && v.requests == (if v.fsm.waiting then [] else [true])
  }

  lemma TakeRequest(v: View, total: multiset<(TxPointer, Payload)>)
    requires Expects(v, total) && v.requests != []
    ensures Expects(Requested(v), total)
  {
  }

  lemma TakeMessage(v: View, total: multiset<(TxPointer, Payload)>, sid: nat)
    requires Expects(v, total) && sid < |v.pending| && v.pending[sid] != []
    ensures Expects(Received(v, sid), total)
  {
    assert Expecting(v.pending)[sid];
    CountExtremes(Expecting(v.pending));
    TailWellEnded(v.pending[sid], |v.pending|);
    SumAfterTake(v.pending, sid);
    CountAfterTake(v.pending, sid);
    if |v.pending[sid]| == 1 {
      TakeSignal(v, total, sid);
    } else {
      TakeInsert(v, total, sid);
    }
  }

  lemma TakeSignal(v: View, total: multiset<(TxPointer, Payload)>, sid: nat)
    requires Expects(v, total) && sid < |v.pending| && |v.pending[sid]| == 1
    requires v.fsm.sum < |v.pending| && v.pending[sid][0] == ReadyForFlush(|v.pending|)
    requires BagSum(ToCome(v.pending)) == BagSum(ToCome(v.pending[sid := v.pending[sid][1..]]))
    requires Count(Expecting(v.pending[sid := v.pending[sid][1..]])) == Count(Expecting(v.pending)) - 1
    ensures Expects(Received(v, sid), total)
  {
  }

  lemma TakeInsert(v: View, total: multiset<(TxPointer, Payload)>, sid: nat)
    requires Expects(v, total) && sid < |v.pending| && |v.pending[sid]| > 1
    requires v.fsm.sum < |v.pending| && v.pending[sid][0].MergeUnsortedInserts?
    requires WellEnded(v.pending[sid][1..], |v.pending|)
    requires BagSum(ToCome(v.pending))
               == BagSum(ToCome(v.pending[sid := v.pending[sid][1..]])) + multiset(v.pending[sid][0].pairs)
    requires Count(Expecting(v.pending[sid := v.pending[sid][1..]])) == Count(Expecting(v.pending))
    ensures Expects(Received(v, sid), total)
  {
  }

  lemma CountAfterTake(pending: seq<seq<Msg>>, sid: nat)
    requires sid < |pending| && pending[sid] != []
    ensures Count(Expecting(pending[sid := pending[sid][1..]]))
         == Count(Expecting(pending)) - (if |pending[sid]| == 1 then 1 else 0)
  {
    var flags := Expecting(pending);
    if |pending[sid]| == 1 {
      CountClear(flags, sid);
      assert Expecting(pending[sid := pending[sid][1..]]) == flags[sid := false];
    } else {
      assert Expecting(pending[sid := pending[sid][1..]]) == flags;
    }
  }

  lemma TailWellEnded(msgs: seq<Msg>, shards: nat)
    requires msgs != [] && WellEnded(msgs, shards)
    ensures WellEnded(msgs[1..], shards)
    ensures if |msgs| == 1 then msgs[0] == ReadyForFlush(shards) else msgs[0].MergeUnsortedInserts?
  {
  }

  lemma SumAfterTake(pending: seq<seq<Msg>>, sid: nat)
    requires sid < |pending| && pending[sid] != []
    ensures BagSum(ToCome(pending)) ==
              BagSum(ToCome(pending[sid := pending[sid][1..]]))
              + (if pending[sid][0].MergeUnsortedInserts? then multiset(pending[sid][0].pairs) else multiset{})
  {
    var msg := pending[sid][0];
    var rows := if msg.MergeUnsortedInserts? then multiset(msg.pairs) else multiset{};
    var after := ToCome(pending[sid := pending[sid][1..]]);
    assert RowsOf(pending[sid]) == after[sid] + rows;
    assert ToCome(pending) == after[sid := after[sid] + rows];
    BagSumAdd(after, sid, rows);
  }

  // ---- every interleaving -------------------------------------------------------------------------------

  lemma {:induction false} BucketSendsWired(rows: Rows, part: Partitioning<TxPointer, Payload>, n: nat, m: nat,
                                            offset: nat)
    ensures forall i :: 0 <= i < |BucketSends(rows, part, n, m, offset)| ==>
              BucketSends(rows, part, n, m, offset)[i].chan < offset + m
  {
    if m > 0 { BucketSendsWired(rows, part, n, m - 1, offset); }
  }

  lemma {:induction false} ReadySendsWired(shards: nat, m: nat, offset: nat)
    ensures forall i :: 0 <= i < |ReadySends(shards, m, offset)| ==> ReadySends(shards, m, offset)[i].chan < offset + m
  {
    if m > 0 { ReadySendsWired(shards, m - 1, offset); }
  }

  lemma RouterSendsWired(rows: Rows, last: Option<nat>, part: Partitioning<TxPointer, Payload>, n: nat, offset: nat)
    ensures forall i :: 0 <= i < |RouterSends(rows, last, part, n, offset)| ==>
              RouterSends(rows, last, part, n, offset)[i].chan < offset + n
  {
    BucketSendsWired(rows, part, n, n, offset);
    if last.Some? { ReadySendsWired(last.value, n, offset); }
  }

  lemma SendsWired(s: Sinks, t: IndexShards.Table, cmd: Cmd)
    ensures forall i :: 0 <= i < |Sends(s, t, cmd)| ==> Sends(s, t, cmd)[i].chan < s.Channels()
  {
    if cmd.QueryAndWrite? && Answerable(cmd) {
      var out := Answered(t, cmd.values);
      RouterSendsWired(IdRows(cmd.sink, out), cmd.lastShards, s.idPart, s.idShards, 0);
      RouterSendsWired(PointerRows(cmd.sink, out), cmd.lastShards, s.pointerPart, s.pointerShards, s.idShards);
    }
  }

  lemma WiredKept(s: Sinks, y: Sys, m: Move)
    requires Wired(s, y) && Enabled(y, m)
    ensures Wired(s, Do(s, y, m))
    ensures |Do(s, y, m).sources| == |y.sources| && |Do(s, y, m).dests| == |y.dests|
  {
    match m
    case Post =>
    case Run(sid) => SendsWired(s, y.sources[sid].table, y.sources[sid].queue[0]);
    case Emit(sid) =>
    case Deliver(chan) =>
  }

  /** A sequence of moves that the threads can make from `y`. */
  ghost predicate Possible(s: Sinks, y: Sys, moves: seq<Move>)
    requires Wired(s, y)
    decreases |moves|
  {
    moves == []
    || (Enabled(y, moves[0]) && (WiredKept(s, y, moves[0]); Possible(s, Do(s, y, moves[0]), moves[1..])))
  }

  ghost function Final(s: Sinks, y: Sys, moves: seq<Move>): (z: Sys)
    requires Wired(s, y) && Possible(s, y, moves)
    ensures Wired(s, z) && |z.sources| == |y.sources| && |z.dests| == |y.dests|
    decreases |moves|
  {
    if moves == [] then y
    else
      WiredKept(s, y, moves[0]);
      Final(s, Do(s, y, moves[0]), moves[1..])
  }

  lemma StepKeepsExpects(v: View, w: View, total: multiset<(TxPointer, Payload)>)
    requires Expects(v, total) && ViewStep(v, w)
    ensures Expects(w, total)
  {
    if w == v {
    } else if v.requests != [] && w == Requested(v) {
      TakeRequest(v, total);
    } else {
      var sid :| 0 <= sid < |v.pending| && v.pending[sid] != [] && w == Received(v, sid);
      TakeMessage(v, total, sid);
    }
  }

  /** Every interleaving keeps what a destination expects. */
  lemma {:induction false} RunKeepsExpects(s: Sinks, y: Sys, moves: seq<Move>, chan: nat,
                                           total: multiset<(TxPointer, Payload)>)
    requires Wired(s, y) && Possible(s, y, moves) && chan < |y.dests| && Expects(ViewOf(s, y, chan), total)
    ensures Expects(ViewOf(s, Final(s, y, moves), chan), total)
    decreases |moves|
  {
    if moves != [] {
      WiredKept(s, y, moves[0]);
      MoveIsViewStep(s, y, moves[0], chan);
      StepKeepsExpects(ViewOf(s, y, chan), ViewOf(s, Do(s, y, moves[0]), chan), total);
      RunKeepsExpects(s, Do(s, y, moves[0]), moves[1..], chan, total);
    }
  }

  /** A destination has not failed. It has had as many signals as sources are done with it, the last one only after
      every row it is ever sent, and it has flushed exactly when it has been asked to and has had a signal from every
      source: then it has written all its rows and nothing is left to come. */
  ghost predicate Safe(s: Sinks, z: Sys, chan: nat, total: multiset<(TxPointer, Payload)>)
    requires chan < |z.dests|
  {
    var f, shards := z.dests[chan].fsm, |z.sources|;
    && !f.failed && f.sum <= shards && (f.sum > 0 ==> f.shards == Some(shards))
    && (f.sum == shards ==> multiset(f.rows) == total)
    && (f.flushed.Some? <==> f.waiting && f.sum == shards)
    && (f.flushed.Some? ==> multiset(f.flushed.value) == total)
    && (f.sum == shards ==> forall sid :: 0 <= sid < shards ==> Pending(s, z, sid, chan) == [])
  }

  /** Safety, in every interleaving. */
  lemma {:induction false} BarrierIsSafe(s: Sinks, y: Sys, moves: seq<Move>, chan: nat,
                                         total: multiset<(TxPointer, Payload)>)
    requires Wired(s, y) && Possible(s, y, moves) && chan < |y.dests| && Expects(ViewOf(s, y, chan), total)
    ensures Safe(s, Final(s, y, moves), chan, total)
  {
    RunKeepsExpects(s, y, moves, chan, total);
    ViewIsSafe(s, Final(s, y, moves), chan, total);
  }

  lemma ViewIsSafe(s: Sinks, z: Sys, chan: nat, total: multiset<(TxPointer, Payload)>)
    requires chan < |z.dests| && Expects(ViewOf(s, z, chan), total)
    ensures Safe(s, z, chan, total)
  {
    ExpectedIsSafe(ViewOf(s, z, chan), total);
  }

  lemma ExpectedIsSafe(v: View, total: multiset<(TxPointer, Payload)>)
    requires Expects(v, total)
    ensures var f, shards := v.fsm, |v.pending|;
            && !f.failed && f.sum <= shards && (f.sum > 0 ==> f.shards == Some(shards))
            && (f.sum == shards ==> multiset(f.rows) == total)
            && (f.flushed.Some? <==> f.waiting && f.sum == shards)
            && (f.flushed.Some? ==> multiset(f.flushed.value) == total)
            && (f.sum == shards ==> forall sid :: 0 <= sid < shards ==> v.pending[sid] == [])
  {
    if v.fsm.sum == |v.pending| {
      CountExtremes(Expecting(v.pending));
      forall sid | 0 <= sid < |v.pending| ensures v.pending[sid] == [] {
        assert !Expecting(v.pending)[sid];
      }
      BagSumEmpty(ToCome(v.pending));
    }
  }

  /** Progress: if no thread can move, the destination has flushed. */
  lemma {:induction false} QuietMeansFlushed(s: Sinks, y: Sys, moves: seq<Move>, chan: nat,
                                             total: multiset<(TxPointer, Payload)>)
    requires Wired(s, y) && Possible(s, y, moves) && chan < |y.dests| && Expects(ViewOf(s, y, chan), total)
    requires Quiet(Final(s, y, moves))
    ensures var f := Final(s, y, moves).dests[chan].fsm;
            f.flushed.Some? && multiset(f.flushed.value) == total
  {
    var z := Final(s, y, moves);
    RunKeepsExpects(s, y, moves, chan, total);
    QuietView(s, z, chan);
    QuietFlushed(ViewOf(s, z, chan), total);
  }

  lemma QuietFlushed(v: View, total: multiset<(TxPointer, Payload)>)
    requires Expects(v, total) && v.requests == []
    requires forall sid :: 0 <= sid < |v.pending| ==> v.pending[sid] == []
    ensures v.fsm.flushed.Some? && multiset(v.fsm.flushed.value) == total
  {
    CountExtremes(Expecting(v.pending));
    BagSumEmpty(ToCome(v.pending));
  }

  lemma QuietView(s: Sinks, z: Sys, chan: nat)
    requires chan < |z.dests| && Quiet(z)
    ensures ViewOf(s, z, chan).requests == []
    ensures forall sid :: 0 <= sid < |z.sources| ==> ViewOf(s, z, chan).pending[sid] == []
  {
    assert !Enabled(z, Post) && !Enabled(z, Deliver(chan));
    forall sid | 0 <= sid < |z.sources| ensures Pending(s, z, sid, chan) == [] {
      assert !Enabled(z, Emit(sid)) && !Enabled(z, Run(sid));
    }
  }

  // ---- flushes without signals ------------------------------------------------------------------------------

  /** A destination whose flush waits for signals that no source will send. */
  ghost predicate Starved(v: View) {
    && v.fsm.sum == 0 && v.fsm.shards.None? && v.fsm.flushed.None? && !v.fsm.failed
    && (forall sid, i :: 0 <= sid < |v.pending| && 0 <= i < |v.pending[sid]| ==>
         v.pending[sid][i].MergeUnsortedInserts?)
    && v.requests == (if v.fsm.waiting then [] else [true])
  }

  lemma StepStaysStarved(v: View, w: View)
    requires Starved(v) && ViewStep(v, w)
    ensures Starved(w)
  {
    if w != v && !(v.requests != [] && w == Requested(v)) {
      var sid :| 0 <= sid < |v.pending| && v.pending[sid] != [] && w == Received(v, sid);
      assert v.pending[sid][0].MergeUnsortedInserts?;
      forall other, i | 0 <= other < |w.pending| && 0 <= i < |w.pending[other]|
        ensures w.pending[other][i].MergeUnsortedInserts?
      {
        assert w.pending[other][i] == v.pending[other][if other == sid then i + 1 else i];
      }
    }
  }

  /** In no interleaving does a starved destination flush. */
  lemma {:induction false} StarvedForEver(s: Sinks, y: Sys, moves: seq<Move>, chan: nat)
    requires Wired(s, y) && Possible(s, y, moves) && chan < |y.dests| && Starved(ViewOf(s, y, chan))
    ensures Starved(ViewOf(s, Final(s, y, moves), chan))
    decreases |moves|
  {
    if moves != [] {
      WiredKept(s, y, moves[0]);
      MoveIsViewStep(s, y, moves[0], chan);
      StepStaysStarved(ViewOf(s, y, chan), ViewOf(s, Do(s, y, moves[0]), chan));
      StarvedForEver(s, Do(s, y, moves[0]), moves[1..], chan);
    }
  }

  /** A destination that is sent nothing and is asked to flush at once. */
  ghost predicate Direct(v: View) {
    && (forall sid :: 0 <= sid < |v.pending| ==> v.pending[sid] == [])
    && v.fsm.rows == [] && v.fsm.sum == 0 && !v.fsm.waiting && !v.fsm.failed
    && v.fsm.flushed == (if v.requests == [] then Some([]) else None)
    && (v.requests == [] || v.requests == [false])
  }

  lemma {:induction false} DirectForEver(s: Sinks, y: Sys, moves: seq<Move>, chan: nat)
    requires Wired(s, y) && Possible(s, y, moves) && chan < |y.dests| && Direct(ViewOf(s, y, chan))
    ensures Direct(ViewOf(s, Final(s, y, moves), chan))
    decreases |moves|
  {
    if moves != [] {
      WiredKept(s, y, moves[0]);
      MoveIsViewStep(s, y, moves[0], chan);
      DirectForEver(s, Do(s, y, moves[0]), moves[1..], chan);
    }
  }

  // ---- every interleaving ends --------------------------------------------------------------------------

  ghost function AllFlushTasks(main: seq<Task>): nat {
    if main == [] then 0 else (if main[0].RequestFlush? then 1 else 0) + AllFlushTasks(main[1..])
  }

  /** What one source will still do: run its commands, and emit and have delivered its sends. */
  ghost function Work(s: Sinks, y: Sys, sid: nat): nat
    requires sid < |y.sources|
  {
    |y.sources[sid].queue| + |Queued(y.main, sid)| + 2 * |Rest(s, y, sid)|
  }

  ghost function SourceWork(s: Sinks, y: Sys): (w: seq<nat>)
    ensures |w| == |y.sources| && forall sid :: 0 <= sid < |w| ==> w[sid] == Work(s, y, sid)
  {
    seq(|y.sources|, sid requires 0 <= sid < |y.sources| => Work(s, y, sid))
  }

  ghost function InboxWork(y: Sys): (w: seq<nat>)
    ensures |w| == |y.dests| && forall chan :: 0 <= chan < |w| ==> w[chan] == |y.dests[chan].inbox|
  {
    seq(|y.dests|, chan requires 0 <= chan < |y.dests| => |y.dests[chan].inbox|)
  }

  /** The number of moves still to be made. */
  ghost function Budget(s: Sinks, y: Sys): nat {
    |y.main| + AllFlushTasks(y.main) + Total(SourceWork(s, y)) + Total(InboxWork(y))
  }

  lemma PostSpendsOne(s: Sinks, y: Sys)
    requires Wired(s, y) && y.main != []
    ensures Budget(s, PostTask(y)) == Budget(s, y) - 1
  {
    var z := PostTask(y);
    forall sid | 0 <= sid < |y.sources| ensures Work(s, z, sid) == Work(s, y, sid) {
      PostKeepsRest(s, y, sid);
    }
    assert SourceWork(s, z) == SourceWork(s, y);
    if y.main[0].ToSource? {
      assert InboxWork(z) == InboxWork(y);
    } else {
      InboxGrows(y, z, y.main[0].chan);
    }
  }

  lemma InboxGrows(y: Sys, z: Sys, chan: nat)
    requires |y.dests| == |z.dests| && chan < |y.dests|
    requires |z.dests[chan].inbox| == |y.dests[chan].inbox| + 1
    requires forall other :: 0 <= other < |y.dests| && other != chan ==> z.dests[other].inbox == y.dests[other].inbox
    ensures Total(InboxWork(z)) == Total(InboxWork(y)) + 1
  {
    assert InboxWork(z) == InboxWork(y)[chan := InboxWork(y)[chan] + 1];
    TotalChange(InboxWork(y), chan, InboxWork(y)[chan] + 1);
  }

  lemma SourceShrinks(s: Sinks, y: Sys, z: Sys, sid: nat, d: nat)
    requires |y.sources| == |z.sources| && sid < |y.sources|
    requires Work(s, z, sid) + d == Work(s, y, sid)
    requires forall other :: 0 <= other < |y.sources| && other != sid ==> Work(s, z, other) == Work(s, y, other)
    ensures Total(SourceWork(s, z)) + d == Total(SourceWork(s, y))
  {
    assert SourceWork(s, z) == SourceWork(s, y)[sid := Work(s, z, sid)];
    TotalChange(SourceWork(s, y), sid, Work(s, z, sid));
  }

  lemma RunSpendsOne(s: Sinks, y: Sys, sid: nat)
    requires Wired(s, y) && Enabled(y, Run(sid))
    ensures Budget(s, RunCommand(s, y, sid)) == Budget(s, y) - 1
  {
    var z := RunCommand(s, y, sid);
    forall other | 0 <= other < |y.sources|
      ensures Work(s, z, other) + (if other == sid then 1 else 0) == Work(s, y, other)
    {
      RunKeepsRest(s, y, sid, other);
    }
    SourceShrinks(s, y, z, sid, 1);
    assert InboxWork(z) == InboxWork(y);
  }

  lemma EmitWork(s: Sinks, y: Sys, sid: nat, other: nat)
    requires Wired(s, y) && Enabled(y, Emit(sid)) && other < |y.sources|
    ensures Work(s, EmitSend(y, sid), other) + (if other == sid then 2 else 0) == Work(s, y, other)
  {
  }

  lemma EmitSpendsOne(s: Sinks, y: Sys, sid: nat)
    requires Wired(s, y) && Enabled(y, Emit(sid))
    ensures Budget(s, EmitSend(y, sid)) == Budget(s, y) - 1
  {
    var z := EmitSend(y, sid);
    forall other | 0 <= other < |y.sources|
      ensures Work(s, z, other) + (if other == sid then 2 else 0) == Work(s, y, other)
    {
      EmitWork(s, y, sid, other);
    }
    SourceShrinks(s, y, z, sid, 2);
    InboxGrows(y, z, y.sources[sid].sends[0].chan);
  }

  lemma DeliverSpendsOne(s: Sinks, y: Sys, chan: nat)
    requires Wired(s, y) && Enabled(y, Deliver(chan))
    ensures Budget(s, DeliverLetter(y, chan)) == Budget(s, y) - 1
  {
    var z := DeliverLetter(y, chan);
    assert SourceWork(s, z) == SourceWork(s, y);
    InboxGrows(z, y, chan);
  }

  lemma MoveSpendsOne(s: Sinks, y: Sys, m: Move)
    requires Wired(s, y) && Enabled(y, m)
    ensures Budget(s, Do(s, y, m)) == Budget(s, y) - 1
  {
    match m
    case Post => PostSpendsOne(s, y);
    case Run(sid) => RunSpendsOne(s, y, sid);
    case Emit(sid) => EmitSpendsOne(s, y, sid);
    case Deliver(chan) => DeliverSpendsOne(s, y, chan);
  }

  /** Every interleaving has the same length once it cannot go on, whatever the order of its moves. */
  lemma {:induction false} RunsAreBounded(s: Sinks, y: Sys, moves: seq<Move>)
    requires Wired(s, y) && Possible(s, y, moves)
    ensures |moves| + Budget(s, Final(s, y, moves)) == Budget(s, y)
    decreases |moves|
  {
    if moves != [] {
      WiredKept(s, y, moves[0]);
      MoveSpendsOne(s, y, moves[0]);
      RunsAreBounded(s, Do(s, y, moves[0]), moves[1..]);
    }
  }

  // ---- commits ------------------------------------------------------------------------------------------

  /** No thread can move any more. */
  ghost predicate Quiet(y: Sys) {
    forall m: Move :: !Enabled(y, m)
  }

  ghost predicate AllFlushed(y: Sys) {
    forall chan :: 0 <= chan < |y.dests| ==> y.dests[chan].fsm.flushed.Some?
  }

  /** The commit ends: however the threads are interleaved, when none can move any more all flushes have been
      answered. */
  ghost predicate CommitEnds(s: Sinks, y: Sys)
    requires Wired(s, y)
  {
    forall moves :: Possible(s, y, moves) && Quiet(Final(s, y, moves)) ==> AllFlushed(Final(s, y, moves))
  }

  /** Some interleaving goes on until no thread can move. */
  lemma {:induction false} QuietRun(s: Sinks, y: Sys) returns (moves: seq<Move>)
    requires Wired(s, y)
    ensures Possible(s, y, moves) && Quiet(Final(s, y, moves))
    decreases Budget(s, y)
  {
    if Quiet(y) {
      moves := [];
    } else {
      var m :| Enabled(y, m);
      WiredKept(s, y, m);
      MoveSpendsOne(s, y, m);
      var later := QuietRun(s, Do(s, y, m));
      moves := [m] + later;
      assert moves[0] == m && moves[1..] == later;
    }
  }
}
