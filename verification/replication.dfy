/** The replication loop: one session, and what the process keeps from one to the next. */
module Replication {
  import opened Prelude
  import opened Schema
  import opened Tracker
  import opened Transactions
  import opened Assembly
  import opened Sinks
  import opened Patience
  import opened Protocol
  import opened Process
  import opened Books
  import opened Sessions
  import Guard
  import Layout
  import PgOutput
  import Wire

  // Errors that end the process.

  /** The errors a running stream can end with: neither the slot's nor AckBeyondDurable. */
  predicate StreamError(e: Error) {
    || e.DecodeError? || e.UnsupportedMessage? || e.UnknownRelation? || e.TransactionTooLarge?
    || e == Error.Sink || e == Connection
  }

  lemma HandleErrorsAreFatal(s: AsmState, f: Frame, limit: nat)
    ensures var r := Handle(s, f, limit); r.Err? ==> r.error.IsFatal() && StreamError(r.error)
  {
    if f.msg.Truncate? && s.open.Some? {
      TruncateErrorsAreFatal(s.cache, f.msg.relationIds, f.walStart, s.open.value.changes, limit);
    }
  }

  lemma {:induction false} TruncateErrorsAreFatal(cache: Cache, ids: seq<u32>, lsn: Lsn,
        changes: seq<PendingChange>, limit: nat)
    ensures var r := TruncateAll(cache, ids, lsn, changes, limit); r.Err? ==> r.error.IsFatal() && StreamError(r.error)
  {
    if ids != [] && |changes| < limit && ids[0] in cache {
      TruncateErrorsAreFatal(cache, ids[1..], lsn, changes + [TruncateChange(cache[ids[0]], lsn)], limit);
    }
  }

  /** The sink's own account of an accepted transaction is the protocol's. */
  lemma AcceptsIsAccepted(d: SinkState, tx: Transaction, after: SinkState)
    requires d.Accepts(tx, after) && d.kernel <= after.kernel
    ensures |after.buffer| <= |d.buffer| + |tx.changes|
    ensures Accepted(d, tx, |after.buffer|) == after
  {
    var lines, written := d.kernel + d.buffer + tx.changes, after.kernel + after.buffer;
    assert d.device + lines == d.Contents() + tx.changes == after.Contents() == d.device + written;
    assert (d.device + lines)[|d.device|..] == lines && (d.device + written)[|d.device|..] == written;
    assert written[..|after.kernel|] == after.kernel && written[|after.kernel|..] == after.buffer;
  }

  lemma AcceptedContents(d: SinkState, tx: Transaction)
    ensures Accepted(d, tx, 0).device == d.device
    ensures forall k :: 0 <= k < |tx.changes| ==>
      d.Contents() <= d.Contents() + tx.changes[..k] <= Accepted(d, tx, 0).Contents()
  {
    var all := Accepted(d, tx, 0).Contents();
    forall k | 0 <= k < |tx.changes| ensures d.Contents() + tx.changes[..k] <= all {
      assert all == d.Contents() + tx.changes;
    }
  }

  class Replicator {
    const tracker: LsnTracker
    const assembler: Assembler
    const cache: RelationCache
    const sink: FileSink
    const ackInterval: Duration
    const slotBusyBudget: Duration

    /** The positions handed to the transport as feedback, and how far its stream has got. */
    var feedback: seq<Lsn>
    var position: Option<Lsn>

    ghost var connected: bool

    /** What the sink accepted since the process started, what of it since the last barrier, and the
        file it started with. */
    ghost var accepted: seq<Transaction>
    ghost var waiting: seq<Transaction>
    ghost const atStart: SinkState

    ghost function Repr(): set<object> {
      {this, tracker, assembler, cache, sink}
    }

    ghost function Node(): Node
      reads Repr()
    {
      Process.Node(Life(tracker.View(), assembler.View(cache), feedback, connected, false), sink.View(), position)
    }

    ghost predicate Valid()
      reads Repr()
    {
      && tracker.acked <= tracker.durable && Ledger(atStart, accepted, waiting, sink.View(), tracker.processed)
      && (position.None? ==> assembler.View(cache) == FRESH)
    }

    constructor (sink: FileSink, maxEvents: nat, ackInterval: Duration, slotBusyBudget: Duration)
      requires sink.pending == None
      ensures Valid() && Node() == Process.Node(FreshLife(), sink.View(), None)
      ensures this.sink == sink && atStart == sink.View() && assembler.maxEvents == maxEvents
      ensures this.ackInterval == ackInterval && this.slotBusyBudget == slotBusyBudget
      ensures fresh(Repr() - {sink})
    {
      hide Ledger;
      tracker := new LsnTracker();
      assembler := new Assembler(maxEvents);
      cache := new RelationCache();
      this.sink := sink;
      this.ackInterval, this.slotBusyBudget := ackInterval, slotBusyBudget;
      feedback, position := [], None;
      connected, accepted, waiting, atStart := false, [], [], sink.View();
      new;
      LedgerAtFirst(sink.View());
    }

    /** The tail shared by the barrier and the keepalive advance. What is sent is what the tracker
        acknowledged, and the tracker never refuses. */
    method AcknowledgeDurable(lsn: Lsn, sendOk: bool) returns (r: Result<Lsn>)
      requires Valid()
      modifies `feedback, tracker
      ensures Node() == old(Node()).(life := Acknowledge(old(Node().life), lsn)) && Valid()
      ensures feedback == old(feedback) + [tracker.acked] && tracker.acked >= lsn
      ensures tracker.acked == (if old(tracker.acked) < lsn then lsn else old(tracker.acked))
      ensures tracker.durable == (if old(tracker.durable) < lsn then lsn else old(tracker.durable))
      ensures tracker.received == old(tracker.received) && tracker.processed == old(tracker.processed)
      ensures r == if sendOk then Ok(tracker.acked) else Err(Connection)
    {
      hide Ledger;
      tracker.NoteDurable(lsn);
      var checked := tracker.TryAck(lsn);
      assert checked.Ok?;  // AckBeyondDurable cannot come from here
      feedback := feedback + [tracker.acked];
      if !sendOk {
        return Err(Connection);
      }
      return Ok(tracker.acked);
    }

    /** Only a barrier that succeeded marks anything durable. */
    method FlushAndAcknowledge(io: BarrierIo) returns (r: Result<()>)
      requires Valid()
      modifies `feedback, `waiting, tracker, sink
      ensures r.Ok? <==> old(sink.pending).None? || (io.flushOk && io.syncOk && io.sendOk)
      ensures r.Err? ==> r.error == if io.flushOk && io.syncOk then Connection else Error.Sink
      ensures !Fatal(r) ==> Node() == AfterBarrier(old(Node())) && Valid() && sink.pending.None? && waiting == []
      ensures Fatal(r) ==>
                && CrashLeaves(old(Node()), sink.View()) && waiting == old(waiting)
                && feedback == old(feedback) && tracker.View() == old(tracker.View())
    {
      hide Ledger;
      LedgerSettles(atStart, accepted, waiting, sink.View(), tracker.processed);
      var durable :- sink.Flush(io.flushOk, io.syncOk, io.flushed);
      waiting := [];
      if durable.Some? {
        var _ :- AcknowledgeDurable(durable.value, io.sendOk);
      }
      return Ok(());
    }

    /** What the assembler has emitted goes to the sink before anything else happens to it. */
    method Accept(tx: Transaction, io: nat -> LineOutcome) returns (r: Result<()>)
      requires Valid()
      modifies `accepted, `waiting, tracker, sink
      ensures r.Ok? <==> forall i :: 0 <= i < |tx.changes| ==> io(i) != Failed
      ensures r.Ok? ==>
                && Valid() && accepted == old(accepted) + [tx] && waiting == old(waiting) + [tx]
                && tracker.View() == old(tracker.View()).NoteProcessed(tx.endLsn)
                && tracker.processed == (if old(tracker.processed) < tx.endLsn then tx.endLsn else old(tracker.processed))
                && tracker.received == old(tracker.received)
                && (sink.pending == Some(Highest(waiting)) <==> Highest(old(waiting)) <= tx.endLsn)
      ensures r.Ok? ==> |sink.buffer| <= |old(sink.buffer)| + |tx.changes|
      ensures r.Ok? ==> sink.View() == Accepted(old(sink.View()), tx, |sink.buffer|)
      ensures r.Err? ==> r.error == Error.Sink && accepted == old(accepted) && waiting == old(waiting)
      ensures r.Err? ==> tracker.View() == old(tracker.View())
      ensures r.Err? ==> sink.device == old(sink.device) && old(sink.View().Contents()) <= sink.View().Contents()
      ensures r.Err? ==> sink.View().Contents() <= Accepted(old(sink.View()), tx, 0).Contents()
    {
      hide Ledger, Accepted;
      ghost var before := sink.View();
      var written := sink.WriteTransaction(tx, io);
      if written.Err? {
        AcceptedContents(before, tx);
        return written;
      }
      AcceptsIsAccepted(before, tx, sink.View());
      LedgerAccepts(atStart, accepted, waiting, before, tracker.processed, tx, sink.View());
      ReportsHighestIff(waiting, before, tx, sink.View());
      accepted, waiting := accepted + [tx], waiting + [tx];
      tracker.NoteProcessed(tx.endLsn);
      return Ok(());
    }

    /**
     A frame that was read: note it, decode it, hand it to the assembler, and hand a transaction
     that is now complete to the sink; only then is it processed. Every error here ends the process.
     */
    method ReceiveFrame(raw: Read) returns (r: Result<()>, ghost acts: seq<Action>)
      requires Valid() && raw.Raw? && position.Some?
      modifies Repr()
      ensures r.Err? ==> Fatal(r) && StreamError(r.error)
      ensures Went(old(Node()), acts, assembler.maxEvents, r.Err?, Node())
      ensures r.Err? ==> ReadFails(old(Node()), raw, acts, r.error, assembler.maxEvents)
      ensures r.Ok? ==> ReadWorks(old(Node()), raw, acts, assembler.maxEvents)
      ensures r.Ok? ==> Valid() && position == Some(raw.position) && |acts| == 1 && Delivers(raw, acts[0], |sink.buffer|)
      ensures old(accepted) <= accepted && tracker.View().NotBehind(old(tracker.View()))
      ensures tracker.received == if old(tracker.received) < raw.walEnd then raw.walEnd else old(tracker.received)
    {
      hide Ledger, Local, Handle, Went, Accepted, ReadFails, StoppedAt, Highest, Layout.LaidOut, Wire.Encodes,
        SinkState.Contents, SinkState.Accepts, SinkState.Barrier;
      ghost var before, limit := Node(), assembler.maxEvents;
      acts := [];
      tracker.NoteReceived(raw.walEnd);
      position := Some(raw.position);
      var msg := PgOutput.Decode(raw.payload);
      if msg.Err? {
        NoMessage(before, raw, msg.error, limit);
        DiesInPlace(before, limit, Node());
        return Err(msg.error), [];
      }
      ghost var f := Frame(msg.value, raw.walStart);
      HandleErrorsAreFatal(before.life.asm, f, limit);
      var handled := assembler.HandleMessage(msg.value, raw.walStart, cache);
      if handled.Err? {
        NotHandled(before, raw, f, handled.error, limit);
        DiesInPlace(before, limit, Node());
        return Err(handled.error), [];
      }
      if handled.value.Some? {
        var taken := Accept(handled.value.value, raw.io);
        if taken.Err? {
          ghost var i :| 0 <= i < |handled.value.value.changes| && raw.io(i) == Failed;
          NotWritten(before, raw, f, i, limit);
          DiesWriting(before, f, raw.walEnd, raw.position, limit, Node());
          return taken, [Deliver(f, raw.walEnd, raw.position, 0)];
        }
      }
      TakesFrame(before, f, raw.walEnd, raw.position, |sink.buffer|, limit, Node());
      return Ok(()), [Deliver(f, raw.walEnd, raw.position, |sink.buffer|)];
    }

    /** The barrier keeps its own schedule, whatever the reads bring. */
    method FlushIfDue(t: Turn, lastFlush: nat) returns (r: Result<()>, flushedAt: nat, ghost acts: seq<Action>)
      requires Valid() && position.Some?
      modifies `feedback, `waiting, tracker, sink
      ensures Went(old(Node()), acts, assembler.maxEvents, Fatal(r), Node())
      ensures r.Err? ==>
                && StreamError(r.error) && Due(t.checkedAt, lastFlush, ackInterval)
                && BarrierFails(t.barrier, old(Node()), acts, r.error)
      ensures !Fatal(r) ==> Valid() && acts == if Due(t.checkedAt, lastFlush, ackInterval) then [Barrier] else []
      ensures r.Ok? && Due(t.checkedAt, lastFlush, ackInterval) ==> BarrierWorks(t.barrier, old(sink.pending))
      ensures !Fatal(r) ==> (acts == [Barrier] <==> ackInterval == 0 || t.checkedAt >= lastFlush + ackInterval)
      ensures flushedAt == if Due(t.checkedAt, lastFlush, ackInterval) then t.flushedAt else lastFlush
      ensures r.Ok? ==> sink.pending.None? || !Due(t.checkedAt, lastFlush, ackInterval)
      ensures tracker.View().NotBehind(old(tracker.View()))
    {
      hide Ledger, Handle, Accepted;
      ghost var before := Node();
      DriveOne(before, Barrier, assembler.maxEvents);
      if !Due(t.checkedAt, lastFlush, ackInterval) {
        return Ok(()), lastFlush, [];
      }
      r := FlushAndAcknowledge(t.barrier);
      return r, t.flushedAt, if Fatal(r) then [] else [Barrier];
    }

    /** If nothing is owed to the sink, the whole position the server has got to is vacuously durable. */
    method AdvanceFromKeepalive(sendOk: bool) returns (r: Result<()>, ghost acts: seq<Action>)
      requires Valid() && position.Some?
      modifies `feedback, tracker
      ensures acts == if GateOpen(old(Node())) then [Advance] else []
      ensures acts == [Advance] <==>
                && old(assembler.open).None? && old(tracker.processed) <= old(tracker.durable)
                && old(position).value > old(tracker.acked)
      ensures acts == [Advance] ==>
                tracker.acked == position.value && tracker.durable == Max(old(tracker.durable), position.value)
      ensures acts != [Advance] ==> acts == [] && tracker.View() == old(tracker.View()) && feedback == old(feedback)
      ensures Went(old(Node()), acts, assembler.maxEvents, false, Node()) && Valid()
      ensures r == if sendOk || !GateOpen(old(Node())) then Ok(()) else Err(Connection)
      ensures !GateOpen(Node()) && tracker.View().NotBehind(old(tracker.View()))
    {
      hide Ledger, Handle;
      DriveOne(Node(), Advance, assembler.maxEvents);
      if MayAdvanceFromKeepalive(assembler.IsEmpty(), tracker.processed, tracker.durable) && position.value > tracker.acked {
        var sent := AcknowledgeDurable(position.value, sendOk);
        return if sent.Err? then Err(sent.error) else Ok(()), [Advance];
      }
      return Ok(()), [];
    }

    method TakeRead(read: Read) returns (r: Result<bool>, ghost acts: seq<Action>)
      requires Valid() && position.Some?
      modifies Repr()
      ensures Went(old(Node()), acts, assembler.maxEvents, Fatal(r), Node())
      ensures !Fatal(r) ==> r == Ok(!read.Broken?) && Valid() && position.Some?
      ensures !Fatal(r) ==> ReadActs(read, acts) && ReadWorks(old(Node()), read, acts, assembler.maxEvents)
      ensures old(accepted) <= accepted && tracker.View().NotBehind(old(tracker.View()))
      ensures r.Err? ==> Fatal(r) && StreamError(r.error) && ReadFails(old(Node()), read, acts, r.error, assembler.maxEvents)
      ensures r == Ok(false) <==> read.Broken?
      ensures r == Ok(false) ==> acts == []
    {
      hide Ledger, Handle, AfterFrame, CrashLeaves, ReadFails;
      ghost var before := Node();
      match read {
        case Raw(_, _, _, _, _) =>
          var taken;
          taken, acts := ReceiveFrame(read);
          return if taken.Err? then Err(taken.error) else Ok(true), acts;
        case Broken => return Ok(false), [];
        case Tick(announced) =>
          if announced.Some? {
            position := announced;
            WentOne(before, Keepalive(announced.value), assembler.maxEvents, Node());
            return Ok(true), [Keepalive(announced.value)];
          }
          return Ok(true), [];
      }
    }

    /**
     One turn of the loop after the shutdown flag was read as not set. Whatever happens, the
     process has gone through steps of the protocol; when the turn is over the gate has nothing
     left to let through, and nothing accepted is still waiting for a barrier that was due.
     */
    method TakeTurn(t: Turn, lastFlush: nat) returns (r: Result<bool>, flushedAt: nat, ghost acts: seq<Action>)
      requires Valid() && position.Some? && !t.shutdown
      modifies Repr()
      ensures Went(old(Node()), acts, assembler.maxEvents, Fatal(r), Node())
      ensures !Fatal(r) ==> Valid() && position.Some?
      ensures r == Ok(true) ==>
        var due := Due(t.checkedAt, lastFlush, ackInterval);
        && TurnActs(t, due, old(Node()), acts, assembler.maxEvents) && (EndsInAdvance(acts) ==> t.sendOk)
        && flushedAt == (if due then t.flushedAt else lastFlush)
        && (sink.pending.None? || !due) && !GateOpen(Node())
      ensures r == Ok(false) <==> t.read.Broken?
      ensures r == Ok(false) ==> acts == []
      ensures r.Err? ==> StreamError(r.error)
      ensures r.Err? ==>
                TurnEnds(t, Due(t.checkedAt, lastFlush, ackInterval), old(Node()), acts, Err(r.error), assembler.maxEvents)
      ensures old(accepted) <= accepted && tracker.View().NotBehind(old(tracker.View()))
    {
      hide Ledger, Local, Drive, Went, GateOpen, ReadActs, ReadWorks, TurnActs, TurnEnds, BarrierFails, ReadFails, EndsInAdvance;
      ghost var n0, limit := Node(), assembler.maxEvents;
      flushedAt := lastFlush;
      r, acts := TakeRead(t.read);
      if r.Err? {
        ReadEnds(t, Due(t.checkedAt, lastFlush, ackInterval), n0, acts, r.error, limit);
        return;
      }
      if !r.value {
        return;
      }
      ghost var read, n1 := acts, Node();
      ghost var more;
      var flushed;
      flushed, flushedAt, more := FlushIfDue(t, lastFlush);
      WentOn(n0, read, n1, more, limit, Fatal(flushed), Node());
      acts := read + more;
      if flushed.Err? {
        BarrierEnds(t, n0, read, n1, more, flushed.error, limit);
        return Err(flushed.error), flushedAt, acts;
      }
      ghost var n2, last := Node(), [];
      var advanced;
      advanced, last := AdvanceFromKeepalive(t.sendOk);
      WentOn(n0, acts, n2, last, limit, false, Node());
      TurnWorked(t, Due(t.checkedAt, lastFlush, ackInterval), n0, read, n1, more, n2, last, limit);
      acts := acts + last;
      if advanced.Err? {
        AdvanceEnds(t, Due(t.checkedAt, lastFlush, ackInterval), n0, acts, limit);
        return Err(advanced.error), flushedAt, acts;
      }
      return Ok(true), flushedAt, acts;
    }

    /** The slot exists, can stream, and is not ahead of what is durable. */
    method CheckSlot(slot: SlotReply, patience: SlotBusyPatience) returns (r: Result<()>)
      modifies patience
      ensures r == SlotCheck(slot, tracker.durable)
      ensures patience.View() == if r.Err? then Observe(old(patience.View()), Other) else old(patience.View())
      ensures patience.accumulated == old(patience.accumulated)
    {
      var reconnecting := IsReconnect(tracker.durable);
      r := Ok(());
      if !slot.Found? {
        r := InterruptOnEarlyFailure(Err(if slot.Unreachable? then Connection else SlotMissing), patience);
        return;
      }
      if Guard.SlotHealthIsTerminal(slot.walStatus) {
        r := InterruptOnEarlyFailure(Err(SlotUnusable), patience);
        return;
      }
      if reconnecting {
        var checked := InterruptOnEarlyFailure(Guard.CheckReconnect(slot.confirmedFlush, tracker.durable), patience);
        if checked.Err? {
          return Err(checked.error);
        }
      }
    }

    /** With the slot checked: the connection is opened and the stream started, or the attempt given up. */
    method OpenStream(a: Attempt, patience: SlotBusyPatience) returns (r: Result<()>, ghost acts: seq<Action>)
      requires Valid() && position.None? && Checked(a, tracker.durable)
      modifies `position, `connected, patience
      ensures Valid() && Went(old(Node()), acts, assembler.maxEvents, Fatal(r), Node())
      ensures r.Ok? <==> a.connects && a.reply.Started?
      ensures acts == [Preflight(SlotPosition(a.slot)), if r.Ok? then StartStream else GiveUp]
      ensures r.Ok? <==> position.Some?
      ensures patience.View() == Observe(old(patience.View()), if a.connects then ObservationOf(a.reply, a.repliedAt) else Other)
      ensures if r.Ok? then patience.accumulated == 0 else patience.accumulated >= old(patience.accumulated)
      ensures r.Err? ==>
                r.error == if !a.connects || a.reply == Transient then Connection
                           else if a.reply == Refused then SlotUnusable
                           else if patience.accumulated >= slotBusyBudget then
                             SlotBusyTimedOut(patience.accumulated, slotBusyBudget) else Connection
    {
      hide Ledger, Went, Drive, Local, Handle;
      ghost var n0, limit, slot := Node(), assembler.maxEvents, SlotPosition(a.slot);
      if !a.connects {
        WentInVain(n0, slot, limit, false);
        acts := [Preflight(slot), GiveUp];
        r := InterruptOnEarlyFailure(Err(Connection), patience);
        return;
      }
      r := ClassifyStartOutcome(a.reply, patience, slotBusyBudget, a.repliedAt);
      if r.Err? {
        WentInVain(n0, slot, limit, Fatal(r));
        return r, [Preflight(slot), GiveUp];
      }
      position, connected := Some(0), true;
      WentToStream(n0, slot, limit);
      acts := [Preflight(slot), StartStream];
    }

    /** The slot is read and checked, the connection opened and the stream started, in that order;
        whatever fails on the way, the patience learns of it exactly once. */
    method Connect(a: Attempt, patience: SlotBusyPatience) returns (r: Result<()>, ghost acts: seq<Action>)
      requires Valid() && position.None?
      modifies `position, `connected, patience
      ensures Valid() && Went(old(Node()), acts, assembler.maxEvents, Fatal(r), Node())
      ensures patience.View() == Observe(old(patience.View()), Observed(a, tracker.durable))
      ensures r.Ok? <==> Starts(a, tracker.durable)
      ensures if r.Ok? then patience.accumulated == 0 else patience.accumulated >= old(patience.accumulated)
      ensures r.Ok? ==> acts == [Preflight(SlotPosition(a.slot)), StartStream]
      ensures r.Ok? <==> position.Some?
      ensures r.Err? ==> acts == if Checked(a, tracker.durable) then [Preflight(SlotPosition(a.slot)), GiveUp] else []
      ensures r.Err? ==> r.error == StartError(a, tracker.durable, patience.accumulated, slotBusyBudget)
    {
      hide Ledger, Went, Starts, Checked, Observed, StartError, SlotCheck, Observe, ObservationOf;
      DiesInPlace(Node(), assembler.maxEvents, Node());
      r := CheckSlot(a.slot, patience);
      if r.Err? {
        SlotCheckFails(a, tracker.durable, patience.accumulated, slotBusyBudget);
        return r, [];
      }
      SlotCheckPasses(a, tracker.durable, 0, slotBusyBudget);
      r, acts := OpenStream(a, patience);
      SlotCheckPasses(a, tracker.durable, patience.accumulated, slotBusyBudget);
    }

    /** Before an orderly exit what was accepted is carried through the barrier and acknowledged. */
    method Drain(io: BarrierIo) returns (r: Option<Result<SessionOutcome>>, ghost acts: seq<Action>)
      requires Valid() && position.Some?
      modifies `feedback, `waiting, tracker, sink
      ensures Went(old(Node()), acts, assembler.maxEvents, Dies(r), Node()) && (!Dies(r) ==> Valid())
      ensures r == Some(Ok(ShutdownRequested)) ==>
                acts == [Barrier] && sink.pending.None? && BarrierWorks(io, old(sink.pending))
      ensures r != Some(Ok(ShutdownRequested)) ==>
                r.Some? && r.value.Err? && StreamError(r.value.error) && BarrierFails(io, old(Node()), acts, r.value.error)
      ensures tracker.View().NotBehind(old(tracker.View()))
    {
      hide Ledger, Handle;
      DriveOne(Node(), Barrier, assembler.maxEvents);
      var drained := FlushAndAcknowledge(io);
      if drained.Err? {
        return Some(Err(drained.error)), if Fatal(drained) then [] else [Barrier];
      }
      return Some(Ok(ShutdownRequested)), [Barrier];
    }

    /**
     The loop of a session: `r` is None when it is still going after the turns that `a` has;
     `turns` counts the turns begun.
     */
    method Loop(a: Attempt) returns (r: Option<Result<SessionOutcome>>, turns: nat, ghost acts: seq<Action>)
      requires Valid() && position.Some?
      modifies Repr()
      ensures Went(old(Node()), acts, assembler.maxEvents, Dies(r), Node())
      ensures !Dies(r) ==> Valid() && position.Some?
      ensures old(accepted) <= accepted && tracker.View().NotBehind(old(tracker.View()))
      ensures LoopIs(old(Node()), a, ackInterval, r, turns, acts, assembler.maxEvents)
      ensures r == Some(Ok(ShutdownRequested)) ==> sink.pending.None?
      ensures r.Some? && r.value.Err? ==> StreamError(r.value.error)
    {
      hide Ledger, Local, Drive, Went, TurnActs, LoopActs, LoopIs, TurnEnds, BarrierFails;
      turns, acts := 0, [];
      ghost var n0, limit, more := Node(), assembler.maxEvents, [];
      LoopStarts(n0, a, ackInterval, limit);
      var lastFlush := a.loopAt;
      while turns < |a.turns|
        invariant turns <= |a.turns| && lastFlush == LastFlush(a, ackInterval, turns)
        invariant Valid() && position.Some? && Went(n0, acts, limit, false, Node())
        invariant LoopActs(n0, a, ackInterval, turns, acts, limit)
        invariant Undisturbed(a, turns)
        invariant old(accepted) <= accepted && tracker.View().NotBehind(old(tracker.View()))
      {
        var t := a.turns[turns];
        turns := turns + 1;
        ghost var n := Node();
        if t.shutdown {
          r, more := Drain(t.barrier);
          DrainEnds(t, DueAt(a, ackInterval, turns - 1), n, more, r.value, limit);
          LoopEndsWith(n0, a, ackInterval, r.value, turns, acts, n, more, limit);
          WentOn(n0, acts, n, more, limit, Dies(r), Node());
          return r, turns, acts + more;
        }
        var going;
        going, lastFlush, more := TakeTurn(t, lastFlush);
        WentOn(n0, acts, n, more, limit, Fatal(going), Node());
        if going.Err? {
          LoopEndsWith(n0, a, ackInterval, Err(going.error), turns, acts, n, more, limit);
          return Some(Err(going.error)), turns, acts + more;
        }
        if !going.value {
          BrokenEnds(t, DueAt(a, ackInterval, turns - 1), n, limit);
          LoopEndsWith(n0, a, ackInterval, Ok(Disconnected), turns, acts, n, more, limit);
          return Some(Ok(Disconnected)), turns, acts + more;
        }
        LoopGrows(n0, a, ackInterval, turns, acts, n, more, limit);
        acts := acts + more;
      }
      GoesOn(n0, a, ackInterval, acts, limit);
      return None, turns, acts;
    }

    /** One replication session: connect, then loop. */
    method StreamOnce(a: Attempt, patience: SlotBusyPatience)
      returns (r: Option<Result<SessionOutcome>>, turns: nat, ghost acts: seq<Action>)
      requires Valid() && position.None?
      modifies Repr(), patience
      ensures Went(old(Node()), acts, assembler.maxEvents, Dies(r), Node()) && (!Dies(r) ==> Valid())
      ensures old(accepted) <= accepted && tracker.View().NotBehind(old(tracker.View()))
      ensures patience.View() == Observe(old(patience.View()), Observed(a, old(tracker.durable)))
      ensures !Starts(a, old(tracker.durable)) ==> patience.accumulated >= old(patience.accumulated)
      ensures SessionIs(old(Node()), a, patience.accumulated, slotBusyBudget, ackInterval, r, turns, acts, assembler.maxEvents)
      ensures !Dies(r) ==> (position.Some? <==> Starts(a, old(tracker.durable)))
      ensures r == Some(Ok(ShutdownRequested)) ==> sink.pending.None?
      ensures Starts(a, old(tracker.durable)) && r.Some? && r.value.Err? ==> StreamError(r.value.error)
    {
      hide Ledger, Local, Drive, Went, LoopIs, Observed, EarlyFailure, StartError;
      ghost var n0, limit := Node(), assembler.maxEvents;
      var connected;
      connected, acts := Connect(a, patience);
      if connected.Err? {
        return Some(Err(connected.error)), 0, acts;
      }
      ghost var n1, loop := Node(), [];
      WentTo(n0, acts, limit, n1);
      r, turns, loop := Loop(a);
      WentOn(n0, acts, n1, loop, limit, Dies(r), Node());
      assert (acts + loop)[..2] == acts && (acts + loop)[2..] == loop;
      acts := acts + loop;
    }

    /** The positions are carried over; the cache and the half-open transaction are not. */
    method ResetForReconnect() returns (ghost acts: seq<Action>)
      requires Valid()
      modifies `position, cache, assembler
      ensures Valid() && position.None?
      ensures Node() == old(Node()).(stream := None, life := old(Node().life).(asm := FRESH))
      ensures Went(old(Node()), acts, assembler.maxEvents, false, Node())
      ensures acts == if old(position).Some? then [Disconnect] else []
    {
      hide Ledger, Handle;
      DriveOne(Node(), Disconnect, assembler.maxEvents);
      acts := if position.Some? then [Disconnect] else [];
      cache.Clear();
      assembler.Reset();
      position := None;
    }
  }
}
