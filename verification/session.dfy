/** One replication session told from outside: what it is asked, which steps it takes, how it ends. */
module Sessions {
  import opened Prelude
  import opened Wire
  import opened Transactions
  import opened Sinks
  import opened Patience
  import opened Protocol
  import opened Process
  import Guard

  // What the world outside answers.

  /** One bounded read: a frame, a broken connection, or a tick. Keepalives are handled inside the
      transport and show up only as the position it has got to. */
  datatype Read =
    | Raw(payload: Payload, walStart: Lsn, walEnd: Lsn, position: Lsn, io: nat -> LineOutcome)
    | Broken
    | Tick(announced: Option<Lsn>)

  datatype BarrierIo = BarrierIo(flushOk: bool, syncOk: bool, flushed: nat, sendOk: bool)

  /** One turn of the session's loop. */
  datatype Turn = Turn(shutdown: bool, read: Read, checkedAt: nat, flushedAt: nat, barrier: BarrierIo, sendOk: bool)

  datatype SlotReply = Unreachable | Missing | Found(confirmedFlush: Option<Lsn>, walStatus: Option<string>)

  datatype Attempt = Attempt(slot: SlotReply, connects: bool, reply: StartReply, repliedAt: nat, loopAt: nat,
        turns: seq<Turn>)

  datatype SessionOutcome = Disconnected | ShutdownRequested

  datatype LoopAction = Reconnect | Stop | Abort(error: Error)

  /** A lost connection, noticed while reading or while sending, and nothing else. */
  predicate WorthRetry(outcome: Result<SessionOutcome>) {
    outcome == Ok(Disconnected) || outcome == Err(Connection)
  }

  function HandleSessionOutcome(outcome: Result<SessionOutcome>): (action: LoopAction)
    ensures action.Reconnect? <==> WorthRetry(outcome)
    ensures action.Stop? <==> outcome == Ok(ShutdownRequested)
    ensures action.Abort? ==> outcome == Err(action.error)
  {
    match outcome
    case Ok(ShutdownRequested) => Stop
    case Ok(Disconnected) => Reconnect
    case Err(e) => if !e.IsFatal() then Reconnect else Abort(e)
  }

  predicate Dies(r: Option<Result<SessionOutcome>>) {
    r.Some? && Fatal(r.value)
  }

  predicate Fatal<T>(r: Result<T>) {
    r.Err? && r.error.IsFatal()
  }

  /** `a` delivers the message that the payload of `raw` encodes. */
  ghost predicate Delivers(raw: Read, a: Action, buffered: nat) {
    && raw.Raw? && a.Deliver? && Encodes(raw.payload, a.frame.msg)
    && a == Deliver(Frame(a.frame.msg, raw.walStart), raw.walEnd, raw.position, buffered)
  }

  /** The steps a read amounts to. */
  ghost predicate ReadActs(read: Read, acts: seq<Action>) {
    match read
    case Raw(_, _, _, _, _) => |acts| == 1 && acts[0].Deliver? && Delivers(read, acts[0], acts[0].buffered)
    case Broken => acts == []
    case Tick(announced) => acts == if announced.Some? then [Keepalive(announced.value)] else []
  }

  predicate Due(now: nat, lastFlush: nat, interval: Duration) {
    SaturatingSince(now, lastFlush) >= interval
  }

  /** The frame is taken, and every line of a transaction it completes is written. */
  ghost predicate ReadWorks(n: Node, read: Read, acts: seq<Action>, limit: nat) {
    read.Raw? ==>
      && |acts| == 1 && acts[0].Deliver? && Handle(n.life.asm, acts[0].frame, limit).Ok?
      && var emitted := Handle(n.life.asm, acts[0].frame, limit).value.emitted;
         emitted.Some? ==> forall i :: 0 <= i < |emitted.value.changes| ==> read.io(i) != Failed
  }

  /** Whatever is pending gets through the barrier, and the feedback is sent. */
  predicate BarrierWorks(io: BarrierIo, pending: Option<Lsn>) {
    pending.Some? ==> io.flushOk && io.syncOk && io.sendOk
  }

  /** The part of a turn up to the keepalive advance: the read, then the barrier if its time has come. */
  ghost predicate UpToAdvance(t: Turn, due: bool, n: Node, read: seq<Action>, limit: nat) {
    && ReadActs(t.read, read) && ReadWorks(n, t.read, read, limit) && Drive(n, read, limit).Some?
    && (due ==> BarrierWorks(t.barrier, Drive(n, read, limit).value.disk.pending))
    && Drive(n, read + (if due then [Barrier] else []), limit).Some?
  }

  /** A whole turn: the read, then the barrier if its time has come, then the advance if the gate
      is open by then. */
  ghost predicate TurnActs(t: Turn, due: bool, n: Node, acts: seq<Action>, limit: nat) {
    exists read ::
      && UpToAdvance(t, due, n, read, limit)
      && var upTo := read + (if due then [Barrier] else []);
         acts == upTo + (if GateOpen(Drive(n, upTo, limit).value) then [Advance] else [])
  }

  predicate EndsInAdvance(acts: seq<Action>) {
    acts != [] && acts[|acts| - 1] == Advance
  }

  /** What stops an attempt before the server is asked to stream, in the order of the checks. */
  function EarlyFailure(a: Attempt, durable: Lsn): Option<Error> {
    match a.slot
    case Unreachable => Some(Connection)
    case Missing => Some(SlotMissing)
    case Found(confirmed, walStatus) =>
      if Guard.SlotHealthIsTerminal(walStatus) then Some(SlotUnusable)
      else if IsReconnect(durable) && Guard.CheckReconnect(confirmed, durable).Err? then
        Some(Guard.CheckReconnect(confirmed, durable).error)
      else if !a.connects then Some(Connection)
      else None
  }

  /** Every attempt adds exactly one observation to the history of the busy slot. */
  function Observed(a: Attempt, durable: Lsn): Observation {
    if EarlyFailure(a, durable).Some? then Other else ObservationOf(a.reply, a.repliedAt)
  }

  /** A success is a stream that started, a busy answer is the server's to START_REPLICATION, and
      everything else only breaks the chain. */
  lemma ObservedIs(a: Attempt, durable: Lsn)
    ensures Observed(a, durable).Success? <==> Starts(a, durable)
    ensures Observed(a, durable).Busy? <==> EarlyFailure(a, durable).None? && a.reply.SlotBusy?
    ensures Observed(a, durable).Busy? ==> Observed(a, durable).at == a.repliedAt
  {
  }

  predicate Starts(a: Attempt, durable: Lsn) {
    EarlyFailure(a, durable).None? && a.reply.Started?
  }

  /** The error of an attempt that does not start, after `waited` for a busy slot. */
  function StartError(a: Attempt, durable: Lsn, waited: Duration, budget: Duration): (e: Error)
    requires !Starts(a, durable)
    ensures !e.AckBeyondDurable?
  {
    var early := EarlyFailure(a, durable);
    if early.Some? then early.value
    else if a.reply.SlotBusy? && waited >= budget then SlotBusyTimedOut(waited, budget)
    else ClassifyStartError(a.reply)
  }

  /** Which attempts start, and the error of each that does not, by its first cause. */
  lemma StartErrorIs(a: Attempt, durable: Lsn, waited: Duration, budget: Duration)
    ensures Starts(a, durable) <==>
            && a.slot.Found? && a.slot.walStatus != Some("lost")
            && (durable == 0 || a.slot.confirmedFlush.None? || a.slot.confirmedFlush.value <= durable)
            && a.connects && a.reply == Started
    ensures !Starts(a, durable) ==>
      StartError(a, durable, waited, budget) ==
        if a.slot == Unreachable then Connection
        else if a.slot == Missing then SlotMissing
        else if a.slot.walStatus == Some("lost") then SlotUnusable
        else if durable > 0 && a.slot.confirmedFlush.Some? && a.slot.confirmedFlush.value > durable then
          SlotAhead(a.slot.confirmedFlush.value, durable)
        else if !a.connects || a.reply == Transient then Connection
        else if a.reply == Refused then SlotUnusable
        else if waited >= budget then SlotBusyTimedOut(waited, budget) else Connection
  {
  }

  /** What the check of the slot comes to. */
  function SlotCheck(slot: SlotReply, durable: Lsn): Result<()> {
    if slot.Unreachable? then Err(Connection)
    else if slot.Missing? then Err(SlotMissing)
    else if slot.walStatus == Some("lost") then Err(SlotUnusable)
    else if durable > 0 && slot.confirmedFlush.Some? && slot.confirmedFlush.value > durable then
      Err(SlotAhead(slot.confirmedFlush.value, durable))
    else Ok(())
  }

  lemma SlotCheckFails(a: Attempt, durable: Lsn, waited: Duration, budget: Duration)
    requires SlotCheck(a.slot, durable).Err?
    ensures !Starts(a, durable) && !Checked(a, durable) && Observed(a, durable) == Other
    ensures StartError(a, durable, waited, budget) == SlotCheck(a.slot, durable).error
  {
  }

  lemma SlotCheckPasses(a: Attempt, durable: Lsn, waited: Duration, budget: Duration)
    requires SlotCheck(a.slot, durable).Ok?
    ensures Checked(a, durable)
    ensures IsReconnect(durable) ==> Guard.CheckReconnect(Some(SlotPosition(a.slot)), durable).Ok?
    ensures Starts(a, durable) <==> a.connects && a.reply.Started?
    ensures Observed(a, durable) == if a.connects then ObservationOf(a.reply, a.repliedAt) else Other
    ensures !Starts(a, durable) ==>
              StartError(a, durable, waited, budget) ==
                if !a.connects || a.reply == Transient then Connection
                else if a.reply == Refused then SlotUnusable
                else if waited >= budget then SlotBusyTimedOut(waited, budget) else Connection
  {
  }

  /** An attempt fails for lack of patience exactly when the history of attempts escalates with it. */
  lemma TimesOutWhenEscalating(a: Attempt, durable: Lsn, h: seq<Observation>, budget: Duration)
    requires h != [] && h[|h| - 1] == Observed(a, durable)
    ensures Starts(a, durable) ==> !Escalates(h, budget)
    ensures !Starts(a, durable) ==>
              var e := StartError(a, durable, After(h).accumulated, budget);
              if Escalates(h, budget) then e == SlotBusyTimedOut(After(h).accumulated, budget) else !e.SlotBusyTimedOut?
  {
    hide After;
  }

  function SlotPosition(slot: SlotReply): Lsn {
    if slot.Found? && slot.confirmedFlush.Some? then slot.confirmedFlush.value else 0
  }

  /** When the last barrier was tried, as of the first `k` turns. */
  function LastFlush(a: Attempt, interval: Duration, k: nat): nat
    requires k <= |a.turns|
  {
    if k == 0 then a.loopAt
    else
      var last := LastFlush(a, interval, k - 1);
      if Due(a.turns[k - 1].checkedAt, last, interval) then a.turns[k - 1].flushedAt else last
  }

  /** No barrier was tried in the first `k` turns: the clock still runs from when the loop was entered. */
  lemma {:induction false} FlushedLastAtStart(a: Attempt, interval: Duration, k: nat)
    requires k <= |a.turns| && forall i :: 0 <= i < k ==> !DueAt(a, interval, i)
    ensures LastFlush(a, interval, k) == a.loopAt
  {
    if k > 0 {
      FlushedLastAtStart(a, interval, k - 1);
      assert !DueAt(a, interval, k - 1);
    }
  }

  /** Otherwise it runs from the clock read just before the last barrier that was due. */
  lemma {:induction false} FlushedLastAt(a: Attempt, interval: Duration, j: nat, k: nat)
    requires j < k <= |a.turns| && DueAt(a, interval, j) && forall i :: j < i < k ==> !DueAt(a, interval, i)
    ensures LastFlush(a, interval, k) == a.turns[j].flushedAt
  {
    if j < k - 1 {
      FlushedLastAt(a, interval, j, k - 1);
      assert !DueAt(a, interval, k - 1);
    }
  }

  /** The steps of the first `k` turns, in all of which everything worked. */
  ghost predicate LoopActs(before: Node, a: Attempt, interval: Duration, k: nat, acts: seq<Action>, limit: nat)
    requires k <= |a.turns|
  {
    if k == 0 then acts == []
    else exists m ::
      && 0 <= m <= |acts| && LoopActs(before, a, interval, k - 1, acts[..m], limit)
      && Drive(before, acts[..m], limit).Some?
      && TurnActs(a.turns[k - 1], DueAt(a, interval, k - 1), Drive(before, acts[..m], limit).value, acts[m..], limit)
      && (EndsInAdvance(acts[m..]) ==> a.turns[k - 1].sendOk)
  }

  // How a turn ends the session.

  /** The frame cannot be taken: it encodes no message, or the assembler refuses the one it encodes. */
  ghost predicate FrameRefused(n: Node, read: Read, e: Error, limit: nat) {
    read.Raw? &&
    if exists m :: Encodes(read.payload, m) then
      exists m :: Encodes(read.payload, m) && Handle(n.life.asm, Frame(m, read.walStart), limit) == Err(e)
    else
      e == if read.payload != [] && read.payload[0] !in KINDS then UnsupportedMessage(read.payload[0]) else DecodeError
  }

  /** The frame completed a transaction, and one of its lines could not be written. */
  ghost predicate Torn(n: Node, read: Read, acts: seq<Action>, limit: nat) {
    && |acts| == 1 && Delivers(read, acts[0], 0)
    && Handle(n.life.asm, acts[0].frame, limit).Ok? && Handle(n.life.asm, acts[0].frame, limit).value.emitted.Some?
    && exists i :: 0 <= i < |Handle(n.life.asm, acts[0].frame, limit).value.emitted.value.changes| && read.io(i) == Failed
  }

  ghost predicate ReadFails(n: Node, read: Read, acts: seq<Action>, e: Error, limit: nat) {
    (acts == [] && FrameRefused(n, read, e, limit)) || (e == Error.Sink && Torn(n, read, acts, limit))
  }

  /** There was something to carry through the barrier, and it or the feedback failed. */
  ghost predicate BarrierFails(io: BarrierIo, n: Node, acts: seq<Action>, e: Error) {
    n.disk.pending.Some? &&
    if io.flushOk && io.syncOk then !io.sendOk && e == Connection && acts == [Barrier] else e == Error.Sink && acts == []
  }

  ghost predicate DueBarrierFails(t: Turn, due: bool, n: Node, acts: seq<Action>, e: Error, limit: nat) {
    due && exists m ::
      && 0 <= m <= |acts| && ReadActs(t.read, acts[..m]) && ReadWorks(n, t.read, acts[..m], limit)
      && Drive(n, acts[..m], limit).Some? && BarrierFails(t.barrier, Drive(n, acts[..m], limit).value, acts[m..], e)
  }

  ghost predicate AdvanceFails(t: Turn, due: bool, n: Node, acts: seq<Action>, e: Error, limit: nat) {
    && !t.sendOk && e == Connection && EndsInAdvance(acts) && TurnActs(t, due, n, acts, limit)
  }

  /** The turn that ends a session: the flag was read as set, the connection broke, or an error; each
      with what caused it. */
  ghost predicate TurnEnds(t: Turn, due: bool, n: Node, acts: seq<Action>, outcome: Result<SessionOutcome>, limit: nat) {
    match outcome
    case Ok(ShutdownRequested) =>
      t.shutdown && acts == [Barrier] && BarrierWorks(t.barrier, n.disk.pending)
    case Ok(Disconnected) => !t.shutdown && t.read.Broken? && acts == []
    case Err(e) =>
      if t.shutdown then BarrierFails(t.barrier, n, acts, e)
      else
        && !t.read.Broken?
        && (ReadFails(n, t.read, acts, e, limit) || DueBarrierFails(t, due, n, acts, e, limit) ||
            AdvanceFails(t, due, n, acts, e, limit))
  }

  /** None of the first `k` turns saw the flag or a broken connection. */
  predicate Undisturbed(a: Attempt, k: nat)
    requires k <= |a.turns|
  {
    forall i :: 0 <= i < k ==> !a.turns[i].shutdown && !a.turns[i].read.Broken?
  }

  predicate DueAt(a: Attempt, interval: Duration, k: nat)
    requires k < |a.turns|
  {
    Due(a.turns[k].checkedAt, LastFlush(a, interval, k), interval)
  }

  /** The steps of the loop and how it ended; with no outcome it is still going after all its turns. */
  ghost predicate LoopIs(n: Node, a: Attempt, interval: Duration, r: Option<Result<SessionOutcome>>, turns: nat,
      acts: seq<Action>, limit: nat)
  {
    turns <= |a.turns| &&
    if r.None? then turns == |a.turns| && Undisturbed(a, turns) && LoopActs(n, a, interval, turns, acts, limit)
    else turns > 0 && Undisturbed(a, turns - 1) && exists m :: LastTurnFrom(n, a, interval, r.value, turns, acts, m, limit)
  }

  /** The last turn begun ends the session, and its steps are those from `m` on. */
  ghost predicate LastTurnFrom(n: Node, a: Attempt, interval: Duration, outcome: Result<SessionOutcome>, turns: nat,
      acts: seq<Action>, m: nat, limit: nat)
    requires 0 < turns <= |a.turns|
  {
    var k := turns - 1;
    && m <= |acts| && LoopActs(n, a, interval, k, acts[..m], limit) && Drive(n, acts[..m], limit).Some?
    && TurnEnds(a.turns[k], DueAt(a, interval, k), Drive(n, acts[..m], limit).value, acts[m..], outcome, limit)
  }

  /** The slot was read and found fit to stream from. */
  predicate Checked(a: Attempt, durable: Lsn) {
    && a.slot.Found? && !Guard.SlotHealthIsTerminal(a.slot.walStatus)
    && (IsReconnect(durable) ==> Guard.CheckReconnect(a.slot.confirmedFlush, durable).Ok?)
  }

  /** A whole session: an attempt that does not start has its error, one that starts its loop. */
  ghost predicate SessionIs(n: Node, a: Attempt, waited: Duration, budget: Duration, interval: Duration,
      r: Option<Result<SessionOutcome>>, turns: nat, acts: seq<Action>, limit: nat)
  {
    var durable := n.life.tracker.durable;
    if !Starts(a, durable) then
      && turns == 0 && r == Some(Err(StartError(a, durable, waited, budget)))
      && acts == if Checked(a, durable) then [Preflight(SlotPosition(a.slot)), GiveUp] else []
    else
      && |acts| >= 2 && acts[..2] == [Preflight(SlotPosition(a.slot)), StartStream]
      && Drive(n, acts[..2], limit).Some?
      && LoopIs(Drive(n, acts[..2], limit).value, a, interval, r, turns, acts[2..], limit)
  }

  /** What the three parts of a turn that worked amount to. */
  lemma TurnWorked(t: Turn, due: bool, n: Node, read: seq<Action>, m: Node, barrier: seq<Action>, k: Node,
      last: seq<Action>, limit: nat)
    requires ReadActs(t.read, read) && ReadWorks(n, t.read, read, limit) && Went(n, read, limit, false, m)
    requires barrier == (if due then [Barrier] else []) && (due ==> BarrierWorks(t.barrier, m.disk.pending))
    requires Went(n, read + barrier, limit, false, k) && last == (if GateOpen(k) then [Advance] else [])
    ensures TurnActs(t, due, n, read + barrier + last, limit)
    ensures EndsInAdvance(read + barrier + last) <==> GateOpen(k)
  {
    hide ReadWorks, Drive, GateOpen, BarrierWorks;
    assert UpToAdvance(t, due, n, read, limit);
  }

  /** An attempt that finds the slot ahead of what is durable takes no step, whatever the attempts
      before it did: each reads the slot anew. */
  lemma AheadSlotStopsAttempt(n: Node, a: Attempt, waited: Duration, budget: Duration, interval: Duration,
      r: Option<Result<SessionOutcome>>, turns: nat, acts: seq<Action>, limit: nat)
    requires SessionIs(n, a, waited, budget, interval, r, turns, acts, limit)
    requires a.slot.Found? && SlotPosition(a.slot) > n.life.tracker.durable > 0
    ensures acts == [] && turns == 0
    ensures r == Some(Err(if Guard.SlotHealthIsTerminal(a.slot.walStatus) then SlotUnusable
                          else SlotAhead(SlotPosition(a.slot), n.life.tracker.durable)))
  {
    hide LoopIs, Drive;
  }

  /** Steps that opened a stream. */
  predicate Opened(acts: seq<Action>) {
    |acts| >= 2 && acts[1] == StartStream
  }

  lemma NoMessage(n: Node, read: Read, e: Error, limit: nat)
    requires read.Raw? && forall m :: !Encodes(read.payload, m)
    requires e == if read.payload != [] && read.payload[0] !in KINDS then UnsupportedMessage(read.payload[0]) else DecodeError
    ensures ReadFails(n, read, [], e, limit)
  {
    hide Encodes;
  }

  lemma NotHandled(n: Node, read: Read, f: Frame, e: Error, limit: nat)
    requires read.Raw? && Encodes(read.payload, f.msg) && f.walStart == read.walStart
    requires Handle(n.life.asm, f, limit) == Err(e)
    ensures ReadFails(n, read, [], e, limit)
  {
    hide Encodes, Handle;
  }

  lemma NotWritten(n: Node, read: Read, f: Frame, i: nat, limit: nat)
    requires read.Raw? && Encodes(read.payload, f.msg) && f.walStart == read.walStart
    requires Handle(n.life.asm, f, limit).Ok? && Handle(n.life.asm, f, limit).value.emitted.Some?
    requires i < |Handle(n.life.asm, f, limit).value.emitted.value.changes| && read.io(i) == Failed
    ensures ReadFails(n, read, [Deliver(f, read.walEnd, read.position, 0)], Error.Sink, limit)
  {
    hide Encodes, Handle;
  }

  lemma ReadEnds(t: Turn, due: bool, n: Node, acts: seq<Action>, e: Error, limit: nat)
    requires !t.shutdown && !t.read.Broken? && ReadFails(n, t.read, acts, e, limit)
    ensures TurnEnds(t, due, n, acts, Err(e), limit)
  {
    hide ReadFails, DueBarrierFails, AdvanceFails;
  }

  lemma BarrierEnds(t: Turn, n: Node, read: seq<Action>, m: Node, last: seq<Action>, e: Error, limit: nat)
    requires !t.shutdown && !t.read.Broken? && ReadActs(t.read, read) && ReadWorks(n, t.read, read, limit)
    requires Went(n, read, limit, false, m)
    requires BarrierFails(t.barrier, m, last, e)
    ensures TurnEnds(t, true, n, read + last, Err(e), limit)
  {
    hide ReadFails, AdvanceFails, BarrierFails, ReadActs, ReadWorks, Drive;
    assert (read + last)[..|read|] == read && (read + last)[|read|..] == last;
  }

  lemma AdvanceEnds(t: Turn, due: bool, n: Node, acts: seq<Action>, limit: nat)
    requires !t.shutdown && !t.read.Broken? && !t.sendOk
    requires EndsInAdvance(acts) && TurnActs(t, due, n, acts, limit)
    ensures TurnEnds(t, due, n, acts, Err(Connection), limit)
  {
    hide ReadFails, DueBarrierFails, TurnActs;
  }

  lemma DrainEnds(t: Turn, due: bool, n: Node, acts: seq<Action>, outcome: Result<SessionOutcome>, limit: nat)
    requires t.shutdown
    requires if outcome.Ok? then outcome == Ok(ShutdownRequested) && acts == [Barrier] &&
                                 BarrierWorks(t.barrier, n.disk.pending)
             else BarrierFails(t.barrier, n, acts, outcome.error)
    ensures TurnEnds(t, due, n, acts, outcome, limit)
  {
    hide BarrierFails;
  }

  lemma BrokenEnds(t: Turn, due: bool, n: Node, limit: nat)
    requires !t.shutdown && t.read.Broken?
    ensures TurnEnds(t, due, n, [], Ok(Disconnected), limit)
  {
  }

  lemma GoesOn(n: Node, a: Attempt, interval: Duration, acts: seq<Action>, limit: nat)
    requires Undisturbed(a, |a.turns|) && LoopActs(n, a, interval, |a.turns|, acts, limit)
    ensures LoopIs(n, a, interval, None, |a.turns|, acts, limit)
  {
  }

  lemma LoopEndsWith(n: Node, a: Attempt, interval: Duration, outcome: Result<SessionOutcome>, turns: nat, loop: seq<Action>,
      m: Node, last: seq<Action>, limit: nat)
    requires 0 < turns <= |a.turns| && Undisturbed(a, turns - 1)
    requires LoopActs(n, a, interval, turns - 1, loop, limit) && Went(n, loop, limit, false, m)
    requires TurnEnds(a.turns[turns - 1], DueAt(a, interval, turns - 1), m, last, outcome, limit)
    ensures LoopIs(n, a, interval, Some(outcome), turns, loop + last, limit)
  {
    hide TurnEnds, LoopActs;
    assert (loop + last)[..|loop|] == loop && (loop + last)[|loop|..] == last;
    assert LastTurnFrom(n, a, interval, outcome, turns, loop + last, |loop|, limit);
  }

  lemma LoopStarts(n: Node, a: Attempt, interval: Duration, limit: nat)
    ensures Went(n, [], limit, false, n) && LoopActs(n, a, interval, 0, [], limit)
  {
  }

  lemma LoopGrows(before: Node, a: Attempt, interval: Duration, next: nat, loop: seq<Action>, n: Node,
        more: seq<Action>, limit: nat)
    requires 0 < next <= |a.turns|
    requires LoopActs(before, a, interval, next - 1, loop, limit) && Went(before, loop, limit, false, n)
    requires TurnActs(a.turns[next - 1], DueAt(a, interval, next - 1), n, more, limit)
    requires EndsInAdvance(more) ==> a.turns[next - 1].sendOk
    ensures LoopActs(before, a, interval, next, loop + more, limit)
  {
    hide TurnActs;
    var m := |loop|;
    assert (loop + more)[..m] == loop && (loop + more)[m..] == more;
  }
}
