/**
 The acknowledgement protocol as a step system: a server with its slot, the wire, one process
 life after another, and the output file.

 What is assumed of the server and the wire is in `Enabled`, and nowhere else:
 - transactions end at increasing positions, and later ones beyond every position announced;
 - a session replays, in commit order, the transactions that end above the slot's position at
   its start, and its messages denote them (`Denotes`);
 - a position announced in a session is not beyond a transaction whose BEGIN was not yet sent,
   and a keepalive is not below the session's start;
 - the server applies at most a value that was sent to it, and forgets what it has not applied
   when a new session takes the slot. The slot may even move back;
 - someone else can move the slot only while no session holds it, and then feedback that was not
   applied yet is forgotten too.
 */
module Protocol {
  import opened Prelude
  import opened Tracker
  import opened Transactions
  import opened Assembly
  import opened Sinks
  import Guard

  /** A replication session; `cursor` counts the transactions up to the next one to commit. */
  datatype Session = Session(start: Lsn, cursor: nat, inTx: bool, position: Lsn, sent: seq<Frame>)

  /** One life of the process. `connected`: it has streamed; `ready`: it is in an attempt that has
      checked the slot and not started the stream yet. */
  datatype Life = Life(tracker: Positions, asm: AsmState, feedback: seq<Lsn>, connected: bool, ready: bool)

  datatype State = State(
    origin: Lsn,             // the slot's position at first launch
    log: seq<Transaction>,   // the transactions committed above it
    walEnd: Lsn,
    confirmed: Lsn,          // the slot's position now
    inflight: set<Lsn>,      // feedback the server may still apply
    session: Option<Session>,
    life: Option<Life>,
    disk: SinkState)

  datatype Action =
    | WalGrows(to: Lsn)
    | ServerCommit(tx: Transaction)
    | Preflight(slot: Lsn)
    | StartStream
    | GiveUp
    | Deliver(frame: Frame, walEnd: Lsn, position: Lsn, buffered: nat)
    | Keepalive(at: Lsn)
    | Barrier
    | Advance
    | ApplyFeedback(value: Lsn)
    | WriteBack(lines: nat)
    | Disconnect
    | Crash(synced: nat, kept: nat)
    | Restart
    | ForeignAdvance(slot: Lsn)

  // The process's own decisions.

  predicate MayAdvanceFromKeepalive(assemblerEmpty: bool, processed: Lsn, durable: Lsn) {
    assemblerEmpty && processed <= durable
  }

  predicate IsReconnect(durable: Lsn) {
    durable > 0
  }

  function FreshLife(): Life {
    Life(ZERO, FRESH, [], false, false)
  }

  /** Mark durable, acknowledge, and send what the tracker acknowledged. */
  function Acknowledge(life: Life, lsn: Lsn): Life {
    var tracker := life.tracker.Acknowledge(lsn);
    life.(tracker := tracker, feedback := life.feedback + [tracker.acked])
  }

  // The positions of the log.

  predicate Increasing(log: seq<Transaction>) {
    forall i, j :: 0 <= i < j < |log| ==> log[i].endLsn < log[j].endLsn
  }

  /** The index of the first transaction that ends above `v`. */
  function FirstAbove(log: seq<Transaction>, v: Lsn): (c: nat)
    ensures c <= |log|
    ensures Increasing(log) ==> forall i :: 0 <= i < |log| ==> (i < c <==> log[i].endLsn <= v)
  {
    if log == [] || log[|log| - 1].endLsn <= v then |log| else FirstAbove(log[..|log| - 1], v)
  }

  /** No transaction from number `begun` on ends at or below `position`. */
  ghost predicate Announceable(log: seq<Transaction>, position: Lsn, begun: nat) {
    forall i :: begun <= i < |log| ==> position < log[i].endLsn
  }

  // The lines of the output.

  function EventKey(line: Line): (Lsn, u32) {
    (line.change.lsn, line.eventIndex)
  }

  ghost predicate AllIn(part: seq<Line>, lines: seq<Line>) {
    forall k :: 0 <= k < |part| ==> part[k] in lines
  }

  /** The event stream of the first `n` transactions. */
  function EventsTo(log: seq<Transaction>, n: nat): seq<Line>
    requires n <= |log|
  {
    if n == 0 then [] else EventsTo(log, n - 1) + log[n - 1].changes
  }

  function Events(log: seq<Transaction>): seq<Line> {
    EventsTo(log, |log|)
  }

  ghost predicate DistinctKeys(lines: seq<Line>) {
    forall i, j :: 0 <= i < j < |lines| ==> EventKey(lines[i]) != EventKey(lines[j])
  }

  /** Events are numbered by position, and no other transaction has a change at the same LSN. */
  ghost predicate FreshKeys(log: seq<Transaction>, tx: Transaction) {
    && (forall k :: 0 <= k < |tx.changes| ==> tx.changes[k].eventIndex == k)
    && (forall k, j :: 0 <= k < |tx.changes| && 0 <= j < |Events(log)| ==>
          tx.changes[k].change.lsn != Events(log)[j].change.lsn)
  }

  /** The messages of the session, ended by `commit`, say exactly that `tx` happened. */
  ghost predicate Denotes(sent: seq<Frame>, commit: Frame, tx: Transaction) {
    var h, n := sent + [commit], |sent|;
    commit.msg.Commit? &&
    exists b :: OpenSince(h, b, n) && |Between(map[], h, b, n)| < TWO32 && Denoted(map[], h, b, n) == tx
  }

  ghost predicate DeliverEnabled(s: State, f: Frame, position: Lsn)
    requires s.session.Some?
  {
    var w := s.session.value;
    && position <= s.walEnd
    && Announceable(s.log, position, w.cursor + if w.inTx || f.msg.Begin? then 1 else 0)
    && match f.msg
       case Begin(_, _, _) => !w.inTx && w.cursor < |s.log|
       case Commit(_, _, _, _) =>
         w.inTx && w.cursor < |s.log| && Denotes(w.sent, f, s.log[w.cursor]) && s.log[w.cursor].endLsn <= position
       case _ => w.inTx
  }

  ghost predicate Enabled(s: State, a: Action, limit: nat) {
    match a
    case WalGrows(to) => s.walEnd <= to
    case ServerCommit(tx) => s.walEnd < tx.endLsn && FreshKeys(s.log, tx)
    case Preflight(slot) => s.life.Some? && s.session.None? && !s.life.value.ready && slot == s.confirmed
    case StartStream => s.life.Some? && s.session.None? && s.life.value.ready
    case GiveUp => s.life.Some? && s.session.None? && s.life.value.ready
    case Deliver(f, _, position, _) => s.life.Some? && s.session.Some? && DeliverEnabled(s, f, position)
    case Keepalive(at) =>
      && s.life.Some? && s.session.Some? && s.session.value.start <= at <= s.walEnd
      && Announceable(s.log, at, s.session.value.cursor + if s.session.value.inTx then 1 else 0)
    case Barrier => s.life.Some? && s.session.Some?
    case Advance =>
      && s.life.Some? && s.session.Some?
      && var t := s.life.value.tracker;
         MayAdvanceFromKeepalive(s.life.value.asm.open.None?, t.processed, t.durable) &&
         s.session.value.position > t.acked
    case ApplyFeedback(v) => s.origin <= v && exists sent :: sent in s.inflight && v <= sent
    case WriteBack(n) => n <= |s.disk.kernel|
    case Disconnect => s.life.Some? && s.session.Some?
    case Crash(synced, kept) => |s.disk.device| <= synced <= kept <= |s.disk.Contents()|
    case Restart => s.life.None?
    case ForeignAdvance(v) => s.session.None? && v <= s.walEnd
  }

  /** The process is gone; what its writer still buffered goes to the kernel as it is dropped. */
  function Die(s: State): State {
    s.(life := None, session := None,
       disk := SinkState(s.disk.device, s.disk.kernel + s.disk.buffer, [], None))
  }

  lemma SplitKeepsLines(device: seq<Line>, lines: seq<Line>, k: nat)
    requires k <= |lines|
    ensures device + lines[..k] + lines[k..] == device + lines
  {
    assert lines[..k] + lines[k..] == lines;
  }

  /** The sink after it accepted `tx`, with the last `buffered` lines still in the writer's buffer. */
  function Accepted(disk: SinkState, tx: Transaction, buffered: nat): (after: SinkState)
    ensures disk.Accepts(tx, after)
  {
    var lines := disk.kernel + disk.buffer + tx.changes;
    var k := if buffered <= |lines| then |lines| - buffered else 0;
    SplitKeepsLines(disk.device, lines, k);
    assert disk.device + lines == disk.Contents() + tx.changes;
    SinkState(disk.device, lines[..k], lines[k..], Some(tx.endLsn))
  }

  function DeliverNext(s: State, f: Frame, walEnd: Lsn, position: Lsn, buffered: nat, limit: nat): State
    requires s.life.Some? && s.session.Some?
  {
    var life, w := s.life.value, s.session.value;
    match Handle(life.asm, f, limit)
    case Err(_) => Die(s)
    case Ok(step) =>
      var tracker := life.tracker.NoteReceived(walEnd);
      var w' := w.(position := position, sent := w.sent + [f],
                   inTx := if f.msg.Begin? then true else if f.msg.Commit? then false else w.inTx,
                   cursor := if f.msg.Commit? then w.cursor + 1 else w.cursor);
      if step.emitted.None? then
        s.(session := Some(w'), life := Some(life.(tracker := tracker, asm := step.state)))
      else
        var tx := step.emitted.value;
        s.(session := Some(w'),
           life := Some(life.(tracker := tracker.NoteProcessed(tx.endLsn), asm := step.state)),
           disk := Accepted(s.disk, tx, buffered))
  }

  function BarrierNext(s: State): State
    requires s.life.Some?
  {
    var (disk, durable) := s.disk.Barrier();
    if durable.None? then s
    else
      var life := Acknowledge(s.life.value, durable.value);
      s.(disk := disk, life := Some(life), inflight := s.inflight + {life.tracker.acked})
  }

  function AdvanceNext(s: State): State
    requires s.life.Some? && s.session.Some?
  {
    var life := Acknowledge(s.life.value, s.session.value.position);
    s.(life := Some(life), inflight := s.inflight + {life.tracker.acked})
  }

  function PreflightNext(s: State): State
    requires s.life.Some?
  {
    var durable := s.life.value.tracker.durable;
    if IsReconnect(durable) && Guard.CheckReconnect(Some(s.confirmed), durable).Err? then Die(s)
    else s.(life := Some(s.life.value.(ready := true)))
  }

  function StartNext(s: State): State
    requires s.life.Some?
  {
    s.(session := Some(Session(s.confirmed, FirstAbove(s.log, s.confirmed), false, 0, [])),
       life := Some(s.life.value.(connected := true, ready := false)), inflight := {})
  }

  function CrashNext(s: State, synced: nat, kept: nat): State
    requires synced <= kept <= |s.disk.Contents()|
  {
    var lines := s.disk.Contents();
    s.(life := None, session := None, disk := SinkState(lines[..synced], lines[synced..kept], [], None))
  }

  ghost function Next(s: State, a: Action, limit: nat): State
    requires Enabled(s, a, limit)
  {
    match a
    case WalGrows(to) => s.(walEnd := to)
    case ServerCommit(tx) => s.(log := s.log + [tx], walEnd := tx.endLsn)
    case Preflight(slot) => PreflightNext(s)
    case StartStream => StartNext(s)
    case GiveUp => s.(life := Some(s.life.value.(ready := false)))
    case Deliver(f, walEnd, position, buffered) => DeliverNext(s, f, walEnd, position, buffered, limit)
    case Keepalive(at) => s.(session := Some(s.session.value.(position := at)))
    case Barrier => BarrierNext(s)
    case Advance => AdvanceNext(s)
    case ApplyFeedback(v) => s.(confirmed := v)
    case WriteBack(n) =>
      s.(disk := s.disk.(device := s.disk.device + s.disk.kernel[..n], kernel := s.disk.kernel[n..]))
    case Disconnect => s.(session := None, life := Some(s.life.value.(asm := FRESH)))
    case Crash(synced, kept) => CrashNext(s, synced, kept)
    case Restart => s.(life := Some(FreshLife()))
    case ForeignAdvance(v) => s.(confirmed := v, inflight := {})
  }

  ghost predicate Initial(s: State) {
    && s.log == [] && s.confirmed == s.origin <= s.walEnd && s.inflight == {}
    && s.session == None && s.life == None && s.disk == SinkState([], [], [], None)
  }

  /** Where a sequence of steps leads, if each of them is enabled in turn. */
  ghost function Exec(s: State, acts: seq<Action>, limit: nat): Option<State> {
    if acts == [] then Some(s)
    else
      var before := Exec(s, acts[..|acts| - 1], limit);
      if before.Some? && Enabled(before.value, acts[|acts| - 1], limit)
      then Some(Next(before.value, acts[|acts| - 1], limit)) else None
  }

  /** Nobody else moved the slot. */
  predicate NoForeign(acts: seq<Action>) {
    forall a <- acts :: !a.ForeignAdvance?
  }
}
