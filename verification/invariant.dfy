/** What every step of the acknowledgement protocol keeps. */
module Invariant {
  import opened Prelude
  import opened Tracker
  import opened Transactions
  import opened Assembly
  import opened Sinks
  import opened Protocol

  /** Every transaction that ends at or below `v` is in `lines`, all of it. */
  ghost predicate Covered(log: seq<Transaction>, lines: seq<Line>, v: Lsn) {
    forall i :: 0 <= i < |log| && log[i].endLsn <= v ==> AllIn(log[i].changes, lines)
  }

  ghost predicate ServerOk(s: State) {
    && Increasing(s.log)
    && (forall i :: 0 <= i < |s.log| ==> s.origin < s.log[i].endLsn <= s.walEnd)
    && s.origin <= s.confirmed <= s.walEnd
    && (forall v <- s.inflight :: v <= s.walEnd)
  }

  /** What may ever be given up is on the device: the heart of the matter. */
  ghost predicate SafeOk(s: State) {
    && Covered(s.log, s.disk.device, s.confirmed)
    && (forall v <- s.inflight :: Covered(s.log, s.disk.device, v))
    && (s.life.Some? ==> Covered(s.log, s.disk.device, s.life.value.tracker.durable))
    && (s.session.Some? ==> Covered(s.log, s.disk.device, s.session.value.start))
  }

  ghost predicate Ascending(f: seq<Lsn>) {
    forall i, j :: 0 <= i <= j < |f| ==> f[i] <= f[j]
  }

  ghost predicate TrackerOk(s: State) {
    s.life.Some? ==>
      var t, f := s.life.value.tracker, s.life.value.feedback;
      && t.acked <= t.durable <= s.walEnd && t.processed <= s.walEnd
      && Ascending(f) && t.acked == (if f == [] then 0 else f[|f| - 1])
      && (t.processed > 0 ==> exists i :: 0 <= i < |s.log| && s.log[i].endLsn == t.processed)
  }

  /** Nothing is buffered without a position to show for it, and everything up to that position
      was written. */
  ghost predicate SinkOk(s: State) {
    match s.disk.pending
    case None => s.disk.buffer == []
    case Some(p) =>
      && s.life.Some? && s.life.value.connected
      && 0 < p <= s.life.value.tracker.processed
      && Covered(s.log, s.disk.Contents(), p)
  }

  ghost predicate SessionOk(s: State) {
    s.session.Some? ==>
      var w := s.session.value;
      && s.life.Some? && s.life.value.connected
      && w.cursor <= |s.log| && w.start <= s.walEnd && w.position <= s.walEnd
      && (w.inTx ==> w.cursor < |s.log|)
      && Announceable(s.log, w.position, w.cursor + if w.inTx then 1 else 0)
      && (forall i :: 0 <= i < w.cursor ==> AllIn(s.log[i].changes, s.disk.Contents()))
      && (forall i :: 0 <= i < w.cursor ==>
            s.log[i].endLsn <= w.start || s.log[i].endLsn <= s.life.value.tracker.processed)
      && (forall i :: w.cursor <= i < |s.log| ==> w.start < s.log[i].endLsn)
      && (!w.inTx && w.position > 0 ==> w.start <= w.position)
  }

  /** The assembler is where the messages of this session lead from a reset one. */
  ghost predicate AssemblyOk(s: State, limit: nat) {
    s.life.Some? ==>
      match s.session
      case None => s.life.value.asm == FRESH
      case Some(w) =>
        var run := RunTo(FRESH, w.sent, |w.sent|, limit);
        run.Ok? && run.value.state == s.life.value.asm && (w.inTx <==> s.life.value.asm.open.Some?)
  }

  /** A transaction accepted but not durable is either what the next barrier reports or still to come. */
  ghost predicate Owed(s: State)
    requires s.life.Some?
  {
    var t := s.life.value.tracker;
    || s.disk.pending == Some(t.processed)
    || (s.session.Some? && exists i :: s.session.value.cursor <= i < |s.log| && s.log[i].endLsn == t.processed)
    || (s.session.None? && s.confirmed < t.processed &&
        exists i :: 0 <= i < |s.log| && s.log[i].endLsn == t.processed)
  }

  ghost predicate SlotOk(s: State) {
    s.life.Some? ==>
      var t := s.life.value.tracker;
      if s.life.value.connected then
        && (forall v <- s.inflight :: v <= t.durable)
        && (t.durable > 0 ==> s.confirmed <= t.durable)
        && (s.session.Some? ==> s.confirmed <= Max(s.session.value.start, t.durable))
        && (s.disk.pending.Some? ==> s.disk.pending.value <= t.durable || s.confirmed < s.disk.pending.value)
        && (t.processed > t.durable ==> s.confirmed < t.processed && Owed(s))
      else
        t == ZERO && s.life.value.feedback == [] && s.session.None?
  }

  ghost predicate Inv(s: State, limit: nat) {
    && ServerOk(s) && SafeOk(s) && TrackerOk(s) && SinkOk(s) && SessionOk(s) && AssemblyOk(s, limit) && SlotOk(s)
  }

  // Lines only move towards the device.

  lemma MoreLines(log: seq<Transaction>, lines: seq<Line>, more: seq<Line>, v: Lsn)
    requires Covered(log, lines, v) && forall l <- lines :: l in more
    ensures Covered(log, more, v)
  {
    forall i | 0 <= i < |log| && log[i].endLsn <= v
      ensures AllIn(log[i].changes, more)
    {
      assert AllIn(log[i].changes, lines);
    }
  }

  lemma LowerPosition(log: seq<Transaction>, lines: seq<Line>, v: Lsn, u: Lsn)
    requires Covered(log, lines, v) && u <= v
    ensures Covered(log, lines, u)
  {
  }

  lemma MoreLog(log: seq<Transaction>, tx: Transaction, lines: seq<Line>, v: Lsn)
    requires Covered(log, lines, v) && v < tx.endLsn
    ensures Covered(log + [tx], lines, v)
  {
    forall i | 0 <= i < |log + [tx]| && (log + [tx])[i].endLsn <= v
      ensures AllIn((log + [tx])[i].changes, lines)
    {
      assert i < |log|;
    }
  }

  /** Replacing the disk by one whose device holds at least as much keeps what is safe. */
  lemma SafeOnLargerDevice(s: State, t: State)
    requires SafeOk(s) && (forall l <- s.disk.device :: l in t.disk.device)
    requires t.log == s.log && t.confirmed == s.confirmed && t.inflight <= s.inflight
    requires t.life.Some? ==> s.life.Some? && t.life.value.tracker.durable == s.life.value.tracker.durable
    requires t.session.Some? ==> s.session.Some? && t.session.value.start == s.session.value.start
    ensures SafeOk(t)
  {
    MoreLines(s.log, s.disk.device, t.disk.device, s.confirmed);
    forall v | v in t.inflight ensures Covered(t.log, t.disk.device, v) {
      MoreLines(s.log, s.disk.device, t.disk.device, v);
    }
    if t.life.Some? {
      MoreLines(s.log, s.disk.device, t.disk.device, s.life.value.tracker.durable);
    }
    if t.session.Some? {
      MoreLines(s.log, s.disk.device, t.disk.device, s.session.value.start);
    }
  }

  // The steps, one by one.

  lemma WalGrowsKeeps(s: State, to: Lsn, limit: nat)
    requires Inv(s, limit) && Enabled(s, WalGrows(to), limit)
    ensures Inv(Next(s, WalGrows(to), limit), limit)
  {
    hide RunTo, Handle;
  }

  lemma CommitKeeps(s: State, tx: Transaction, limit: nat)
    requires Inv(s, limit) && Enabled(s, ServerCommit(tx), limit)
    ensures Inv(Next(s, ServerCommit(tx), limit), limit)
  {
    hide RunTo, Handle, SafeOk, SlotOk, SessionOk, Covered;
    var t := Next(s, ServerCommit(tx), limit);
    assert forall i :: 0 <= i < |s.log| ==> t.log[i] == s.log[i];
    CommitSafe(s, tx);
    if s.disk.pending.Some? {
      MoreLog(s.log, tx, s.disk.Contents(), s.disk.pending.value);
    }
    CommitOwed(s, tx);
    CommitSession(s, tx);
    assert SinkOk(t);
  }

  lemma CommitSafe(s: State, tx: Transaction)
    requires ServerOk(s) && SafeOk(s) && TrackerOk(s) && SessionOk(s) && s.walEnd < tx.endLsn
    ensures SafeOk(s.(log := s.log + [tx], walEnd := tx.endLsn))
  {
    MoreLog(s.log, tx, s.disk.device, s.confirmed);
    forall v | v in s.inflight ensures Covered(s.log + [tx], s.disk.device, v) {
      MoreLog(s.log, tx, s.disk.device, v);
    }
    if s.life.Some? {
      MoreLog(s.log, tx, s.disk.device, s.life.value.tracker.durable);
    }
    if s.session.Some? {
      MoreLog(s.log, tx, s.disk.device, s.session.value.start);
    }
  }

  lemma CommitSession(s: State, tx: Transaction)
    requires ServerOk(s) && SessionOk(s) && s.walEnd < tx.endLsn
    ensures SessionOk(s.(log := s.log + [tx], walEnd := tx.endLsn))
  {
  }

  lemma CommitOwed(s: State, tx: Transaction)
    requires ServerOk(s) && TrackerOk(s) && SlotOk(s) && s.walEnd < tx.endLsn
    ensures TrackerOk(s.(log := s.log + [tx], walEnd := tx.endLsn))
    ensures SlotOk(s.(log := s.log + [tx], walEnd := tx.endLsn))
  {
    var t := s.(log := s.log + [tx], walEnd := tx.endLsn);
    if s.life.Some? && s.life.value.tracker.processed > 0 {
      var i :| 0 <= i < |s.log| && s.log[i].endLsn == s.life.value.tracker.processed;
      assert t.log[i].endLsn == t.life.value.tracker.processed;
      if s.session.Some? && Owed(s) && s.disk.pending != Some(s.life.value.tracker.processed) {
        var k :| s.session.value.cursor <= k < |s.log| && s.log[k].endLsn == s.life.value.tracker.processed;
        assert t.log[k].endLsn == t.life.value.tracker.processed;
      }
    }
  }

  lemma PreflightKeeps(s: State, slot: Lsn, limit: nat)
    requires Inv(s, limit) && Enabled(s, Preflight(slot), limit)
    ensures Inv(Next(s, Preflight(slot), limit), limit)
    ensures Next(s, Preflight(slot), limit).life.Some?
  {
    hide RunTo, Handle;
  }

  lemma StartKeeps(s: State, limit: nat)
    requires Inv(s, limit) && Enabled(s, StartStream, limit)
    ensures Inv(Next(s, StartStream, limit), limit)
  {
    hide Handle;
    var t := Next(s, StartStream, limit);
    var w := t.session.value;
    forall i | 0 <= i < w.cursor
      ensures AllIn(s.log[i].changes, s.disk.Contents())
    {
      assert AllIn(s.log[i].changes, s.disk.device);
    }
  }

  lemma GiveUpKeeps(s: State, limit: nat)
    requires Inv(s, limit) && Enabled(s, GiveUp, limit)
    ensures Inv(Next(s, GiveUp, limit), limit)
  {
    hide RunTo, Handle;
  }

  lemma KeepaliveKeeps(s: State, at: Lsn, limit: nat)
    requires Inv(s, limit) && Enabled(s, Keepalive(at), limit)
    ensures Inv(Next(s, Keepalive(at), limit), limit)
  {
    hide RunTo, Handle;
  }

  lemma BarrierKeeps(s: State, limit: nat)
    requires Inv(s, limit) && Enabled(s, Barrier, limit)
    ensures Inv(Next(s, Barrier, limit), limit)
  {
    hide RunTo, Handle, SafeOk, SlotOk;
    if s.disk.pending.Some? {
      BarrierSafe(s);
      assert BarrierNext(s).disk.Contents() == s.disk.Contents();
      BarrierSlot(s);
    }
  }

  lemma BarrierSlot(s: State)
    requires s.life.Some? && s.disk.pending.Some? && SinkOk(s) && TrackerOk(s) && SlotOk(s)
    ensures SlotOk(BarrierNext(s))
  {
    var t := BarrierNext(s);
    assert s.disk.pending.value <= t.life.value.tracker.durable;
  }

  lemma BarrierSafe(s: State)
    requires s.life.Some? && s.disk.pending.Some? && SafeOk(s) && SinkOk(s) && TrackerOk(s)
    ensures SafeOk(BarrierNext(s))
  {
    var t := BarrierNext(s);
    var d := s.disk.Contents();
    MoreLines(s.log, s.disk.device, d, s.confirmed);
    MoreLines(s.log, s.disk.device, d, s.life.value.tracker.durable);
    assert Covered(s.log, d, t.life.value.tracker.durable);
    LowerPosition(s.log, d, t.life.value.tracker.durable, t.life.value.tracker.acked);
    forall v | v in t.inflight ensures Covered(s.log, d, v) {
      if v in s.inflight {
        MoreLines(s.log, s.disk.device, d, v);
      }
    }
    if s.session.Some? {
      MoreLines(s.log, s.disk.device, d, s.session.value.start);
    }
  }

  /**
   Whenever the gate is open, every transaction that ends at or below the position announced
   so far is on the device already.
   */
  lemma OpenGateIsSound(s: State, limit: nat)
    requires Inv(s, limit) && s.life.Some? && s.session.Some?
    requires MayAdvanceFromKeepalive(s.life.value.asm.open.None?,
               s.life.value.tracker.processed, s.life.value.tracker.durable)
    ensures Covered(s.log, s.disk.device, s.session.value.position)
  {
    hide RunTo, Handle;
    var w, t := s.session.value, s.life.value.tracker;
    forall i | 0 <= i < |s.log| && s.log[i].endLsn <= w.position
      ensures AllIn(s.log[i].changes, s.disk.device)
    {
      assert i < w.cursor;
    }
  }

  lemma AdvanceKeeps(s: State, limit: nat)
    requires Inv(s, limit) && Enabled(s, Advance, limit)
    ensures Inv(Next(s, Advance, limit), limit)
  {
    hide RunTo, Handle, SafeOk, SlotOk;
    OpenGateIsSound(s, limit);
    AdvanceSafe(s);
    AdvanceSlot(s, limit);
  }

  lemma AdvanceSlot(s: State, limit: nat)
    requires Enabled(s, Advance, limit) && SessionOk(s) && AssemblyOk(s, limit) && TrackerOk(s) && SlotOk(s)
    ensures SlotOk(AdvanceNext(s))
  {
    hide RunTo;
    assert !s.session.value.inTx;
  }

  lemma AdvanceSafe(s: State)
    requires s.life.Some? && s.session.Some? && SafeOk(s) && TrackerOk(s)
    requires Covered(s.log, s.disk.device, s.session.value.position)
    ensures SafeOk(AdvanceNext(s))
  {
    var t := AdvanceNext(s);
    LowerPosition(s.log, s.disk.device, t.life.value.tracker.durable, t.life.value.tracker.acked);
  }

  lemma ApplyKeeps(s: State, v: Lsn, limit: nat)
    requires Inv(s, limit) && Enabled(s, ApplyFeedback(v), limit)
    ensures Inv(Next(s, ApplyFeedback(v), limit), limit)
  {
    hide RunTo, Handle, AllIn;
    var sent :| sent in s.inflight && v <= sent;
    LowerPosition(s.log, s.disk.device, sent, v);
  }

  lemma WrittenBack(d: SinkState, n: nat)
    requires n <= |d.kernel|
    ensures var e := d.(device := d.device + d.kernel[..n], kernel := d.kernel[n..]);
            e.Contents() == d.Contents() && forall l <- d.device :: l in e.device
  {
    assert d.kernel[..n] + d.kernel[n..] == d.kernel;
    assert d.device + d.kernel[..n] + d.kernel[n..] == d.device + d.kernel;
  }

  /** The same lines in the same buffer, only closer to the device. */
  lemma CloserToDevice(s: State, t: State, limit: nat)
    requires Inv(s, limit) && t == s.(disk := t.disk) && t.disk.Contents() == s.disk.Contents()
    requires t.disk.buffer == s.disk.buffer && t.disk.pending == s.disk.pending
    requires forall l <- s.disk.device :: l in t.disk.device
    ensures Inv(t, limit)
  {
    hide RunTo, Handle, SafeOk, Covered, AllIn;
    SafeOnLargerDevice(s, t);
  }

  lemma WriteBackKeeps(s: State, n: nat, limit: nat)
    requires Inv(s, limit) && Enabled(s, WriteBack(n), limit)
    ensures Inv(Next(s, WriteBack(n), limit), limit)
  {
    hide Inv;
    WrittenBack(s.disk, n);
    CloserToDevice(s, Next(s, WriteBack(n), limit), limit);
  }

  lemma DisconnectKeeps(s: State, limit: nat)
    requires Inv(s, limit) && Enabled(s, Disconnect, limit)
    ensures Inv(Next(s, Disconnect, limit), limit)
  {
    hide RunTo, Handle;
  }

  lemma CrashKeeps(s: State, synced: nat, kept: nat, limit: nat)
    requires Inv(s, limit) && Enabled(s, Crash(synced, kept), limit)
    ensures Inv(Next(s, Crash(synced, kept), limit), limit)
  {
    hide RunTo, Handle;
    var t := Next(s, Crash(synced, kept), limit);
    var lines := s.disk.Contents();
    forall l | l in s.disk.device ensures l in t.disk.device {
      var k :| 0 <= k < |s.disk.device| && s.disk.device[k] == l;
      assert t.disk.device[k] == l;
    }
    SafeOnLargerDevice(s, t);
  }

  lemma RestartKeeps(s: State, limit: nat)
    requires Inv(s, limit) && Enabled(s, Restart, limit)
    ensures Inv(Next(s, Restart, limit), limit)
  {
    hide RunTo, Handle;
    LowerPosition(s.log, s.disk.device, s.confirmed, 0);
  }

  lemma DieKeeps(s: State, limit: nat)
    requires Inv(s, limit)
    ensures Inv(Die(s), limit)
  {
    hide RunTo, Handle;
    SafeOnLargerDevice(s, Die(s));
  }

  // Delivery: the assembler and the sink at work.

  lemma HandleShape(asm: AsmState, f: Frame, limit: nat)
    requires Handle(asm, f, limit).Ok?
    ensures var step := Handle(asm, f, limit).value;
            (step.emitted.Some? <==> f.msg.Commit?) &&
            (step.state.open.Some? <==> f.msg.Begin? || (asm.open.Some? && !f.msg.Commit?)) &&
            (step.emitted.Some? ==> step.emitted.value.endLsn == f.msg.endLsn)
  {
  }

  /** What the assembler emits for a session's COMMIT is the transaction the session denotes. */
  lemma EmitsDenoted(asm: AsmState, sent: seq<Frame>, f: Frame, limit: nat, tx: Transaction)
    requires limit < TWO32 && Denotes(sent, f, tx) && Handle(asm, f, limit).Ok?
    requires RunTo(FRESH, sent, |sent|, limit).Ok? && RunTo(FRESH, sent, |sent|, limit).value.state == asm
    ensures Handle(asm, f, limit).value.emitted == Some(tx)
  {
    hide Handle;
    var h, n := sent + [f], |sent|;
    RunExtends(asm, sent, f, limit);
    EmissionsAreRight(FRESH, h, n + 1, limit, n);
    var emitted := RunTo(FRESH, h, n + 1, limit).value.emitted[n];
    var b :| OpenSince(h, b, n) && |Between(map[], h, b, n)| < TWO32 && Denoted(map[], h, b, n) == tx;
    var c :| EndsAt(map[], h, c, n, limit) && emitted == Some(Denoted(map[], h, c, n));
    assert b == c;
  }

  lemma RunExtends(asm: AsmState, sent: seq<Frame>, f: Frame, limit: nat)
    requires Handle(asm, f, limit).Ok?
    requires RunTo(FRESH, sent, |sent|, limit).Ok? && RunTo(FRESH, sent, |sent|, limit).value.state == asm
    ensures var r := RunTo(FRESH, sent + [f], |sent + [f]|, limit);
            r.Ok? && r.value.state == Handle(asm, f, limit).value.state &&
            r.value.emitted[|sent|] == Handle(asm, f, limit).value.emitted
  {
    hide Handle;
    RunOfPrefix(FRESH, sent, [f], |sent|, limit);
  }

  lemma DeliverKeeps(s: State, f: Frame, walEnd: Lsn, position: Lsn, buffered: nat, limit: nat)
    requires Inv(s, limit) && limit < TWO32 && Enabled(s, Deliver(f, walEnd, position, buffered), limit)
    ensures Inv(DeliverNext(s, f, walEnd, position, buffered, limit), limit)
  {
    hide RunTo, Handle;
    var asm := s.life.value.asm;
    if Handle(asm, f, limit).Err? {
      DieKeeps(s, limit);
    } else {
      HandleShape(asm, f, limit);
      RunExtends(asm, s.session.value.sent, f, limit);
      if f.msg.Commit? {
        EmitsDenoted(asm, s.session.value.sent, f, limit, s.log[s.session.value.cursor]);
        AcceptKeeps(s, f, walEnd, position, buffered, limit);
      } else {
        MessageKeeps(s, f, walEnd, position, buffered, limit);
      }
    }
  }

  lemma MessageKeeps(s: State, f: Frame, walEnd: Lsn, position: Lsn, buffered: nat, limit: nat)
    requires Inv(s, limit) && Enabled(s, Deliver(f, walEnd, position, buffered), limit) && !f.msg.Commit?
    requires Handle(s.life.value.asm, f, limit).Ok?
    requires Handle(s.life.value.asm, f, limit).value.emitted == None
    requires AssemblyOk(DeliverNext(s, f, walEnd, position, buffered, limit), limit)
    ensures Inv(DeliverNext(s, f, walEnd, position, buffered, limit), limit)
  {
    hide RunTo, Handle;
  }

  lemma AcceptKeeps(s: State, f: Frame, walEnd: Lsn, position: Lsn, buffered: nat, limit: nat)
    requires Inv(s, limit) && Enabled(s, Deliver(f, walEnd, position, buffered), limit) && f.msg.Commit?
    requires Handle(s.life.value.asm, f, limit).Ok?
    requires Handle(s.life.value.asm, f, limit).value.emitted == Some(s.log[s.session.value.cursor])
    requires AssemblyOk(DeliverNext(s, f, walEnd, position, buffered, limit), limit)
    ensures Inv(DeliverNext(s, f, walEnd, position, buffered, limit), limit)
  {
    hide RunTo, Handle, Accepted, SinkOk, SessionOk, TrackerOk, SlotOk, AssemblyOk;
    var t := DeliverNext(s, f, walEnd, position, buffered, limit);
    AcceptLines(s, t, f);
    AcceptOwed(s, t, f);
  }

  /** `t` is `s` after the transaction at the cursor was accepted. */
  ghost predicate AcceptedCursor(s: State, t: State, f: Frame) {
    && s.session.Some? && s.life.Some? && t.session.Some? && t.life.Some?
    && var w, w', l, l' := s.session.value, t.session.value, s.life.value, t.life.value;
    && w.cursor < |s.log| && s.disk.Accepts(s.log[w.cursor], t.disk)
    && w' == w.(position := w'.position, sent := w.sent + [f], inTx := false, cursor := w.cursor + 1)
    && s.log[w.cursor].endLsn <= w'.position <= s.walEnd && Announceable(s.log, w'.position, w.cursor + 1)
    && l' == l.(asm := l'.asm, tracker := l.tracker.(received := l'.tracker.received,
                  processed := Max(l.tracker.processed, s.log[w.cursor].endLsn)))
    && t == s.(session := Some(w'), life := Some(l'), disk := t.disk)
  }

  lemma AcceptLines(s: State, t: State, f: Frame)
    requires ServerOk(s) && SinkOk(s) && SessionOk(s) && AcceptedCursor(s, t, f)
    ensures SinkOk(t) && SessionOk(t)
  {
    var c, tx := s.session.value.cursor, s.log[s.session.value.cursor];
    forall i | 0 <= i <= c ensures AllIn(s.log[i].changes, t.disk.Contents()) {
      if i < c {
        assert AllIn(s.log[i].changes, s.disk.Contents());
      } else {
        assert forall k :: 0 <= k < |tx.changes| ==> t.disk.Contents()[|s.disk.Contents()| + k] == tx.changes[k];
      }
    }
    assert Covered(s.log, t.disk.Contents(), tx.endLsn);
  }

  lemma AcceptOwed(s: State, t: State, f: Frame)
    requires ServerOk(s) && TrackerOk(s) && SlotOk(s) && SessionOk(s) && AcceptedCursor(s, t, f)
    ensures TrackerOk(t) && SlotOk(t)
  {
    var c, p := s.session.value.cursor, s.life.value.tracker.processed;
    if p > s.log[c].endLsn {
      var i :| 0 <= i < |s.log| && s.log[i].endLsn == p;
      assert i > c;
      assert t.session.value.cursor <= i < |t.log| && t.log[i].endLsn == t.life.value.tracker.processed;
    } else {
      assert t.log[c].endLsn == t.life.value.tracker.processed;
    }
  }

  lemma StepKeeps(s: State, a: Action, limit: nat)
    requires Inv(s, limit) && limit < TWO32 && Enabled(s, a, limit) && !a.ForeignAdvance?
    ensures Inv(Next(s, a, limit), limit)
  {
    hide Inv, Enabled;
    match a
    case WalGrows(to) => WalGrowsKeeps(s, to, limit);
    case ServerCommit(tx) => CommitKeeps(s, tx, limit);
    case Preflight(slot) => PreflightKeeps(s, slot, limit);
    case StartStream => StartKeeps(s, limit);
    case Deliver(f, w, p, n) => DeliverKeeps(s, f, w, p, n, limit);
    case GiveUp => GiveUpKeeps(s, limit);
    case Keepalive(at) => KeepaliveKeeps(s, at, limit);
    case Barrier => BarrierKeeps(s, limit);
    case Advance => AdvanceKeeps(s, limit);
    case ApplyFeedback(v) => ApplyKeeps(s, v, limit);
    case WriteBack(n) => WriteBackKeeps(s, n, limit);
    case Disconnect => DisconnectKeeps(s, limit);
    case Crash(d, k) => CrashKeeps(s, d, k, limit);
    case Restart => RestartKeeps(s, limit);
  }

  lemma InitialHolds(s: State, limit: nat)
    requires Initial(s)
    ensures Inv(s, limit)
  {
  }

  /** The invariant holds in every state of every run. */
  lemma {:induction false} RunKeeps(s0: State, acts: seq<Action>, limit: nat)
    requires Initial(s0) && limit < TWO32 && NoForeign(acts) && Exec(s0, acts, limit).Some?
    ensures Inv(Exec(s0, acts, limit).value, limit)
  {
    hide Inv, Enabled, Next;
    if acts == [] {
      InitialHolds(s0, limit);
    } else {
      var front, a := acts[..|acts| - 1], acts[|acts| - 1];
      assert a in acts && forall b <- front :: b in acts;
      RunKeeps(s0, front, limit);
      StepKeeps(Exec(s0, front, limit).value, a, limit);
    }
  }
}
