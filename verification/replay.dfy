/** A run in which a replay lowers what the sink reports: two transactions, a lost connection, one again. */
module ReplayCounterexample {
  import opened Prelude
  import opened Wire
  import opened Tracker
  import opened Transactions
  import opened Assembly
  import opened Sinks
  import opened Protocol
  import opened GateCounterexamples

  // A transaction that truncates one table, and the four messages that tell of it.

  function BeginOf(tx: Transaction): Frame {
    Frame(Begin(tx.commitLsn, 0, tx.xid), 0)
  }

  function CommitOf(tx: Transaction): Frame {
    Frame(Commit(0, tx.commitLsn, tx.endLsn, 0), tx.commitLsn)
  }

  function EmptiedAt(at: Lsn): Frame {
    Frame(Truncate([1]), at)
  }

  function Emptying(at: Lsn, commit: Lsn, end: Lsn): Transaction {
    Transaction(7, commit, end, 0, [ChangeEvent(TruncateChange(REL, at), 7, 0, commit, 0)])
  }

  const KNOWN: Cache := map[1 := REL]

  /** A process streaming `log` that has accepted and never flushed; `cursor` as in the session. */
  function Holding(log: seq<Transaction>, cursor: nat, inTx: bool, position: Lsn, sent: seq<Frame>, asm: AsmState,
      reached: Lsn, lines: seq<Line>, pending: Option<Lsn>): State
  {
    State(0, log, 40, 0, {}, Some(Session(0, cursor, inTx, position, sent)),
      Some(Life(Positions(reached, 0, 0, reached), asm, [], true, false)), SinkState([], [], lines, pending))
  }

  lemma DenotesEmptying(sent: seq<Frame>, at: Lsn, commit: Lsn, end: Lsn)
    ensures var tx := Emptying(at, commit, end);
            Denotes(sent + [BeginOf(tx), ANNOUNCE, EmptiedAt(at)], CommitOf(tx), tx)
  {
    var tx, b := Emptying(at, commit, end), |sent|;
    var h, n := sent + [BeginOf(tx), ANNOUNCE, EmptiedAt(at)] + [CommitOf(tx)], b + 3;
    assert h[b] == BeginOf(tx) && h[b + 1] == ANNOUNCE && h[b + 2] == EmptiedAt(at) && h[n] == CommitOf(tx);
    assert OpenSince(h, b, n);
    assert LatestRelation(map[], h, b + 2, 1) == Some(REL);
    assert [1 as u32][1..] == [];
    assert TruncatesOf(map[], h, b + 2, [1]) == [TruncateChange(REL, at)];
    assert Between(map[], h, b, n) == Between(map[], h, b, n - 1) + [TruncateChange(REL, at)];
    assert Between(map[], h, b, n - 1) == Between(map[], h, b, n - 2) + [] == [];
    assert Between(map[], h, b, n) == [TruncateChange(REL, at)];
    assert Denoted(map[], h, b, n) == tx;
  }

  lemma HandlesEmptying(cache: Cache, at: Lsn, commit: Lsn, end: Lsn)
    requires cache[1 as u32 := REL] == KNOWN
    ensures var tx := Emptying(at, commit, end);
            var open := Some(OpenTx(7, []));
            var held := Some(OpenTx(7, [TruncateChange(REL, at)]));
            && Handle(AsmState(cache, None), BeginOf(tx), LIMIT) == Ok(Step(AsmState(cache, open), None))
            && Handle(AsmState(cache, open), ANNOUNCE, LIMIT) == Ok(Step(AsmState(KNOWN, open), None))
            && Handle(AsmState(KNOWN, open), EmptiedAt(at), LIMIT) == Ok(Step(AsmState(KNOWN, held), None))
            && Handle(AsmState(KNOWN, held), CommitOf(tx), LIMIT) == Ok(Step(AsmState(KNOWN, None), Some(tx)))
  {
    var none: seq<PendingChange>, ids: seq<u32> := [], [1];
    var one := none + [TruncateChange(REL, at)];
    assert one == [TruncateChange(REL, at)] && ids[1..] == [];
    assert TruncateAll(KNOWN, ids[1..], at, one, LIMIT) == Ok(one);
    assert TruncateAll(KNOWN, ids, at, none, LIMIT) == Ok(one);
    assert Number(7, CommitOf(Emptying(at, commit, end)).msg, one) == Emptying(at, commit, end).changes;
  }

  lemma ReachRows(log: seq<Transaction>, c: nat, position: Lsn, sent: seq<Frame>, cache: Cache, reached: Lsn,
      lines: seq<Line>, pending: Option<Lsn>, at: Lsn, commit: Lsn, end: Lsn)
    requires c < |log| && log[c] == Emptying(at, commit, end) && cache[1 as u32 := REL] == KNOWN
    requires position <= 40 && Announceable(log, position, c + 1)
    requires Reached(Holding(log, c, false, position, sent, AsmState(cache, None), reached, lines, pending))
    ensures Reached(Holding(log, c, true, position, sent + [BeginOf(log[c]), ANNOUNCE, EmptiedAt(at)],
                            AsmState(KNOWN, Some(OpenTx(7, [TruncateChange(REL, at)]))), reached, lines, pending))
  {
    hide Handle, Denotes, FreshKeys, Reached;
    HandlesEmptying(cache, at, commit, end);
    var open := Some(OpenTx(7, []));
    var s := Holding(log, c, false, position, sent, AsmState(cache, None), reached, lines, pending);
    var s1 := Holding(log, c, true, position, sent + [BeginOf(log[c])], AsmState(cache, open), reached, lines, pending);
    ReachNext(s, Deliver(BeginOf(log[c]), 0, position, 0), s1);
    assert sent + [BeginOf(log[c])] + [ANNOUNCE] == sent + [BeginOf(log[c]), ANNOUNCE];
    var s2 := Holding(log, c, true, position, sent + [BeginOf(log[c]), ANNOUNCE], AsmState(KNOWN, open), reached, lines, pending);
    ReachNext(s1, Deliver(ANNOUNCE, 0, position, 0), s2);
    assert sent + [BeginOf(log[c]), ANNOUNCE] + [EmptiedAt(at)] == sent + [BeginOf(log[c]), ANNOUNCE, EmptiedAt(at)];
    ReachNext(s2, Deliver(EmptiedAt(at), 0, position, 0),
      Holding(log, c, true, position, sent + [BeginOf(log[c]), ANNOUNCE, EmptiedAt(at)],
              AsmState(KNOWN, Some(OpenTx(7, [TruncateChange(REL, at)]))), reached, lines, pending));
  }

  function Told(sent: seq<Frame>, tx: Transaction, at: Lsn): seq<Frame> {
    sent + [BeginOf(tx), ANNOUNCE, EmptiedAt(at)] + [CommitOf(tx)]
  }

  /** One transaction more is accepted, and only buffered. */
  lemma ReachAccepting(log: seq<Transaction>, c: nat, position: Lsn, sent: seq<Frame>, cache: Cache, reached: Lsn,
      lines: seq<Line>, pending: Option<Lsn>, at: Lsn, commit: Lsn, end: Lsn)
    requires c < |log| && log[c] == Emptying(at, commit, end) && cache[1 as u32 := REL] == KNOWN
    requires position <= 40 && Announceable(log, position, c + 1) && end <= 40 && Announceable(log, end, c + 1)
    requires Reached(Holding(log, c, false, position, sent, AsmState(cache, None), reached, lines, pending))
    ensures Reached(Holding(log, c + 1, false, end, Told(sent, log[c], at), AsmState(KNOWN, None), Max(reached, end),
                            lines + log[c].changes, Some(end)))
  {
    hide Handle, Denotes, FreshKeys, Reached;
    ReachRows(log, c, position, sent, cache, reached, lines, pending, at, commit, end);
    HandlesEmptying(cache, at, commit, end);
    DenotesEmptying(sent, at, commit, end);
    var held := AsmState(KNOWN, Some(OpenTx(7, [TruncateChange(REL, at)])));
    var rows := sent + [BeginOf(log[c]), ANNOUNCE, EmptiedAt(at)];
    BuffersAll(lines, pending, log[c]);
    ReachNext(Holding(log, c, true, position, rows, held, reached, lines, pending),
      Deliver(CommitOf(log[c]), end, end, |lines| + 1),
      Holding(log, c + 1, false, end, Told(sent, log[c], at), AsmState(KNOWN, None), Max(reached, end),
              lines + log[c].changes, Some(end)));
  }

  lemma BuffersAll(lines: seq<Line>, pending: Option<Lsn>, tx: Transaction)
    requires |tx.changes| == 1
    ensures Accepted(SinkState([], [], lines, pending), tx, |lines| + 1) ==
            SinkState([], [], lines + tx.changes, Some(tx.endLsn))
  {
    var none: seq<Line> := [];
    assert none + lines + tx.changes == lines + tx.changes;
    assert (lines + tx.changes)[0..] == lines + tx.changes && (lines + tx.changes)[..0] == [];
  }

  const FIRST := Emptying(5, 10, 20)
  const SECOND := Emptying(25, 30, 40)

  lemma ReachBoth()
    ensures Reached(INIT.(log := [FIRST, SECOND], walEnd := 40))
  {
    hide DeliverNext, Denotes;
    assert NoForeign([]) && Exec(INIT, [], LIMIT) == Some(INIT);
    assert Events([]) == [];
    var none: seq<Transaction> := [];
    assert none + [FIRST] == [FIRST] && [FIRST] + [SECOND] == [FIRST, SECOND];
    var s := INIT.(log := [FIRST], walEnd := 20);
    ReachNext(INIT, ServerCommit(FIRST), s);
    assert [FIRST][..1] == [FIRST];
    assert EventsTo([FIRST], 0) == [];
    assert EventsTo([FIRST], 1) == [] + FIRST.changes == FIRST.changes;
    ReachNext(s, ServerCommit(SECOND), INIT.(log := [FIRST, SECOND], walEnd := 40));
  }

  lemma ReachStreamingBoth()
    ensures Reached(Holding([FIRST, SECOND], 0, false, 0, [], FRESH, 0, [], None))
  {
    hide DeliverNext, Denotes, FreshKeys, Reached;
    ReachBoth();
    var s := INIT.(log := [FIRST, SECOND], walEnd := 40);
    var s1 := s.(life := Some(FreshLife()));
    ReachNext(s, Restart, s1);
    var s2 := s1.(life := Some(FreshLife().(ready := true)));
    ReachNext(s1, Preflight(0), s2);
    assert FirstAbove([FIRST, SECOND], 0) == 0;
    ReachNext(s2, StartStream, Holding([FIRST, SECOND], 0, false, 0, [], FRESH, 0, [], None));
  }

  function ToldBoth(): seq<Frame> {
    Told(Told([], FIRST, 5), SECOND, 25)
  }

  lemma ReachBothAccepted(lines: seq<Line>)
    requires lines == FIRST.changes + SECOND.changes
    ensures Reached(Holding([FIRST, SECOND], 2, false, 40, ToldBoth(), AsmState(KNOWN, None), 40, lines, Some(40)))
  {
    hide Reached;
    ReachStreamingBoth();
    var log := [FIRST, SECOND];
    var none: seq<Line> := [];
    assert none + FIRST.changes == FIRST.changes;
    ReachAccepting(log, 0, 0, [], map[], 0, none, None, 5, 10, 20);
    ReachAccepting(log, 1, 20, Told([], FIRST, 5), KNOWN, 20, FIRST.changes, Some(20), 25, 30, 40);
  }

  /** Both are accepted, nothing was flushed, and the connection is lost; then a session starts again. */
  lemma ReachReplaying(lines: seq<Line>)
    requires lines == FIRST.changes + SECOND.changes
    ensures Reached(Holding([FIRST, SECOND], 0, false, 0, [], FRESH, 40, lines, Some(40)))
  {
    hide DeliverNext, Denotes, FreshKeys, Reached, Handle, ToldBoth;
    ReachBothAccepted(lines);
    var log := [FIRST, SECOND];
    var s := Holding(log, 2, false, 40, ToldBoth(), AsmState(KNOWN, None), 40, lines, Some(40));
    var s1 := s.(session := None, life := Some(s.life.value.(asm := FRESH)));
    ReachNext(s, Disconnect, s1);
    var s2 := s1.(life := Some(s1.life.value.(ready := true)));
    ReachNext(s1, Preflight(0), s2);
    assert FirstAbove(log, 0) == 0;
    ReachNext(s2, StartStream, Holding(log, 0, false, 0, [], FRESH, 40, lines, Some(40)));
  }

  /** With no barrier since the process started, the sink accepted 20, 40 and 20 again, and reports 20. */
  lemma ReplayLowersPending()
    ensures exists s :: Reached(s) && s.life.Some? && s.session.Some? && s.life.value.feedback == [] &&
              s.disk.Contents() == FIRST.changes + SECOND.changes + FIRST.changes &&
              s.disk.pending == Some(20) && s.life.value.tracker.processed == 40 &&
              BarrierNext(s).life.value.tracker.durable == 20
  {
    var lines := FIRST.changes + SECOND.changes;
    ReachReplaying(lines);
    ReachAccepting([FIRST, SECOND], 0, 0, [], map[], 40, lines, Some(40), 5, 10, 20);
    var s := Holding([FIRST, SECOND], 1, false, 20, Told([], FIRST, 5), AsmState(KNOWN, None), 40,
      lines + FIRST.changes, Some(20));
    assert s.disk.Contents() == lines + FIRST.changes;
    assert Reached(s);
  }
}
