/** Runs of the protocol that lose data as soon as the keepalive gate drops one of its conditions. */
module GateCounterexamples {
  import opened Prelude
  import opened Schema
  import opened Wire
  import opened Tracker
  import opened Transactions
  import opened Assembly
  import opened Sinks
  import opened Protocol
  import Guard

  const LIMIT: nat := 10
  const REL := Relation(1, [], [], 0x64, [])
  const BEGIN := Frame(Begin(10, 0, 7), 5)
  const ANNOUNCE := Frame(RelationMsg(REL), 0)
  const EMPTIED := Frame(Truncate([1]), 5)
  const COMMIT := Frame(Commit(0, 10, 20, 0), 10)
  const EVENT := ChangeEvent(TruncateChange(REL, 5), 7, 0, 10, 0)
  const TX := Transaction(7, 10, 20, 0, [EVENT])

  const EMPTY_DISK := SinkState([], [], [], None)
  const INIT := State(0, [], 0, 0, {}, None, None, EMPTY_DISK)

  /** The transaction was committed and a session streams it; `sent` are the messages so far. */
  function Streaming(position: Lsn, sent: seq<Frame>, asm: AsmState): State {
    State(0, [TX], 20, 0, {}, Some(Session(0, 0, true, position, sent)),
      Some(Life(ZERO, asm, [], true, false)), EMPTY_DISK)
  }

  const HELD := AsmState(map[1 := REL], Some(OpenTx(7, [TruncateChange(REL, 5)])))

  /** The transaction was accepted and is still in the writer's buffer. */
  const ACCEPTED :=
    State(0, [TX], 20, 0, {}, Some(Session(0, 1, false, 20, [BEGIN, ANNOUNCE, EMPTIED, COMMIT])),
      Some(Life(ZERO.(received := 20, processed := 20), AsmState(map[1 := REL], None), [], true, false)),
      SinkState([], [], [EVENT], Some(20)))

  /** `t` is reached from the initial state. */
  ghost predicate Reached(t: State) {
    exists acts :: NoForeign(acts) && Exec(INIT, acts, LIMIT) == Some(t)
  }

  lemma ReachNext(s: State, a: Action, t: State)
    requires Reached(s) && !a.ForeignAdvance? && Enabled(s, a, LIMIT) && t == Next(s, a, LIMIT)
    ensures Reached(t)
  {
    hide Enabled, Next;
    var acts :| NoForeign(acts) && Exec(INIT, acts, LIMIT) == Some(s);
    assert (acts + [a])[..|acts|] == acts;
    assert NoForeign(acts + [a]) && Exec(INIT, acts + [a], LIMIT) == Some(t);
  }

  lemma ReachStreaming()
    ensures Reached(Streaming(0, [], FRESH).(session := Some(Session(0, 0, false, 0, []))))
  {
    assert NoForeign([]) && Exec(INIT, [], LIMIT) == Some(INIT);
    assert Events([]) == [];
    var s1 := INIT.(log := [TX], walEnd := 20);
    ReachNext(INIT, ServerCommit(TX), s1);
    var s2 := s1.(life := Some(FreshLife()));
    ReachNext(s1, Restart, s2);
    var s3 := s2.(life := Some(FreshLife().(ready := true)));
    ReachNext(s2, Preflight(0), s3);
    assert FirstAbove([TX], 0) == 0;
    ReachNext(s3, StartStream, Streaming(0, [], FRESH).(session := Some(Session(0, 0, false, 0, []))));
  }

  lemma ReachBegun()
    ensures Reached(Streaming(0, [BEGIN], AsmState(map[], Some(OpenTx(7, [])))))
  {
    ReachStreaming();
    assert [] + [BEGIN] == [BEGIN];
    ReachNext(Streaming(0, [], FRESH).(session := Some(Session(0, 0, false, 0, []))),
      Deliver(BEGIN, 0, 0, 0), Streaming(0, [BEGIN], AsmState(map[], Some(OpenTx(7, [])))));
  }

  lemma SessionDenotesTx()
    ensures Denotes([BEGIN, ANNOUNCE, EMPTIED], COMMIT, TX)
  {
    var h := [BEGIN, ANNOUNCE, EMPTIED] + [COMMIT];
    assert h[0] == BEGIN && h[1] == ANNOUNCE && h[2] == EMPTIED && h[3] == COMMIT;
    assert OpenSince(h, 0, 3);
    assert LatestRelation(map[], h, 2, 1) == Some(REL);
    assert [1 as u32][1..] == [];
    assert TruncatesOf(map[], h, 2, [1]) == [TruncateChange(REL, 5)];
    assert Between(map[], h, 0, 3) == Between(map[], h, 0, 2) + [TruncateChange(REL, 5)];
    assert Between(map[], h, 0, 2) == Between(map[], h, 0, 1) + [] == [];
    assert Between(map[], h, 0, 3) == [TruncateChange(REL, 5)];
    assert Denoted(map[], h, 0, 3) == TX;
  }

  lemma ReachHeld()
    ensures Reached(Streaming(0, [BEGIN, ANNOUNCE, EMPTIED], HELD))
  {
    ReachBegun();
    var s := Streaming(0, [BEGIN], AsmState(map[], Some(OpenTx(7, []))));
    var t := Streaming(0, [BEGIN, ANNOUNCE], AsmState(map[1 := REL], Some(OpenTx(7, []))));
    assert [BEGIN] + [ANNOUNCE] == [BEGIN, ANNOUNCE];
    ReachNext(s, Deliver(ANNOUNCE, 0, 0, 0), t);
    TruncateIsHeld();
    assert [BEGIN, ANNOUNCE] + [EMPTIED] == [BEGIN, ANNOUNCE, EMPTIED];
    ReachNext(t, Deliver(EMPTIED, 0, 0, 0), Streaming(0, [BEGIN, ANNOUNCE, EMPTIED], HELD));
  }

  lemma TruncateIsHeld()
    ensures Handle(AsmState(map[1 := REL], Some(OpenTx(7, []))), EMPTIED, LIMIT) == Ok(Step(HELD, None))
  {
    var cache: Cache, ids: seq<u32>, none: seq<PendingChange> := map[1 := REL], [1], [];
    var one := none + [TruncateChange(REL, 5)];
    assert one == [TruncateChange(REL, 5)] && ids[1..] == [];
    assert TruncateAll(cache, ids[1..], 5, one, LIMIT) == Ok(one);
    assert TruncateAll(cache, ids, 5, none, LIMIT) == Ok(one);
  }

  lemma CommitIsDelivered()
    ensures var s := Streaming(0, [BEGIN, ANNOUNCE, EMPTIED], HELD);
            Enabled(s, Deliver(COMMIT, 20, 20, 1), LIMIT) && Next(s, Deliver(COMMIT, 20, 20, 1), LIMIT) == ACCEPTED
  {
    hide Handle, Denotes;
    SessionDenotesTx();
    HeldEmitsTx();
    assert [BEGIN, ANNOUNCE, EMPTIED] + [COMMIT] == [BEGIN, ANNOUNCE, EMPTIED, COMMIT];
    assert Accepted(EMPTY_DISK, TX, 1) == SinkState([], [], [EVENT], Some(20));
  }

  lemma ReachAccepted()
    ensures Reached(ACCEPTED)
  {
    hide Enabled, Next;
    ReachHeld();
    CommitIsDelivered();
    ReachNext(Streaming(0, [BEGIN, ANNOUNCE, EMPTIED], HELD), Deliver(COMMIT, 20, 20, 1), ACCEPTED);
  }

  lemma HeldEmitsTx()
    ensures Handle(HELD, COMMIT, LIMIT) == Ok(Step(AsmState(map[1 := REL], None), Some(TX)))
  {
    assert Number(7, COMMIT.msg, [TruncateChange(REL, 5)]) == [EVENT];
  }

  /** A transaction the slot gave up that is nowhere on the disk. */
  ghost predicate Lost(s: State) {
    exists i :: 0 <= i < |s.log| && s.log[i].endLsn <= s.confirmed && s.disk.Contents() == [] && s.log[i].changes != []
  }

  /** Advancing in state `s` although the gate is shut loses the transaction for good. */
  lemma AdvanceLoses(s: State)
    requires s.life.Some? && s.session.Some? && s.session.value.position == 20
    requires s.origin == 0 && s.log == [TX] && s.disk.device == []
    ensures Exec(AdvanceNext(s), [ApplyFeedback(20), Crash(0, 0)], LIMIT).Some?
    ensures Lost(Exec(AdvanceNext(s), [ApplyFeedback(20), Crash(0, 0)], LIMIT).value)
  {
    var t := AdvanceNext(s);
    var sent := t.life.value.tracker.acked;
    assert sent in t.inflight && 20 <= sent;
    var u := t.(confirmed := 20);
    assert [ApplyFeedback(20)][..0] == [] && Exec(t, [], LIMIT) == Some(t);
    assert Exec(t, [ApplyFeedback(20)], LIMIT) == Some(u);
    assert [ApplyFeedback(20), Crash(0, 0)][..1] == [ApplyFeedback(20)];
    var v := CrashNext(u, 0, 0);
    assert Exec(t, [ApplyFeedback(20), Crash(0, 0)], LIMIT) == Some(v);
    assert v.log[0].endLsn <= v.confirmed && v.disk.Contents() == [];
  }

  /** An empty assembler alone does not justify the advance: here nothing is open, the position is
      the transaction's own, and the transaction is only in the buffer. */
  lemma EmptyBufferIsNotEnough()
    ensures Reached(ACCEPTED)
    ensures ACCEPTED.life.value.asm.open.None?
    ensures Exec(AdvanceNext(ACCEPTED), [ApplyFeedback(20), Crash(0, 0)], LIMIT).Some?
    ensures Lost(Exec(AdvanceNext(ACCEPTED), [ApplyFeedback(20), Crash(0, 0)], LIMIT).value)
  {
    ReachAccepted();
    AdvanceLoses(ACCEPTED);
  }

  /** A buffer of length zero does not do in place of an empty assembler: here a transaction is
      open without a row yet, and the position announced is already its end. */
  lemma LengthZeroIsNotEmpty()
    ensures var s := Streaming(20, [BEGIN], AsmState(map[], Some(OpenTx(7, []))));
            var life := s.life.value;
            Reached(s) && |life.asm.open.value.changes| == 0 &&
            life.tracker.processed <= life.tracker.durable &&
            Exec(AdvanceNext(s), [ApplyFeedback(20), Crash(0, 0)], LIMIT).Some? &&
            Lost(Exec(AdvanceNext(s), [ApplyFeedback(20), Crash(0, 0)], LIMIT).value)
  {
    ReachBegun();
    var s := Streaming(20, [BEGIN], AsmState(map[], Some(OpenTx(7, []))));
    ReachNext(Streaming(0, [BEGIN], AsmState(map[], Some(OpenTx(7, [])))), Keepalive(20), s);
    AdvanceLoses(s);
  }

  /** A session over an empty log, with WAL up to 20 that holds nothing of the publication. */
  function Idle(position: Lsn, tracker: Positions, feedback: seq<Lsn>, inflight: set<Lsn>): State {
    State(0, [], 20, 0, inflight, Some(Session(0, 0, false, position, [])),
      Some(Life(tracker, FRESH, feedback, true, false)), EMPTY_DISK)
  }

  lemma ReachStarted()
    ensures Reached(INIT.(walEnd := 20, life := Some(FreshLife())))
  {
    hide DeliverNext, Denotes, FreshKeys;
    var s := INIT.(walEnd := 20);
    assert NoForeign([]) && Exec(INIT, [], LIMIT) == Some(INIT);
    ReachNext(INIT, WalGrows(20), s);
    ReachNext(s, Restart, s.(life := Some(FreshLife())));
  }

  lemma ReachIdle()
    ensures Reached(Idle(0, ZERO, [], {}))
  {
    hide DeliverNext, Denotes, FreshKeys, Exec;
    ReachStarted();
    var s := INIT.(walEnd := 20, life := Some(FreshLife()));
    var t := s.(life := Some(FreshLife().(ready := true)));
    ReachNext(s, Preflight(0), t);
    ReachNext(t, StartStream, Idle(0, ZERO, [], {}));
  }

  /** The positions are no chain: an idle session's keepalive lifts durable and acked over
      received and processed, which both stay at zero. */
  lemma PositionsAreNoChain()
    ensures exists s :: Reached(s) && s.life.Some? &&
              var t := s.life.value.tracker; t.received == t.processed == 0 < t.durable == t.acked
  {
    hide DeliverNext, Denotes, FreshKeys;
    ReachIdle();
    var s := Idle(20, ZERO, [], {});
    ReachNext(Idle(0, ZERO, [], {}), Keepalive(20), s);
    var t := Idle(20, Positions(0, 20, 20, 0), [20], {20});
    assert [] + [20 as Lsn] == [20] && {} + {20 as Lsn} == {20};
    ReachNext(s, Advance, t);
    assert Reached(t);
  }

  // The gate at work after a transaction.

  /** The transaction is durable and acknowledged; the WAL then grew by something else. */
  function Settled(wal: Lsn, position: Lsn, durable: Lsn, feedback: seq<Lsn>, inflight: set<Lsn>): State {
    State(0, [TX], wal, 0, inflight, Some(Session(0, 1, false, position, [BEGIN, ANNOUNCE, EMPTIED, COMMIT])),
      Some(Life(Positions(20, durable, durable, 20), AsmState(map[1 := REL], None), feedback, true, false)),
      SinkState([EVENT], [], [], None))
  }

  lemma ReachSettled()
    ensures Reached(Settled(20, 20, 20, [20], {20}))
  {
    hide DeliverNext, Denotes, FreshKeys, Reached;
    ReachAccepted();
    var sent: seq<Lsn>, none: set<Lsn>, lines: seq<Line> := [], {}, [];
    assert sent + [20] == [20] && none + {20} == {20} && lines + lines + [EVENT] == [EVENT];
    ReachNext(ACCEPTED, Barrier, Settled(20, 20, 20, [20], {20}));
  }

  /** After a transaction and its barrier the positions of an idle server go on being acknowledged. */
  lemma GateOpensAgain()
    ensures Reached(Settled(40, 40, 40, [20, 40], {20, 40}))
  {
    hide DeliverNext, Denotes, FreshKeys, Reached;
    ReachSettled();
    ReachNext(Settled(20, 20, 20, [20], {20}), WalGrows(40), Settled(40, 20, 20, [20], {20}));
    ReachNext(Settled(40, 20, 20, [20], {20}), Keepalive(40), Settled(40, 40, 20, [20], {20}));
    var sent: seq<Lsn>, some: set<Lsn> := [20], {20};
    assert sent + [40] == [20, 40] && some + {40} == {20, 40};
    ReachNext(Settled(40, 40, 20, [20], {20}), Advance, Settled(40, 40, 40, [20, 40], {20, 40}));
  }

  // A foreign advance between the check of the slot and the start of the stream.

  /** `t` is reached, foreign advances allowed, and the process did not die since it was launched. */
  ghost predicate ReachedInOneLife(t: State) {
    exists past: seq<Action>, acts: seq<Action> ::
      (forall a <- acts :: !a.Restart?) && Exec(INIT, past + [Restart] + acts, LIMIT) == Some(t) && t.life.Some?
  }

  lemma ReachOn(s: State, a: Action, t: State)
    requires ReachedInOneLife(s) && !a.Restart? && Enabled(s, a, LIMIT) && t == Next(s, a, LIMIT) && t.life.Some?
    ensures ReachedInOneLife(t)
  {
    hide Enabled, Next;
    var past: seq<Action>, acts: seq<Action> :|
      (forall b <- acts :: !b.Restart?) && Exec(INIT, past + [Restart] + acts, LIMIT) == Some(s) && s.life.Some?;
    var all := past + [Restart] + acts;
    assert (all + [a])[..|all|] == all && past + [Restart] + (acts + [a]) == all + [a];
    assert forall b <- acts + [a] :: !b.Restart?;
    assert Exec(INIT, past + [Restart] + (acts + [a]), LIMIT) == Some(t);
  }

  const LATE := TX.(endLsn := 40, commitLsn := 30, changes := [EVENT.(commitLsn := 30)])

  /** A process between sessions that has acknowledged 20, with the slot there too. */
  function Idler(log: seq<Transaction>, slot: Lsn, inflight: set<Lsn>, session: Option<Session>, durable: Lsn,
      feedback: seq<Lsn>, ready: bool): State
  {
    State(0, log, if log == [] then 20 else 40, slot, inflight, session,
      Some(Life(Positions(0, durable, durable, 0), FRESH, feedback, true, ready)), EMPTY_DISK)
  }

  lemma ReachLaunch()
    ensures ReachedInOneLife(INIT.(walEnd := 20, life := Some(FreshLife())))
  {
    var s := INIT.(walEnd := 20);
    var none: seq<Action> := [];
    var all := [WalGrows(20)] + [Restart] + none;
    assert all[..2] == all && all[..1] == [WalGrows(20)] && all[..1][..0] == [];
    assert Exec(INIT, [], LIMIT) == Some(INIT);
    assert Exec(INIT, [WalGrows(20)], LIMIT) == Some(s);
    assert Exec(INIT, all, LIMIT) == Some(s.(life := Some(FreshLife())));
    assert forall a <- none :: !a.Restart?;
  }

  lemma ReachIdler()
    ensures ReachedInOneLife(Idler([], 20, {20}, None, 20, [20], false))
  {
    hide DeliverNext, Denotes, FreshKeys, ReachedInOneLife;
    ReachAdvanced();
    var open := Some(Session(0, 0, false, 20, []));
    assert 20 in {20 as Lsn};
    ReachOn(Idler([], 0, {20}, open, 20, [20], false), ApplyFeedback(20), Idler([], 20, {20}, open, 20, [20], false));
    ReachOn(Idler([], 20, {20}, open, 20, [20], false), Disconnect, Idler([], 20, {20}, None, 20, [20], false));
  }

  lemma ReachAdvanced()
    ensures ReachedInOneLife(Idler([], 0, {20}, Some(Session(0, 0, false, 20, [])), 20, [20], false))
  {
    hide DeliverNext, Denotes, FreshKeys, ReachedInOneLife;
    ReachAnnounced();
    var none: seq<Lsn>, nothing: set<Lsn> := [], {};
    assert none + [20] == [20] && nothing + {20} == {20};
    ReachOn(Idle(20, ZERO, [], {}), Advance, Idler([], 0, {20}, Some(Session(0, 0, false, 20, [])), 20, [20], false));
  }

  lemma ReachAnnounced()
    ensures ReachedInOneLife(Idle(20, ZERO, [], {}))
  {
    hide DeliverNext, Denotes, FreshKeys, ReachedInOneLife;
    ReachLaunch();
    var s := INIT.(walEnd := 20, life := Some(FreshLife()));
    var t := s.(life := Some(FreshLife().(ready := true)));
    ReachOn(s, Preflight(0), t);
    ReachOn(t, StartStream, Idle(0, ZERO, [], {}));
    ReachOn(Idle(0, ZERO, [], {}), Keepalive(20), Idle(20, ZERO, [], {}));
  }

  /** The slot is checked at 20, and then moved to 40 over a transaction by someone else. */
  lemma ReachMovedUnderChecked()
    ensures ReachedInOneLife(Idler([LATE], 40, {}, None, 20, [20], true))
  {
    hide DeliverNext, Denotes, ReachedInOneLife;
    ReachIdler();
    assert Events([]) == [];
    var none: seq<Transaction> := [];
    assert none + [LATE] == [LATE];
    ReachOn(Idler([], 20, {20}, None, 20, [20], false), ServerCommit(LATE), Idler([LATE], 20, {20}, None, 20, [20], false));
    ReachOn(Idler([LATE], 20, {20}, None, 20, [20], false), Preflight(20), Idler([LATE], 20, {20}, None, 20, [20], true));
    ReachOn(Idler([LATE], 20, {20}, None, 20, [20], true), ForeignAdvance(40), Idler([LATE], 40, {}, None, 20, [20], true));
  }

  /** What the next session makes of it. */
  lemma ReachFollowed()
    ensures ReachedInOneLife(Idler([LATE], 40, {40}, None, 40, [20, 40], false))
  {
    hide DeliverNext, Denotes, FreshKeys, ReachedInOneLife;
    ReachMovedUnderChecked();
    assert FirstAbove([LATE], 40) == 1;
    var open := Session(40, 1, false, 0, []);
    ReachOn(Idler([LATE], 40, {}, None, 20, [20], true), StartStream, Idler([LATE], 40, {}, Some(open), 20, [20], false));
    var at := Some(open.(position := 40));
    ReachOn(Idler([LATE], 40, {}, Some(open), 20, [20], false), Keepalive(40), Idler([LATE], 40, {}, at, 20, [20], false));
    var sent: seq<Lsn>, nothing: set<Lsn> := [20], {};
    assert sent + [40] == [20, 40] && nothing + {40} == {40};
    ReachOn(Idler([LATE], 40, {}, at, 20, [20], false), Advance, Idler([LATE], 40, {40}, at, 40, [20, 40], false));
    ReachOn(Idler([LATE], 40, {40}, at, 40, [20, 40], false), Disconnect, Idler([LATE], 40, {40}, None, 40, [20, 40], false));
  }

  /** The foreign advance is not caught: in the same life the check of the slot passes again, and
      the transaction is lost. */
  lemma ForeignAdvanceGoesUnseen()
    ensures var s := Idler([LATE], 40, {40}, None, 40, [20, 40], true);
            ReachedInOneLife(s) && s.life.value.ready && Lost(s) &&
            IsReconnect(s.life.value.tracker.durable) &&
            Guard.CheckReconnect(Some(s.confirmed), s.life.value.tracker.durable).Ok?
  {
    hide DeliverNext, Denotes, FreshKeys, ReachedInOneLife;
    ReachFollowed();
    var s := Idler([LATE], 40, {40}, None, 40, [20, 40], true);
    ReachOn(Idler([LATE], 40, {40}, None, 40, [20, 40], false), Preflight(40), s);
    assert s.log[0].endLsn <= s.confirmed;
  }
}
