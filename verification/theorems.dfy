/** The guarantees over whole runs. */
module Theorems {
  import opened Prelude
  import opened Transactions
  import opened Assembly
  import opened Protocol
  import opened Invariant
  import opened Output
  import Guard

  /** No silent loss: in every state of every run, through crashes, lost feedback, replays and
      restarts, what the slot's position gives up is on the device. */
  lemma NoSilentLoss(s0: State, acts: seq<Action>, limit: nat, i: nat, k: nat)
    requires Initial(s0) && limit < TWO32 && NoForeign(acts) && Exec(s0, acts, limit).Some?
    requires var s := Exec(s0, acts, limit).value;
             i < |s.log| && s.log[i].endLsn <= s.confirmed && k < |s.log[i].changes|
    ensures var s := Exec(s0, acts, limit).value; s.log[i].changes[k] in s.disk.device
  {
    hide Exec, Enabled, Next, RunTo;
    RunKeeps(s0, acts, limit);
    var s := Exec(s0, acts, limit).value;
    assert AllIn(s.log[i].changes, s.disk.device);
  }

  /** The output refines the source: every line is an event of the source, and dropping the lines
      whose key was seen before leaves a gap-free prefix of it in commit order. */
  lemma OutputIsPrefixWithDuplicates(s0: State, acts: seq<Action>, limit: nat)
    requires Initial(s0) && limit < TWO32 && NoForeign(acts) && Exec(s0, acts, limit).Some?
    ensures var s := Exec(s0, acts, limit).value;
            Refines(s.disk.Contents(), Events(s.log)) && Refines(s.disk.device, Events(s.log))
  {
    hide Exec, Enabled, Next, Firsts;
    RunKeepsOutput(s0, acts, limit);
    var s := Exec(s0, acts, limit).value;
    assert s.disk.Contents()[..|s.disk.device|] == s.disk.device;
    RefinesPrefix(s.disk.Contents(), |s.disk.device|, Events(s.log));
  }

  /** The prefix on the device reaches at least as far as the slot's position. */
  lemma PrefixReachesSlot(s0: State, acts: seq<Action>, limit: nat)
    requires Initial(s0) && limit < TWO32 && NoForeign(acts) && Exec(s0, acts, limit).Some?
    ensures var s := Exec(s0, acts, limit).value; var c := FirstAbove(s.log, s.confirmed);
            EventsTo(s.log, c) <= Firsts(s.disk.device)
  {
    hide Exec, Enabled, Next, Firsts, RunTo;
    RunKeeps(s0, acts, limit);
    RunKeepsOutput(s0, acts, limit);
    OutputIsPrefixWithDuplicates(s0, acts, limit);
    var s := Exec(s0, acts, limit).value;
    var c := FirstAbove(s.log, s.confirmed);
    forall i | 0 <= i < c ensures AllIn(s.log[i].changes, s.disk.device) {
      assert s.log[i].endLsn <= s.confirmed;
    }
    var source, part := Events(s.log), EventsTo(s.log, c);
    EventsIn(s.log, c, s.disk.device);
    EventsPrefix(s.log, c, |s.log|);
    forall i | 0 <= i < |part| ensures source[i] in s.disk.device {
      assert source[i] == part[i];
    }
    PrefixReaches(s.disk.device, source, |part|);
  }

  /** Whenever the gate is open in a run, nothing at or below the announced position is at risk. */
  lemma OpenGateInRun(s0: State, acts: seq<Action>, limit: nat)
    requires Initial(s0) && limit < TWO32 && NoForeign(acts) && Exec(s0, acts, limit).Some?
    requires var s := Exec(s0, acts, limit).value;
             s.life.Some? && s.session.Some? &&
             MayAdvanceFromKeepalive(s.life.value.asm.open.None?,
               s.life.value.tracker.processed, s.life.value.tracker.durable)
    ensures var s := Exec(s0, acts, limit).value;
            Covered(s.log, s.disk.device, s.session.value.position)
  {
    hide Exec, Enabled, Next, Inv;
    RunKeeps(s0, acts, limit);
    OpenGateIsSound(Exec(s0, acts, limit).value, limit);
  }

  /**
   The gate cannot be wedged shut: while something accepted is not durable, either the next
   barrier reports exactly that position, or its transaction is still to come in this session,
   or in the next one because the slot is still below it.
   */
  lemma GateIsNeverWedged(s0: State, acts: seq<Action>, limit: nat)
    requires Initial(s0) && limit < TWO32 && NoForeign(acts) && Exec(s0, acts, limit).Some?
    requires var s := Exec(s0, acts, limit).value;
             s.life.Some? && s.life.value.tracker.processed > s.life.value.tracker.durable
    ensures Owed(Exec(s0, acts, limit).value)
  {
    hide Exec, Enabled, Next, RunTo;
    RunKeeps(s0, acts, limit);
  }

  /** The advance is open to the process exactly when no transaction is being assembled, nothing
      processed is not durable, and the announced position is news to the server. */
  lemma AdvanceIsOpenIff(s: State, limit: nat)
    requires s.life.Some? && s.session.Some?
    ensures Enabled(s, Advance, limit) <==>
            && s.life.value.asm.open == None
            && s.life.value.tracker.processed <= s.life.value.tracker.durable
            && s.life.value.tracker.acked < s.session.value.position
    ensures Enabled(s, Advance, limit) ==>
            Next(s, Advance, limit).life.value.tracker.durable >= s.session.value.position &&
            Next(s, Advance, limit).life.value.tracker.acked >= s.session.value.position
  {
  }

  /** And the barrier that reports what is owed opens the gate again: from then on, as long as no
      transaction is open, any position beyond what was acknowledged can be acknowledged. */
  lemma BarrierPaysWhatIsOwed(s: State, limit: nat)
    requires Enabled(s, Barrier, limit) && s.disk.pending == Some(s.life.value.tracker.processed)
    ensures var t := Next(s, Barrier, limit);
            && t.life.value.tracker.processed <= t.life.value.tracker.durable
            && (s.life.value.asm.open == None && t.life.value.tracker.acked < t.session.value.position ==>
                  Enabled(t, Advance, limit))
            && forall p: Lsn :: s.life.value.asm.open == None && t.life.value.tracker.acked < p ==>
                 Enabled(t.(session := Some(t.session.value.(position := p))), Advance, limit)
  {
    var t := Next(s, Barrier, limit);
    AdvanceIsOpenIff(t, limit);
    forall p: Lsn | s.life.value.asm.open == None && t.life.value.tracker.acked < p
      ensures Enabled(t.(session := Some(t.session.value.(position := p))), Advance, limit)
    {
      AdvanceIsOpenIff(t.(session := Some(t.session.value.(position := p))), limit);
    }
  }

  /** As long as nobody else moves the slot, the reconnect check never fails. */
  lemma SlotAheadUnreachable(s0: State, acts: seq<Action>, limit: nat)
    requires Initial(s0) && limit < TWO32 && NoForeign(acts) && Exec(s0, acts, limit).Some?
    requires var s := Exec(s0, acts, limit).value; s.life.Some? && IsReconnect(s.life.value.tracker.durable)
    ensures var s := Exec(s0, acts, limit).value;
            Guard.CheckReconnect(Some(s.confirmed), s.life.value.tracker.durable).Ok?
  {
    hide Exec, Enabled, Next, RunTo;
    RunKeeps(s0, acts, limit);
  }

  /** Someone else moved the slot past what this process has made durable. */
  ghost predicate Overtaken(s: State) {
    && s.life.Some? && s.session.None? && !s.life.value.ready && s.inflight == {}
    && 0 < s.life.value.tracker.durable < s.confirmed
  }

  /** No new life, and everyone else keeps the slot above `durable`. */
  ghost predicate StaysAbove(acts: seq<Action>, durable: Lsn) {
    forall a <- acts :: !a.Restart? && (a.ForeignAdvance? ==> a.slot > durable)
  }

  /** Then this life of the process never streams again: the next time it reads the slot it fails. */
  lemma {:induction false} OvertakenNeverStreams(s: State, acts: seq<Action>, limit: nat)
    requires Overtaken(s) && Exec(s, acts, limit).Some?
    requires StaysAbove(acts, s.life.value.tracker.durable)
    ensures var t := Exec(s, acts, limit).value;
            if t.life.Some? then Overtaken(t) && t.life.value.tracker.durable == s.life.value.tracker.durable
            else t.session.None?
  {
    hide DeliverNext, Denotes, FreshKeys;
    if acts != [] {
      var front, a := acts[..|acts| - 1], acts[|acts| - 1];
      assert a in acts && forall b <- front :: b in acts;
      OvertakenNeverStreams(s, front, limit);
    }
  }

  lemma OvertakenFailsAtPreflight(s: State, limit: nat)
    requires Overtaken(s)
    ensures Enabled(s, Preflight(s.confirmed), limit) && Next(s, Preflight(s.confirmed), limit).life == None
    ensures Guard.CheckReconnect(Some(s.confirmed), s.life.value.tracker.durable) ==
            Err(SlotAhead(s.confirmed, s.life.value.tracker.durable))
  {
  }

  /** A foreign advance overtakes a process that has something durable when it goes beyond that,
      unless an attempt has checked the slot already and is about to start the stream. */
  lemma ForeignAdvanceOvertakes(s: State, slot: Lsn, limit: nat)
    requires Enabled(s, ForeignAdvance(slot), limit) && s.life.Some?
    ensures Overtaken(Next(s, ForeignAdvance(slot), limit)) <==>
            slot > s.life.value.tracker.durable > 0 && !s.life.value.ready
  {
  }

  /** No continuation of this life has a session. */
  ghost predicate NeverStreams(s: State, durable: Lsn, limit: nat) {
    forall acts :: StaysAbove(acts, durable) && Exec(s, acts, limit).Some? ==> Exec(s, acts, limit).value.session.None?
  }

  /**
   Exactly when a foreign advance is caught for certain. An attempt reads the slot before it starts
   the stream, and the stream starts wherever the slot is by then: an advance that comes in between
   is not seen if that attempt goes on to stream. One that stays at or below the durable position
   does no harm, and as long as nothing is durable there is nothing to compare the slot with.
   */
  lemma ForeignAdvanceIsCaughtIff(s: State, slot: Lsn, limit: nat)
    requires Enabled(s, ForeignAdvance(slot), limit) && s.life.Some?
    ensures NeverStreams(Next(s, ForeignAdvance(slot), limit), s.life.value.tracker.durable, limit) <==>
            slot > s.life.value.tracker.durable > 0 && !s.life.value.ready
  {
    hide Enabled, Next, Exec;
    var t, durable := Next(s, ForeignAdvance(slot), limit), s.life.value.tracker.durable;
    ForeignAdvanceOvertakes(s, slot, limit);
    if slot > durable > 0 && !s.life.value.ready {
      forall acts | StaysAbove(acts, durable) && Exec(t, acts, limit).Some?
        ensures Exec(t, acts, limit).value.session.None?
      {
        AdvancedLife(s, slot, limit);
        OvertakenNeverStreams(t, acts, limit);
      }
    } else {
      var acts := StreamsAgain(s, slot, limit);
      assert StaysAbove(acts, durable);
    }
  }

  lemma AdvancedLife(s: State, slot: Lsn, limit: nat)
    requires Enabled(s, ForeignAdvance(slot), limit)
    ensures Next(s, ForeignAdvance(slot), limit).life == s.life
  {
  }

  lemma StreamsAgain(s: State, slot: Lsn, limit: nat) returns (acts: seq<Action>)
    requires Enabled(s, ForeignAdvance(slot), limit) && s.life.Some?
    requires slot <= s.life.value.tracker.durable || s.life.value.tracker.durable == 0 || s.life.value.ready
    ensures forall a <- acts :: !a.Restart? && !a.ForeignAdvance?
    ensures var t := Next(s, ForeignAdvance(slot), limit);
            Exec(t, acts, limit).Some? && Exec(t, acts, limit).value.session.Some?
  {
    hide DeliverNext, Denotes, FreshKeys;
    var t := Next(s, ForeignAdvance(slot), limit);
    assert Exec(t, [], limit) == Some(t);
    if s.life.value.ready {
      acts := [StartStream];
      assert acts[..0] == [];
    } else {
      acts := [Preflight(slot), StartStream];
      assert acts[..1] == [Preflight(slot)] && acts[..1][..0] == [];
      assert Exec(t, acts[..1], limit).Some?;
    }
  }

  /** What one life has sent and acknowledged. */
  ghost predicate FeedbackOk(s: State) {
    s.life.Some? ==>
      var t, f := s.life.value.tracker, s.life.value.feedback;
      t.acked <= t.durable && Ascending(f) && t.acked == (if f == [] then 0 else f[|f| - 1])
  }

  lemma FeedbackStep(s: State, a: Action, limit: nat)
    requires FeedbackOk(s) && Enabled(s, a, limit)
    ensures FeedbackOk(Next(s, a, limit))
  {
    hide Handle, Denotes, FreshKeys, Accepted;
  }

  lemma {:induction false} RunKeepsFeedback(s0: State, acts: seq<Action>, limit: nat)
    requires Initial(s0) && Exec(s0, acts, limit).Some?
    ensures FeedbackOk(Exec(s0, acts, limit).value)
  {
    hide Enabled, Next;
    if acts != [] {
      RunKeepsFeedback(s0, acts[..|acts| - 1], limit);
      FeedbackStep(Exec(s0, acts[..|acts| - 1], limit).value, acts[|acts| - 1], limit);
    }
  }

  /** Feedback within one life of any run, foreign advances included: never decreasing, never beyond
      durable, the last one what is acknowledged. */
  lemma FeedbackIsMonotoneAndSafe(s0: State, acts: seq<Action>, limit: nat)
    requires Initial(s0) && Exec(s0, acts, limit).Some?
    requires Exec(s0, acts, limit).value.life.Some?
    ensures var life := Exec(s0, acts, limit).value.life.value;
            Ascending(life.feedback) &&
            (forall v <- life.feedback :: v <= life.tracker.acked <= life.tracker.durable) &&
            (life.feedback != [] ==> life.feedback[|life.feedback| - 1] == life.tracker.acked)
  {
    hide Exec, Enabled, Next;
    RunKeepsFeedback(s0, acts, limit);
  }
}
