/**
 The four positions side by side. That no position overtakes the one before it is a property of
 some lives of the process and not of others; here is what decides it, step by step.
 */
module PositionChain {
  import opened Prelude
  import opened Tracker
  import opened Transactions
  import opened Protocol

  /** The two orderings that the tracker does not enforce. */
  datatype Link = DurableUnderProcessed | ProcessedUnderReceived

  predicate Holds(link: Link, t: Positions) {
    match link
    case DurableUnderProcessed => t.durable <= t.processed
    case ProcessedUnderReceived => t.processed <= t.received
  }

  /** Known before the step: an advance goes no further than what was processed, and a COMMIT comes
      with a position that reaches the end of its transaction. */
  predicate Minds(link: Link, s: State, a: Action)
    requires s.life.Some?
  {
    var t := s.life.value.tracker;
    match link
    case DurableUnderProcessed => a.Advance? && s.session.Some? ==> s.session.value.position <= t.processed
    case ProcessedUnderReceived =>
      a.Deliver? && a.frame.msg.Commit? ==> a.frame.msg.endLsn <= Max(t.received, a.walEnd)
  }

  /** What the sink would report was processed. */
  predicate PendingOk(s: State) {
    s.disk.pending.Some? ==> s.life.Some? && s.disk.pending.value <= s.life.value.tracker.processed
  }

  lemma PendingStep(s: State, a: Action, limit: nat)
    requires PendingOk(s) && Enabled(s, a, limit)
    ensures PendingOk(Next(s, a, limit))
  {
    hide Handle, Denotes, FreshKeys, Accepted;
  }

  /** Every step of a life that goes on keeps `acked` below `durable`, and keeps a link that held
      exactly when it minds it. */
  lemma LinkStep(link: Link, s: State, a: Action, limit: nat)
    requires PendingOk(s) && Enabled(s, a, limit) && s.life.Some? && Next(s, a, limit).life.Some?
    ensures s.life.value.tracker.Valid() ==> Next(s, a, limit).life.value.tracker.Valid()
    ensures Holds(link, s.life.value.tracker) ==>
              (Holds(link, Next(s, a, limit).life.value.tracker) <==> Minds(link, s, a))
  {
    hide Denotes, FreshKeys, Accepted;
    if a.Deliver? {
      DeliveredEnd(s.life.value.asm, a.frame, limit);
    }
  }

  lemma DeliveredEnd(asm: AsmState, f: Frame, limit: nat)
    requires Handle(asm, f, limit).Ok?
    ensures var e := Handle(asm, f, limit).value.emitted;
            (e.Some? <==> f.msg.Commit?) && (e.Some? ==> e.value.endLsn == f.msg.endLsn)
  {
  }

  // Lifted to a whole life.

  ghost predicate HeldThroughout(link: Link, s: State, acts: seq<Action>, limit: nat) {
    && Exec(s, acts, limit).Some? && Exec(s, acts, limit).value.life.Some?
    && Holds(link, Exec(s, acts, limit).value.life.value.tracker)
    && (acts != [] ==> HeldThroughout(link, s, acts[..|acts| - 1], limit))
  }

  ghost predicate MindedThroughout(link: Link, s: State, acts: seq<Action>, limit: nat) {
    acts != [] ==>
      var before := Exec(s, acts[..|acts| - 1], limit);
      && before.Some? && before.value.life.Some? && Minds(link, before.value, acts[|acts| - 1])
      && MindedThroughout(link, s, acts[..|acts| - 1], limit)
  }

  lemma AliveBefore(s: State, a: Action, limit: nat)
    requires Enabled(s, a, limit) && !a.Restart? && Next(s, a, limit).life.Some?
    ensures s.life.Some?
  {
    hide Handle, Denotes, FreshKeys;
  }

  /** A link holds in every state of a life exactly when every step of it minded the link. */
  lemma {:induction false} HeldIffMinded(link: Link, s: State, acts: seq<Action>, limit: nat)
    requires PendingOk(s) && s.life.Some? && Holds(link, s.life.value.tracker)
    requires Exec(s, acts, limit).Some? && Exec(s, acts, limit).value.life.Some?
    requires forall a <- acts :: !a.Restart?
    ensures HeldThroughout(link, s, acts, limit) <==> MindedThroughout(link, s, acts, limit)
    ensures PendingOk(Exec(s, acts, limit).value)
  {
    hide Enabled, Next, Minds, Holds, PendingOk;
    if acts != [] {
      var front, a := acts[..|acts| - 1], acts[|acts| - 1];
      assert a in acts && forall b <- front :: b in acts;
      var before := Exec(s, front, limit).value;
      AliveBefore(before, a, limit);
      HeldIffMinded(link, s, front, limit);
      PendingStep(before, a, limit);
      LinkStep(link, before, a, limit);
    }
  }

  lemma {:induction false} PendingInRun(s0: State, acts: seq<Action>, limit: nat)
    requires Initial(s0) && Exec(s0, acts, limit).Some?
    ensures PendingOk(Exec(s0, acts, limit).value)
  {
    hide Enabled, Next;
    if acts != [] {
      PendingInRun(s0, acts[..|acts| - 1], limit);
      PendingStep(Exec(s0, acts[..|acts| - 1], limit).value, acts[|acts| - 1], limit);
    }
  }

  /**
   For every life in every run, foreign advances included: durable never overtakes processed
   exactly when no advance of that life went beyond what was processed, and processed never
   overtakes received exactly when every COMMIT came with or after a position that reaches the
   end of its transaction.
   */
  lemma LifeKeepsLinkIff(link: Link, s0: State, past: seq<Action>, acts: seq<Action>, limit: nat)
    requires Initial(s0) && Exec(s0, past + [Restart], limit).Some?
    requires forall a <- acts :: !a.Restart?
    requires var s := Exec(s0, past + [Restart], limit).value;
             Exec(s, acts, limit).Some? && Exec(s, acts, limit).value.life.Some?
    ensures var s := Exec(s0, past + [Restart], limit).value;
            HeldThroughout(link, s, acts, limit) <==> MindedThroughout(link, s, acts, limit)
  {
    hide HeldThroughout, MindedThroughout, Enabled;
    PendingInRun(s0, past + [Restart], limit);
    assert (past + [Restart])[..|past|] == past;
    HeldIffMinded(link, Exec(s0, past + [Restart], limit).value, acts, limit);
  }
}
