/** The life of the process: sessions one after another, with pauses, until a reason to end. */
module Runs {
  import opened Prelude
  import opened Sinks
  import opened Patience
  import opened Backoff
  import opened Protocol
  import opened Process
  import opened Books
  import opened Sessions
  import opened Replication

  datatype Config = Config(databaseUrl: string, maxEvents: nat, ackInterval: Duration, slotBusyBudget: Duration,
    initial: Duration, max: Duration)

  predicate ValidUrl(url: string): (valid: bool)
    ensures valid <==> (|url| >= 11 && url[..11] == "postgres://") || (|url| >= 13 && url[..13] == "postgresql://")
  {
    "postgres://" <= url || "postgresql://" <= url
  }

  /** One turn of the outer loop: the flag on entry, the session, and the flag as the pause reads it. */
  datatype Pass = Pass(shutdown: bool, attempt: Attempt, pause: nat -> bool)

  /** A session in the life of the process: the steps `acts` from step number `at` on, taken from `before`. */
  datatype Entry = Entry(at: nat, before: Node, acts: seq<Action>, turns: nat, outcome: Option<Result<SessionOutcome>>)

  /** What happened: all the steps, and session by session what they were, what the slot was seen to
      answer, whether it was productive, and the pause after it. */
  datatype Journal = Journal(acts: seq<Action>, entries: seq<Entry>, observations: seq<Observation>,
    productive: seq<bool>, delays: seq<Duration>)

  /** Where the shutdown flag was read as set. */
  datatype FlagRead = OnEntry(pass: nat) | InSession(pass: nat, turn: nat) | InPause(pass: nat, chunk: nat)

  /** The step after a session and the reset that follows it when a stream had been opened. */
  function EndOf(e: Entry): nat {
    e.at + |e.acts| + if Opened(e.acts) then 1 else 0
  }

  /** The number of steps up to the next session, after the sessions in `entries` and their resets. */
  function StepsBefore(entries: seq<Entry>): nat {
    if entries == [] then 0 else EndOf(entries[|entries| - 1])
  }

  /** Entry `k` is where the steps before it lead, with no stream open and no slot checked, and is the
      session that the attempt makes from there. */
  ghost predicate Recorded(config: Config, start: Node, a: Attempt, j: Journal, k: nat) {
    && k < |j.entries| && k < |j.observations|
    && var e := j.entries[k];
    && e.at == (if k == 0 then 0 else EndOf(j.entries[k - 1])) && e.at + |e.acts| <= |j.acts|
    && Drive(start, j.acts[..e.at], config.maxEvents) == Some(e.before) && e.before.stream.None? && !e.before.life.ready
    && j.acts[e.at..e.at + |e.acts|] == e.acts
    && j.observations[k] == Observed(a, e.before.life.tracker.durable)
    && SessionIs(e.before, a, After(j.observations[..k + 1]).accumulated, config.slotBusyBudget, config.ackInterval,
                 e.outcome, e.turns, e.acts, config.maxEvents)
  }

  /** The session moved the acknowledged position. */
  ghost predicate Productive(config: Config, e: Entry)
    requires Drive(e.before, e.acts, config.maxEvents).Some?
  {
    Drive(e.before, e.acts, config.maxEvents).value.life.tracker.acked > e.before.life.tracker.acked
  }

  /** Entry `k` ended in a lost connection, and the pause that follows has its closed form. */
  ghost predicate Paused(config: Config, start: Node, a: Attempt, j: Journal, k: nat) {
    && Recorded(config, start, a, j, k) && k < |j.productive| && k < |j.delays|
    && var e := j.entries[k];
    && e.outcome.Some? && WorthRetry(e.outcome.value) && Drive(e.before, e.acts, config.maxEvents).Some?
    && (j.productive[k] <==> Productive(config, e))
    && j.delays[k] == PauseAt(config.initial, config.max, RetryNumber(j.productive[..k + 1]))
  }

  /** Nobody interrupted the pause, and the process was reset for the next session. */
  ghost predicate Retried(config: Config, start: Node, pass: Pass, j: Journal, k: nat) {
    && Paused(config, start, pass.attempt, j, k) && !pass.shutdown
    && (forall c: nat :: c * SHUTDOWN_POLL_INTERVAL < j.delays[k] ==> !pass.pause(c))
    && EndOf(j.entries[k]) <= |j.acts|
    && (Opened(j.entries[k].acts) ==> j.acts[EndOf(j.entries[k]) - 1] == Disconnect)
  }

  ghost predicate AllRetried(config: Config, start: Node, passes: seq<Pass>, j: Journal, n: nat) {
    n <= |passes| && forall k :: 0 <= k < n ==> Retried(config, start, passes[k], j, k)
  }

  /** `after` only has more to tell. */
  ghost predicate Continues(j: Journal, after: Journal) {
    && j.acts <= after.acts && j.entries <= after.entries && j.observations <= after.observations
    && j.productive <= after.productive && j.delays <= after.delays
  }

  lemma StillRecorded(config: Config, start: Node, a: Attempt, j: Journal, after: Journal, k: nat)
    requires Recorded(config, start, a, j, k) && Continues(j, after)
    ensures Recorded(config, start, a, after, k)
    ensures k < |j.entries| && k < |after.entries| && after.entries[k] == j.entries[k]
  {
    hide SessionIs, Observed, After, Drive;
    var e := j.entries[k];
    assert after.acts[..e.at] == j.acts[..e.at];
    assert after.acts[e.at..e.at + |e.acts|] == j.acts[e.at..e.at + |e.acts|];
    assert after.observations[..k + 1] == j.observations[..k + 1];
  }

  lemma PausedHas(config: Config, start: Node, a: Attempt, j: Journal, k: nat)
    requires Paused(config, start, a, j, k)
    ensures k < |j.entries| && k < |j.delays|
  {
  }

  lemma StillPaused(config: Config, start: Node, a: Attempt, j: Journal, after: Journal, k: nat)
    requires Paused(config, start, a, j, k) && Continues(j, after)
    ensures Paused(config, start, a, after, k)
    ensures k < |after.entries| && after.entries[k] == j.entries[k] && after.delays[k] == j.delays[k]
  {
    hide Recorded, Drive;
    StillRecorded(config, start, a, j, after, k);
    assert after.productive[..k + 1] == j.productive[..k + 1];
  }

  lemma StillRetried(config: Config, start: Node, passes: seq<Pass>, j: Journal, after: Journal, n: nat)
    requires AllRetried(config, start, passes, j, n) && Continues(j, after)
    ensures AllRetried(config, start, passes, after, n)
  {
    hide Recorded, Paused;
    forall k | 0 <= k < n ensures Retried(config, start, passes[k], after, k) {
      assert Retried(config, start, passes[k], j, k);
      PausedHas(config, start, passes[k].attempt, j, k);
      StillPaused(config, start, passes[k].attempt, j, after, k);
    }
  }

  /** Where a process starts: all positions at zero, and the file as it was opened. */
  function AtStart(disk: SinkState): Node {
    Process.Node(FreshLife(), disk, None)
  }

  /** How a pass ends; an exit tells in which turn of the session or before which slice of the pause. */
  datatype PassEnd = GoOn | Streaming | Exit(flag: FlagRead) | Fail(error: Error)

  /** The journal is up to date: `n` sessions are over and the process is between two of them. */
  ghost predicate UpToDate(config: Config, start: Node, j: Journal, n: nat, now: Node, patience: PatienceState,
        current: Duration, attempt: nat) {
    && |j.entries| == |j.observations| == |j.productive| == |j.delays| == n
    && |j.acts| == StepsBefore(j.entries)
    && Went(start, j.acts, config.maxEvents, false, now) && patience == After(j.observations)
    && current == Current(config.initial, config.max, j.productive) && attempt == RetryNumber(j.productive)
  }

  /** The journal with one more session in it. */
  lemma Records(config: Config, start: Node, a: Attempt, j: Journal, n: nat, before: Node, acts: seq<Action>, turns: nat,
      outcome: Option<Result<SessionOutcome>>, patience: PatienceState)
    requires |j.entries| == |j.observations| == n && |j.acts| == StepsBefore(j.entries)
    requires Went(start, j.acts, config.maxEvents, false, before) && before.stream.None? && !before.life.ready
    requires patience == After(j.observations + [Observed(a, before.life.tracker.durable)])
    requires SessionIs(before, a, patience.accumulated, config.slotBusyBudget, config.ackInterval,
                       outcome, turns, acts, config.maxEvents)
    ensures var after := j.(acts := j.acts + acts, entries := j.entries + [Entry(|j.acts|, before, acts, turns, outcome)],
                            observations := j.observations + [Observed(a, before.life.tracker.durable)]);
            Recorded(config, start, a, after, n) && Continues(j, after)
  {
    hide SessionIs, Observed, After, Drive;
    var o := Observed(a, before.life.tracker.durable);
    assert (j.acts + acts)[..|j.acts|] == j.acts && (j.acts + acts)[|j.acts|..|j.acts| + |acts|] == acts;
    assert (j.observations + [o])[..n + 1] == j.observations + [o];
  }

  /** What the backoff adds after a session worth another try. */
  lemma Pauses(config: Config, start: Node, a: Attempt, j: Journal, productive: seq<bool>, delays: seq<Duration>, n: nat,
      current: Duration, delay: Duration)
    requires config.initial <= config.max && Recorded(config, start, a, j, n) && |j.entries| == n + 1
    requires j.productive == productive && j.delays == delays && |productive| == |delays| == n
    requires current == Current(config.initial, config.max, productive)
    requires var e := j.entries[n];
             e.outcome.Some? && WorthRetry(e.outcome.value) && Drive(e.before, e.acts, config.maxEvents).Some?
    requires delay == if Productive(config, j.entries[n]) then config.initial else current
    ensures var after := j.(productive := productive + [Productive(config, j.entries[n])], delays := delays + [delay]);
            Paused(config, start, a, after, n) && Continues(j, after) &&
            NextBackoff(delay, config.max) == Current(config.initial, config.max, after.productive) &&
            RetryNumber(after.productive) == if Productive(config, j.entries[n]) then 1 else RetryNumber(productive) + 1
  {
    hide Recorded, Drive;
    var p := Productive(config, j.entries[n]);
    var flags := productive + [p];
    var after := j.(productive := flags, delays := delays + [delay]);
    StillRecorded(config, start, a, j, after, n);
    assert flags[..n] == productive && flags[..n + 1] == flags;
    DelayIsClosedForm(config.initial, config.max, flags);
  }

  lemma AfterOne(h: seq<Observation>, o: Observation)
    ensures After(h + [o]) == Observe(After(h), o)
  {
    assert (h + [o])[..|h|] == h;
  }

  // The three parts of a pass, and the loop over them.

  /** The patience runs out at the last observation or not at all. */
  ghost predicate PatienceRightly(config: Config, end: PassEnd, j: Journal) {
    if Escalates(j.observations, config.slotBusyBudget)
    then end == Fail(SlotBusyTimedOut(After(j.observations).accumulated, config.slotBusyBudget))
    else end.Fail? ==> !end.error.SlotBusyTimedOut?
  }

  /** The next move of the outer loop. */
  function AfterSession(outcome: Option<Result<SessionOutcome>>, turns: nat, i: nat): PassEnd
    requires outcome == Some(Ok(ShutdownRequested)) ==> turns > 0
  {
    if outcome.None? then Streaming
    else
      match HandleSessionOutcome(outcome.value)
      case Stop => Exit(InSession(i, turns - 1))
      case Abort(e) => Fail(e)
      case Reconnect => GoOn
  }

  lemma SessionDecides(config: Config, a: Attempt, n: Node, j: Journal, outcome: Option<Result<SessionOutcome>>, turns: nat,
      i: nat)
    requires var durable := n.life.tracker.durable;
             && j.observations != [] && j.observations[|j.observations| - 1] == Observed(a, durable)
             && (!Starts(a, durable) ==>
                   outcome == Some(Err(StartError(a, durable, After(j.observations).accumulated, config.slotBusyBudget))))
             && (Starts(a, durable) && outcome.Some? && outcome.value.Err? ==> StreamError(outcome.value.error))
    requires outcome == Some(Ok(ShutdownRequested)) ==> turns > 0
    ensures var end := AfterSession(outcome, turns, i);
            && EndsAs(end, outcome) && PatienceRightly(config, end, j)
            && (end.Fail? <==> Dies(outcome)) && (end.Exit? ==> IsTurn(end.flag, i, turns))
            && (end.Exit? ==> outcome == Some(Ok(ShutdownRequested)))
  {
    hide Escalates, After, Observed, EarlyFailure, StartError;
    TimesOutWhenEscalating(a, n.life.tracker.durable, j.observations, config.slotBusyBudget);
  }

  /** What the outer loop does next is decided by the outcome of the session alone. */
  predicate EndsAs(end: PassEnd, outcome: Option<Result<SessionOutcome>>) {
    match end
    case Streaming => outcome.None?
    case GoOn => outcome.Some? && WorthRetry(outcome.value)
    case Exit(_) => outcome == Some(Ok(ShutdownRequested))
    case Fail(e) => outcome == Some(Err(e)) && e.IsFatal() && !e.AckBeyondDurable?
  }

  /** The flag was read in the last of `turns` turns of pass `i`. */
  predicate IsTurn(flag: FlagRead, i: nat, turns: nat) {
    flag.InSession? && flag.pass == i && flag.turn + 1 == turns
  }

  /** `after` is the journal with the session taken from `before` in it; the process is at `now`. */
  ghost predicate SessionTaken(config: Config, start: Node, a: Attempt, j: Journal, after: Journal, i: nat, before: Node,
      now: Node, end: PassEnd, patience: PatienceState)
  {
    && |after.entries| == |after.observations| == i + 1 && Recorded(config, start, a, after, i)
    && after.entries[i].at == |j.acts| && after.entries[i].before == before
    && after == j.(acts := j.acts + after.entries[i].acts, entries := j.entries + [after.entries[i]],
                   observations := j.observations + [after.observations[i]])
    && Went(start, after.acts, config.maxEvents, end.Fail?, now) && patience == After(after.observations)
    && (!end.Fail? ==>
          && Went(before, after.entries[i].acts, config.maxEvents, false, now)
          && (now.stream.Some? <==> Opened(after.entries[i].acts)))
    && EndsAs(end, after.entries[i].outcome) && (end.Exit? ==> IsTurn(end.flag, i, after.entries[i].turns))
    && PatienceRightly(config, end, after) && Continues(j, after)
  }

  function WithSession(j: Journal, before: Node, a: Attempt, acts: seq<Action>, turns: nat,
      outcome: Option<Result<SessionOutcome>>): Journal
  {
    j.(acts := j.acts + acts, entries := j.entries + [Entry(|j.acts|, before, acts, turns, outcome)],
       observations := j.observations + [Observed(a, before.life.tracker.durable)])
  }

  lemma TakesSession(config: Config, start: Node, a: Attempt, j: Journal, i: nat, before: Node, now: Node, acts: seq<Action>,
      turns: nat, outcome: Option<Result<SessionOutcome>>, patience: PatienceState)
    requires |j.entries| == |j.observations| == i && |j.acts| == StepsBefore(j.entries)
    requires Went(start, j.acts, config.maxEvents, false, before) && Went(before, acts, config.maxEvents, Dies(outcome), now)
    requires before.stream.None? && !before.life.ready
    requires patience == Observe(After(j.observations), Observed(a, before.life.tracker.durable))
    requires SessionIs(before, a, patience.accumulated, config.slotBusyBudget, config.ackInterval,
                       outcome, turns, acts, config.maxEvents)
    requires Starts(a, before.life.tracker.durable) && outcome.Some? && outcome.value.Err? ==> StreamError(outcome.value.error)
    requires !Dies(outcome) ==> (now.stream.Some? <==> Starts(a, before.life.tracker.durable))
    ensures outcome == Some(Ok(ShutdownRequested)) ==> turns > 0
    ensures SessionTaken(config, start, a, j, WithSession(j, before, a, acts, turns, outcome), i, before, now,
                         AfterSession(outcome, turns, i), patience)
  {
    hide Went, Observed, After, Observe, EarlyFailure, StartError, SessionIs, Recorded, Starts, Escalates;
    var o := Observed(a, before.life.tracker.durable);
    AfterOne(j.observations, o);
    Records(config, start, a, j, i, before, acts, turns, outcome, patience);
    SessionShape(before, a, patience.accumulated, config.slotBusyBudget, config.ackInterval, outcome, turns, acts, config.maxEvents);
    WentOn(start, j.acts, before, acts, config.maxEvents, Dies(outcome), now);
    SessionDecides(config, a, before, WithSession(j, before, a, acts, turns, outcome), outcome, turns, i);
  }

  /** The session of a pass and what its outcome means; `GoOn` is a reconnect. */
  method OneSession(config: Config, state: Replicator, patience: SlotBusyPatience, a: Attempt, i: nat, ghost start: Node,
      ghost j: Journal)
    returns (end: PassEnd, ghost after: Journal)
    requires state.slotBusyBudget == config.slotBusyBudget && state.ackInterval == config.ackInterval
    requires state.assembler.maxEvents == config.maxEvents
    requires state.Valid() && state.position.None? && patience.View() == After(j.observations)
    requires |j.entries| == |j.observations| == i && |j.acts| == StepsBefore(j.entries)
    requires Went(start, j.acts, config.maxEvents, false, state.Node())
    modifies state.Repr(), patience
    ensures SessionTaken(config, start, a, j, after, i, old(state.Node()), state.Node(), end, patience.View())
    ensures !end.Fail? ==> state.Valid()
    ensures end.Exit? ==> state.sink.pending.None?
  {
    hide Went, Observed, After, Observe, EarlyFailure, StartError, SessionIs, Starts, StreamError, Ledger, SessionTaken, Drive;
    ghost var before, acts := state.Node(), [];
    var outcome, turns;
    outcome, turns, acts := state.StreamOnce(a, patience);
    TakesSession(config, start, a, j, i, before, state.Node(), acts, turns, outcome, patience.View());
    after := WithSession(j, before, a, acts, turns, outcome);
    end := AfterSession(outcome, turns, i);
  }

  lemma SessionShape(n: Node, a: Attempt, waited: Duration, budget: Duration, interval: Duration,
      r: Option<Result<SessionOutcome>>, turns: nat, acts: seq<Action>, limit: nat)
    requires SessionIs(n, a, waited, budget, interval, r, turns, acts, limit)
    ensures Opened(acts) <==> Starts(a, n.life.tracker.durable)
    ensures r == Some(Ok(ShutdownRequested)) ==> 0 < turns <= |a.turns| && a.turns[turns - 1].shutdown
    ensures !Starts(a, n.life.tracker.durable) ==> r == Some(Err(StartError(a, n.life.tracker.durable, waited, budget)))
  {
    hide Drive, LoopActs, EarlyFailure, StartError;
  }

  /** The pause, and then the reset that the next session starts from. */
  method Between(config: Config, state: Replicator, backoff: ReconnectBackoff, attempt: nat, productive: bool,
      pass: Pass, i: nat, ghost start: Node, ghost j: Journal)
    returns (end: PassEnd, retry: nat, ghost after: Journal)
    requires backoff.initial == config.initial && backoff.max == config.max
    requires state.assembler.maxEvents == config.maxEvents
    requires state.Valid() && Went(start, j.acts, config.maxEvents, false, state.Node())
    modifies state.Repr(), backoff
    ensures Went(start, after.acts, config.maxEvents, false, state.Node()) && state.Valid()
    ensures state.sink.View() == old(state.sink.View())
    ensures var delay := if productive then config.initial else old(backoff.current);
            && after == j.(acts := after.acts, productive := j.productive + [productive], delays := j.delays + [delay])
            && backoff.current == NextBackoff(delay, config.max) && retry == (if productive then 1 else attempt + 1)
            && match end
               case GoOn =>
                 && state.position.None? && (forall c: nat :: c * SHUTDOWN_POLL_INTERVAL < delay ==> !pass.pause(c))
                 && after.acts == j.acts + if old(state.position).Some? then [Disconnect] else []
               case Exit(InPause(p, c)) => p == i && after.acts == j.acts && SeenInPause(pass, delay, c)
               case _ => false
  {
    hide Went;
    retry := if productive then 1 else attempt + 1;
    var delay := backoff.NextDelay(productive);
    after := j.(productive := j.productive + [productive], delays := j.delays + [delay]);
    var pause, chunks := SlicedPause(delay, pass.pause);
    if pause.ShutdownSeen? {
      return Exit(InPause(i, |chunks|)), retry, after;
    }
    ghost var n1, more := state.Node(), [];
    more := state.ResetForReconnect();
    WentOn(start, after.acts, n1, more, config.maxEvents, false, state.Node());
    after := after.(acts := j.acts + more);
    return GoOn, retry, after;
  }

  /** Read number `c` of the pause is the first that sees the flag, and comes before the pause is over. */
  ghost predicate SeenInPause(pass: Pass, delay: Duration, c: nat) {
    c * SHUTDOWN_POLL_INTERVAL < delay && pass.pause(c) && forall b: nat :: b < c ==> !pass.pause(b)
  }

  /** How pass `k` ended the process, or why it has not ended: the flag on entry comes before anything
      else; otherwise the pass has its session, and `end` is what the outcome and the pause make of it. There
      are no steps but those on record. */
  ghost predicate PassEnds(config: Config, start: Node, pass: Pass, j: Journal, k: nat, end: PassEnd) {
    && |j.productive| == |j.delays| == (if end.Exit? && end.flag.InPause? then k + 1 else k)
    && if pass.shutdown then
      end == Exit(OnEntry(k)) && |j.entries| == |j.observations| == k && |j.acts| == StepsBefore(j.entries)
    else
      && |j.entries| == |j.observations| == k + 1 && Recorded(config, start, pass.attempt, j, k)
      && |j.acts| == j.entries[k].at + |j.entries[k].acts|
      && match end
         case GoOn => false
         case Streaming => j.entries[k].outcome.None?
         case Fail(e) => j.entries[k].outcome == Some(Err(e)) && e.IsFatal() && !e.AckBeyondDurable?
         case Exit(OnEntry(_)) => false
         case Exit(InSession(p, t)) =>
           && p == k && t + 1 == j.entries[k].turns && j.entries[k].outcome == Some(Ok(ShutdownRequested))
           && t < |pass.attempt.turns| && pass.attempt.turns[t].shutdown
         case Exit(InPause(p, c)) =>
           p == k && Paused(config, start, pass.attempt, j, k) && SeenInPause(pass, j.delays[k], c)
  }

  /**
   One turn of the outer loop. A session worth another try goes on after a pause that nobody
   interrupted; otherwise the process ends, and `end` says why.
   */
  method RunPass(config: Config, state: Replicator, backoff: ReconnectBackoff, patience: SlotBusyPatience, attempt: nat,
      pass: Pass, i: nat, ghost start: Node, ghost j: Journal)
    returns (end: PassEnd, retry: nat, ghost after: Journal)
    requires config.initial <= config.max && backoff.initial == config.initial && backoff.max == config.max
    requires state.slotBusyBudget == config.slotBusyBudget && state.ackInterval == config.ackInterval
    requires state.assembler.maxEvents == config.maxEvents && state.Valid() && state.position.None?
    requires UpToDate(config, start, j, i, state.Node(), patience.View(), backoff.current, attempt)
    requires !Escalates(j.observations, config.slotBusyBudget)
    modifies state.Repr(), patience, backoff
    ensures Went(start, after.acts, config.maxEvents, end.Fail?, state.Node()) && Continues(j, after)
    ensures !end.Fail? ==> state.Valid()
    ensures if end.GoOn? then
              && state.position.None? && Retried(config, start, pass, after, i)
              && UpToDate(config, start, after, i + 1, state.Node(), patience.View(), backoff.current, retry)
            else PassEnds(config, start, pass, after, i, end)
    ensures PatienceRightly(config, end, after)
    ensures end.Exit? && end.flag.InSession? ==> state.sink.pending.None?
  {
    hide Went, Escalates, After, RetryNumber, Current, Recorded, Retried, PassEnds, Continues, PatienceRightly, WorthRetry;
    after, retry := j, attempt;
    if pass.shutdown {
      EndsOnEntry(config, start, pass, j, i);
      PatientSoFar(config, j, Exit(OnEntry(i)));
      return Exit(OnEntry(i)), retry, after;
    }
    var ackedBefore := state.tracker.acked;
    end, after := OneSession(config, state, patience, pass.attempt, i, start, j);
    if !end.GoOn? {
      EndsAtSession(config, start, pass, after, i, end);
      return;
    }
    ghost var session := after;
    end, retry, after := PauseAndReset(config, state, backoff, attempt, ackedBefore, pass, i, start, session);
    StillPatient(config, end, session, after);
    ContinuesOn(j, session, after);
  }

  lemma StillPatient(config: Config, end: PassEnd, j: Journal, after: Journal)
    requires PatienceRightly(config, GoOn, j) && after.observations == j.observations && !end.Fail?
    ensures PatienceRightly(config, end, after)
  {
  }

  lemma PatientSoFar(config: Config, j: Journal, end: PassEnd)
    requires !Escalates(j.observations, config.slotBusyBudget) && !end.Fail?
    ensures PatienceRightly(config, end, j) && Continues(j, j)
  {
  }

  lemma ContinuesOn(j: Journal, m: Journal, after: Journal)
    requires Continues(j, m) && Continues(m, after)
    ensures Continues(j, after)
  {
  }

  lemma EndsOnEntry(config: Config, start: Node, pass: Pass, j: Journal, k: nat)
    requires pass.shutdown && |j.entries| == |j.observations| == |j.productive| == |j.delays| == k && |j.acts| == StepsBefore(j.entries)
    ensures PassEnds(config, start, pass, j, k, Exit(OnEntry(k)))
  {
  }

  lemma EndsAtSession(config: Config, start: Node, pass: Pass, j: Journal, k: nat, end: PassEnd)
    requires |j.productive| == |j.delays| == k
    requires !pass.shutdown && |j.entries| == |j.observations| == k + 1 && Recorded(config, start, pass.attempt, j, k)
    requires |j.acts| == j.entries[k].at + |j.entries[k].acts|
    requires !end.GoOn? && EndsAs(end, j.entries[k].outcome)
    requires end.Exit? ==> IsTurn(end.flag, k, j.entries[k].turns)
    ensures PassEnds(config, start, pass, j, k, end)
  {
    hide Recorded, Paused;
    if end.Exit? {
      LastTurn(config, start, pass.attempt, j, k);
    }
  }

  lemma EndsInPause(config: Config, start: Node, pass: Pass, j: Journal, k: nat, c: nat)
    requires |j.productive| == |j.delays| == k + 1
    requires !pass.shutdown && |j.entries| == |j.observations| == k + 1
    requires |j.acts| == j.entries[k].at + |j.entries[k].acts|
    requires Paused(config, start, pass.attempt, j, k) && SeenInPause(pass, j.delays[k], c)
    ensures PassEnds(config, start, pass, j, k, Exit(InPause(k, c)))
  {
    hide SeenInPause, Drive, SessionIs, Observed, After;
  }

  /** After a session worth another try: the pause, and the journal brought up to date. */
  method PauseAndReset(config: Config, state: Replicator, backoff: ReconnectBackoff, attempt: nat, ackedBefore: Lsn,
      pass: Pass, i: nat, ghost start: Node, ghost j: Journal)
    returns (end: PassEnd, retry: nat, ghost after: Journal)
    requires config.initial <= config.max && backoff.initial == config.initial && backoff.max == config.max
    requires state.assembler.maxEvents == config.maxEvents && state.Valid() && !pass.shutdown
    requires |j.entries| == |j.observations| == i + 1 && |j.productive| == |j.delays| == i
    requires Recorded(config, start, pass.attempt, j, i) && j.entries[i].at + |j.entries[i].acts| == |j.acts|
    requires j.entries[i].outcome.Some? && WorthRetry(j.entries[i].outcome.value)
    requires ackedBefore == j.entries[i].before.life.tracker.acked
    requires Went(start, j.acts, config.maxEvents, false, state.Node())
    requires Went(j.entries[i].before, j.entries[i].acts, config.maxEvents, false, state.Node())
    requires state.position.Some? <==> Opened(j.entries[i].acts)
    requires backoff.current == Current(config.initial, config.max, j.productive) && attempt == RetryNumber(j.productive)
    modifies state.Repr(), backoff
    ensures Went(start, after.acts, config.maxEvents, false, state.Node()) && Continues(j, after) && state.Valid()
    ensures after.observations == j.observations && !end.Fail? && (end.Exit? ==> !end.flag.InSession?)
    ensures if end.GoOn? then
              && state.position.None? && Retried(config, start, pass, after, i)
              && UpToDate(config, start, after, i + 1, state.Node(), After(j.observations), backoff.current, retry)
            else PassEnds(config, start, pass, after, i, end)
  {
    hide Went, Observed, Escalates, After, RetryNumber, Current, Recorded, Paused, Drive, Retried, Productive, PassEnds,
      SeenInPause, Ledger, WorthRetry, NextBackoff;
    ghost var current := backoff.current;
    WentTo(j.entries[i].before, j.entries[i].acts, config.maxEvents, state.Node());
    ghost var productive := ProductiveIs(config, j.entries[i], state.Node());
    Pauses(config, start, pass.attempt, j, j.productive, j.delays, i, current, if productive then config.initial else current);
    end, retry, after := Between(config, state, backoff, attempt, state.tracker.acked > ackedBefore, pass, i, start, j);
    if end.GoOn? {
      Resumes(config, start, pass, j.(productive := after.productive, delays := after.delays), after, i, state.Node(),
        After(j.observations), backoff.current, retry);
    } else {
      EndsInPause(config, start, pass, after, i, end.flag.chunk);
    }
  }

  lemma ProductiveIs(config: Config, e: Entry, after: Node) returns (productive: bool)
    requires Drive(e.before, e.acts, config.maxEvents) == Some(after)
    ensures productive == Productive(config, e) == (after.life.tracker.acked > e.before.life.tracker.acked)
  {
    hide Drive;
    productive := after.life.tracker.acked > e.before.life.tracker.acked;
  }

  /** After an uninterrupted pause and the reset the journal is up to date again. */
  lemma Resumes(config: Config, start: Node, pass: Pass, j: Journal, after: Journal, n: nat, now: Node,
      patience: PatienceState, current: Duration, attempt: nat)
    requires Paused(config, start, pass.attempt, j, n) && !pass.shutdown
    requires |j.entries| == |j.observations| == |j.productive| == |j.delays| == n + 1
    requires j.entries[n].at + |j.entries[n].acts| == |j.acts|
    requires after == j.(acts := j.acts + if Opened(j.entries[n].acts) then [Disconnect] else [])
    requires forall c: nat :: c * SHUTDOWN_POLL_INTERVAL < j.delays[n] ==> !pass.pause(c)
    requires Went(start, after.acts, config.maxEvents, false, now) && patience == After(j.observations)
    requires current == Current(config.initial, config.max, j.productive) && attempt == RetryNumber(j.productive)
    ensures Retried(config, start, pass, after, n)
    ensures UpToDate(config, start, after, n + 1, now, patience, current, attempt)
  {
    hide Went, After, RetryNumber, Current, Paused;
    StillPaused(config, start, pass.attempt, j, after, n);
  }

  lemma LastTurn(config: Config, start: Node, a: Attempt, j: Journal, k: nat)
    requires Recorded(config, start, a, j, k) && j.entries[k].outcome == Some(Ok(ShutdownRequested))
    ensures 0 < j.entries[k].turns <= |a.turns| && a.turns[j.entries[k].turns - 1].shutdown
  {
    hide Drive, Observed, After, SessionIs;
    var e := j.entries[k];
    SessionShape(e.before, a, After(j.observations[..k + 1]).accumulated, config.slotBusyBudget, config.ackInterval,
      e.outcome, e.turns, e.acts, config.maxEvents);
  }

  /** The process went through steps of the protocol from `start` and left this file, at once when it failed. */
  ghost predicate LeavesFile(start: Node, acts: seq<Action>, limit: nat, failed: bool, disk: SinkState) {
    exists n :: Went(start, acts, limit, failed, n) && n.disk == disk
  }

  /** The end of the last pass that the result of the process stands for. */
  function EndOfRun(r: Option<Result<()>>, flag: Option<FlagRead>): PassEnd
    requires r.Some? && r.value.Ok? ==> flag.Some?
  {
    match r
    case None => Streaming
    case Some(Ok(_)) => Exit(flag.value)
    case Some(Err(e)) => Fail(e)
  }

  /** After `done` retried sessions the next pass ends the process or is still streaming; or there is
      no next pass, and then the process has not ended. */
  ghost predicate EndsRightly(config: Config, start: Node, passes: seq<Pass>, r: Option<Result<()>>,
      flag: Option<FlagRead>, j: Journal, done: nat)
  {
    && done <= |passes| && (r.Some? && r.value.Ok? ==> flag.Some?)
    && if done == |passes| then r.None? && |j.entries| == |j.observations| == |j.productive| == |j.delays| == done &&
            |j.acts| == StepsBefore(j.entries)
       else PassEnds(config, start, passes[done], j, done, EndOfRun(r, flag))
  }

  /**
   The whole life of the process. It succeeds only after the shutdown flag was read as set, and
   fails only with a fatal error, which is never retried: every session on record is the session
   that its attempt makes from where the steps before it lead. The patience with a busy slot runs
   out exactly when the time waited reaches the budget; every pause has its closed form. All along
   it goes through steps of the protocol. An exit from inside a session leaves nothing accepted
   that is not on the device. `r` is None when `passes`, or the turns of the last session, end
   before the process does.
   */
  method Run(config: Config, sink: FileSink, passes: seq<Pass>)
    returns (r: Option<Result<()>>, flag: Option<FlagRead>, ghost j: Journal, ghost done: nat)
    requires sink.pending == None
    modifies sink
    ensures !ValidUrl(config.databaseUrl) ==> r == Some(Err(InvalidDatabaseUrl)) && sink.View() == old(sink.View())
    ensures ValidUrl(config.databaseUrl) && config.initial > config.max ==>
              r == Some(Err(InvalidReconnectBounds(config.initial, config.max))) && sink.View() == old(sink.View())
    ensures ValidUrl(config.databaseUrl) && config.initial <= config.max ==>
              var start := AtStart(old(sink.View()));
              && AllRetried(config, start, passes, j, done)
              && EndsRightly(config, start, passes, r, flag, j, done)
              && PatienceRightly(config, EndOfRun(r, flag), j)
              && LeavesFile(start, j.acts, config.maxEvents, r.Some? && r.value.Err?, sink.View())
    ensures r == Some(Ok(())) && flag.value.InSession? ==>
              sink.device == sink.View().Contents() || sink.View() == old(sink.View())
  {
    hide Went, Escalates, After, Retried, Continues, PassEnds, Ledger, RetryNumber, Current;
    flag, j, done := None, Journal([], [], [], [], []), 0;
    if !ValidUrl(config.databaseUrl) {
      return Some(Err(InvalidDatabaseUrl)), flag, j, done;
    }
    if config.initial > config.max {
      return Some(Err(InvalidReconnectBounds(config.initial, config.max))), flag, j, done;
    }
    ghost var start := AtStart(sink.View());
    var state := new Replicator(sink, config.maxEvents, config.ackInterval, config.slotBusyBudget);
    var backoff := new ReconnectBackoff(config.initial, config.max);
    var patience := new SlotBusyPatience();
    var attempt, i := 0, 0;
    AtFirst(config, start);
    while i < |passes|
      invariant i <= |passes| && i == done && flag.None?
      invariant fresh(state.Repr() - {sink}) && fresh(backoff) && fresh(patience) && state.sink == sink
      invariant state.atStart == old(sink.View()) && state.assembler.maxEvents == config.maxEvents
      invariant state.slotBusyBudget == config.slotBusyBudget && state.ackInterval == config.ackInterval
      invariant backoff.initial == config.initial && backoff.max == config.max
      invariant state.Valid() && state.position.None?
      invariant UpToDate(config, start, j, i, state.Node(), patience.View(), backoff.current, attempt)
      invariant AllRetried(config, start, passes, j, done) && !Escalates(j.observations, config.slotBusyBudget)
    {
      var end;
      ghost var before := j;
      end, attempt, j := RunPass(config, state, backoff, patience, attempt, passes[i], i, start, before);
      StillRetried(config, start, passes, before, j, i);
      match end {
        case Streaming => return None, flag, j, done;
        case Fail(e) => return Some(Err(e)), flag, j, done;
        case Exit(f) =>
          if f.InSession? {
            NothingOwed(state.atStart, state.accepted, state.waiting, sink.View(), state.tracker.processed);
          }
          flag := Some(f);
          return Some(Ok(())), flag, j, done;
        case GoOn =>
          i := i + 1;
          done := i;
      }
    }
    return None, flag, j, done;
  }

  lemma AtFirst(config: Config, start: Node)
    ensures UpToDate(config, start, Journal([], [], [], [], []), 0, start, PatienceState(0, None), config.initial, 0)
    ensures !Escalates([], config.slotBusyBudget)
  {
  }

  /**
   No silent loss, in the file that Run leaves, however it ended: `journal` is what Run recorded,
   `disk` the file it left, and `acts` any way of weaving the server's and the kernel's steps into
   the journal. What the slot gives up is on the device of that very file, also when the process
   failed in the middle of a transaction.
   */
  lemma RunNeverLoses(start: Node, journal: seq<Action>, failed: bool, disk: SinkState, s0: State, past: seq<Action>,
      acts: seq<Action>, limit: nat, i: nat, k: nat)
    requires LeavesFile(start, journal, limit, failed, disk) && Own(acts) == journal
    requires Initial(s0) && limit < TWO32 && NoForeign(past + acts) && Exec(s0, past, limit).Some?
    requires var s := Exec(s0, past, limit).value;
             Matches(s, start) && s.disk == start.disk && Lawful(s, acts, limit)
    ensures Exec(s0, past + acts, limit).Some?
    ensures var s := Exec(s0, past + acts, limit).value;
            i < |s.log| && s.log[i].endLsn <= s.confirmed && k < |s.log[i].changes| ==>
              s.log[i].changes[k] in disk.device
  {
    hide Exec, Matches, Lawful, Drive;
    ProcessFileHoldsAll(s0, past, start, acts, limit, i, k);
  }

  /** A file as the next process finds it: the lines that were synchronised, then those that happened to survive. */
  function Reopened(device: seq<Line>, rest: seq<Line>): SinkState {
    SinkState(device, rest, [], None)
  }

  /**
   And the next life starts from that file: after the process ended, for whatever reason, and a crash
   kept any part of what it had not synchronised, a new process that opens the file is in the state
   the theorem above asks for, at the same server and slot.
   */
  lemma NextLifeStartsFromFile(start: Node, journal: seq<Action>, failed: bool, disk: SinkState, rest: seq<Line>,
      s0: State, past: seq<Action>, acts: seq<Action>, limit: nat)
    requires LeavesFile(start, journal, limit, failed, disk) && Own(acts) == journal
    requires disk.device + rest <= disk.Contents()
    requires Exec(s0, past, limit).Some?
    requires var s := Exec(s0, past, limit).value;
             Matches(s, start) && s.disk == start.disk && Lawful(s, acts, limit)
    ensures var life := past + Quiet(acts) + [Crash(|disk.device|, |disk.device| + |rest|), Restart];
            var next := AtStart(Reopened(disk.device, rest));
            && Exec(s0, past + acts, limit).Some? && Exec(s0, life, limit).Some?
            && Matches(Exec(s0, life, limit).value, next) && Exec(s0, life, limit).value.disk == next.disk
            && Exec(s0, life, limit).value.log == Exec(s0, past + acts, limit).value.log
            && Exec(s0, life, limit).value.confirmed == Exec(s0, past + acts, limit).value.confirmed
            && (NoForeign(past + acts) ==> NoForeign(life))
  {
    hide Exec, Matches, Lawful, Drive, Enabled, Next;
    var s := Exec(s0, past, limit).value;
    WriteBackIsUnseen(s, start, acts, limit);
    ExecAppend(s0, past, acts, limit);
    ExecAppend(s0, past, Quiet(acts), limit);
    QuietIsPart(acts);
    var t := Exec(s0, past + Quiet(acts), limit).value;
    KeepsPart(start, journal, limit, failed, disk, rest, t.disk);
    Relaunch(t, disk.device, rest, limit);
    ExecAppend(s0, past + Quiet(acts), [Crash(|disk.device|, |disk.device| + |rest|), Restart], limit);
  }

  lemma KeepsPart(start: Node, journal: seq<Action>, limit: nat, failed: bool, disk: SinkState, rest: seq<Line>, d: SinkState)
    requires LeavesFile(start, journal, limit, failed, disk) && disk.device + rest <= disk.Contents()
    requires Drive(start, journal, limit).Some? && d == Drive(start, journal, limit).value.disk
    ensures d.device == disk.device && disk.device + rest <= d.Contents()
  {
    hide Drive;
  }

  lemma Relaunch(t: State, device: seq<Line>, rest: seq<Line>, limit: nat)
    requires t.disk.device == device && device + rest <= t.disk.Contents()
    ensures var acts := [Crash(|device|, |device| + |rest|), Restart];
            var u := t.(session := None, life := Some(FreshLife()), disk := Reopened(device, rest));
            Exec(t, acts, limit) == Some(u) && Matches(u, AtStart(Reopened(device, rest)))
  {
    hide DeliverNext, Denotes, FreshKeys;
    var m, k := |device|, |device| + |rest|;
    var acts := [Crash(m, k), Restart];
    var lines := t.disk.Contents();
    assert lines[..m] == device && lines[m..k] == rest;
    var dead := t.(session := None, life := None, disk := Reopened(device, rest));
    assert acts[..1] == [Crash(m, k)] && acts[..1][..0] == [];
    assert Exec(t, acts[..0], limit) == Some(t);
    assert Exec(t, acts[..1], limit) == Some(dead);
  }
}
