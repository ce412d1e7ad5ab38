/** Patience with a busy slot: time is counted only between busy answers with nothing else between. */
module Patience {
  import opened Prelude

  /** Durations and instants in nanoseconds; a Duration holds 64 bits of whole seconds. */
  const DURATION_MAX: nat := TWO64 * 1_000_000_000 - 1

  type Duration = d: nat | d <= DURATION_MAX

  function SaturatingAdd(a: Duration, b: nat): Duration {
    if a + b <= DURATION_MAX then a + b else DURATION_MAX
  }

  function SaturatingSince(now: nat, earlier: nat): nat {
    if now >= earlier then now - earlier else 0
  }

  datatype PatienceState = PatienceState(accumulated: Duration, lastBusy: Option<nat>) {

    function Busy(now: nat): PatienceState {
      PatienceState(if lastBusy.Some? then SaturatingAdd(accumulated, SaturatingSince(now, lastBusy.value)) else accumulated,
                    Some(now))
    }
  }

  /** The sum after a busy answer at `now`: one that follows another busy answer adds the time between
      the two if the clock went on, up to the largest Duration; any other adds nothing. */
  predicate CountsGap(before: Duration, last: Option<nat>, now: nat, after: Duration) {
    if last.Some? && now > last.value then
      if before + (now - last.value) <= DURATION_MAX then after == before + (now - last.value) else after == DURATION_MAX
    else after == before
  }

  class SlotBusyPatience {
    var accumulated: Duration
    var lastBusy: Option<nat>

    ghost function View(): PatienceState
      reads this
    {
      PatienceState(accumulated, lastBusy)
    }

    constructor ()
      ensures View() == PatienceState(0, None)
    {
      accumulated, lastBusy := 0, None;
    }

    /** Reports the time waited as soon as it reaches the budget. */
    method ObserveBusy(now: nat, budget: Duration) returns (waited: Option<Duration>)
      modifies this
      ensures View() == old(View()).Busy(now)
      ensures lastBusy == Some(now) && CountsGap(old(accumulated), old(lastBusy), now, accumulated)
      ensures waited == if accumulated >= budget then Some(accumulated) else None
    {
      if lastBusy.Some? {
        accumulated := SaturatingAdd(accumulated, SaturatingSince(now, lastBusy.value));
      }
      lastBusy := Some(now);
      return if accumulated >= budget then Some(accumulated) else None;
    }

    method Interrupt()
      modifies this
      ensures View() == old(View()).(lastBusy := None)
    {
      lastBusy := None;
    }

    method Reset()
      modifies this
      ensures View() == PatienceState(0, None)
    {
      accumulated, lastBusy := 0, None;
    }
  }

  /** The server's answer to START_REPLICATION, as far as the code tells answers apart. */
  datatype StartReply = Started | SlotBusy | Transient | Refused

  function ClassifyStartError(reply: StartReply): (e: Error)
    requires !reply.Started?
    ensures e.IsFatal() <==> reply.Refused?
  {
    if reply.Refused? then SlotUnusable else Connection
  }

  /** What an attempt to start a session adds to the history of attempts. */
  datatype Observation = Busy(at: nat) | Other | Success

  function ObservationOf(reply: StartReply, now: nat): Observation {
    match reply
    case Started => Success
    case SlotBusy => Busy(now)
    case _ => Other
  }

  function Observe(p: PatienceState, o: Observation): PatienceState {
    match o
    case Busy(now) => p.Busy(now)
    case Other => p.(lastBusy := None)
    case Success => PatienceState(0, None)
  }

  method ClassifyStartOutcome(reply: StartReply, patience: SlotBusyPatience, budget: Duration, now: nat)
    returns (r: Result<()>)
    modifies patience
    ensures patience.View() == Observe(old(patience.View()), ObservationOf(reply, now))
    ensures reply.Started? ==> patience.accumulated == 0 && patience.lastBusy == None
    ensures reply.SlotBusy? ==>
              && patience.lastBusy == Some(now)
              && CountsGap(old(patience.accumulated), old(patience.lastBusy), now, patience.accumulated)
    ensures reply.Transient? || reply.Refused? ==>
              patience.accumulated == old(patience.accumulated) && patience.lastBusy == None
    ensures r.Ok? <==> reply.Started?
    ensures reply.SlotBusy? ==>
              r.error == if patience.accumulated >= budget then SlotBusyTimedOut(patience.accumulated, budget) else Connection
    ensures reply.Transient? ==> r.error == Connection
    ensures reply.Refused? ==> r.error == SlotUnusable
  {
    if reply.Started? {
      patience.Reset();
      return Ok(());
    }
    if reply.SlotBusy? {
      var waited := patience.ObserveBusy(now, budget);
      if waited.Some? {
        return Err(SlotBusyTimedOut(waited.value, budget));
      }
      return Err(ClassifyStartError(reply));
    }
    patience.Interrupt();
    return Err(ClassifyStartError(reply));
  }

  /** A failure before the server was asked breaks the chain; a success there leaves it alone. */
  method InterruptOnEarlyFailure<T>(outcome: Result<T>, patience: SlotBusyPatience) returns (r: Result<T>)
    modifies patience
    ensures r == outcome
    ensures patience.View() == if outcome.Err? then Observe(old(patience.View()), Other) else old(patience.View())
    ensures patience.accumulated == old(patience.accumulated)
    ensures patience.lastBusy == if outcome.Err? then None else old(patience.lastBusy)
  {
    if outcome.Err? {
      patience.Interrupt();
    }
    return outcome;
  }

  // The closed form over whole histories.

  function After(h: seq<Observation>): PatienceState {
    if h == [] then PatienceState(0, None) else Observe(After(h[..|h| - 1]), h[|h| - 1])
  }

  /** The time between answers `i - 1` and `i`, when both were busy and the clock did not go back. */
  function Gap(h: seq<Observation>, i: nat): nat
    requires i < |h|
  {
    if i > 0 && h[i - 1].Busy? && h[i].Busy? then SaturatingSince(h[i].at, h[i - 1].at) else 0
  }

  /** The sum of the gaps among answers `from` to the last. */
  function GapSum(h: seq<Observation>, from: nat): nat
    requires from <= |h|
    decreases |h| - from
  {
    if from == |h| then 0 else Gap(h, from) + GapSum(h, from + 1)
  }

  /** One past the last success. */
  function EpisodeStart(h: seq<Observation>): (n: nat)
    ensures n <= |h|
    ensures forall i :: n <= i < |h| ==> !h[i].Success?
    ensures n > 0 ==> h[n - 1].Success?
  {
    if h == [] then 0 else if h[|h| - 1].Success? then |h| else EpisodeStart(h[..|h| - 1])
  }

  function Waited(h: seq<Observation>): nat {
    GapSum(h, EpisodeStart(h))
  }

  lemma {:induction false} GapSumSnoc(h: seq<Observation>, o: Observation, from: nat)
    requires from <= |h|
    ensures GapSum(h + [o], from) == GapSum(h, from) + Gap(h + [o], |h|)
    decreases |h| - from
  {
    if from < |h| {
      GapSumSnoc(h, o, from + 1);
    } else {
      assert GapSum(h + [o], |h| + 1) == 0;
    }
  }

  /**
   For every history and every order of the clock values: what is accumulated is the sum of
   the gaps between adjacent busy answers since the last success, up to the largest Duration.
   */
  lemma {:induction false} AccumulatedIsWaited(h: seq<Observation>)
    ensures After(h).accumulated == if Waited(h) <= DURATION_MAX then Waited(h) else DURATION_MAX
    ensures After(h).lastBusy == if h != [] && h[|h| - 1].Busy? then Some(h[|h| - 1].at) else None
  {
    if h != [] {
      var front, o := h[..|h| - 1], h[|h| - 1];
      AccumulatedIsWaited(front);
      assert h == front + [o];
      if !o.Success? {
        GapSumSnoc(front, o, EpisodeStart(front));
      }
    }
  }

  /** The patience runs out at the last answer of `h`. */
  ghost predicate Escalates(h: seq<Observation>, budget: Duration) {
    h != [] && h[|h| - 1].Busy? && After(h).accumulated >= budget
  }

  /** Exactly when a busy answer brings the sum to the budget. */
  lemma EscalatesWhenWaited(h: seq<Observation>, budget: Duration)
    ensures Escalates(h, budget) <==> h != [] && h[|h| - 1].Busy? && Waited(h) >= budget
  {
    AccumulatedIsWaited(h);
  }

  /** On an unbroken chain with a clock that does not go back only the first and last answer
      matter: the number of attempts between them does not. */
  lemma {:induction false} ChainTelescopes(h: seq<Observation>)
    requires h != [] && (forall i :: 0 <= i < |h| ==> h[i].Busy?)
    requires forall i :: 0 < i < |h| ==> h[i - 1].at <= h[i].at
    ensures h[0].at <= h[|h| - 1].at
    ensures Waited(h) == h[|h| - 1].at - h[0].at
  {
    var front, o := h[..|h| - 1], h[|h| - 1];
    assert h == front + [o];
    if front == [] {
      assert GapSum(h, 1) == 0;
    } else {
      ChainTelescopes(front);
      GapSumSnoc(front, o, 0);
    }
  }

  /** An interrupt in the middle of a history only ever postpones escalation. */
  lemma {:induction false} InterruptOnlyPostpones(before: seq<Observation>, after: seq<Observation>)
    ensures Waited(before + [Other] + after) <= Waited(before + after)
    decreases |after|
  {
    var broken, whole := before + [Other] + after, before + after;
    if after == [] {
      assert broken == before + [Other] && whole == before;
      assert broken[..|broken| - 1] == before;
      GapSumSnoc(before, Other, EpisodeStart(before));
    } else {
      var front, o := after[..|after| - 1], after[|after| - 1];
      InterruptOnlyPostpones(before, front);
      assert broken == before + [Other] + front + [o] && whole == before + front + [o];
      assert broken[..|broken| - 1] == before + [Other] + front && whole[..|whole| - 1] == before + front;
      if !o.Success? {
        GapSumSnoc(before + [Other] + front, o, EpisodeStart(before + [Other] + front));
        GapSumSnoc(before + front, o, EpisodeStart(before + front));
      }
    }
  }

  /** So a history without the interrupt escalates wherever the history with it does. */
  lemma RemovingInterruptNeverDelays(before: seq<Observation>, after: seq<Observation>, budget: Duration)
    requires after != [] && Escalates(before + [Other] + after, budget)
    ensures Escalates(before + after, budget)
  {
    InterruptOnlyPostpones(before, after);
    EscalatesWhenWaited(before + [Other] + after, budget);
    EscalatesWhenWaited(before + after, budget);
    assert (before + after)[|before + after| - 1] == after[|after| - 1];
    assert (before + [Other] + after)[|before + [Other] + after| - 1] == after[|after| - 1];
  }

  /** If something else happened between every two busy answers, no positive budget is ever reached. */
  lemma SeparatedNeverEscalates(h: seq<Observation>, budget: Duration)
    requires budget > 0
    requires forall i :: 0 < i < |h| ==> !(h[i - 1].Busy? && h[i].Busy?)
    ensures !Escalates(h, budget)
  {
    NoGaps(h, EpisodeStart(h));
    EscalatesWhenWaited(h, budget);
  }

  lemma {:induction false} NoGaps(h: seq<Observation>, from: nat)
    requires from <= |h|
    requires forall i :: 0 < i < |h| ==> !(h[i - 1].Busy? && h[i].Busy?)
    ensures GapSum(h, from) == 0
    decreases |h| - from
  {
    if from < |h| {
      NoGaps(h, from + 1);
    }
  }
}
