/** The pause before the next attempt: doubling up to a ceiling, slept in slices. */
module Backoff {
  import opened Patience

  function NextBackoff(current: Duration, max: Duration): Duration {
    var doubled := if 2 * current <= DURATION_MAX then 2 * current else DURATION_MAX;
    if doubled > max then max else doubled
  }

  class ReconnectBackoff {
    var current: Duration
    const initial: Duration
    const max: Duration

    constructor (initial: Duration, max: Duration)
      ensures current == initial && this.initial == initial && this.max == max
    {
      current := initial;
      this.initial, this.max := initial, max;
    }

    /** The pause to wait before this attempt; a productive session starts the doubling anew. */
    method NextDelay(productive: bool) returns (delay: Duration)
      modifies this
      ensures delay == if productive then initial else old(current)
      ensures current == NextBackoff(delay, max)
    {
      if productive {
        current := initial;
      }
      delay := current;
      current := NextBackoff(current, max);
    }
  }

  // The closed form over sequences of sessions.

  function Pow2(n: nat): (p: nat)
    ensures p > 0
  {
    if n == 0 then 1 else 2 * Pow2(n - 1)
  }

  function Min(a: nat, b: nat): nat {
    if a < b then a else b
  }

  /** The retry number after these sessions: how many ended since the last productive one, it included. */
  function RetryNumber(productive: seq<bool>): nat {
    if productive == [] then 0
    else if productive[|productive| - 1] then 1
    else RetryNumber(productive[..|productive| - 1]) + 1
  }

  /** The pause waited at retry number `attempt`. */
  function PauseAt(initial: Duration, max: Duration, attempt: nat): nat
    requires attempt > 0
  {
    Min(max, initial * Pow2(attempt - 1))
  }

  /** What `current` holds after a sequence of sessions, and the pauses waited after each. */
  function Current(initial: Duration, max: Duration, productive: seq<bool>): Duration
    decreases |productive|, 1
  {
    if productive == [] then initial else NextBackoff(Delay(initial, max, productive), max)
  }

  function Delay(initial: Duration, max: Duration, productive: seq<bool>): Duration
    requires productive != []
    decreases |productive|, 0
  {
    if productive[|productive| - 1] then initial else Current(initial, max, productive[..|productive| - 1])
  }

  lemma DoublingMeetsCeiling(x: nat, max: Duration)
    ensures NextBackoff(Min(max, x), max) == Min(max, 2 * x)
  {
  }

  lemma Doubling(initial: Duration, n: nat)
    requires n > 0
    ensures initial * Pow2(n) == 2 * (initial * Pow2(n - 1))
    ensures n == 1 ==> initial * Pow2(n - 1) == initial
  {
  }

  /** After any sequence of sessions the pause depends on the retry number alone: the initial
      pause doubled for every unproductive session since, never beyond the ceiling. */
  lemma {:induction false} DelayIsClosedForm(initial: Duration, max: Duration, productive: seq<bool>)
    requires initial <= max && productive != []
    ensures Delay(initial, max, productive) == PauseAt(initial, max, RetryNumber(productive))
    ensures Current(initial, max, productive) == Min(max, initial * Pow2(RetryNumber(productive)))
  {
    hide Pow2;
    var front := productive[..|productive| - 1];
    if !productive[|productive| - 1] && front != [] {
      DelayIsClosedForm(initial, max, front);
    }
    Doubling(initial, RetryNumber(productive));
    Doubling(initial, 1);
    DoublingMeetsCeiling(initial * Pow2(RetryNumber(productive) - 1), max);
  }

  // The sliced pause.

  const SHUTDOWN_POLL_INTERVAL: Duration := 200_000_000

  datatype PauseEnd = Elapsed | ShutdownSeen

  function Sum(chunks: seq<Duration>): nat {
    if chunks == [] then 0 else Sum(chunks[..|chunks| - 1]) + chunks[|chunks| - 1]
  }

  /**
   Sleeps `delay` in chunks, reading the shutdown flag before each: the i-th read is `flag(i)`.
   Left alone it sleeps exactly `delay`; a raised flag ends it before the next chunk. Every
   chunk is at most one poll interval, and all but the last are exactly that long.
   */
  method SlicedPause(delay: Duration, flag: nat -> bool) returns (end: PauseEnd, chunks: seq<Duration>)
    ensures end.ShutdownSeen? <==> exists i: nat :: i * 200_000_000 < delay && flag(i)
    ensures end.Elapsed? ==> Sum(chunks) == delay
    ensures end.ShutdownSeen? ==> Sum(chunks) < delay && flag(|chunks|)
    ensures forall i :: 0 <= i < |chunks| ==> !flag(i) && 0 < chunks[i] <= 200_000_000
    ensures forall i :: 0 <= i < |chunks| - 1 ==> chunks[i] == 200_000_000
  {
    chunks := [];
    var remaining := delay;
    while remaining > 0
      invariant remaining == delay - Sum(chunks) && Sum(chunks) <= delay
      invariant remaining > 0 ==> Sum(chunks) == |chunks| * SHUTDOWN_POLL_INTERVAL
      invariant |chunks| > 0 ==> (|chunks| - 1) * SHUTDOWN_POLL_INTERVAL < delay
      invariant remaining == 0 ==> delay <= |chunks| * SHUTDOWN_POLL_INTERVAL
      invariant forall i :: 0 <= i < |chunks| ==> !flag(i) && 0 < chunks[i] <= SHUTDOWN_POLL_INTERVAL
      invariant forall i :: 0 <= i < |chunks| - 1 ==> chunks[i] == SHUTDOWN_POLL_INTERVAL
      invariant remaining > 0 ==> forall i :: 0 <= i < |chunks| ==> chunks[i] == SHUTDOWN_POLL_INTERVAL
      decreases remaining
    {
      if flag(|chunks|) {
        assert |chunks| * SHUTDOWN_POLL_INTERVAL < delay;
        return ShutdownSeen, chunks;
      }
      var chunk := Min(remaining, SHUTDOWN_POLL_INTERVAL);
      assert (chunks + [chunk])[..|chunks|] == chunks;
      chunks := chunks + [chunk];
      remaining := remaining - chunk;
    }
    assert forall i: nat :: i >= |chunks| ==> i * SHUTDOWN_POLL_INTERVAL >= delay;
    end := Elapsed;
  }
}
