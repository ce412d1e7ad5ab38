/** When the output repeats an event: a session delivers again what is still in the file. */
module Duplicates {
  import opened Prelude
  import opened Transactions
  import opened Assembly
  import opened Sinks
  import opened Protocol
  import opened Invariant
  import opened Output

  /** Known before the step: the COMMIT that a session delivers is of a transaction with no event in
      the file yet. */
  ghost predicate DeliversNew(s: State, a: Action, limit: nat) {
    a.Deliver? && a.frame.msg.Commit? && s.life.Some? && s.session.Some? && s.session.value.cursor < |s.log| &&
    Handle(s.life.value.asm, a.frame, limit).Ok? ==>
      forall k :: 0 <= k < |s.log[s.session.value.cursor].changes| ==>
        s.log[s.session.value.cursor].changes[k] !in s.disk.Contents()
  }

  lemma {:induction false} EventsInRange(log: seq<Transaction>, c: nat, k: nat)
    requires c < |log| && k < |log[c].changes|
    ensures |EventsTo(log, c)| + k < |Events(log)| && Events(log)[|EventsTo(log, c)| + k] == log[c].changes[k]
  {
    ChunkOf(log, c);
    var i, j := |EventsTo(log, c)|, |EventsTo(log, c + 1)|;
    assert Events(log)[i..j][k] == log[c].changes[k];
  }

  /** A chunk of distinct events put after distinct lines of the same source keeps them distinct
      exactly when none of it was there. */
  lemma AppendDistinct(lines: seq<Line>, log: seq<Transaction>, c: nat)
    requires c < |log| && DistinctKeys(Events(log)) && DistinctKeys(lines)
    requires forall l <- lines :: l in Events(log)
    ensures DistinctKeys(lines + log[c].changes) <==> forall k :: 0 <= k < |log[c].changes| ==> log[c].changes[k] !in lines
  {
    var part, all := log[c].changes, lines + log[c].changes;
    if forall k :: 0 <= k < |part| ==> part[k] !in lines {
      forall i, j | 0 <= i < j < |all| ensures EventKey(all[i]) != EventKey(all[j]) {
        if j >= |lines| {
          KeysApart(lines, log, c, i, j);
        }
      }
    } else {
      var k :| 0 <= k < |part| && part[k] in lines;
      var i :| 0 <= i < |lines| && lines[i] == part[k];
      assert all[i] == all[|lines| + k];
    }
  }

  lemma KeysApart(lines: seq<Line>, log: seq<Transaction>, c: nat, i: nat, j: nat)
    requires c < |log| && DistinctKeys(Events(log))
    requires forall l <- lines :: l in Events(log)
    requires forall k :: 0 <= k < |log[c].changes| ==> log[c].changes[k] !in lines
    requires |lines| <= j < |lines + log[c].changes| && i < j
    ensures EventKey((lines + log[c].changes)[i]) != EventKey((lines + log[c].changes)[j])
  {
    var source, b := Events(log), |EventsTo(log, c)|;
    EventsInRange(log, c, j - |lines|);
    if i < |lines| {
      assert lines[i] in lines;
      var m :| 0 <= m < |source| && source[m] == lines[i];
      assert m != b + (j - |lines|);
    } else {
      EventsInRange(log, c, i - |lines|);
    }
  }

  lemma DistinctPrefix(lines: seq<Line>, m: nat)
    requires DistinctKeys(lines) && m <= |lines|
    ensures DistinctKeys(lines[..m])
  {
  }

  /** Every step keeps the file free of repeated keys, or breaks that, exactly as it delivers something
      new or something that is there already. */
  lemma DuplicateStep(s: State, a: Action, limit: nat)
    requires Inv(s, limit) && OutputOk(s) && limit < TWO32 && Enabled(s, a, limit) && DistinctKeys(s.disk.Contents())
    ensures DistinctKeys(Next(s, a, limit).disk.Contents()) <==> DeliversNew(s, a, limit)
  {
    hide RunTo, Handle, Inv, Enabled, Firsts, Accepted, DistinctKeys, DeliversNew, DeliverNext;
    if a.Deliver? {
      DeliverDuplicates(s, a.frame, a.walEnd, a.position, a.buffered, limit);
    } else {
      OtherSteps(s, a, limit);
      if a.Crash? {
        DistinctPrefix(s.disk.Contents(), a.kept);
      }
      NotADelivery(s, a, limit);
    }
  }

  lemma NotADelivery(s: State, a: Action, limit: nat)
    requires !a.Deliver?
    ensures DeliversNew(s, a, limit)
  {
  }

  lemma OtherSteps(s: State, a: Action, limit: nat)
    requires Enabled(s, a, limit) && !a.Deliver?
    ensures a.Crash? ==> a.kept <= |s.disk.Contents()|
    ensures Next(s, a, limit).disk.Contents() == if a.Crash? then s.disk.Contents()[..a.kept] else s.disk.Contents()
  {
    hide Enabled;
    match a
    case Crash(d, k) => CrashCuts(s, d, k, limit);
    case WriteBack(n) => SameContents(s, Next(s, a, limit), n, limit);
    case Barrier => assert s.disk.Contents() + [] + [] == s.disk.Contents();
    case _ =>
  }

  lemma DeliverDuplicates(s: State, f: Frame, walEnd: Lsn, position: Lsn, buffered: nat, limit: nat)
    requires Inv(s, limit) && OutputOk(s) && limit < TWO32 && DistinctKeys(s.disk.Contents())
    requires Enabled(s, Deliver(f, walEnd, position, buffered), limit)
    ensures DistinctKeys(DeliverNext(s, f, walEnd, position, buffered, limit).disk.Contents()) <==>
            DeliversNew(s, Deliver(f, walEnd, position, buffered), limit)
  {
    hide RunTo, Handle, Firsts, Accepted, DistinctKeys;
    var t, asm := DeliverNext(s, f, walEnd, position, buffered, limit), s.life.value.asm;
    if Handle(asm, f, limit).Err? {
      assert t.disk.Contents() == s.disk.Contents();
    } else {
      HandleShape(asm, f, limit);
      if f.msg.Commit? {
        var c := s.session.value.cursor;
        EmitsDenoted(asm, s.session.value.sent, f, limit, s.log[c]);
        AppendDistinct(s.disk.Contents(), s.log, c);
      }
    }
  }

  // Lifted to whole runs.

  ghost predicate NeverRepeats(s: State, acts: seq<Action>, limit: nat) {
    && Exec(s, acts, limit).Some? && DistinctKeys(Exec(s, acts, limit).value.disk.Contents())
    && (acts != [] ==> NeverRepeats(s, acts[..|acts| - 1], limit))
  }

  ghost predicate AlwaysDeliversNew(s: State, acts: seq<Action>, limit: nat) {
    acts != [] ==>
      var front := acts[..|acts| - 1];
      && Exec(s, front, limit).Some? && DeliversNew(Exec(s, front, limit).value, acts[|acts| - 1], limit)
      && AlwaysDeliversNew(s, front, limit)
  }

  /**
   For every run: at no moment did the file hold two lines with the same key, exactly when no session
   delivered a transaction of which an event was still in the file. So duplicates come from
   redelivery and from nothing else, and redelivering what a crash had cut off makes none.
   */
  lemma {:induction false} RepeatsIffRedelivered(s0: State, acts: seq<Action>, limit: nat)
    requires Initial(s0) && limit < TWO32 && NoForeign(acts) && Exec(s0, acts, limit).Some?
    ensures NeverRepeats(s0, acts, limit) <==> AlwaysDeliversNew(s0, acts, limit)
  {
    hide Inv, Enabled, Next, OutputOk, DistinctKeys, DeliversNew;
    if acts == [] {
      NoLines(s0);
    } else {
      var front, a := acts[..|acts| - 1], acts[|acts| - 1];
      assert forall b <- front :: b in acts;
      RepeatsIffRedelivered(s0, front, limit);
      RunKeeps(s0, front, limit);
      RunKeepsOutput(s0, front, limit);
      if DistinctKeys(Exec(s0, front, limit).value.disk.Contents()) {
        DuplicateStep(Exec(s0, front, limit).value, a, limit);
      } else {
        RepeatedBefore(s0, front, limit);
      }
    }
  }

  lemma NoLines(s0: State)
    requires Initial(s0)
    ensures DistinctKeys(s0.disk.Contents())
  {
  }

  lemma RepeatedBefore(s0: State, acts: seq<Action>, limit: nat)
    requires Exec(s0, acts, limit).Some? && !DistinctKeys(Exec(s0, acts, limit).value.disk.Contents())
    ensures !NeverRepeats(s0, acts, limit)
  {
    hide DistinctKeys, Exec;
  }
}
