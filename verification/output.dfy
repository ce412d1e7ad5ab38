/** The output file against the source: duplicates allowed, gaps and inventions not. */
module Output {
  import opened Prelude
  import opened Transactions
  import opened Assembly
  import opened Sinks
  import opened Protocol
  import opened Invariant

  ghost predicate HasKey(lines: seq<Line>, key: (Lsn, u32)) {
    exists k :: 0 <= k < |lines| && EventKey(lines[k]) == key
  }

  /** What a consumer keeps that drops every line whose key it has seen. */
  ghost function Firsts(lines: seq<Line>): seq<Line> {
    if lines == [] then []
    else
      var kept, last := Firsts(lines[..|lines| - 1]), lines[|lines| - 1];
      if HasKey(kept, EventKey(last)) then kept else kept + [last]
  }

  /** The lines are lines of the source, and keeping first occurrences gives a prefix of it. */
  ghost predicate Refines(lines: seq<Line>, source: seq<Line>) {
    && (forall l <- lines :: l in source)
    && Firsts(lines) <= source
  }

  lemma {:induction false} FirstsOfPrefix(lines: seq<Line>, m: nat)
    requires m <= |lines|
    ensures Firsts(lines[..m]) <= Firsts(lines)
  {
    if m < |lines| {
      FirstsOfPrefix(lines[..|lines| - 1], m);
      assert lines[..|lines| - 1][..m] == lines[..m];
    } else {
      assert lines[..m] == lines;
    }
  }

  lemma {:induction false} FirstsHaveAllKeys(lines: seq<Line>, l: Line)
    requires l in lines
    ensures HasKey(Firsts(lines), EventKey(l))
  {
    var front, last := lines[..|lines| - 1], lines[|lines| - 1];
    if l == last {
      var f := Firsts(lines);
      if !HasKey(Firsts(front), EventKey(last)) {
        assert f[|f| - 1] == last;
      }
    } else {
      assert lines == front + [last];
      FirstsHaveAllKeys(front, l);
      var k :| 0 <= k < |Firsts(front)| && EventKey(Firsts(front)[k]) == EventKey(l);
      assert Firsts(lines)[k] == Firsts(front)[k];
    }
  }

  /** One more line of the source, right after what was covered or before, keeps the prefix. */
  lemma FirstsOfNext(lines: seq<Line>, source: seq<Line>, j: nat)
    requires DistinctKeys(source) && Firsts(lines) <= source && j < |source| && j <= |Firsts(lines)|
    ensures Firsts(lines + [source[j]]) <= source
    ensures |Firsts(lines + [source[j]])| == if j < |Firsts(lines)| then |Firsts(lines)| else j + 1
  {
    var f, e := Firsts(lines), source[j];
    assert (lines + [e])[..|lines|] == lines;
    if j < |f| {
      assert EventKey(f[j]) == EventKey(e);
    } else {
      assert f == source[..j];
      assert source[..j + 1] == f + [e];
    }
  }

  lemma {:induction false} FirstsOfChunk(lines: seq<Line>, source: seq<Line>, j: nat, k: nat)
    requires DistinctKeys(source) && Firsts(lines) <= source && j <= k <= |source| && j <= |Firsts(lines)|
    ensures Firsts(lines + source[j..k]) <= source && |Firsts(lines + source[j..k])| >= k
    decreases k
  {
    hide Firsts, DistinctKeys;
    if j == k {
      assert lines + source[j..k] == lines;
    } else {
      FirstsOfChunk(lines, source, j, k - 1);
      FirstsOfNext(lines + source[j..k - 1], source, k - 1);
      assert lines + source[j..k] == lines + source[j..k - 1] + [source[k - 1]];
    }
  }

  lemma NextIsMissing(lines: seq<Line>, source: seq<Line>, n: nat)
    requires DistinctKeys(source) && n < |source| && Firsts(lines) == source[..n]
    ensures source[n] !in lines
  {
    if source[n] in lines {
      FirstsHaveAllKeys(lines, source[n]);
    }
  }

  /** If the first `j` events of the source are all in the output, the prefix reaches that far. */
  lemma PrefixReaches(lines: seq<Line>, source: seq<Line>, j: nat)
    requires DistinctKeys(source) && Refines(lines, source) && j <= |source|
    requires forall i :: 0 <= i < j ==> source[i] in lines
    ensures j <= |Firsts(lines)|
  {
    if |Firsts(lines)| < j {
      NextIsMissing(lines, source, |Firsts(lines)|);
    }
  }

  // The event stream of the log.

  lemma {:induction false} EventsPrefix(log: seq<Transaction>, i: nat, n: nat)
    requires i <= n <= |log|
    ensures EventsTo(log, i) <= EventsTo(log, n)
    decreases n
  {
    if i < n {
      EventsPrefix(log, i, n - 1);
    }
  }

  lemma {:induction false} EventsOfLonger(log: seq<Transaction>, tx: Transaction, n: nat)
    requires n <= |log|
    ensures EventsTo(log + [tx], n) == EventsTo(log, n)
  {
    if n > 0 {
      EventsOfLonger(log, tx, n - 1);
    }
  }

  /** The events of transaction `c` are the piece of the stream between its neighbours. */
  lemma ChunkOf(log: seq<Transaction>, c: nat)
    requires c < |log|
    ensures var j, k := |EventsTo(log, c)|, |EventsTo(log, c + 1)|;
            j <= k <= |Events(log)| && Events(log)[j..k] == log[c].changes
  {
    var j, k := |EventsTo(log, c)|, |EventsTo(log, c + 1)|;
    EventsPrefix(log, c + 1, |log|);
    assert Events(log)[..k] == EventsTo(log, c + 1) == EventsTo(log, c) + log[c].changes;
    assert Events(log)[j..k] == Events(log)[..k][j..];
  }

  lemma {:induction false} EventsIn(log: seq<Transaction>, c: nat, lines: seq<Line>)
    requires c <= |log| && forall i :: 0 <= i < c ==> AllIn(log[i].changes, lines)
    ensures forall l <- EventsTo(log, c) :: l in lines
  {
    if c > 0 {
      EventsIn(log, c - 1, lines);
      assert AllIn(log[c - 1].changes, lines);
    }
  }

  lemma CommitKeepsKeysDistinct(log: seq<Transaction>, tx: Transaction)
    requires DistinctKeys(Events(log)) && FreshKeys(log, tx)
    ensures Events(log + [tx]) == Events(log) + tx.changes
    ensures DistinctKeys(Events(log + [tx]))
  {
    EventsOfLonger(log, tx, |log|);
    var s, e := Events(log), Events(log) + tx.changes;
    forall i, j | 0 <= i < j < |e|
      ensures EventKey(e[i]) != EventKey(e[j])
    {
      if i >= |s| {
        assert e[i] == tx.changes[i - |s|] && e[j] == tx.changes[j - |s|];
      } else if j >= |s| {
        assert e[j] == tx.changes[j - |s|];
      }
    }
  }

  // The invariant of the output.

  ghost predicate OutputOk(s: State) {
    DistinctKeys(Events(s.log)) && Refines(s.disk.Contents(), Events(s.log))
  }

  lemma RefinesPrefix(lines: seq<Line>, m: nat, source: seq<Line>)
    requires Refines(lines, source) && m <= |lines|
    ensures Refines(lines[..m], source)
  {
    FirstsOfPrefix(lines, m);
  }

  lemma AcceptRefines(log: seq<Transaction>, c: nat, lines: seq<Line>)
    requires c < |log| && DistinctKeys(Events(log)) && Refines(lines, Events(log))
    requires forall i :: 0 <= i < c ==> AllIn(log[i].changes, lines)
    ensures Refines(lines + log[c].changes, Events(log))
  {
    var source, j, k := Events(log), |EventsTo(log, c)|, |EventsTo(log, c + 1)|;
    ChunkOf(log, c);
    EventsPrefix(log, c, |log|);
    EventsIn(log, c, lines);
    forall i | 0 <= i < j ensures source[i] in lines {
      assert source[i] == EventsTo(log, c)[i];
    }
    PrefixReaches(lines, source, j);
    FirstsOfChunk(lines, source, j, k);
    assert forall l <- log[c].changes :: l in source[j..k];
  }

  lemma OutputStep(s: State, a: Action, limit: nat)
    requires Inv(s, limit) && OutputOk(s) && limit < TWO32 && Enabled(s, a, limit)
    ensures OutputOk(Next(s, a, limit))
  {
    hide RunTo, Handle, Inv, Enabled, Firsts, Accepted;
    var t, lines := Next(s, a, limit), s.disk.Contents();
    match a
    case ServerCommit(tx) =>
      CommitIsFresh(s, tx, limit);
      CommitKeepsKeysDistinct(s.log, tx);
    case Deliver(f, w, p, n) => DeliverRefines(s, f, w, p, n, limit);
    case Crash(d, k) =>
      CrashCuts(s, d, k, limit);
      RefinesPrefix(lines, k, Events(s.log));
    case WriteBack(n) => SameContents(s, t, n, limit);
    case Preflight(_) => assert t.disk.Contents() == lines;
    case Barrier => assert t.disk.Contents() == lines;
    case _ => assert t.disk == s.disk && t.log == s.log;
  }

  lemma CommitIsFresh(s: State, tx: Transaction, limit: nat)
    requires Enabled(s, ServerCommit(tx), limit)
    ensures FreshKeys(s.log, tx)
  {
  }

  /** A crash leaves a prefix of the file. */
  lemma CrashCuts(s: State, synced: nat, kept: nat, limit: nat)
    requires Enabled(s, Crash(synced, kept), limit)
    ensures kept <= |s.disk.Contents()|
    ensures CrashNext(s, synced, kept).disk.Contents() == s.disk.Contents()[..kept]
  {
    var lines := s.disk.Contents();
    assert lines[..synced] + lines[synced..kept] == lines[..kept];
  }

  lemma SameContents(s: State, t: State, n: nat, limit: nat)
    requires Enabled(s, WriteBack(n), limit) && t == Next(s, WriteBack(n), limit)
    ensures t.disk.Contents() == s.disk.Contents()
  {
    hide DeliverNext, Denotes, FreshKeys;
    WrittenBack(s.disk, n);
  }

  lemma DeliverRefines(s: State, f: Frame, walEnd: Lsn, position: Lsn, buffered: nat, limit: nat)
    requires Inv(s, limit) && OutputOk(s) && limit < TWO32
    requires Enabled(s, Deliver(f, walEnd, position, buffered), limit)
    ensures OutputOk(DeliverNext(s, f, walEnd, position, buffered, limit))
  {
    hide RunTo, Handle, Firsts, Accepted;
    var t, asm := DeliverNext(s, f, walEnd, position, buffered, limit), s.life.value.asm;
    if Handle(asm, f, limit).Err? {
      assert t.disk.Contents() == s.disk.Contents();
    } else {
      HandleShape(asm, f, limit);
      if f.msg.Commit? {
        var c := s.session.value.cursor;
        EmitsDenoted(asm, s.session.value.sent, f, limit, s.log[c]);
        AcceptRefines(s.log, c, s.disk.Contents());
      }
    }
  }

  lemma NothingWrittenYet(s: State)
    requires Initial(s)
    ensures OutputOk(s)
  {
  }

  lemma {:induction false} RunKeepsOutput(s0: State, acts: seq<Action>, limit: nat)
    requires Initial(s0) && limit < TWO32 && NoForeign(acts) && Exec(s0, acts, limit).Some?
    ensures OutputOk(Exec(s0, acts, limit).value)
  {
    hide Inv, Enabled, Next, OutputOk;
    if acts == [] {
      NothingWrittenYet(s0);
    } else {
      var front, a := acts[..|acts| - 1], acts[|acts| - 1];
      assert forall b <- front :: b in acts;
      RunKeeps(s0, front, limit);
      RunKeepsOutput(s0, front, limit);
      OutputStep(Exec(s0, front, limit).value, a, limit);
    }
  }
}
