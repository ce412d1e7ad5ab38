/**
 What a whole sequence of messages assembles to, told without an assembler: which COMMIT ends
 which BEGIN, which RELATION names which row, and that redelivery repeats itself.
 */
module Assembly {
  import opened Prelude
  import opened Schema
  import opened Wire
  import opened Transactions

  /** The state and what was emitted, message by message, after the first `n` frames. */
  datatype Run = Run(state: AsmState, emitted: seq<Option<Transaction>>)

  function RunTo(s0: AsmState, h: seq<Frame>, n: nat, limit: nat): (r: Result<Run>)
    requires n <= |h|
    ensures r.Ok? ==> |r.value.emitted| == n
  {
    if n == 0 then Ok(Run(s0, []))
    else
      var before :- RunTo(s0, h, n - 1, limit);
      Extend(before, Handle(before.state, h[n - 1], limit))
  }

  function Extend(before: Run, step: Result<Step>): Result<Run> {
    if step.Err? then Err(step.error)
    else Ok(Run(step.value.state, before.emitted + [step.value.emitted]))
  }

  const FRESH := AsmState(map[], None)

  // The reading of a message sequence.

  /** The most recent RELATION for `id` among the first `n` frames, or what was known before them. */
  function LatestRelation(c0: Cache, h: seq<Frame>, n: nat, id: u32): Option<Relation>
    requires n <= |h|
  {
    if n == 0 then (if id in c0 then Some(c0[id]) else None)
    else if h[n - 1].msg.RelationMsg? && h[n - 1].msg.relation.id == id then Some(h[n - 1].msg.relation)
    else LatestRelation(c0, h, n - 1, id)
  }

  /** Frame `b` is the BEGIN of the transaction still open after the first `n` frames. */
  ghost predicate OpenSince(h: seq<Frame>, b: nat, n: nat) {
    b < n <= |h| && h[b].msg.Begin? && forall j :: b < j < n ==> !h[j].msg.Begin? && !h[j].msg.Commit?
  }

  /** The changes of frame `j`: one for a row message, one for each table of a TRUNCATE. */
  function ChangesAt(c0: Cache, h: seq<Frame>, j: nat): seq<PendingChange>
    requires j < |h|
  {
    var m := h[j].msg;
    if IsRow(m) then
      var rel := LatestRelation(c0, h, j, m.relationId);
      if rel.Some? && RowChange(rel.value, m, h[j].walStart).Ok?
      then [RowChange(rel.value, m, h[j].walStart).value] else []
    else if m.Truncate? then TruncatesOf(c0, h, j, m.relationIds)
    else []
  }

  function TruncatesOf(c0: Cache, h: seq<Frame>, j: nat, ids: seq<u32>): seq<PendingChange>
    requires j < |h|
  {
    if ids == [] then []
    else
      var rel := LatestRelation(c0, h, j, ids[0]);
      (if rel.Some? then [TruncateChange(rel.value, h[j].walStart)] else []) + TruncatesOf(c0, h, j, ids[1..])
  }

  /** The changes of the frames after `b` and before `n`, in order. */
  function Between(c0: Cache, h: seq<Frame>, b: nat, n: nat): seq<PendingChange>
    requires b < n <= |h|
  {
    if n == b + 1 then [] else Between(c0, h, b, n - 1) + ChangesAt(c0, h, n - 1)
  }

  function Weight(m: Message): nat {
    if IsRow(m) then 1 else if m.Truncate? then |m.relationIds| else 0
  }

  /** One event for each row message and for each table of a TRUNCATE after `b` and before `n`. */
  function EventCount(h: seq<Frame>, b: nat, n: nat): nat
    requires b < n <= |h|
  {
    if n == b + 1 then 0 else EventCount(h, b, n - 1) + Weight(h[n - 1].msg)
  }

  /** The transaction that the COMMIT at `n` ends: begun at `b`, its events numbered by position. */
  function Denoted(c0: Cache, h: seq<Frame>, b: nat, n: nat): Transaction
    requires b < n < |h| && h[b].msg.Begin? && h[n].msg.Commit? && |Between(c0, h, b, n)| < TWO32
  {
    var c, changes := h[n].msg, Between(c0, h, b, n);
    Transaction(h[b].msg.xid, c.commitLsn, c.endLsn, c.commitTimestamp,
      seq(|changes|, i requires 0 <= i < |changes| =>
        ChangeEvent(changes[i], h[b].msg.xid, i, c.commitLsn, c.commitTimestamp)))
  }

  // The assembler follows that reading.

  /** The cache answers with the most recent RELATION. */
  ghost predicate CacheReads(c0: Cache, h: seq<Frame>, n: nat, cache: Cache)
    requires n <= |h|
  {
    forall id: u32 :: LatestRelation(c0, h, n, id) == if id in cache then Some(cache[id]) else None
  }

  /** Open exactly while a BEGIN has no COMMIT, and then holding the changes since it. */
  ghost predicate OpenReads(c0: Cache, h: seq<Frame>, n: nat, open: Option<OpenTx>, limit: nat)
    requires n <= |h|
  {
    match open
    case None => forall b :: !OpenSince(h, b, n)
    case Some(o) => exists b :: OpenedAt(c0, h, n, o, b, limit)
  }

  ghost predicate OpenedAt(c0: Cache, h: seq<Frame>, n: nat, o: OpenTx, b: nat, limit: nat)
    requires n <= |h|
  {
    && OpenSince(h, b, n)
    && o == OpenTx(h[b].msg.xid, Between(c0, h, b, n))
    && |o.changes| <= limit
    && |o.changes| == EventCount(h, b, n)
  }

  lemma {:induction false} TruncateAllReads(c0: Cache, h: seq<Frame>, j: nat, cache: Cache, ids: seq<u32>,
      changes: seq<PendingChange>, limit: nat)
    requires j < |h| && CacheReads(c0, h, j, cache) && |changes| <= limit
    ensures var r := TruncateAll(cache, ids, h[j].walStart, changes, limit);
            r.Ok? ==> r.value == changes + TruncatesOf(c0, h, j, ids) &&
                      |r.value| == |changes| + |ids| && |r.value| <= limit
  {
    if ids == [] {
      assert changes + [] == changes;
    } else if |changes| < limit && ids[0] in cache {
      assert LatestRelation(c0, h, j, ids[0]) == Some(cache[ids[0]]);
      var c := TruncateChange(cache[ids[0]], h[j].walStart);
      TruncateAllReads(c0, h, j, cache, ids[1..], changes + [c], limit);
      assert changes + [c] + TruncatesOf(c0, h, j, ids[1..]) == changes + ([c] + TruncatesOf(c0, h, j, ids[1..]));
    }
  }

  lemma CacheStep(c0: Cache, h: seq<Frame>, n: nat, s: AsmState, limit: nat)
    requires n < |h| && CacheReads(c0, h, n, s.cache) && Handle(s, h[n], limit).Ok?
    ensures CacheReads(c0, h, n + 1, Handle(s, h[n], limit).value.state.cache)
  {
    var cache' := Handle(s, h[n], limit).value.state.cache;
    forall id: u32
      ensures LatestRelation(c0, h, n + 1, id) == if id in cache' then Some(cache'[id]) else None
    {
      assert LatestRelation(c0, h, n, id) == if id in s.cache then Some(s.cache[id]) else None;
    }
  }

  lemma OpenStep(c0: Cache, h: seq<Frame>, n: nat, s: AsmState, limit: nat)
    requires n < |h| && CacheReads(c0, h, n, s.cache) && OpenReads(c0, h, n, s.open, limit)
    requires Handle(s, h[n], limit).Ok?
    ensures OpenReads(c0, h, n + 1, Handle(s, h[n], limit).value.state.open, limit)
  {
    var m := h[n].msg;
    if m.Begin? {
      assert OpenedAt(c0, h, n + 1, OpenTx(m.xid, []), n, limit);
    } else if m.Commit? || s.open.None? {
      StillOpen(h, n, n + 1);
    } else {
      var b :| OpenedAt(c0, h, n, s.open.value, b, limit);
      ChangesStep(c0, h, n, s, b, limit);
      StillOpen(h, n, n + 1);
      assert OpenedAt(c0, h, n + 1, Handle(s, h[n], limit).value.state.open.value, b, limit);
    }
  }

  lemma StillOpen(h: seq<Frame>, n: nat, next: nat)
    requires n < |h| && next == n + 1 && !h[n].msg.Begin?
    ensures forall b :: OpenSince(h, b, next) <==> OpenSince(h, b, n) && !h[n].msg.Commit?
  {
  }

  lemma ChangesStep(c0: Cache, h: seq<Frame>, n: nat, s: AsmState, b: nat, limit: nat)
    requires n < |h| && CacheReads(c0, h, n, s.cache) && Handle(s, h[n], limit).Ok?
    requires s.open.Some? && OpenedAt(c0, h, n, s.open.value, b, limit)
    requires !h[n].msg.Begin? && !h[n].msg.Commit?
    ensures var o := Handle(s, h[n], limit).value.state.open;
            o == Some(s.open.value.(changes := s.open.value.changes + ChangesAt(c0, h, n))) &&
            |o.value.changes| <= limit && |ChangesAt(c0, h, n)| == Weight(h[n].msg)
  {
    var m, changes := h[n].msg, s.open.value.changes;
    if IsRow(m) {
      assert LatestRelation(c0, h, n, m.relationId) == Some(s.cache[m.relationId]);
    } else if m.Truncate? {
      TruncateAllReads(c0, h, n, s.cache, m.relationIds, changes, limit);
    } else {
      assert changes + [] == changes;
    }
  }

  lemma {:induction false} RunReads(s0: AsmState, h: seq<Frame>, n: nat, limit: nat)
    requires n <= |h| && s0.open == None && RunTo(s0, h, n, limit).Ok?
    ensures CacheReads(s0.cache, h, n, RunTo(s0, h, n, limit).value.state.cache)
    ensures OpenReads(s0.cache, h, n, RunTo(s0, h, n, limit).value.state.open, limit)
  {
    if n > 0 {
      RunReads(s0, h, n - 1, limit);
      var s := RunTo(s0, h, n - 1, limit).value.state;
      CacheStep(s0.cache, h, n - 1, s, limit);
      OpenStep(s0.cache, h, n - 1, s, limit);
    }
  }

  /** The length of the buffer counts the rows and truncated tables since the latest BEGIN; it is
      zero, although a transaction is open, as long as none has come. */
  lemma {:induction false} BufferLengthIsEventCount(s0: AsmState, h: seq<Frame>, n: nat, b: nat, limit: nat)
    requires n <= |h| && s0.open == None && RunTo(s0, h, n, limit).Ok? && OpenSince(h, b, n)
    ensures var open := RunTo(s0, h, n, limit).value.state.open;
            open.Some? && |open.value.changes| == EventCount(h, b, n) &&
            (|open.value.changes| == 0 <==> forall j :: b < j < n ==> Weight(h[j].msg) == 0)
  {
    hide Weight;
    RunReads(s0, h, n, limit);
    var open := RunTo(s0, h, n, limit).value.state.open;
    var c :| OpenedAt(s0.cache, h, n, open.value, c, limit);
    assert b == c;
    NoEvents(h, b, n);
  }

  lemma {:induction false} NoEvents(h: seq<Frame>, b: nat, n: nat)
    requires b < n <= |h|
    ensures EventCount(h, b, n) == 0 <==> forall j :: b < j < n ==> Weight(h[j].msg) == 0
  {
    hide Weight;
    if b + 1 < n {
      NoEvents(h, b, n - 1);
    }
  }

  /** What a frame emits: a COMMIT exactly the transaction it ends, any other frame nothing. */
  ghost predicate EmitsRight(c0: Cache, h: seq<Frame>, n: nat, emitted: Option<Transaction>, limit: nat)
    requires n < |h| && limit < TWO32
  {
    if h[n].msg.Commit?
    then exists b :: EndsAt(c0, h, b, n, limit) && emitted == Some(Denoted(c0, h, b, n))
    else emitted == None
  }

  /** Also: the events are as many as the rows and truncated tables, and within the limit. */
  ghost predicate EndsAt(c0: Cache, h: seq<Frame>, b: nat, n: nat, limit: nat)
    requires limit < TWO32
  {
    && OpenSince(h, b, n) && n < |h| && h[n].msg.Commit?
    && |Between(c0, h, b, n)| == EventCount(h, b, n)
    && EventCount(h, b, n) <= limit
  }

  /**
   The assembler refines the reading, for every sequence it gets through: each COMMIT emits
   exactly the changes since the latest BEGIN, in order, each named by the most recent
   RELATION for its id, numbered by position without wrapping; nothing else emits anything.
   */
  lemma EmissionsAreRight(s0: AsmState, h: seq<Frame>, n: nat, limit: nat, i: nat)
    requires n <= |h| && s0.open == None && limit < TWO32
    requires RunTo(s0, h, n, limit).Ok? && i < n
    ensures EmitsRight(s0.cache, h, i, RunTo(s0, h, n, limit).value.emitted[i], limit)
  {
    RunIsIncremental(s0, h, n, limit, i);
    RunReads(s0, h, i, limit);
    var s := RunTo(s0, h, i, limit).value.state;
    if h[i].msg.Commit? {
      var o := s.open.value;
      var b :| OpenedAt(s0.cache, h, i, o, b, limit);
      assert EndsAt(s0.cache, h, b, i, limit);
      NumberingIsExact(o.xid, h[i].msg, o.changes);
      assert Emit(o, h[i].msg) == Denoted(s0.cache, h, b, i);
    }
  }

  /** Frame `n` has its place: inside a transaction if it needs one, with room left for what it
      adds, and about tables that were announced and that it fits. */
  ghost predicate Fits(c0: Cache, h: seq<Frame>, n: nat, limit: nat)
    requires n < |h|
  {
    var m := h[n].msg;
    if m.RelationMsg? || m.Begin? then true
    else exists b ::
      && OpenSince(h, b, n)
      && (!m.Commit? ==> EventCount(h, b, n) + Weight(m) <= limit)
      && (m.Truncate? ==> forall id <- m.relationIds :: LatestRelation(c0, h, n, id).Some?)
      && (IsRow(m) ==> var rel := LatestRelation(c0, h, n, m.relationId);
                       rel.Some? && RowChange(rel.value, m, h[n].walStart).Ok?)
  }

  lemma {:induction false} TruncateAllSucceedsIff(cache: Cache, ids: seq<u32>, lsn: Lsn, changes: seq<PendingChange>, limit: nat)
    requires |changes| <= limit
    ensures TruncateAll(cache, ids, lsn, changes, limit).Ok? <==> |changes| + |ids| <= limit && forall id <- ids :: id in cache
  {
    if ids != [] && |changes| < limit && ids[0] in cache {
      TruncateAllSucceedsIff(cache, ids[1..], lsn, changes + [TruncateChange(cache[ids[0]], lsn)], limit);
      assert forall id :: id in ids <==> id == ids[0] || id in ids[1..];
    }
  }

  lemma FittingIsHandled(c0: Cache, h: seq<Frame>, n: nat, s: AsmState, limit: nat)
    requires n < |h| && CacheReads(c0, h, n, s.cache) && OpenReads(c0, h, n, s.open, limit)
    ensures Handle(s, h[n], limit).Ok? <==> Fits(c0, h, n, limit)
  {
    hide RowChange;
    var m := h[n].msg;
    if s.open.Some? {
      var b :| OpenedAt(c0, h, n, s.open.value, b, limit);
      assert forall c :: OpenSince(h, c, n) ==> c == b;
      if m.Truncate? {
        TruncateAllSucceedsIff(s.cache, m.relationIds, h[n].walStart, s.open.value.changes, limit);
        forall id ensures LatestRelation(c0, h, n, id).Some? <==> id in s.cache {
          assert LatestRelation(c0, h, n, id) == if id in s.cache then Some(s.cache[id]) else None;
        }
      } else if IsRow(m) {
        var id := m.relationId;
        assert LatestRelation(c0, h, n, id) == if id in s.cache then Some(s.cache[id]) else None;
      }
    }
  }

  /** A sequence is processed without error exactly when every frame has its place. */
  lemma {:induction false} RunSucceedsIffAllFit(s0: AsmState, h: seq<Frame>, n: nat, limit: nat)
    requires n <= |h| && s0.open == None
    ensures RunTo(s0, h, n, limit).Ok? <==> forall i :: 0 <= i < n ==> Fits(s0.cache, h, i, limit)
  {
    hide Handle, Fits;
    if n > 0 {
      RunSucceedsIffAllFit(s0, h, n - 1, limit);
      if RunTo(s0, h, n - 1, limit).Ok? {
        RunReads(s0, h, n - 1, limit);
        FittingIsHandled(s0.cache, h, n - 1, RunTo(s0, h, n - 1, limit).value.state, limit);
      }
    }
  }

  lemma NumberingIsExact(xid: u32, commit: Message, changes: seq<PendingChange>)
    requires commit.Commit? && |changes| < TWO32
    ensures forall i :: 0 <= i < |changes| ==> Number(xid, commit, changes)[i].eventIndex == i
  {
  }

  // Every event by itself.

  /** `c` is the `k`-th thing that frame `j` does to a table, named by the most recent RELATION for it. */
  ghost predicate IsChangeAt(c0: Cache, h: seq<Frame>, j: nat, k: nat, c: PendingChange)
    requires j < |h|
  {
    var m := h[j].msg;
    if IsRow(m) then
      var rel := LatestRelation(c0, h, j, m.relationId);
      k == 0 && rel.Some? && TuplesFit(rel.value, m) && ChangeOf(rel.value, m, h[j].walStart, c)
    else
      m.Truncate? && k < |m.relationIds| &&
      var rel := LatestRelation(c0, h, j, m.relationIds[k]);
      rel.Some? && IsTruncation(rel.value, h[j].walStart, c)
  }

  lemma {:induction false} TruncatesAreEach(c0: Cache, h: seq<Frame>, j: nat, ids: seq<u32>)
    requires j < |h| && forall id <- ids :: LatestRelation(c0, h, j, id).Some?
    ensures |TruncatesOf(c0, h, j, ids)| == |ids|
    ensures forall k :: 0 <= k < |ids| ==>
              IsTruncation(LatestRelation(c0, h, j, ids[k]).value, h[j].walStart, TruncatesOf(c0, h, j, ids)[k])
  {
    if ids != [] {
      assert ids[0] in ids;
      TruncatesAreEach(c0, h, j, ids[1..]);
      forall k | 0 <= k < |ids|
        ensures IsTruncation(LatestRelation(c0, h, j, ids[k]).value, h[j].walStart, TruncatesOf(c0, h, j, ids)[k])
      {
        if k > 0 {
          assert ids[k] == ids[1..][k - 1];
        }
      }
    }
  }

  lemma ChangesAreChanges(c0: Cache, h: seq<Frame>, j: nat, limit: nat)
    requires j < |h| && Fits(c0, h, j, limit)
    ensures |ChangesAt(c0, h, j)| == Weight(h[j].msg)
    ensures forall k :: 0 <= k < Weight(h[j].msg) ==> IsChangeAt(c0, h, j, k, ChangesAt(c0, h, j)[k])
  {
    hide RowChange, ChangeOf, IsTruncation, TuplesFit;
    var m := h[j].msg;
    if IsRow(m) {
      RowChangeIsChangeOf(LatestRelation(c0, h, j, m.relationId).value, m, h[j].walStart);
    } else if m.Truncate? {
      TruncatesAreEach(c0, h, j, m.relationIds);
    }
  }

  lemma {:induction false} BetweenAt(c0: Cache, h: seq<Frame>, b: nat, n: nat, j: nat, k: nat, limit: nat)
    requires b < j < n <= |h| && k < Weight(h[j].msg)
    requires forall i :: b < i < n ==> Fits(c0, h, i, limit)
    ensures |ChangesAt(c0, h, j)| == Weight(h[j].msg)
    ensures EventCount(h, b, j) == |Between(c0, h, b, j)| && EventCount(h, b, n) == |Between(c0, h, b, n)|
    ensures EventCount(h, b, j) + k < EventCount(h, b, n)
    ensures Between(c0, h, b, n)[EventCount(h, b, j) + k] == ChangesAt(c0, h, j)[k]
  {
    hide Fits, ChangesAt, Weight;
    ChangesAreChanges(c0, h, n - 1, limit);
    ChangesAreChanges(c0, h, j, limit);
    if j < n - 1 {
      BetweenAt(c0, h, b, n - 1, j, k, limit);
    } else {
      BetweenCounts(c0, h, b, j, limit);
    }
  }

  lemma {:induction false} BetweenCounts(c0: Cache, h: seq<Frame>, b: nat, n: nat, limit: nat)
    requires b < n <= |h| && forall i :: b < i < n ==> Fits(c0, h, i, limit)
    ensures EventCount(h, b, n) == |Between(c0, h, b, n)|
  {
    hide Fits, ChangesAt, Weight;
    if b + 1 < n {
      ChangesAreChanges(c0, h, n - 1, limit);
      BetweenCounts(c0, h, b, n - 1, limit);
    }
  }

  /**
   Every event of every transaction by itself: the COMMIT at `i` ends the BEGIN at `b`, and the `k`-th
   change of frame `j` between them is the event at the position that counts the changes before it.
   */
  lemma EventIs(s0: AsmState, h: seq<Frame>, n: nat, limit: nat, i: nat, b: nat, j: nat, k: nat)
    requires n <= |h| && s0.open == None && limit < TWO32 && RunTo(s0, h, n, limit).Ok?
    requires i < n && h[i].msg.Commit? && OpenSince(h, b, i) && b < j < i && k < Weight(h[j].msg)
    ensures var tx := RunTo(s0, h, n, limit).value.emitted[i]; var p := EventCount(h, b, j) + k;
            && tx.Some? && |tx.value.changes| == EventCount(h, b, i) && p < |tx.value.changes|
            && tx.value.xid == h[b].msg.xid && tx.value.endLsn == h[i].msg.endLsn
            && tx.value.commitLsn == h[i].msg.commitLsn && tx.value.commitTimestamp == h[i].msg.commitTimestamp
            && var e := tx.value.changes[p];
               && e.eventIndex == p && e.transactionId == h[b].msg.xid && e.commitLsn == h[i].msg.commitLsn
               && e.commitTimestamp == h[i].msg.commitTimestamp && IsChangeAt(s0.cache, h, j, k, e.change)
  {
    hide RunTo, Handle, Fits, IsChangeAt, ChangesAt, Weight, EventCount, Between;
    EmissionsAreRight(s0, h, n, limit, i);
    RunSucceedsIffAllFit(s0, h, n, limit);
    var tx := RunTo(s0, h, n, limit).value.emitted[i];
    var c :| EndsAt(s0.cache, h, c, i, limit) && tx == Some(Denoted(s0.cache, h, c, i));
    assert c == b;
    BetweenAt(s0.cache, h, b, i, j, k, limit);
    ChangesAreChanges(s0.cache, h, j, limit);
  }

  lemma {:induction false} RunIsIncremental(s0: AsmState, h: seq<Frame>, n: nat, limit: nat, i: nat)
    requires i < n <= |h| && RunTo(s0, h, n, limit).Ok?
    ensures RunTo(s0, h, i, limit).Ok? && Handle(RunTo(s0, h, i, limit).value.state, h[i], limit).Ok?
    ensures RunTo(s0, h, n, limit).value.emitted[i] ==
            Handle(RunTo(s0, h, i, limit).value.state, h[i], limit).value.emitted
  {
    if i < n - 1 {
      RunIsIncremental(s0, h, n - 1, limit, i);
    }
  }

  lemma {:induction false} RunOfPrefix(s0: AsmState, h: seq<Frame>, g: seq<Frame>, n: nat, limit: nat)
    requires n <= |h|
    ensures RunTo(s0, h + g, n, limit) == RunTo(s0, h, n, limit)
  {
    if n > 0 {
      RunOfPrefix(s0, h, g, n - 1, limit);
    }
  }

  // Redelivery.

  predicate NeedsOpen(m: Message) {
    IsRow(m) || m.Truncate? || m.Commit?
  }

  predicate Uses(m: Message, id: u32) {
    (IsRow(m) && m.relationId == id) || (m.Truncate? && id in m.relationIds)
  }

  ghost predicate Announced(h: seq<Frame>, n: nat, id: u32) {
    exists k :: 0 <= k < n <= |h| && h[k].msg.RelationMsg? && h[k].msg.relation.id == id
  }

  ghost predicate Begun(h: seq<Frame>, n: nat) {
    exists k :: 0 <= k < n <= |h| && h[k].msg.Begin?
  }

  /** What a server sends in a session: no row before a BEGIN, no table before its RELATION. */
  ghost predicate SelfContained(h: seq<Frame>) {
    forall n :: 0 <= n < |h| ==>
      && (NeedsOpen(h[n].msg) ==> Begun(h, n))
      && (forall id: u32 :: Uses(h[n].msg, id) ==> Announced(h, n, id))
  }

  ghost predicate Alike(h: seq<Frame>, n: nat, s: AsmState, t: AsmState) {
    && (Begun(h, n) ==> s.open == t.open)
    && (forall id: u32 :: Announced(h, n, id) ==> id in s.cache && id in t.cache && s.cache[id] == t.cache[id])
  }

  lemma {:induction false} TruncateAllAlike(c: Cache, d: Cache, ids: seq<u32>, lsn: Lsn, changes: seq<PendingChange>, limit: nat)
    requires forall id <- ids :: id in c && id in d && c[id] == d[id]
    ensures TruncateAll(c, ids, lsn, changes, limit) == TruncateAll(d, ids, lsn, changes, limit)
  {
    if ids != [] && |changes| < limit {
      assert ids[0] in ids;
      TruncateAllAlike(c, d, ids[1..], lsn, changes + [TruncateChange(c[ids[0]], lsn)], limit);
    }
  }

  /** Both steps failed alike, or both emitted alike and lead to states that go on alike. */
  ghost predicate SameStep(h: seq<Frame>, n: nat, q: Result<Step>, r: Result<Step>) {
    match (q, r)
    case (Ok(x), Ok(y)) => x.emitted == y.emitted && Alike(h, n, x.state, y.state)
    case (Err(d), Err(e)) => d == e
    case _ => false
  }

  lemma HandleAlike(h: seq<Frame>, n: nat, s: AsmState, t: AsmState, limit: nat)
    requires n < |h| && SelfContained(h) && Alike(h, n, s, t)
    ensures SameStep(h, n + 1, Handle(s, h[n], limit), Handle(t, h[n], limit))
  {
    var m := h[n].msg;
    if IsRow(m) {
      assert Uses(m, m.relationId);
    } else if m.Truncate? {
      forall id | id in m.relationIds
        ensures id in s.cache && id in t.cache && s.cache[id] == t.cache[id]
      {
        assert Uses(m, id);
      }
      if s.open.Some? {
        TruncateAllAlike(s.cache, t.cache, m.relationIds, h[n].walStart, s.open.value.changes, limit);
      }
    }
    StillAnnounced(h, n);
  }

  lemma StillAnnounced(h: seq<Frame>, n: nat)
    requires n < |h|
    ensures forall id: u32 :: Announced(h, n + 1, id) <==>
              Announced(h, n, id) || (h[n].msg.RelationMsg? && h[n].msg.relation.id == id)
    ensures Begun(h, n + 1) <==> Begun(h, n) || h[n].msg.Begin?
  {
    if h[n].msg.RelationMsg? {
      assert Announced(h, n + 1, h[n].msg.relation.id);
    }
  }

  /** Both runs failed alike, or both emitted alike and are in states that go on alike. */
  ghost predicate SameOutcome(h: seq<Frame>, n: nat, q: Result<Run>, r: Result<Run>) {
    match (q, r)
    case (Ok(x), Ok(y)) => x.emitted == y.emitted && Alike(h, n, x.state, y.state)
    case (Err(d), Err(e)) => d == e
    case _ => false
  }

  lemma ExtendAlike(h: seq<Frame>, n: nat, q: Run, r: Run, x: Result<Step>, y: Result<Step>)
    requires q.emitted == r.emitted && SameStep(h, n, x, y)
    ensures SameOutcome(h, n, Extend(q, x), Extend(r, y))
  {
  }

  /**
   A reset cannot be seen in a redelivery: whatever the cache held and whatever transaction
   was half open, a self-contained sequence emits the same transactions with the same event
   keys, or fails at the same place with the same error.
   */
  lemma {:induction false} RedeliveryIsIdentical(s: AsmState, t: AsmState, h: seq<Frame>, n: nat, limit: nat)
    requires n <= |h| && SelfContained(h)
    ensures SameOutcome(h, n, RunTo(s, h, n, limit), RunTo(t, h, n, limit))
  {
    hide Handle;
    if n > 0 {
      var q, r := RunTo(s, h, n - 1, limit), RunTo(t, h, n - 1, limit);
      RedeliveryIsIdentical(s, t, h, n - 1, limit);
      if q.Ok? {
        HandleAlike(h, n - 1, q.value.state, r.value.state, limit);
        ExtendAlike(h, n, q.value, r.value, Handle(q.value.state, h[n - 1], limit), Handle(r.value.state, h[n - 1], limit));
      }
    }
  }
}
