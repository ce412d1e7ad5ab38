/** Assembling transactions from the messages between BEGIN and COMMIT. */
module Transactions {
  import opened Prelude
  import opened Schema
  import opened Wire
  import opened Rows

  datatype Operation = Inserted | Updated | Deleted | Truncated

  datatype PendingChange = PendingChange(schema: Text, table: Text, operation: Operation,
    before: Option<Row>, beforeKind: Option<OldTupleKind>, after: Option<Row>,
    unchangedColumns: seq<Text>, lsn: Lsn)

  datatype ChangeEvent = ChangeEvent(change: PendingChange, transactionId: u32, eventIndex: u32,
    commitLsn: Lsn, commitTimestamp: i64)

  datatype Transaction = Transaction(xid: u32, commitLsn: Lsn, endLsn: Lsn, commitTimestamp: i64,
    changes: seq<ChangeEvent>)

  datatype OpenTx = OpenTx(xid: u32, changes: seq<PendingChange>)

  /** A message with the WAL position its envelope starts at. */
  datatype Frame = Frame(msg: Message, walStart: Lsn)

  // The change one row message makes, given the description of its table.

  function InsertChange(rel: Relation, tuple: TupleData, lsn: Lsn): Result<PendingChange> {
    var (row, omitted) :- FullRow(rel, tuple);
    if omitted != [] then Err(DecodeError)
    else Ok(PendingChange(rel.namespace, rel.name, Inserted, None, None, Some(row), [], lsn))
  }

  function BeforeRow(rel: Relation, oldRow: OldTuple): Result<Row> {
    match oldRow.kind
    case Full =>
      var (row, omitted) :- FullRow(rel, oldRow.tuple);
      if omitted != [] then Err(DecodeError) else Ok(row)
    case Key => KeyRow(rel, oldRow.tuple)
  }

  function UpdateChange(rel: Relation, oldTuple: Option<OldTuple>, newTuple: TupleData, lsn: Lsn): Result<PendingChange> {
    if oldTuple.None? then
      var (row, omitted) :- FullRow(rel, newTuple);
      Ok(PendingChange(rel.namespace, rel.name, Updated, None, None, Some(row), omitted, lsn))
    else
      var before :- BeforeRow(rel, oldTuple.value);
      var (row, omitted) :- FullRow(rel, newTuple);
      Ok(PendingChange(rel.namespace, rel.name, Updated, Some(before), Some(oldTuple.value.kind), Some(row), omitted, lsn))
  }

  function DeleteChange(rel: Relation, oldRow: OldTuple, lsn: Lsn): Result<PendingChange> {
    var before :- BeforeRow(rel, oldRow);
    Ok(PendingChange(rel.namespace, rel.name, Deleted, Some(before), Some(oldRow.kind), None, [], lsn))
  }

  function TruncateChange(rel: Relation, lsn: Lsn): PendingChange {
    PendingChange(rel.namespace, rel.name, Truncated, None, None, None, [], lsn)
  }

  /** The change of one table that a TRUNCATE empties. */
  predicate IsTruncation(rel: Relation, lsn: Lsn, c: PendingChange) {
    && c.schema == rel.namespace && c.table == rel.name && c.operation == Truncated && c.lsn == lsn
    && c.before == None && c.beforeKind == None && c.after == None && c.unchangedColumns == []
  }

  // The assembler on values.

  type Cache = map<u32, Relation>

  datatype AsmState = AsmState(cache: Cache, open: Option<OpenTx>)

  datatype Step = Step(state: AsmState, emitted: Option<Transaction>)

  function Lookup(cache: Cache, id: u32): Result<Relation> {
    if id in cache then Ok(cache[id]) else Err(UnknownRelation(id))
  }

  predicate IsRow(m: Message) {
    m.Insert? || m.Update? || m.Delete?
  }

  function RowChange(rel: Relation, m: Message, lsn: Lsn): Result<PendingChange>
    requires IsRow(m)
  {
    match m
    case Insert(_, tuple) => InsertChange(rel, tuple, lsn)
    case Update(_, o, n) => UpdateChange(rel, o, n, lsn)
    case Delete(_, o) => DeleteChange(rel, o, lsn)
  }

  // What the change of a row message is.

  function OldOf(m: Message): Option<OldTuple> {
    match m
    case Update(_, o, _) => o
    case Delete(_, o) => Some(o)
    case _ => None
  }

  function NewOf(m: Message): Option<TupleData> {
    match m
    case Insert(_, tuple) => Some(tuple)
    case Update(_, _, n) => Some(n)
    case _ => None
  }

  predicate AllSent(vals: TupleData) {
    forall j :: 0 <= j < |vals| ==> !vals[j].UnchangedToast?
  }

  /** Every tuple has the table's arity, and an unchanged TOAST value is only in the new row of an UPDATE. */
  predicate TuplesFit(rel: Relation, m: Message) {
    && (NewOf(m).Some? ==> |NewOf(m).value| == |rel.columns| && (m.Insert? ==> AllSent(NewOf(m).value)))
    && (OldOf(m).Some? ==> |OldOf(m).value.tuple| == |rel.columns| &&
                           (OldOf(m).value.kind.Full? ==> AllSent(OldOf(m).value.tuple)))
  }

  /** The change names the table and the position, holds the old row by its kind, and parts the
      columns of the new row into values and names of unchanged ones. */
  ghost predicate ChangeOf(rel: Relation, m: Message, lsn: Lsn, c: PendingChange)
    requires TuplesFit(rel, m)
  {
    && c.schema == rel.namespace && c.table == rel.name && c.lsn == lsn
    && c.operation == (if m.Insert? then Inserted else if m.Update? then Updated else Deleted)
    && (c.before.Some? <==> OldOf(m).Some?) && (c.beforeKind.Some? <==> OldOf(m).Some?)
    && (c.after.Some? <==> NewOf(m).Some?)
    && (c.unchangedColumns == [] <==> NewOf(m).None? || AllSent(NewOf(m).value))
    && (OldOf(m).Some? ==> c.beforeKind == Some(OldOf(m).value.kind))
    && (DistinctNames(rel.columns) && OldOf(m).Some? ==>
          match OldOf(m).value.kind
          case Full => Partition(rel.columns, OldOf(m).value.tuple, c.before.value, [])
          case Key => TextsOnly(rel.columns, OldOf(m).value.tuple, c.before.value))
    && (DistinctNames(rel.columns) && NewOf(m).Some? ==>
          Partition(rel.columns, NewOf(m).value, c.after.value, c.unchangedColumns))
  }

  /** A row message makes a change exactly when its tuples fit the table, and then this one. */
  lemma RowChangeIsChangeOf(rel: Relation, m: Message, lsn: Lsn)
    requires IsRow(m)
    ensures RowChange(rel, m, lsn).Ok? <==> TuplesFit(rel, m)
    ensures RowChange(rel, m, lsn).Ok? ==> ChangeOf(rel, m, lsn, RowChange(rel, m, lsn).value)
    ensures RowChange(rel, m, lsn).Err? ==> RowChange(rel, m, lsn).error == DecodeError
  {
    hide BeforeRow, FullRow, AllSent, TextsOnly, Partition, DistinctNames;
    match m {
      case Insert(_, tuple) => FullRowIs(rel, tuple);
      case Update(_, o, tuple) =>
        FullRowIs(rel, tuple);
        if o.Some? {
          BeforeRowIs(rel, o.value);
        }
      case Delete(_, o) => BeforeRowIs(rel, o);
    }
  }

  lemma FullRowIs(rel: Relation, tuple: TupleData)
    ensures FullRow(rel, tuple).Ok? <==> |tuple| == |rel.columns|
    ensures FullRow(rel, tuple).Err? ==> FullRow(rel, tuple).error == DecodeError
    ensures FullRow(rel, tuple).Ok? ==>
              && (FullRow(rel, tuple).value.1 == [] <==> AllSent(tuple))
              && (DistinctNames(rel.columns) ==>
                    Partition(rel.columns, tuple, FullRow(rel, tuple).value.0, FullRow(rel, tuple).value.1))
  {
    hide DistinctNames, Partition;
    if |tuple| == |rel.columns| {
      NoneUnchanged(rel.columns, tuple, |tuple|);
      if DistinctNames(rel.columns) {
        RowPartitions(rel, tuple);
      }
    }
  }

  lemma BeforeRowIs(rel: Relation, o: OldTuple)
    ensures BeforeRow(rel, o).Ok? <==> |o.tuple| == |rel.columns| && (o.kind.Full? ==> AllSent(o.tuple))
    ensures BeforeRow(rel, o).Err? ==> BeforeRow(rel, o).error == DecodeError
    ensures BeforeRow(rel, o).Ok? && DistinctNames(rel.columns) ==>
              match o.kind
              case Full => Partition(rel.columns, o.tuple, BeforeRow(rel, o).value, [])
              case Key => TextsOnly(rel.columns, o.tuple, BeforeRow(rel, o).value)
  {
    hide DistinctNames, Partition, TextsOnly;
    if |o.tuple| == |rel.columns| {
      NoneUnchanged(rel.columns, o.tuple, |o.tuple|);
      if DistinctNames(rel.columns) {
        RowPartitions(rel, o.tuple);
        KeyRowIsSentText(rel, o.tuple);
      }
    }
  }

  /** One change for each relation named, as long as there is room and the relation is known. */
  function TruncateAll(cache: Cache, ids: seq<u32>, lsn: Lsn, changes: seq<PendingChange>,
        limit: nat): Result<seq<PendingChange>> {
    if ids == [] then Ok(changes)
    else if |changes| >= limit then Err(TransactionTooLarge(limit))
    else
      var rel :- Lookup(cache, ids[0]);
      TruncateAll(cache, ids[1..], lsn, changes + [TruncateChange(rel, lsn)], limit)
  }

  /** The buffer's position becomes the event index, narrowed to 32 bits as the code does. */
  function Number(xid: u32, commit: Message, changes: seq<PendingChange>): (events: seq<ChangeEvent>)
    requires commit.Commit?
    ensures |events| == |changes|
  {
    seq(|changes|, i requires 0 <= i < |changes| =>
      ChangeEvent(changes[i], xid, i % TWO32, commit.commitLsn, commit.commitTimestamp))
  }

  function Emit(o: OpenTx, commit: Message): Transaction
    requires commit.Commit?
  {
    Transaction(o.xid, commit.commitLsn, commit.endLsn, commit.commitTimestamp, Number(o.xid, commit, o.changes))
  }

  function Handle(s: AsmState, f: Frame, limit: nat): Result<Step> {
    match f.msg
    case RelationMsg(rel) => Ok(Step(s.(cache := s.cache[rel.id := rel]), None))
    case Begin(_, _, xid) => Ok(Step(s.(open := Some(OpenTx(xid, []))), None))
    case Commit(_, _, _, _) =>
      if s.open.None? then Err(DecodeError)
      else Ok(Step(s.(open := None), Some(Emit(s.open.value, f.msg))))
    case Truncate(ids) =>
      if s.open.None? then Err(DecodeError)
      else
        var changes :- TruncateAll(s.cache, ids, f.walStart, s.open.value.changes, limit);
        Ok(Step(s.(open := Some(s.open.value.(changes := changes))), None))
    case _ =>
      if s.open.None? then Err(DecodeError)
      else if |s.open.value.changes| >= limit then Err(TransactionTooLarge(limit))
      else
        var rel :- Lookup(s.cache, f.msg.relationId);
        var change :- RowChange(rel, f.msg, f.walStart);
        Ok(Step(s.(open := Some(s.open.value.(changes := s.open.value.changes + [change]))), None))
  }

  /** Of the errors of a row message a missing transaction is named first, whatever the cache
      holds; then the limit; then an unknown relation, whatever the tuples are; then a bad tuple. */
  lemma RowErrorsAreRanked(s: AsmState, f: Frame, limit: nat)
    requires IsRow(f.msg) && Handle(s, f, limit).Err?
    ensures s.open.None? ==> forall c: Cache :: Handle(s.(cache := c), f, limit) == Err(DecodeError)
    ensures s.open.Some? && |s.open.value.changes| >= limit ==>
              forall c: Cache :: Handle(s.(cache := c), f, limit) == Err(TransactionTooLarge(limit))
    ensures s.open.Some? && |s.open.value.changes| < limit ==>
              if f.msg.relationId !in s.cache then
                Handle(s, f, limit) == Err(UnknownRelation(f.msg.relationId))
              else
                Handle(s, f, limit) == Err(DecodeError) && !TuplesFit(s.cache[f.msg.relationId], f.msg)
  {
    hide RowChange, TuplesFit;
    if f.msg.relationId in s.cache {
      RowChangeIsChangeOf(s.cache[f.msg.relationId], f.msg, f.walStart);
    }
  }

  lemma {:induction false} TruncateOneMore(cache: Cache, ids: seq<u32>, id: u32, lsn: Lsn,
      changes: seq<PendingChange>, limit: nat)
    requires TruncateAll(cache, ids, lsn, changes, limit).Ok?
    ensures var done := TruncateAll(cache, ids, lsn, changes, limit).value;
            TruncateAll(cache, ids + [id], lsn, changes, limit) ==
              if |done| >= limit then Err(TransactionTooLarge(limit))
              else if id !in cache then Err(UnknownRelation(id))
              else Ok(done + [TruncateChange(cache[id], lsn)])
  {
    if ids == [] {
      assert ids + [id] == [id] && [id][1..] == [];
    } else {
      TruncateOneMore(cache, ids[1..], id, lsn, changes + [TruncateChange(cache[ids[0]], lsn)], limit);
      assert (ids + [id])[1..] == ids[1..] + [id];
    }
  }

  /** A TRUNCATE that finds room and knows every table adds one change for each, in order. */
  lemma {:induction false} TruncatesEach(cache: Cache, ids: seq<u32>, lsn: Lsn, changes: seq<PendingChange>, limit: nat)
    requires TruncateAll(cache, ids, lsn, changes, limit).Ok?
    ensures var after := TruncateAll(cache, ids, lsn, changes, limit).value;
            && changes <= after && |after| == |changes| + |ids|
            && forall k :: 0 <= k < |ids| ==> ids[k] in cache && IsTruncation(cache[ids[k]], lsn, after[|changes| + k])
  {
    if ids != [] {
      var more := changes + [TruncateChange(cache[ids[0]], lsn)];
      TruncatesEach(cache, ids[1..], lsn, more, limit);
      var after := TruncateAll(cache, ids, lsn, changes, limit).value;
      assert after[|changes|] == more[|changes|];
      forall k | 0 <= k < |ids|
        ensures ids[k] in cache && IsTruncation(cache[ids[k]], lsn, after[|changes| + k])
      {
        if k > 0 {
          assert ids[1..][k - 1] == ids[k] && after[|more| + (k - 1)] == after[|changes| + k];
        }
      }
    }
  }

  /** A TRUNCATE failed at the `k`-th table it names; the changes of the tables before it were pushed. */
  ghost predicate StoppedAt(cache: Cache, ids: seq<u32>, lsn: Lsn, before: seq<PendingChange>, after: seq<PendingChange>,
      limit: nat, e: Error, k: nat)
  {
    && k < |ids| && TruncateAll(cache, ids[..k], lsn, before, limit) == Ok(after)
    && if |after| >= limit then e == TransactionTooLarge(limit) else ids[k] !in cache && e == UnknownRelation(ids[k])
  }

  class Assembler {
    var open: Option<OpenTx>
    const maxEvents: nat

    constructor (maxEvents: nat)
      ensures open == None && this.maxEvents == maxEvents
    {
      open := None;
      this.maxEvents := maxEvents;
    }

    predicate IsEmpty()
      reads this
    {
      open.None?
    }

    method Reset()
      modifies this
      ensures IsEmpty()
    {
      open := None;
    }

    ghost function View(cache: RelationCache): AsmState
      reads this, cache
    {
      AsmState(cache.byId, open)
    }

    /** The guards every row message passes first, in the order that names the error. */
    method Room() returns (r: Result<()>)
      ensures r == if open.None? then Err(DecodeError)
                   else if |open.value.changes| >= maxEvents then Err(TransactionTooLarge(maxEvents))
                   else Ok(())
    {
      if open.None? {
        return Err(DecodeError);
      }
      if |open.value.changes| >= maxEvents {
        return Err(TransactionTooLarge(maxEvents));
      }
      return Ok(());
    }

    method Push(change: PendingChange)
      requires open.Some?
      modifies this
      ensures open == Some(old(open.value).(changes := old(open.value.changes) + [change]))
    {
      open := Some(open.value.(changes := open.value.changes + [change]));
    }

    method BuildBefore(rel: Relation, oldRow: OldTuple) returns (r: Result<Row>)
      ensures r == BeforeRow(rel, oldRow)
    {
      match oldRow.kind
      case Full =>
        var full :- BuildFullRow(rel, oldRow.tuple);
        if full.1 != [] {
          return Err(DecodeError);
        }
        return Ok(full.0);
      case Key =>
        r := BuildKeyRow(rel, oldRow.tuple);
    }

    method BuildChange(rel: Relation, msg: Message, walStart: Lsn) returns (r: Result<PendingChange>)
      requires IsRow(msg)
      ensures r == RowChange(rel, msg, walStart)
    {
      match msg
      case Insert(_, tuple) =>
        var after :- BuildFullRow(rel, tuple);
        if after.1 != [] {
          return Err(DecodeError);
        }
        return Ok(PendingChange(rel.namespace, rel.name, Inserted, None, None, Some(after.0), [], walStart));
      case Update(_, oldTuple, newTuple) =>
        var before: Option<Row>, beforeKind: Option<OldTupleKind> := None, None;
        if oldTuple.Some? {
          var row :- BuildBefore(rel, oldTuple.value);
          before, beforeKind := Some(row), Some(oldTuple.value.kind);
        }
        var after :- BuildFullRow(rel, newTuple);
        return Ok(PendingChange(rel.namespace, rel.name, Updated, before, beforeKind, Some(after.0), after.1, walStart));
      case Delete(_, oldRow) =>
        var before :- BuildBefore(rel, oldRow);
        return Ok(PendingChange(rel.namespace, rel.name, Deleted, Some(before), Some(oldRow.kind), None, [], walStart));
    }

    method PushTruncates(relationIds: seq<u32>, walStart: Lsn, cache: RelationCache) returns (r: Result<()>)
      requires open.Some?
      modifies this
      ensures open.Some? && open.value.xid == old(open.value.xid)
      ensures r.Ok? ==>
                && |open.value.changes| == |old(open.value.changes)| + |relationIds|
                && old(open.value.changes) <= open.value.changes
                && forall k :: 0 <= k < |relationIds| ==>
                     relationIds[k] in cache.byId &&
                     IsTruncation(cache.byId[relationIds[k]], walStart, open.value.changes[|old(open.value.changes)| + k])
      ensures var all := TruncateAll(cache.byId, relationIds, walStart, old(open.value.changes), maxEvents);
              if all.Ok? then r == Ok(()) && open.value.changes == all.value
              else r == Err(all.error) && exists k ::
                     StoppedAt(cache.byId, relationIds, walStart, old(open.value.changes), open.value.changes,
                               maxEvents, all.error, k)
    {
      ghost var all := TruncateAll(cache.byId, relationIds, walStart, open.value.changes, maxEvents);
      if all.Ok? {
        TruncatesEach(cache.byId, relationIds, walStart, open.value.changes, maxEvents);
      }
      var i := 0;
      while i < |relationIds|
        invariant 0 <= i <= |relationIds|
        invariant open.Some? && open.value.xid == old(open.value.xid)
        invariant TruncateAll(cache.byId, relationIds[i..], walStart, open.value.changes, maxEvents) == all
        invariant TruncateAll(cache.byId, relationIds[..i], walStart, old(open.value.changes), maxEvents) ==
                  Ok(open.value.changes)
      {
        TruncateOneMore(cache.byId, relationIds[..i], relationIds[i], walStart, old(open.value.changes), maxEvents);
        assert relationIds[..i] + [relationIds[i]] == relationIds[..i + 1];
        if |open.value.changes| >= maxEvents || relationIds[i] !in cache.byId {
          assert StoppedAt(cache.byId, relationIds, walStart, old(open.value.changes), open.value.changes, maxEvents,
                           all.error, i);
        }
        var _ :- Room();
        var rel := cache.Get(relationIds[i]);
        if rel.None? {
          return Err(UnknownRelation(relationIds[i]));
        }
        Push(TruncateChange(rel.value, walStart));
        assert relationIds[i..][1..] == relationIds[i + 1..];
        i := i + 1;
      }
      return Ok(());
    }

    /** Agrees with the assembler on values; an error leaves the cache as it was, and leaves the
        open transaction too unless a TRUNCATE had already pushed part of its changes. */
    method HandleMessage(msg: Message, walStart: Lsn, cache: RelationCache) returns (r: Result<Option<Transaction>>)
      modifies this, cache
      ensures var step := Handle(old(View(cache)), Frame(msg, walStart), maxEvents);
              if step.Ok? then r == Ok(step.value.emitted) && View(cache) == step.value.state
              else r == Err(step.error) && cache.byId == old(cache.byId) &&
                   if msg.Truncate? && old(open).Some? then
                     open.Some? && open.value.xid == old(open.value.xid) && exists k ::
                       StoppedAt(cache.byId, msg.relationIds, walStart, old(open.value.changes), open.value.changes,
                                 maxEvents, step.error, k)
                   else open == old(open)
      ensures old(open).None? && !msg.RelationMsg? && !msg.Begin? ==> r == Err(DecodeError)
      ensures msg.Begin? ==> r == Ok(None) && open == Some(OpenTx(msg.xid, []))
      ensures msg.Commit? && old(open).Some? ==>
                && r.Ok? && r.value.Some? && open == None
                && r.value.value.xid == old(open).value.xid
                && r.value.value.commitLsn == msg.commitLsn && r.value.value.endLsn == msg.endLsn
                && r.value.value.commitTimestamp == msg.commitTimestamp
                && |r.value.value.changes| == |old(open).value.changes|
    {
      match msg
      case RelationMsg(rel) =>
        cache.Put(rel);
        return Ok(None);
      case Begin(_, _, xid) =>
        open := Some(OpenTx(xid, []));
        return Ok(None);
      case Commit(_, _, _, _) =>
        if open.None? {
          return Err(DecodeError);
        }
        var tx := Emit(open.value, msg);
        open := None;
        return Ok(Some(tx));
      case Truncate(ids) =>
        if open.None? {
          return Err(DecodeError);
        }
        var _ :- PushTruncates(ids, walStart, cache);
        return Ok(None);
      case _ =>
        var _ :- Room();
        var rel := cache.Get(msg.relationId);
        if rel.None? {
          return Err(UnknownRelation(msg.relationId));
        }
        var change :- BuildChange(rel.value, msg, walStart);
        Push(change);
        return Ok(None);
    }
  }
}
