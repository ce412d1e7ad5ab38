/**
 Where every field of a message is and what its bytes mean, written out byte by byte:
 section 55.9 of the PostgreSQL 16 documentation without the writer of `wire.dfy`.
 */
module Layout {
  import opened Prelude
  import opened Schema
  import opened Wire

  // Numbers, the most significant byte first.

  function Word16(b: Bytes, at: nat): nat
    requires at + 2 <= |b|
  {
    (b[at] as int) * 256 + b[at + 1]
  }

  function Word32(b: Bytes, at: nat): nat
    requires at + 4 <= |b|
  {
    (((b[at] as int) * 256 + b[at + 1]) * 256 + b[at + 2]) * 256 + b[at + 3]
  }

  function Word64(b: Bytes, at: nat): nat
    requires at + 8 <= |b|
  {
    Word32(b, at) * 0x1_0000_0000 + Word32(b, at + 4)
  }

  function Signed16(b: Bytes, at: nat): int
    requires at + 2 <= |b|
  {
    if b[at] < 0x80 then Word16(b, at) else Word16(b, at) - 0x1_0000
  }

  function Signed32(b: Bytes, at: nat): int
    requires at + 4 <= |b|
  {
    if b[at] < 0x80 then Word32(b, at) else Word32(b, at) - 0x1_0000_0000
  }

  function Signed64(b: Bytes, at: nat): int
    requires at + 8 <= |b|
  {
    if b[at] < 0x80 then Word64(b, at) else Word64(b, at) - 0x1_0000_0000_0000_0000
  }

  // Fields of variable length.

  /** Text up to its null byte. */
  predicate StringAt(b: Bytes, at: nat, t: Text) {
    at + |t| < |b| && b[at..at + |t|] == t && b[at + |t|] == 0 && 0 !in t && ValidUtf8(t)
  }

  /** 'n' and 'u' stand alone, 't' is followed by a length and as many bytes. */
  predicate ValueAt(b: Bytes, at: nat, v: ColumnValue) {
    match v
    case Null => at < |b| && b[at] == 0x6E
    case UnchangedToast => at < |b| && b[at] == 0x75
    case Text(t) =>
      && at + 5 + |t| <= |b| && b[at] == 0x74 && Signed32(b, at + 1) == |t|
      && b[at + 5..at + 5 + |t|] == t && ValidUtf8(t)
  }

  function ValueSize(v: ColumnValue): nat {
    if v.Text? then 5 + |v.text| else 1
  }

  predicate ValuesAt(b: Bytes, at: nat, vs: TupleData)
    decreases |vs|
  {
    vs == [] || (ValueAt(b, at, vs[0]) && ValuesAt(b, at + ValueSize(vs[0]), vs[1..]))
  }

  function ValuesSize(vs: TupleData): nat {
    if vs == [] then 0 else ValueSize(vs[0]) + ValuesSize(vs[1..])
  }

  /** A count of 16 bits, then as many values. */
  predicate TupleAt(b: Bytes, at: nat, t: TupleData) {
    at + 2 <= |b| && Signed16(b, at) == |t| && ValuesAt(b, at + 2, t)
  }

  function TupleSize(t: TupleData): nat {
    2 + ValuesSize(t)
  }

  /** A byte that is 1 for a key column, then name, type and type modifier. */
  predicate ColumnAt(b: Bytes, at: nat, c: Column) {
    var after := at + 1 + |c.name| + 1;
    && after + 8 <= |b|
    && (c.isKey <==> b[at] == 1)
    && StringAt(b, at + 1, c.name)
    && c.typeOid == Word32(b, after)
    && c.atttypmod == Signed32(b, after + 4)
  }

  predicate ColumnsAt(b: Bytes, at: nat, cs: seq<Column>)
    decreases |cs|
  {
    cs == [] || (ColumnAt(b, at, cs[0]) && ColumnsAt(b, at + ColumnSize(cs[0]), cs[1..]))
  }

  function ColumnSize(c: Column): nat {
    1 + |c.name| + 1 + 8
  }

  function ColumnsSize(cs: seq<Column>): nat {
    if cs == [] then 0 else ColumnSize(cs[0]) + ColumnsSize(cs[1..])
  }

  // Messages.

  predicate BeginAt(b: Bytes, m: Message)
    requires m.Begin?
  {
    && |b| == 21 && b[0] == 0x42
    && m.finalLsn == Word64(b, 1)
    && m.beginTimestamp == Signed64(b, 9)
    && m.xid == Word32(b, 17)
  }

  predicate CommitAt(b: Bytes, m: Message)
    requires m.Commit?
  {
    && |b| == 26 && b[0] == 0x43
    && m.commitFlags == b[1]
    && m.commitLsn == Word64(b, 2)
    && m.endLsn == Word64(b, 10)
    && m.commitTimestamp == Signed64(b, 18)
  }

  predicate RelationAt(b: Bytes, r: Relation) {
    var second := 5 + |r.namespace| + 1;
    var after := second + |r.name| + 1;
    && after + 3 <= |b| && b[0] == 0x52
    && r.id == Word32(b, 1)
    && StringAt(b, 5, r.namespace)
    && StringAt(b, second, r.name)
    && r.replicaIdentity == b[after]
    && Signed16(b, after + 1) == |r.columns|
    && ColumnsAt(b, after + 3, r.columns)
    && after + 3 + ColumnsSize(r.columns) == |b|
  }

  predicate InsertAt(b: Bytes, m: Message)
    requires m.Insert?
  {
    && |b| >= 6 && b[0] == 0x49
    && m.relationId == Word32(b, 1)
    && b[5] == 0x4E
    && TupleAt(b, 6, m.tuple)
    && 6 + TupleSize(m.tuple) == |b|
  }

  predicate OldTupleAt(b: Bytes, at: nat, o: OldTuple) {
    && at < |b|
    && b[at] == (if o.kind == Key then 0x4B else 0x4F)
    && TupleAt(b, at + 1, o.tuple)
  }

  /** The old row, if any, with its tag, then the new one with its own. */
  predicate UpdateAt(b: Bytes, m: Message)
    requires m.Update?
  {
    var at := if m.oldTuple.Some? then 6 + TupleSize(m.oldTuple.value.tuple) else 5;
    && |b| > at && b[0] == 0x55
    && m.relationId == Word32(b, 1)
    && (m.oldTuple.Some? ==> OldTupleAt(b, 5, m.oldTuple.value))
    && b[at] == 0x4E
    && TupleAt(b, at + 1, m.newTuple)
    && at + 1 + TupleSize(m.newTuple) == |b|
  }

  predicate DeleteAt(b: Bytes, m: Message)
    requires m.Delete?
  {
    && |b| >= 6 && b[0] == 0x44
    && m.relationId == Word32(b, 1)
    && OldTupleAt(b, 5, m.oldRow)
    && 6 + TupleSize(m.oldRow.tuple) == |b|
  }

  /** A count, a byte of flags that nobody keeps, then as many relation ids. */
  predicate TruncateAt(b: Bytes, m: Message)
    requires m.Truncate?
  {
    && |b| == 6 + 4 * |m.relationIds| && b[0] == 0x54
    && Signed32(b, 1) == |m.relationIds|
    && forall k :: 0 <= k < |m.relationIds| ==> m.relationIds[k] == Word32(b, 6 + 4 * k)
  }

  predicate LaidOut(b: Bytes, m: Message) {
    match m
    case Begin(_, _, _) => BeginAt(b, m)
    case Commit(_, _, _, _) => CommitAt(b, m)
    case RelationMsg(r) => RelationAt(b, r)
    case Insert(_, _) => InsertAt(b, m)
    case Update(_, _, _) => UpdateAt(b, m)
    case Delete(_, _) => DeleteAt(b, m)
    case Truncate(_) => TruncateAt(b, m)
  }

  // A field put somewhere is a field that can be read there.

  predicate At(b: Bytes, at: nat, s: Bytes) {
    at <= |b| && b[at..] == s
  }

  lemma Snoc(b: Bytes, at: nat, n: nat)
    requires at + n < |b|
    ensures FromBigEndian(b[at..at + n + 1]) == 256 * FromBigEndian(b[at..at + n]) + b[at + n]
  {
    assert b[at..at + n + 1][..n] == b[at..at + n];
  }

  lemma Word16Is(b: Bytes, at: nat)
    requires at + 2 <= |b|
    ensures FromBigEndian(b[at..at + 2]) == Word16(b, at) < 0x1_0000
    ensures b[at] < 0x80 <==> Word16(b, at) < 0x8000
  {
    Snoc(b, at, 0);
    Snoc(b, at, 1);
  }

  lemma Word32Is(b: Bytes, at: nat)
    requires at + 4 <= |b|
    ensures FromBigEndian(b[at..at + 4]) == Word32(b, at) < 0x1_0000_0000
    ensures b[at] < 0x80 <==> Word32(b, at) < 0x8000_0000
  {
    Snoc(b, at, 0);
    Snoc(b, at, 1);
    Snoc(b, at, 2);
    Snoc(b, at, 3);
  }

  lemma Word64Is(b: Bytes, at: nat)
    requires at + 8 <= |b|
    ensures FromBigEndian(b[at..at + 8]) == Word64(b, at) < 0x1_0000_0000_0000_0000
    ensures b[at] < 0x80 <==> Word64(b, at) < 0x8000_0000_0000_0000
  {
    Word32Is(b, at);
    Word32Is(b, at + 4);
    Snoc(b, at, 4);
    Snoc(b, at, 5);
    Snoc(b, at, 6);
    Snoc(b, at, 7);
  }

  /** A number of `n` bytes in front of `rest` is the number those bytes are. */
  lemma NumberAt(b: Bytes, at: nat, v: nat, n: nat, rest: Bytes)
    requires v < Pow256(n)
    ensures At(b, at, BigEndian(v, n) + rest) <==>
            at + n <= |b| && FromBigEndian(b[at..at + n]) == v && At(b, at + n, rest)
  {
    BigEndianRoundTrip(v, n);
    if At(b, at, BigEndian(v, n) + rest) {
      assert b[at..at + n] == b[at..][..n] == BigEndian(v, n);
      assert b[at + n..] == b[at..][n..] == rest;
    }
    if at + n <= |b| && FromBigEndian(b[at..at + n]) == v && At(b, at + n, rest) {
      FromBigEndianRoundTrip(b[at..at + n]);
      assert b[at..] == b[at..at + n] + b[at + n..];
    }
  }

  lemma U8At(b: Bytes, at: nat, v: u8, rest: Bytes)
    ensures At(b, at, PutU8(v, rest)) <==> at + 1 <= |b| && b[at] == v && At(b, at + 1, rest)
  {
    if At(b, at, PutU8(v, rest)) {
      assert b[at] == b[at..][0];
      assert b[at + 1..] == b[at..][1..] == rest;
    }
    if at + 1 <= |b| {
      assert b[at..] == [b[at]] + b[at + 1..];
    }
  }

  lemma U32At(b: Bytes, at: nat, v: u32, rest: Bytes)
    ensures At(b, at, PutU32(v, rest)) <==> at + 4 <= |b| && Word32(b, at) == v && At(b, at + 4, rest)
  {
    PowersOf256();
    NumberAt(b, at, v, 4, rest);
    if at + 4 <= |b| {
      Word32Is(b, at);
    }
  }

  lemma U64At(b: Bytes, at: nat, v: u64, rest: Bytes)
    ensures At(b, at, PutU64(v, rest)) <==> at + 8 <= |b| && Word64(b, at) == v && At(b, at + 8, rest)
  {
    PowersOf256();
    NumberAt(b, at, v, 8, rest);
    if at + 8 <= |b| {
      Word64Is(b, at);
    }
  }

  lemma I16At(b: Bytes, at: nat, v: i16, rest: Bytes)
    ensures At(b, at, PutI16(v, rest)) <==> at + 2 <= |b| && Signed16(b, at) == v && At(b, at + 2, rest)
  {
    PowersOf256();
    NumberAt(b, at, Pattern(v, TWO16), 2, rest);
    if at + 2 <= |b| {
      Word16Is(b, at);
    }
  }

  lemma I32At(b: Bytes, at: nat, v: i32, rest: Bytes)
    ensures At(b, at, PutI32(v, rest)) <==> at + 4 <= |b| && Signed32(b, at) == v && At(b, at + 4, rest)
  {
    PowersOf256();
    NumberAt(b, at, Pattern(v, TWO32), 4, rest);
    if at + 4 <= |b| {
      Word32Is(b, at);
    }
  }

  lemma I64At(b: Bytes, at: nat, v: i64, rest: Bytes)
    ensures At(b, at, PutI64(v, rest)) <==> at + 8 <= |b| && Signed64(b, at) == v && At(b, at + 8, rest)
  {
    PowersOf256();
    NumberAt(b, at, Pattern(v, TWO64), 8, rest);
    if at + 8 <= |b| {
      Word64Is(b, at);
    }
  }

  lemma BytesAt(b: Bytes, at: nat, t: Bytes, rest: Bytes)
    ensures At(b, at, t + rest) <==> at + |t| <= |b| && b[at..at + |t|] == t && At(b, at + |t|, rest)
  {
    if At(b, at, t + rest) {
      assert b[at..at + |t|] == b[at..][..|t|] == t;
      assert b[at + |t|..] == b[at..][|t|..] == rest;
    }
    if at + |t| <= |b| {
      assert b[at..] == b[at..at + |t|] + b[at + |t|..];
    }
  }

  lemma NameAt(b: Bytes, at: nat, t: Text, rest: Bytes)
    requires NameFits(t)
    ensures At(b, at, PutString(t, rest)) <==> StringAt(b, at, t) && At(b, at + |t| + 1, rest)
  {
    hide ValidUtf8;
    assert PutString(t, rest) == t + PutU8(0, rest);
    BytesAt(b, at, t, PutU8(0, rest));
    U8At(b, at + |t|, 0, rest);
  }

  lemma OneValueAt(b: Bytes, at: nat, v: ColumnValue, rest: Bytes)
    requires ValueFits(v)
    ensures At(b, at, PutValue(v, rest)) <==> ValueAt(b, at, v) && At(b, at + ValueSize(v), rest)
  {
    hide ValidUtf8;
    match v {
      case Null => U8At(b, at, TAG_NULL, rest);
      case UnchangedToast => U8At(b, at, TAG_UNCHANGED, rest);
      case Text(t) =>
        U8At(b, at, TAG_TEXT, PutI32(|t|, t + rest));
        I32At(b, at + 1, |t|, t + rest);
        BytesAt(b, at + 5, t, rest);
    }
  }

  lemma {:induction false} AllValuesAt(b: Bytes, at: nat, vs: TupleData, rest: Bytes)
    requires forall v <- vs :: ValueFits(v)
    ensures At(b, at, PutValues(vs, rest)) <==> ValuesAt(b, at, vs) && At(b, at + ValuesSize(vs), rest)
    decreases |vs|
  {
    hide ValueAt, PutValue, ValueSize, ValueFits, At;
    if vs != [] {
      OneValueAt(b, at, vs[0], PutValues(vs[1..], rest));
      AllValuesAt(b, at + ValueSize(vs[0]), vs[1..], rest);
    }
  }

  lemma {:induction false} ValuesThatFit(b: Bytes, at: nat, vs: TupleData)
    requires ValuesAt(b, at, vs)
    ensures forall v <- vs :: ValueFits(v)
    decreases |vs|
  {
    hide ValidUtf8;
    if vs != [] {
      ValuesThatFit(b, at + ValueSize(vs[0]), vs[1..]);
      assert vs == [vs[0]] + vs[1..];
      if vs[0].Text? {
        Word32Is(b, at + 1);
      }
    }
  }

  lemma WholeTupleAt(b: Bytes, at: nat, t: TupleData, rest: Bytes)
    requires TupleFits(t)
    ensures At(b, at, PutTuple(t, rest)) <==> TupleAt(b, at, t) && At(b, at + TupleSize(t), rest)
  {
    I16At(b, at, |t|, PutValues(t, rest));
    AllValuesAt(b, at + 2, t, rest);
  }

  lemma TupleThatFits(b: Bytes, at: nat, t: TupleData)
    requires TupleAt(b, at, t)
    ensures TupleFits(t)
  {
    ValuesThatFit(b, at + 2, t);
    Word16Is(b, at);
  }

  lemma TaggedTupleAt(b: Bytes, at: nat, o: OldTuple, rest: Bytes)
    requires TupleFits(o.tuple)
    ensures At(b, at, PutOldTuple(o, rest)) <==> OldTupleAt(b, at, o) && At(b, at + 1 + TupleSize(o.tuple), rest)
  {
    U8At(b, at, KindTag(o.kind), PutTuple(o.tuple, rest));
    WholeTupleAt(b, at + 1, o.tuple, rest);
  }

  lemma OneColumnAt(b: Bytes, at: nat, c: Column, f: u8, rest: Bytes)
    requires ColumnFits(c, f)
    ensures At(b, at, PutColumn(c, f, rest)) <==>
            ColumnAt(b, at, c) && b[at] == f && At(b, at + ColumnSize(c), rest)
  {
    hide ValidUtf8;
    var after := at + 1 + |c.name| + 1;
    var c2 := PutI32(c.atttypmod, rest);
    var c1 := PutU32(c.typeOid, c2);
    U8At(b, at, f, PutString(c.name, c1));
    NameAt(b, at + 1, c.name, c1);
    U32At(b, after, c.typeOid, c2);
    I32At(b, after + 4, c.atttypmod, rest);
  }

  /** The flag bytes of columns that lie at `at`. */
  function FlagBytes(b: Bytes, at: nat, cs: seq<Column>): (fs: seq<u8>)
    requires ColumnsAt(b, at, cs)
    ensures ColumnsFit(cs, fs)
    decreases |cs|
  {
    if cs == [] then [] else [b[at]] + FlagBytes(b, at + ColumnSize(cs[0]), cs[1..])
  }

  lemma {:induction false} AllColumnsAt(b: Bytes, at: nat, cs: seq<Column>, fs: seq<u8>, rest: Bytes)
    requires ColumnsFit(cs, fs)
    ensures At(b, at, PutColumns(cs, fs, rest)) <==>
            ColumnsAt(b, at, cs) && FlagBytes(b, at, cs) == fs && At(b, at + ColumnsSize(cs), rest)
    decreases |cs|
  {
    hide ColumnAt, PutColumn, ColumnSize, ColumnFits, At;
    if cs != [] {
      OneColumnAt(b, at, cs[0], fs[0], PutColumns(cs[1..], fs[1..], rest));
      AllColumnsAt(b, at + ColumnSize(cs[0]), cs[1..], fs[1..], rest);
      assert fs == [fs[0]] + fs[1..];
    }
  }

  lemma {:induction false} AllIdsAt(b: Bytes, at: nat, ids: seq<u32>)
    ensures At(b, at, PutIds(ids, [])) <==>
            && at + 4 * |ids| == |b|
            && forall k :: 0 <= k < |ids| ==> ids[k] == Word32(b, at + 4 * k)
    decreases |ids|
  {
    if ids != [] {
      U32At(b, at, ids[0], PutIds(ids[1..], []));
      AllIdsAt(b, at + 4, ids[1..]);
    }
  }

  // Reading numbers off the front.

  lemma ReadsU32(b: Bytes, rest: Bytes)
    requires |b| == 4
    ensures FromBigEndian(b) == Word32(b + rest, 0) < TWO32 && PutU32(FromBigEndian(b), rest) == b + rest
  {
    FromBigEndianRoundTrip(b);
    PowersOf256();
    Word32Is(b + rest, 0);
    assert (b + rest)[..4] == b;
  }

  lemma ReadsU64(b: Bytes, rest: Bytes)
    requires |b| == 8
    ensures FromBigEndian(b) == Word64(b + rest, 0) < TWO64 && PutU64(FromBigEndian(b), rest) == b + rest
  {
    FromBigEndianRoundTrip(b);
    PowersOf256();
    Word64Is(b + rest, 0);
    assert (b + rest)[..8] == b;
  }

  lemma ReadsI16(b: Bytes, rest: Bytes)
    requires |b| == 2
    ensures var v := FromPattern(FromBigEndian(b), TWO16);
            v == Signed16(b + rest, 0) && -TWO16 <= 2 * v < TWO16 && PutI16(v, rest) == b + rest
  {
    hide BigEndian, FromBigEndian;
    FromBigEndianRoundTrip(b);
    PowersOf256();
    Word16Is(b + rest, 0);
    assert (b + rest)[..2] == b;
  }

  lemma ReadsI32(b: Bytes, rest: Bytes)
    requires |b| == 4
    ensures var v := FromPattern(FromBigEndian(b), TWO32);
            v == Signed32(b + rest, 0) && -TWO32 <= 2 * v < TWO32 && PutI32(v, rest) == b + rest
  {
    hide BigEndian, FromBigEndian;
    FromBigEndianRoundTrip(b);
    PowersOf256();
    Word32Is(b + rest, 0);
    assert (b + rest)[..4] == b;
  }

  lemma ReadsI64(b: Bytes, rest: Bytes)
    requires |b| == 8
    ensures var v := FromPattern(FromBigEndian(b), TWO64);
            v == Signed64(b + rest, 0) && -TWO64 <= 2 * v < TWO64 && PutI64(v, rest) == b + rest
  {
    hide BigEndian, FromBigEndian;
    FromBigEndianRoundTrip(b);
    PowersOf256();
    Word64Is(b + rest, 0);
    assert (b + rest)[..8] == b;
  }

  // The seven kinds.

  /** The bytes of a message are its encoding exactly when each field is in its place. */
  lemma BeginIff(b: Bytes, m: Message)
    requires m.Begin?
    ensures b == Encode(m, []) <==> BeginAt(b, m)
  {
    hide At, Word32, Word64, Signed64;
    var r3 := PutU32(m.xid, []);
    var r2 := PutI64(m.beginTimestamp, r3);
    var r1 := PutU64(m.finalLsn, r2);
    Whole(b, PutU8(0x42, r1));
    U8At(b, 0, 0x42, r1);
    U64At(b, 1, m.finalLsn, r2);
    I64At(b, 9, m.beginTimestamp, r3);
    U32At(b, 17, m.xid, []);
    AtEnd(b, 21);
  }

  lemma Whole(b: Bytes, s: Bytes)
    ensures b == s <==> At(b, 0, s)
  {
    assert b[0..] == b;
  }

  lemma AtEnd(b: Bytes, at: nat)
    ensures At(b, at, []) <==> at == |b|
  {
  }

  lemma CommitIff(b: Bytes, m: Message)
    requires m.Commit?
    ensures b == Encode(m, []) <==> CommitAt(b, m)
  {
    hide At, Word64, Signed64;
    var r4 := PutI64(m.commitTimestamp, []);
    var r3 := PutU64(m.endLsn, r4);
    var r2 := PutU64(m.commitLsn, r3);
    var r1 := PutU8(m.commitFlags, r2);
    Whole(b, PutU8(0x43, r1));
    U8At(b, 0, 0x43, r1);
    U8At(b, 1, m.commitFlags, r2);
    U64At(b, 2, m.commitLsn, r3);
    U64At(b, 10, m.endLsn, r4);
    I64At(b, 18, m.commitTimestamp, []);
    AtEnd(b, 26);
  }

  /** A RELATION up to its columns, which start at the offset returned. */
  lemma RelationHeadAt(b: Bytes, r: Relation, rest: Bytes) returns (columns: nat)
    requires NameFits(r.namespace) && NameFits(r.name) && |r.columns| < TWO15
    ensures columns == 5 + |r.namespace| + 1 + |r.name| + 1 + 3
    ensures At(b, 0, PutU8(0x52, PutRelation(r, rest))) <==>
            && columns <= |b| && b[0] == 0x52
            && r.id == Word32(b, 1)
            && StringAt(b, 5, r.namespace)
            && StringAt(b, 5 + |r.namespace| + 1, r.name)
            && r.replicaIdentity == b[columns - 3]
            && Signed16(b, columns - 2) == |r.columns|
            && At(b, columns, rest)
  {
    hide ValidUtf8, NameFits, At, StringAt, Word32, Signed16, PutU8, PutU32, PutI16, PutString;
    var second := 5 + |r.namespace| + 1;
    var after := second + |r.name| + 1;
    columns := after + 3;
    var r5 := PutI16(|r.columns|, rest);
    var r4 := PutU8(r.replicaIdentity, r5);
    var r3 := PutString(r.name, r4);
    var r2 := PutString(r.namespace, r3);
    U8At(b, 0, 0x52, PutU32(r.id, r2));
    U32At(b, 1, r.id, r2);
    NameAt(b, 5, r.namespace, r3);
    NameAt(b, second, r.name, r4);
    U8At(b, after, r.replicaIdentity, r5);
    I16At(b, after + 1, |r.columns|, rest);
  }

  lemma RelationFits(b: Bytes, r: Relation)
    requires RelationAt(b, r)
    ensures NameFits(r.namespace) && NameFits(r.name) && |r.columns| < TWO15
  {
    hide ValidUtf8, ColumnsAt;
    Word16Is(b, 5 + |r.namespace| + 1 + |r.name| + 1 + 1);
  }

  lemma RelationIff(b: Bytes, r: Relation)
    ensures Encodes(b, RelationMsg(r)) <==> RelationAt(b, r)
  {
    hide NameFits, ColumnFits, StringAt, ColumnAt, Word32, Signed16, Encode;
    if Encodes(b, RelationMsg(r)) {
      var flags :| WellFormed(RelationMsg(r), flags) && b == Encode(RelationMsg(r), flags);
      RelationSaid(b, r, flags);
    }
    if RelationAt(b, r) {
      RelationFits(b, r);
      RelationSaid(b, r, FlagBytes(b, 5 + |r.namespace| + 1 + |r.name| + 1 + 3, r.columns));
    }
  }

  lemma RelationSaid(b: Bytes, r: Relation, flags: seq<u8>)
    requires WellFormed(RelationMsg(r), flags)
    ensures b == Encode(RelationMsg(r), flags) <==>
            RelationAt(b, r) && FlagBytes(b, 5 + |r.namespace| + 1 + |r.name| + 1 + 3, r.columns) == flags
  {
    hide ValidUtf8, At, NameFits, StringAt, Word32, Signed16, PutU8, PutRelation, PutColumns, FlagBytes, ColumnsAt;
    hide ColumnFits;
    var rest := PutColumns(r.columns, flags, []);
    Whole(b, PutU8(0x52, PutRelation(r, rest)));
    var columns := RelationHeadAt(b, r, rest);
    AllColumnsAt(b, columns, r.columns, flags, []);
    AtEnd(b, columns + ColumnsSize(r.columns));
  }

  lemma InsertIff(b: Bytes, m: Message)
    requires m.Insert? && TupleFits(m.tuple)
    ensures b == Encode(m, []) <==> InsertAt(b, m)
  {
    var r2 := PutTuple(m.tuple, []);
    var r1 := PutU8(TAG_NEW, r2);
    Whole(b, PutU8(0x49, PutU32(m.relationId, r1)));
    U8At(b, 0, 0x49, PutU32(m.relationId, r1));
    U32At(b, 1, m.relationId, r1);
    U8At(b, 5, TAG_NEW, r2);
    WholeTupleAt(b, 6, m.tuple, []);
  }

  lemma UpdateIff(b: Bytes, m: Message)
    requires m.Update? && (m.oldTuple.Some? ==> TupleFits(m.oldTuple.value.tuple)) && TupleFits(m.newTuple)
    ensures b == Encode(m, []) <==> UpdateAt(b, m)
  {
    hide At, TupleAt, TupleSize, TupleFits, Word32, PutU8, PutU32, PutTuple, PutOldTuple;
    var at := if m.oldTuple.Some? then 6 + TupleSize(m.oldTuple.value.tuple) else 5;
    var newRow := PutU8(TAG_NEW, PutTuple(m.newTuple, []));
    var rows := PutRows(m.oldTuple, m.newTuple, []);
    Whole(b, PutU8(0x55, PutU32(m.relationId, rows)));
    U8At(b, 0, 0x55, PutU32(m.relationId, rows));
    U32At(b, 1, m.relationId, rows);
    if m.oldTuple.Some? {
      TaggedTupleAt(b, 5, m.oldTuple.value, newRow);
    }
    U8At(b, at, TAG_NEW, PutTuple(m.newTuple, []));
    WholeTupleAt(b, at + 1, m.newTuple, []);
    AtEnd(b, at + 1 + TupleSize(m.newTuple));
  }

  lemma DeleteIff(b: Bytes, m: Message)
    requires m.Delete? && TupleFits(m.oldRow.tuple)
    ensures b == Encode(m, []) <==> DeleteAt(b, m)
  {
    var row := PutOldTuple(m.oldRow, []);
    Whole(b, PutU8(0x44, PutU32(m.relationId, row)));
    U8At(b, 0, 0x44, PutU32(m.relationId, row));
    U32At(b, 1, m.relationId, row);
    TaggedTupleAt(b, 5, m.oldRow, []);
  }

  lemma TruncateIff(b: Bytes, m: Message, flag: u8)
    requires m.Truncate? && |m.relationIds| < TWO31
    ensures b == Encode(m, [flag]) <==> TruncateAt(b, m) && b[5] == flag
  {
    var r2 := PutIds(m.relationIds, []);
    var r1 := PutU8(flag, r2);
    Whole(b, PutU8(0x54, PutI32(|m.relationIds|, r1)));
    U8At(b, 0, 0x54, PutI32(|m.relationIds|, r1));
    I32At(b, 1, |m.relationIds|, r1);
    U8At(b, 5, flag, r2);
    AllIdsAt(b, 6, m.relationIds);
  }

  /** What is laid out right fits the format. */
  lemma LaidOutFits(b: Bytes, m: Message)
    requires LaidOut(b, m)
    ensures m.Insert? ==> TupleFits(m.tuple)
    ensures m.Update? && m.oldTuple.Some? ==> TupleFits(m.oldTuple.value.tuple)
    ensures m.Update? ==> TupleFits(m.newTuple)
    ensures m.Delete? ==> TupleFits(m.oldRow.tuple)
    ensures m.Truncate? ==> |m.relationIds| < TWO31
  {
    hide TupleFits;
    match m {
      case Insert(_, t) => TupleThatFits(b, 6, t);
      case Update(_, o, n) =>
        if o.Some? {
          TupleThatFits(b, 6, o.value.tuple);
        }
        TupleThatFits(b, if o.Some? then 7 + TupleSize(o.value.tuple) else 6, n);
      case Delete(_, o) => TupleThatFits(b, 6, o.tuple);
      case Truncate(ids) => Word32Is(b, 1);
      case _ =>
    }
  }

  /** Only a RELATION and a TRUNCATE have flag bytes that a Message does not keep. */
  lemma NoFlags(b: Bytes, m: Message)
    requires !m.RelationMsg? && !m.Truncate?
    ensures Encodes(b, m) <==> WellFormed(m, []) && b == Encode(m, [])
  {
    hide EncodeBody;
    if Encodes(b, m) {
      var flags :| WellFormed(m, flags) && b == Encode(m, flags);
      assert flags == [];
    }
  }

  lemma TruncateFlag(b: Bytes, m: Message)
    requires m.Truncate? && |m.relationIds| < TWO31
    ensures Encodes(b, m) <==> TruncateAt(b, m)
  {
    hide EncodeBody;
    if Encodes(b, m) {
      var flags :| WellFormed(m, flags) && b == Encode(m, flags);
      assert flags == [flags[0]];
      TruncateIff(b, m, flags[0]);
    }
    if TruncateAt(b, m) {
      TruncateIff(b, m, b[5]);
    }
  }

  /** A payload encodes a message exactly when every byte of it is what the layout says. */
  lemma LaidOutIff(b: Bytes, m: Message)
    ensures Encodes(b, m) <==> LaidOut(b, m)
  {
    hide Encode, TupleFits;
    if LaidOut(b, m) {
      LaidOutFits(b, m);
    }
    if Encodes(b, m) || LaidOut(b, m) {
      match m {
        case Begin(_, _, _) => NoFlags(b, m); BeginIff(b, m);
        case Commit(_, _, _, _) => NoFlags(b, m); CommitIff(b, m);
        case RelationMsg(r) => RelationIff(b, r);
        case Insert(_, _) => NoFlags(b, m); InsertIff(b, m);
        case Update(_, _, _) => NoFlags(b, m); UpdateIff(b, m);
        case Delete(_, _) => NoFlags(b, m); DeleteIff(b, m);
        case Truncate(_) => TruncateFlag(b, m);
      }
    }
  }
}
