/**
 The pgoutput messages and their byte layout, as section 55.9 of the PostgreSQL 16
 documentation (Logical Replication Message Formats) gives it.

 Every `Put` function writes one field in front of the bytes that follow it, so a whole
 message reads left to right as in the documentation.
 */
module Wire {
  import opened Prelude
  import opened Schema

  type Bytes = seq<u8>

  /** What a slice can hold: at most the largest signed machine word of bytes. */
  type Payload = s: Bytes | |s| < 0x8000_0000_0000_0000 witness []

  datatype ColumnValue = Null | UnchangedToast | Text(text: Text)

  type TupleData = seq<ColumnValue>

  datatype OldTupleKind = Key | Full

  datatype OldTuple = OldTuple(kind: OldTupleKind, tuple: TupleData)

  datatype Message =
    | Begin(finalLsn: Lsn, beginTimestamp: i64, xid: u32)
    | Commit(commitFlags: u8, commitLsn: Lsn, endLsn: Lsn, commitTimestamp: i64)
    | RelationMsg(relation: Relation)
    | Insert(relationId: u32, tuple: TupleData)
    | Update(relationId: u32, oldTuple: Option<OldTuple>, newTuple: TupleData)
    | Delete(relationId: u32, oldRow: OldTuple)
    | Truncate(relationIds: seq<u32>)

  // Big-endian integers.

  function BigEndian(v: nat, n: nat): (s: Bytes)
    ensures |s| == n
  {
    if n == 0 then [] else BigEndian(v / 256, n - 1) + [v % 256]
  }

  function FromBigEndian(s: Bytes): nat {
    if s == [] then 0 else 256 * FromBigEndian(s[..|s| - 1]) + s[|s| - 1]
  }

  function Pow256(n: nat): nat {
    if n == 0 then 1 else 256 * Pow256(n - 1)
  }

  lemma PowersOf256()
    ensures Pow256(1) == TWO8 && Pow256(2) == TWO16 && Pow256(4) == TWO32 && Pow256(8) == TWO64
  {
    assert Pow256(2) == 256 * Pow256(1);
    assert Pow256(4) == 256 * 256 * Pow256(2);
    assert Pow256(6) == 256 * 256 * Pow256(4);
    assert Pow256(8) == 256 * 256 * Pow256(6);
  }

  lemma {:induction false} BigEndianRoundTrip(v: nat, n: nat)
    requires v < Pow256(n)
    ensures FromBigEndian(BigEndian(v, n)) == v
  {
    if n > 0 {
      BigEndianRoundTrip(v / 256, n - 1);
      assert BigEndian(v, n)[..n - 1] == BigEndian(v / 256, n - 1);
    }
  }

  lemma {:induction false} FromBigEndianRoundTrip(s: Bytes)
    ensures FromBigEndian(s) < Pow256(|s|)
    ensures BigEndian(FromBigEndian(s), |s|) == s
  {
    if s != [] {
      FromBigEndianRoundTrip(s[..|s| - 1]);
      assert s == s[..|s| - 1] + [s[|s| - 1]];
    }
  }

  /** The two's complement bit pattern of a value in a word of size `modulus`. */
  function Pattern(v: int, modulus: int): nat
    requires -modulus <= 2 * v < modulus
  {
    if v < 0 then v + modulus else v
  }

  function FromPattern(p: nat, modulus: nat): int {
    if 2 * p < modulus then p else p - modulus
  }

  // Fields.

  function PutU8(v: u8, rest: Bytes): Bytes { [v] + rest }
  function PutU32(v: u32, rest: Bytes): Bytes { BigEndian(v, 4) + rest }
  function PutU64(v: u64, rest: Bytes): Bytes { BigEndian(v, 8) + rest }
  function PutI16(v: i16, rest: Bytes): Bytes { BigEndian(Pattern(v, TWO16), 2) + rest }
  function PutI32(v: i32, rest: Bytes): Bytes { BigEndian(Pattern(v, TWO32), 4) + rest }
  function PutI64(v: i64, rest: Bytes): Bytes { BigEndian(Pattern(v, TWO64), 8) + rest }
  function PutString(t: Text, rest: Bytes): Bytes { t + [0] + rest }

  const TAG_NULL: u8 := 0x6E       // 'n'
  const TAG_UNCHANGED: u8 := 0x75  // 'u'
  const TAG_TEXT: u8 := 0x74       // 't'
  const TAG_NEW: u8 := 0x4E        // 'N'
  const TAG_OLD: u8 := 0x4F        // 'O'
  const TAG_KEY: u8 := 0x4B        // 'K'

  function PutValue(v: ColumnValue, rest: Bytes): Bytes
    requires ValueFits(v)
  {
    match v
    case Null => PutU8(TAG_NULL, rest)
    case UnchangedToast => PutU8(TAG_UNCHANGED, rest)
    case Text(t) => PutU8(TAG_TEXT, PutI32(|t|, t + rest))
  }

  function PutValues(vs: TupleData, rest: Bytes): Bytes
    requires forall v <- vs :: ValueFits(v)
  {
    if vs == [] then rest else PutValue(vs[0], PutValues(vs[1..], rest))
  }

  function PutTuple(t: TupleData, rest: Bytes): Bytes
    requires TupleFits(t)
  {
    PutI16(|t|, PutValues(t, rest))
  }

  function KindTag(k: OldTupleKind): u8 {
    match k
    case Key => TAG_KEY
    case Full => TAG_OLD
  }

  function PutOldTuple(o: OldTuple, rest: Bytes): Bytes
    requires TupleFits(o.tuple)
  {
    PutU8(KindTag(o.kind), PutTuple(o.tuple, rest))
  }

  /** The rows of an UPDATE: the old one when it is sent, then the new one. */
  function PutRows(o: Option<OldTuple>, n: TupleData, rest: Bytes): Bytes
    requires (o.Some? ==> TupleFits(o.value.tuple)) && TupleFits(n)
  {
    var newRow := PutU8(TAG_NEW, PutTuple(n, rest));
    if o.Some? then PutOldTuple(o.value, newRow) else newRow
  }

  /** A RELATION column; `flags` is the byte of which only "is it 1" is kept. */
  function PutColumn(c: Column, flags: u8, rest: Bytes): Bytes {
    PutU8(flags, PutString(c.name, PutU32(c.typeOid, PutI32(c.atttypmod, rest))))
  }

  function PutColumns(cs: seq<Column>, flags: seq<u8>, rest: Bytes): Bytes
    requires |cs| == |flags|
  {
    if cs == [] then rest else PutColumn(cs[0], flags[0], PutColumns(cs[1..], flags[1..], rest))
  }

  /** A RELATION up to its columns. */
  function PutRelation(r: Relation, rest: Bytes): Bytes
    requires |r.columns| < TWO15
  {
    PutU32(r.id, PutString(r.namespace, PutString(r.name, PutU8(r.replicaIdentity, PutI16(|r.columns|, rest)))))
  }

  function PutIds(ids: seq<u32>, rest: Bytes): Bytes {
    if ids == [] then rest else PutU32(ids[0], PutIds(ids[1..], rest))
  }

  const KINDS: seq<u8> := [0x42, 0x43, 0x52, 0x49, 0x55, 0x44, 0x54]  // B C R I U D T

  function KindOf(m: Message): u8 {
    match m
    case Begin(_, _, _) => 0x42
    case Commit(_, _, _, _) => 0x43
    case RelationMsg(_) => 0x52
    case Insert(_, _) => 0x49
    case Update(_, _, _) => 0x55
    case Delete(_, _) => 0x44
    case Truncate(_) => 0x54
  }

  /**
   The bytes of message `m`. `flags` holds the bytes a Message does not keep: one for each
   column of a RELATION, one for a TRUNCATE, none otherwise.
   */
  function Encode(m: Message, flags: seq<u8>): Bytes
    requires WellFormed(m, flags)
  {
    PutU8(KindOf(m), EncodeBody(m, flags, []))
  }

  function EncodeBody(m: Message, flags: seq<u8>, rest: Bytes): Bytes
    requires WellFormed(m, flags)
  {
    match m
    case Begin(lsn, ts, xid) => PutU64(lsn, PutI64(ts, PutU32(xid, rest)))
    case Commit(f, lsn, end, ts) => PutU8(f, PutU64(lsn, PutU64(end, PutI64(ts, rest))))
    case RelationMsg(r) => PutRelation(r, PutColumns(r.columns, flags, rest))
    case Insert(id, t) => PutU32(id, PutU8(TAG_NEW, PutTuple(t, rest)))
    case Update(id, o, n) => PutU32(id, PutRows(o, n, rest))
    case Delete(id, o) => PutU32(id, PutOldTuple(o, rest))
    case Truncate(ids) => PutI32(|ids|, PutU8(flags[0], PutIds(ids, rest)))
  }

  // What fits the layout.

  /** Well-formed UTF-8: RFC 3629, section 4. */
  predicate ValidUtf8(s: Bytes) {
    if s == [] then true
    else if s[0] < 0x80 then ValidUtf8(s[1..])
    else if 0xC2 <= s[0] < 0xE0 then |s| >= 2 && Tail(s[1]) && ValidUtf8(s[2..])
    else if 0xE0 <= s[0] < 0xF0 then
      && |s| >= 3 && Tail(s[1]) && Tail(s[2])
      && (s[0] == 0xE0 ==> s[1] >= 0xA0) && (s[0] == 0xED ==> s[1] < 0xA0)
      && ValidUtf8(s[3..])
    else if 0xF0 <= s[0] < 0xF5 then
      && |s| >= 4 && Tail(s[1]) && Tail(s[2]) && Tail(s[3])
      && (s[0] == 0xF0 ==> s[1] >= 0x90) && (s[0] == 0xF4 ==> s[1] < 0x90)
      && ValidUtf8(s[4..])
    else false
  }

  predicate Tail(b: u8) {
    0x80 <= b < 0xC0
  }

  /** A null-terminated string holds no null byte. */
  predicate NameFits(t: Text) {
    0 !in t && ValidUtf8(t)
  }

  predicate ValueFits(v: ColumnValue) {
    v.Text? ==> |v.text| < TWO31 && ValidUtf8(v.text)
  }

  predicate TupleFits(t: TupleData) {
    |t| < TWO15 && forall v <- t :: ValueFits(v)
  }

  predicate ColumnFits(c: Column, flags: u8) {
    NameFits(c.name) && (c.isKey <==> flags == 1)
  }

  predicate ColumnsFit(cs: seq<Column>, flags: seq<u8>) {
    |cs| == |flags| && forall i :: 0 <= i < |cs| ==> ColumnFits(cs[i], flags[i])
  }

  predicate WellFormed(m: Message, flags: seq<u8>) {
    match m
    case Begin(_, _, _) => flags == []
    case Commit(_, _, _, _) => flags == []
    case RelationMsg(r) =>
      NameFits(r.namespace) && NameFits(r.name) && |r.columns| < TWO15 && ColumnsFit(r.columns, flags)
    case Insert(_, t) => TupleFits(t) && flags == []
    case Update(_, o, n) => (o.Some? ==> TupleFits(o.value.tuple)) && TupleFits(n) && flags == []
    case Delete(_, o) => TupleFits(o.tuple) && flags == []
    case Truncate(ids) => |ids| < TWO31 && |flags| == 1
  }

  /** `payload` is an encoding of `m`. */
  ghost predicate Encodes(payload: Bytes, m: Message) {
    exists flags :: WellFormed(m, flags) && payload == Encode(m, flags)
  }

  // No encoding is a proper prefix of another: each field determines itself and its rest.

  lemma FixedWidthUnique(v: nat, w: nat, n: nat, r: Bytes, s: Bytes)
    requires v < Pow256(n) && w < Pow256(n)
    requires BigEndian(v, n) + r == BigEndian(w, n) + s
    ensures v == w && r == s
  {
    assert BigEndian(v, n) == (BigEndian(v, n) + r)[..n] == BigEndian(w, n);
    assert r == (BigEndian(v, n) + r)[n..] == s;
    BigEndianRoundTrip(v, n);
    BigEndianRoundTrip(w, n);
  }

  lemma U8Unique(v: u8, w: u8, r: Bytes, s: Bytes)
    requires PutU8(v, r) == PutU8(w, s)
    ensures v == w && r == s
  {
    assert v == PutU8(v, r)[0];
    assert r == PutU8(v, r)[1..] == s;
  }

  lemma U32Unique(v: u32, w: u32, r: Bytes, s: Bytes)
    requires PutU32(v, r) == PutU32(w, s)
    ensures v == w && r == s
  {
    PowersOf256();
    FixedWidthUnique(v, w, 4, r, s);
  }

  lemma U64Unique(v: u64, w: u64, r: Bytes, s: Bytes)
    requires PutU64(v, r) == PutU64(w, s)
    ensures v == w && r == s
  {
    PowersOf256();
    FixedWidthUnique(v, w, 8, r, s);
  }

  lemma I16Unique(v: i16, w: i16, r: Bytes, s: Bytes)
    requires PutI16(v, r) == PutI16(w, s)
    ensures v == w && r == s
  {
    PowersOf256();
    FixedWidthUnique(Pattern(v, TWO16), Pattern(w, TWO16), 2, r, s);
  }

  lemma I32Unique(v: i32, w: i32, r: Bytes, s: Bytes)
    requires PutI32(v, r) == PutI32(w, s)
    ensures v == w && r == s
  {
    PowersOf256();
    FixedWidthUnique(Pattern(v, TWO32), Pattern(w, TWO32), 4, r, s);
  }

  lemma I64Unique(v: i64, w: i64, r: Bytes, s: Bytes)
    requires PutI64(v, r) == PutI64(w, s)
    ensures v == w && r == s
  {
    PowersOf256();
    FixedWidthUnique(Pattern(v, TWO64), Pattern(w, TWO64), 8, r, s);
  }

  lemma StringUnique(t: Text, u: Text, r: Bytes, s: Bytes)
    requires 0 !in t && 0 !in u
    requires PutString(t, r) == PutString(u, s)
    ensures t == u && r == s
  {
    var b := PutString(t, r);
    assert b[|t|] == 0 && b[|u|] == 0;
    assert forall k :: 0 <= k < |t| ==> b[k] == t[k];
    assert forall k :: 0 <= k < |u| ==> b[k] == u[k];
    assert |t| == |u|;
    assert t == b[..|t|] == u;
    assert r == b[|t| + 1..] == s;
  }

  lemma ValueUnique(v: ColumnValue, w: ColumnValue, r: Bytes, s: Bytes)
    requires ValueFits(v) && ValueFits(w)
    requires PutValue(v, r) == PutValue(w, s)
    ensures v == w && r == s
  {
    assert PutValue(v, r)[0] == PutValue(w, s)[0];
    match v {
      case Null => U8Unique(TAG_NULL, TAG_NULL, r, s);
      case UnchangedToast => U8Unique(TAG_UNCHANGED, TAG_UNCHANGED, r, s);
      case Text(t) =>
        U8Unique(TAG_TEXT, TAG_TEXT, PutI32(|t|, t + r), PutI32(|w.text|, w.text + s));
        I32Unique(|t|, |w.text|, t + r, w.text + s);
        assert t == (t + r)[..|t|] == w.text;
        assert r == (t + r)[|t|..] == s;
    }
  }

  lemma {:induction false} ValuesUnique(vs: TupleData, ws: TupleData, r: Bytes, s: Bytes)
    requires |vs| == |ws| && (forall v <- vs :: ValueFits(v)) && (forall w <- ws :: ValueFits(w))
    requires PutValues(vs, r) == PutValues(ws, s)
    ensures vs == ws && r == s
  {
    if vs != [] {
      ValueUnique(vs[0], ws[0], PutValues(vs[1..], r), PutValues(ws[1..], s));
      ValuesUnique(vs[1..], ws[1..], r, s);
      assert vs == [vs[0]] + vs[1..] && ws == [ws[0]] + ws[1..];
    }
  }

  lemma TupleUnique(t: TupleData, u: TupleData, r: Bytes, s: Bytes)
    requires TupleFits(t) && TupleFits(u)
    requires PutTuple(t, r) == PutTuple(u, s)
    ensures t == u && r == s
  {
    I16Unique(|t|, |u|, PutValues(t, r), PutValues(u, s));
    ValuesUnique(t, u, r, s);
  }

  lemma OldTupleUnique(o: OldTuple, p: OldTuple, r: Bytes, s: Bytes)
    requires TupleFits(o.tuple) && TupleFits(p.tuple)
    requires PutOldTuple(o, r) == PutOldTuple(p, s)
    ensures o == p && r == s
  {
    U8Unique(KindTag(o.kind), KindTag(p.kind), PutTuple(o.tuple, r), PutTuple(p.tuple, s));
    TupleUnique(o.tuple, p.tuple, r, s);
  }

  lemma ColumnUnique(c: Column, d: Column, f: u8, g: u8, r: Bytes, s: Bytes)
    requires ColumnFits(c, f) && ColumnFits(d, g)
    requires PutColumn(c, f, r) == PutColumn(d, g, s)
    ensures c == d && f == g && r == s
  {
    var c2, d2 := PutI32(c.atttypmod, r), PutI32(d.atttypmod, s);
    var c1, d1 := PutU32(c.typeOid, c2), PutU32(d.typeOid, d2);
    U8Unique(f, g, PutString(c.name, c1), PutString(d.name, d1));
    StringUnique(c.name, d.name, c1, d1);
    U32Unique(c.typeOid, d.typeOid, c2, d2);
    I32Unique(c.atttypmod, d.atttypmod, r, s);
  }

  lemma {:induction false} ColumnsUnique(cs: seq<Column>, ds: seq<Column>, fs: seq<u8>, gs: seq<u8>, r: Bytes, s: Bytes)
    requires |cs| == |ds| && ColumnsFit(cs, fs) && ColumnsFit(ds, gs)
    requires PutColumns(cs, fs, r) == PutColumns(ds, gs, s)
    ensures cs == ds && fs == gs && r == s
  {
    if cs != [] {
      ColumnUnique(cs[0], ds[0], fs[0], gs[0],
        PutColumns(cs[1..], fs[1..], r), PutColumns(ds[1..], gs[1..], s));
      ColumnsUnique(cs[1..], ds[1..], fs[1..], gs[1..], r, s);
      assert cs == [cs[0]] + cs[1..] && ds == [ds[0]] + ds[1..];
      assert fs == [fs[0]] + fs[1..] && gs == [gs[0]] + gs[1..];
    } else {
      assert fs == [] && gs == [];
    }
  }

  lemma {:induction false} IdsUnique(xs: seq<u32>, ys: seq<u32>, r: Bytes, s: Bytes)
    requires |xs| == |ys|
    requires PutIds(xs, r) == PutIds(ys, s)
    ensures xs == ys && r == s
  {
    if xs != [] {
      U32Unique(xs[0], ys[0], PutIds(xs[1..], r), PutIds(ys[1..], s));
      IdsUnique(xs[1..], ys[1..], r, s);
      assert xs == [xs[0]] + xs[1..] && ys == [ys[0]] + ys[1..];
    }
  }

  lemma RelationUnique(m: Relation, n: Relation, f: seq<u8>, g: seq<u8>, r: Bytes, s: Bytes)
    requires WellFormed(RelationMsg(m), f) && WellFormed(RelationMsg(n), g)
    requires EncodeBody(RelationMsg(m), f, r) == EncodeBody(RelationMsg(n), g, s)
    ensures m == n && f == g && r == s
  {
    var m5, n5 := PutColumns(m.columns, f, r), PutColumns(n.columns, g, s);
    var m4, n4 := PutI16(|m.columns|, m5), PutI16(|n.columns|, n5);
    var m3, n3 := PutU8(m.replicaIdentity, m4), PutU8(n.replicaIdentity, n4);
    var m2, n2 := PutString(m.name, m3), PutString(n.name, n3);
    U32Unique(m.id, n.id, PutString(m.namespace, m2), PutString(n.namespace, n2));
    StringUnique(m.namespace, n.namespace, m2, n2);
    StringUnique(m.name, n.name, m3, n3);
    U8Unique(m.replicaIdentity, n.replicaIdentity, m4, n4);
    I16Unique(|m.columns|, |n.columns|, m5, n5);
    ColumnsUnique(m.columns, n.columns, f, g, r, s);
  }

  lemma RowsUnique(o: Option<OldTuple>, p: Option<OldTuple>, m: TupleData, n: TupleData, r: Bytes, s: Bytes)
    requires (o.Some? ==> TupleFits(o.value.tuple)) && (p.Some? ==> TupleFits(p.value.tuple))
    requires TupleFits(m) && TupleFits(n)
    requires PutRows(o, m, r) == PutRows(p, n, s)
    ensures o == p && m == n && r == s
  {
    var mNew, nNew := PutU8(TAG_NEW, PutTuple(m, r)), PutU8(TAG_NEW, PutTuple(n, s));
    assert PutRows(o, m, r)[0] == PutRows(p, n, s)[0];
    if o.Some? {
      OldTupleUnique(o.value, p.value, mNew, nNew);
    }
    U8Unique(TAG_NEW, TAG_NEW, PutTuple(m, r), PutTuple(n, s));
    TupleUnique(m, n, r, s);
  }

  lemma BodyUnique(m: Message, n: Message, f: seq<u8>, g: seq<u8>, r: Bytes, s: Bytes)
    requires WellFormed(m, f) && WellFormed(n, g) && KindOf(m) == KindOf(n)
    requires EncodeBody(m, f, r) == EncodeBody(n, g, s)
    ensures m == n && f == g && r == s
  {
    match m {
      case Begin(lsn, ts, xid) =>
        U64Unique(lsn, n.finalLsn, PutI64(ts, PutU32(xid, r)), PutI64(n.beginTimestamp, PutU32(n.xid, s)));
        I64Unique(ts, n.beginTimestamp, PutU32(xid, r), PutU32(n.xid, s));
        U32Unique(xid, n.xid, r, s);
      case Commit(flags, lsn, end, ts) =>
        var m1, n1 := PutI64(ts, r), PutI64(n.commitTimestamp, s);
        U8Unique(flags, n.commitFlags, PutU64(lsn, PutU64(end, m1)), PutU64(n.commitLsn, PutU64(n.endLsn, n1)));
        U64Unique(lsn, n.commitLsn, PutU64(end, m1), PutU64(n.endLsn, n1));
        U64Unique(end, n.endLsn, m1, n1);
        I64Unique(ts, n.commitTimestamp, r, s);
      case RelationMsg(rel) =>
        RelationUnique(rel, n.relation, f, g, r, s);
      case Insert(id, t) =>
        U32Unique(id, n.relationId, PutU8(TAG_NEW, PutTuple(t, r)), PutU8(TAG_NEW, PutTuple(n.tuple, s)));
        U8Unique(TAG_NEW, TAG_NEW, PutTuple(t, r), PutTuple(n.tuple, s));
        TupleUnique(t, n.tuple, r, s);
      case Update(id, o, t) =>
        U32Unique(id, n.relationId, PutRows(o, t, r), PutRows(n.oldTuple, n.newTuple, s));
        RowsUnique(o, n.oldTuple, t, n.newTuple, r, s);
      case Delete(id, o) =>
        U32Unique(id, n.relationId, PutOldTuple(o, r), PutOldTuple(n.oldRow, s));
        OldTupleUnique(o, n.oldRow, r, s);
      case Truncate(ids) =>
        var m1, n1 := PutIds(ids, r), PutIds(n.relationIds, s);
        I32Unique(|ids|, |n.relationIds|, PutU8(f[0], m1), PutU8(g[0], n1));
        U8Unique(f[0], g[0], m1, n1);
        IdsUnique(ids, n.relationIds, r, s);
        assert f == [f[0]] && g == [g[0]];
    }
  }

  /** Bytes put after an encoding are the bytes that follow its last field. */
  lemma BodyAppend(m: Message, flags: seq<u8>, rest: Bytes)
    requires WellFormed(m, flags)
    ensures EncodeBody(m, flags, []) + rest == EncodeBody(m, flags, rest)
  {
    assert [] + rest == rest;
    match m {
      case Begin(lsn, ts, xid) => BeginAppend(lsn, ts, xid, rest);
      case Commit(f, lsn, end, ts) =>
        Associative(BigEndian(Pattern(ts, TWO64), 8), [], rest);
        var a := PutI64(ts, []);
        Associative(BigEndian(end, 8), a, rest);
        var b := PutU64(end, a);
        Associative(BigEndian(lsn, 8), b, rest);
        Associative([f], PutU64(lsn, b), rest);
      case RelationMsg(r) =>
        ColumnsAppend(r.columns, flags, rest);
        RelationAppend(r, PutColumns(r.columns, flags, []), rest);
      case Insert(id, t) =>
        TupleAppend(t, [], rest);
        Associative([TAG_NEW], PutTuple(t, []), rest);
        Associative(BigEndian(id, 4), PutU8(TAG_NEW, PutTuple(t, [])), rest);
      case Update(id, o, n) =>
        RowsAppend(o, n, rest);
        Associative(BigEndian(id, 4), PutRows(o, n, []), rest);
      case Delete(id, o) =>
        TupleAppend(o.tuple, [], rest);
        Associative([KindTag(o.kind)], PutTuple(o.tuple, []), rest);
        Associative(BigEndian(id, 4), PutOldTuple(o, []), rest);
      case Truncate(ids) =>
        IdsAppend(ids, rest);
        Associative([flags[0]], PutIds(ids, []), rest);
        Associative(BigEndian(Pattern(|ids|, TWO32), 4), PutU8(flags[0], PutIds(ids, [])), rest);
    }
  }

  lemma BeginAppend(lsn: Lsn, ts: i64, xid: u32, rest: Bytes)
    ensures PutU64(lsn, PutI64(ts, PutU32(xid, []))) + rest == PutU64(lsn, PutI64(ts, PutU32(xid, rest)))
  {
    assert [] + rest == rest;
    Associative(BigEndian(xid, 4), [], rest);
    var a := PutU32(xid, []);
    Associative(BigEndian(Pattern(ts, TWO64), 8), a, rest);
    Associative(BigEndian(lsn, 8), PutI64(ts, a), rest);
  }

  lemma RowsAppend(o: Option<OldTuple>, n: TupleData, rest: Bytes)
    requires (o.Some? ==> TupleFits(o.value.tuple)) && TupleFits(n)
    ensures PutRows(o, n, []) + rest == PutRows(o, n, rest)
  {
    assert [] + rest == rest;
    TupleAppend(n, [], rest);
    var newRow := PutU8(TAG_NEW, PutTuple(n, []));
    Associative([TAG_NEW], PutTuple(n, []), rest);
    if o.Some? {
      TupleAppend(o.value.tuple, newRow, rest);
      Associative([KindTag(o.value.kind)], PutTuple(o.value.tuple, newRow), rest);
    }
  }

  lemma RelationAppend(r: Relation, mid: Bytes, rest: Bytes)
    requires |r.columns| < TWO15
    ensures PutRelation(r, mid) + rest == PutRelation(r, mid + rest)
    ensures |PutRelation(r, [])| == 4 + |r.namespace| + 1 + |r.name| + 1 + 1 + 2
  {
    var a := PutI16(|r.columns|, mid);
    Associative(BigEndian(Pattern(|r.columns|, TWO16), 2), mid, rest);
    var b := PutU8(r.replicaIdentity, a);
    Associative([r.replicaIdentity], a, rest);
    var c := PutString(r.name, b);
    Associative(r.name + [0], b, rest);
    var d := PutString(r.namespace, c);
    Associative(r.namespace + [0], c, rest);
    Associative(BigEndian(r.id, 4), d, rest);
  }

  lemma Associative(a: Bytes, b: Bytes, c: Bytes)
    ensures (a + b) + c == a + (b + c)
  {
  }

  lemma TupleAppend(t: TupleData, mid: Bytes, rest: Bytes)
    requires TupleFits(t)
    ensures PutTuple(t, mid) + rest == PutTuple(t, mid + rest)
  {
    ValuesAppend(t, mid, rest);
    assert PutI16(|t|, PutValues(t, mid)) + rest == PutI16(|t|, PutValues(t, mid) + rest);
  }

  lemma {:induction false} ValuesAppend(vs: TupleData, mid: Bytes, rest: Bytes)
    requires forall v <- vs :: ValueFits(v)
    ensures PutValues(vs, mid) + rest == PutValues(vs, mid + rest)
  {
    if vs != [] {
      ValuesAppend(vs[1..], mid, rest);
      var tail := PutValues(vs[1..], mid);
      if vs[0].Text? {
        assert (vs[0].text + tail) + rest == vs[0].text + (tail + rest);
      }
      assert PutValue(vs[0], tail) + rest == PutValue(vs[0], tail + rest);
    }
  }

  lemma {:induction false} ColumnsAppend(cs: seq<Column>, flags: seq<u8>, rest: Bytes)
    requires |cs| == |flags|
    ensures PutColumns(cs, flags, []) + rest == PutColumns(cs, flags, rest)
  {
    if cs != [] {
      ColumnsAppend(cs[1..], flags[1..], rest);
    }
  }

  lemma {:induction false} IdsAppend(ids: seq<u32>, rest: Bytes)
    ensures PutIds(ids, []) + rest == PutIds(ids, rest)
  {
    if ids != [] {
      IdsAppend(ids[1..], rest);
    }
  }

  lemma EncodeAppend(m: Message, flags: seq<u8>, tail: Bytes)
    requires WellFormed(m, flags)
    ensures Encode(m, flags) + tail == PutU8(KindOf(m), EncodeBody(m, flags, tail))
  {
    BodyAppend(m, flags, tail);
    var body := EncodeBody(m, flags, []);
    assert [KindOf(m)] + body + tail == [KindOf(m)] + (body + tail);
  }

  /** Encodings are prefix-free, and one payload encodes one message with one set of flags. */
  lemma PrefixFree(m: Message, n: Message, f: seq<u8>, g: seq<u8>, tail: Bytes)
    requires WellFormed(m, f) && WellFormed(n, g)
    requires Encode(m, f) + tail == Encode(n, g)
    ensures m == n && f == g && tail == []
  {
    EncodeAppend(m, f, tail);
    U8Unique(KindOf(m), KindOf(n), EncodeBody(m, f, tail), EncodeBody(n, g, []));
    BodyUnique(m, n, f, g, tail, []);
  }

  // What decoding forgets.

  /** The flag bytes a sender uses: the key bit for a column, zero for a TRUNCATE. */
  function DefaultFlags(m: Message): seq<u8> {
    match m
    case RelationMsg(r) => seq(|r.columns|, i requires 0 <= i < |r.columns| => if r.columns[i].isKey then 1 else 0)
    case Truncate(_) => [0]
    case _ => []
  }

  /** Where the flag bytes of an encoding are. */
  function FlagOffsets(m: Message): set<nat> {
    match m
    case RelationMsg(r) => ColumnOffsets(1 + 4 + |r.namespace| + 1 + |r.name| + 1 + 1 + 2, r.columns)
    case Truncate(_) => {1 + 4}
    case _ => {}
  }

  function ColumnOffsets(at: nat, cs: seq<Column>): set<nat>
    decreases |cs|
  {
    if cs == [] then {} else {at} + ColumnOffsets(at + 1 + |cs[0].name| + 1 + 4 + 4, cs[1..])
  }

  ghost predicate SameExcept(a: Bytes, b: Bytes, offsets: set<nat>) {
    |a| == |b| && forall i: nat | i < |a| && i !in offsets :: a[i] == b[i]
  }

  /** Fronts that differ at `p` alone, and rests that differ at `offsets` alone. */
  lemma Splice(f: Bytes, g: Bytes, a: Bytes, b: Bytes, p: nat, offsets: set<nat>)
    requires SameExcept(f, g, {p}) && SameExcept(f + a, f + b, offsets)
    ensures SameExcept(f + a, g + b, {p} + offsets)
  {
    forall i: nat | i < |f + a| && i !in {p} + offsets ensures (f + a)[i] == (g + b)[i] {
      if i >= |f| {
        assert (f + a)[i] == (f + b)[i];
      }
    }
  }

  function ColumnBody(c: Column): Bytes {
    PutString(c.name, PutU32(c.typeOid, PutI32(c.atttypmod, [])))
  }

  /** The first column: its flag byte, then its body. */
  lemma FirstColumn(front: Bytes, cs: seq<Column>, f: seq<u8>)
    requires cs != [] && |cs| == |f|
    ensures front + PutColumns(cs, f, []) == front + [f[0]] + ColumnBody(cs[0]) + PutColumns(cs[1..], f[1..], [])
    ensures |ColumnBody(cs[0])| == |cs[0].name| + 1 + 4 + 4
  {
    var rest := PutColumns(cs[1..], f[1..], []);
    assert PutColumns(cs, f, []) == [f[0]] + ColumnBody(cs[0]) + rest;
    assert front + ([f[0]] + ColumnBody(cs[0]) + rest) == front + [f[0]] + ColumnBody(cs[0]) + rest;
  }

  lemma {:induction false} ColumnsSameExcept(front: Bytes, cs: seq<Column>, f: seq<u8>, g: seq<u8>)
    requires |cs| == |f| == |g|
    ensures SameExcept(front + PutColumns(cs, f, []), front + PutColumns(cs, g, []), ColumnOffsets(|front|, cs))
    decreases |cs|
  {
    hide PutColumns, ColumnBody;
    if cs == [] {
      assert f == g;
    } else {
      var frontF, frontG := front + [f[0]] + ColumnBody(cs[0]), front + [g[0]] + ColumnBody(cs[0]);
      FirstColumn(front, cs, f);
      FirstColumn(front, cs, g);
      ColumnsSameExcept(frontF, cs[1..], f[1..], g[1..]);
      Splice(frontF, frontG, PutColumns(cs[1..], f[1..], []), PutColumns(cs[1..], g[1..], []),
        |front|, ColumnOffsets(|frontF|, cs[1..]));
    }
  }

  /**
   Encoding a decoded message again with the sender's own flags gives the payload back,
   except at the flag bytes, which are all the decoder forgets.
   */
  lemma NearlyCanonical(m: Message, flags: seq<u8>)
    requires WellFormed(m, flags)
    ensures WellFormed(m, DefaultFlags(m))
    ensures SameExcept(Encode(m, flags), Encode(m, DefaultFlags(m)), FlagOffsets(m))
    ensures Encode(m, flags) == Encode(m, DefaultFlags(m)) <==> flags == DefaultFlags(m)
  {
    if Encode(m, flags) == Encode(m, DefaultFlags(m)) {
      assert Encode(m, flags) + [] == Encode(m, flags);
      PrefixFree(m, m, flags, DefaultFlags(m), []);
    }
    match m {
      case RelationMsg(r) => RelationSameExcept(r, flags, DefaultFlags(m));
      case Truncate(_) =>
      case _ => assert flags == [];
    }
  }

  lemma RelationSameExcept(r: Relation, f: seq<u8>, g: seq<u8>)
    requires WellFormed(RelationMsg(r), f) && WellFormed(RelationMsg(r), g)
    ensures SameExcept(Encode(RelationMsg(r), f), Encode(RelationMsg(r), g), FlagOffsets(RelationMsg(r)))
  {
    var front := RelationFront(r, f, g);
    ColumnsSameExcept(front, r.columns, f, g);
  }

  lemma RelationFront(r: Relation, f: seq<u8>, g: seq<u8>) returns (front: Bytes)
    requires WellFormed(RelationMsg(r), f) && WellFormed(RelationMsg(r), g)
    ensures Encode(RelationMsg(r), f) == front + PutColumns(r.columns, f, [])
    ensures Encode(RelationMsg(r), g) == front + PutColumns(r.columns, g, [])
    ensures FlagOffsets(RelationMsg(r)) == ColumnOffsets(|front|, r.columns)
  {
    var head := PutRelation(r, []);
    front := [0x52] + head;
    RelationAppend(r, [], PutColumns(r.columns, f, []));
    RelationAppend(r, [], PutColumns(r.columns, g, []));
    Associative([0x52], head, PutColumns(r.columns, f, []));
    Associative([0x52], head, PutColumns(r.columns, g, []));
    assert [] + PutColumns(r.columns, f, []) == PutColumns(r.columns, f, []);
    assert [] + PutColumns(r.columns, g, []) == PutColumns(r.columns, g, []);
  }
}
