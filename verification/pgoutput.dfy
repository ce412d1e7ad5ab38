/** The pgoutput decoder: a cursor over one payload, and the seven message kinds read from it. */
module PgOutput {
  import opened Prelude
  import opened Schema
  import opened Wire
  import opened Layout

  lemma Unterminated(bytes: Bytes)
    requires 0 !in bytes
    ensures forall t: Text, rest: Bytes :: bytes != PutString(t, rest)
  {
    forall t: Text, rest: Bytes ensures bytes != PutString(t, rest) {
      assert PutString(t, rest)[|t|] == 0;
    }
  }

  class Reader {
    const buf: Payload
    var pos: nat

    /** The cursor never leaves the buffer. */
    ghost predicate Valid()
      reads this
    {
      pos <= |buf|
    }

    ghost function Rest(): Bytes
      reads this
      requires Valid()
    {
      buf[pos..]
    }

    constructor (payload: Payload)
      ensures Valid() && Rest() == payload && buf == payload
    {
      buf, pos := payload, 0;
    }

    /** The end of what is taken is computed with a check for overflow of the machine word. */
    method Take(n: u64) returns (r: Result<Bytes>)
      requires Valid()
      modifies this
      ensures Valid()
      ensures r.Ok? <==> n <= |old(Rest())|
      ensures r.Ok? ==> |r.value| == n && old(Rest()) == r.value + Rest()
      ensures r.Err? ==> r.error == DecodeError
    {
      if pos + n >= TWO64 {
        return Err(DecodeError);
      }
      var end := pos + n;
      if end > |buf| {
        return Err(DecodeError);
      }
      var out := buf[pos..end];
      assert buf[pos..] == out + buf[end..];
      pos := end;
      return Ok(out);
    }

    method U8() returns (r: Result<u8>)
      requires Valid()
      modifies this
      ensures Valid()
      ensures r.Ok? <==> |old(Rest())| >= 1
      ensures r.Ok? ==> r.value == old(Rest())[0]
      ensures r.Ok? ==> old(Rest()) == PutU8(r.value, Rest())
      ensures forall v: u8, rest: Bytes :: old(Rest()) == PutU8(v, rest) ==> r == Ok(v) && Rest() == rest
      ensures r.Err? ==> r.error == DecodeError
    {
      var b :- Take(1);
      r := Ok(b[0]);
      forall v: u8, rest: Bytes | old(Rest()) == PutU8(v, rest) ensures v == b[0] && rest == Rest() {
        U8Unique(v, b[0], rest, Rest());
      }
    }

    method U32() returns (r: Result<u32>)
      requires Valid()
      modifies this
      ensures Valid()
      ensures r.Ok? <==> |old(Rest())| >= 4
      ensures r.Ok? ==> r.value == Word32(old(Rest()), 0)
      ensures r.Ok? ==> old(Rest()) == PutU32(r.value, Rest())
      ensures forall v: u32, rest: Bytes :: old(Rest()) == PutU32(v, rest) ==> r == Ok(v) && Rest() == rest
      ensures r.Err? ==> r.error == DecodeError
    {
      hide BigEndian, FromBigEndian, Word32;
      var b :- Take(4);
      ReadsU32(b, Rest());
      r := Ok(FromBigEndian(b));
      forall v: u32, rest: Bytes | old(Rest()) == PutU32(v, rest) ensures v == r.value && rest == Rest() {
        U32Unique(v, r.value, rest, Rest());
      }
    }

    method U64() returns (r: Result<u64>)
      requires Valid()
      modifies this
      ensures Valid()
      ensures r.Ok? <==> |old(Rest())| >= 8
      ensures r.Ok? ==> r.value == Word64(old(Rest()), 0)
      ensures r.Ok? ==> old(Rest()) == PutU64(r.value, Rest())
      ensures forall v: u64, rest: Bytes :: old(Rest()) == PutU64(v, rest) ==> r == Ok(v) && Rest() == rest
      ensures r.Err? ==> r.error == DecodeError
    {
      hide BigEndian, FromBigEndian, Word64;
      var b :- Take(8);
      ReadsU64(b, Rest());
      r := Ok(FromBigEndian(b));
      forall v: u64, rest: Bytes | old(Rest()) == PutU64(v, rest) ensures v == r.value && rest == Rest() {
        U64Unique(v, r.value, rest, Rest());
      }
    }

    method I16() returns (r: Result<i16>)
      requires Valid()
      modifies this
      ensures Valid()
      ensures r.Ok? <==> |old(Rest())| >= 2
      ensures r.Ok? ==> r.value == Signed16(old(Rest()), 0)
      ensures r.Ok? ==> old(Rest()) == PutI16(r.value, Rest())
      ensures forall v: i16, rest: Bytes :: old(Rest()) == PutI16(v, rest) ==> r == Ok(v) && Rest() == rest
      ensures r.Err? ==> r.error == DecodeError
    {
      hide BigEndian, FromBigEndian, Signed16, Pattern, FromPattern;
      var b :- Take(2);
      ReadsI16(b, Rest());
      r := Ok(FromPattern(FromBigEndian(b), TWO16));
      forall v: i16, rest: Bytes | old(Rest()) == PutI16(v, rest) ensures v == r.value && rest == Rest() {
        I16Unique(v, r.value, rest, Rest());
      }
    }

    method I32() returns (r: Result<i32>)
      requires Valid()
      modifies this
      ensures Valid()
      ensures r.Ok? <==> |old(Rest())| >= 4
      ensures r.Ok? ==> r.value == Signed32(old(Rest()), 0)
      ensures r.Ok? ==> old(Rest()) == PutI32(r.value, Rest())
      ensures forall v: i32, rest: Bytes :: old(Rest()) == PutI32(v, rest) ==> r == Ok(v) && Rest() == rest
      ensures r.Err? ==> r.error == DecodeError
    {
      hide BigEndian, FromBigEndian, Signed32, Pattern, FromPattern;
      var b :- Take(4);
      ReadsI32(b, Rest());
      r := Ok(FromPattern(FromBigEndian(b), TWO32));
      forall v: i32, rest: Bytes | old(Rest()) == PutI32(v, rest) ensures v == r.value && rest == Rest() {
        I32Unique(v, r.value, rest, Rest());
      }
    }

    method I64() returns (r: Result<i64>)
      requires Valid()
      modifies this
      ensures Valid()
      ensures r.Ok? <==> |old(Rest())| >= 8
      ensures r.Ok? ==> r.value == Signed64(old(Rest()), 0)
      ensures r.Ok? ==> old(Rest()) == PutI64(r.value, Rest())
      ensures forall v: i64, rest: Bytes :: old(Rest()) == PutI64(v, rest) ==> r == Ok(v) && Rest() == rest
      ensures r.Err? ==> r.error == DecodeError
    {
      hide BigEndian, FromBigEndian, Signed64, Pattern, FromPattern;
      var b :- Take(8);
      ReadsI64(b, Rest());
      r := Ok(FromPattern(FromBigEndian(b), TWO64));
      forall v: i64, rest: Bytes | old(Rest()) == PutI64(v, rest) ensures v == r.value && rest == Rest() {
        I64Unique(v, r.value, rest, Rest());
      }
    }

    /** Bytes up to the null terminator, which is consumed. */
    method CStr() returns (r: Result<Text>)
      requires Valid()
      modifies this
      ensures Valid()
      ensures r.Ok? ==> NameFits(r.value) && old(Rest()) == PutString(r.value, Rest())
      ensures r.Err? ==> r.error == DecodeError
      ensures forall t: Text, rest: Bytes :: NameFits(t) && old(Rest()) == PutString(t, rest) ==>
                r == Ok(t) && Rest() == rest
    {
      hide ValidUtf8;
      ghost var rest0 := Rest();
      var nul := pos;
      while nul < |buf| && buf[nul] != 0
        invariant pos <= nul <= |buf|
        invariant 0 !in buf[pos..nul]
      {
        nul := nul + 1;
      }
      if nul == |buf| {
        assert rest0 == buf[pos..nul];
        Unterminated(rest0);
        return Err(DecodeError);
      }
      var s := buf[pos..nul];
      assert rest0 == PutString(s, buf[nul + 1..]);
      forall t: Text, rest: Bytes | NameFits(t) && rest0 == PutString(t, rest) ensures t == s && rest == buf[nul + 1..] {
        StringUnique(s, t, buf[nul + 1..], rest);
      }
      if !ValidUtf8(s) {
        return Err(DecodeError);
      }
      pos := nul + 1;
      return Ok(s);
    }

    method Finish() returns (r: Result<()>)
      requires Valid()
      ensures r.Ok? <==> Rest() == []
      ensures r.Err? ==> r.error == DecodeError
    {
      if pos != |buf| {
        return Err(DecodeError);
      }
      return Ok(());
    }
  }

  method ReadValue(r: Reader) returns (res: Result<ColumnValue>)
    requires r.Valid()
    modifies r
    ensures r.Valid()
    ensures res.Ok? ==> ValueFits(res.value) && old(r.Rest()) == PutValue(res.value, r.Rest())
    ensures forall v: ColumnValue, rest: Bytes :: ValueFits(v) && old(r.Rest()) == PutValue(v, rest) ==>
            res == Ok(v) && r.Rest() == rest
    ensures res.Err? ==> res.error == DecodeError
  {
    var tag :- r.U8();
    if tag == TAG_NULL {
      res := Ok(Null);
    } else if tag == TAG_UNCHANGED {
      res := Ok(UnchangedToast);
    } else if tag == TAG_TEXT {
      var len :- r.I32();
      if len < 0 {
        return Err(DecodeError);
      }
      ghost var data := r.Rest();
      var bytes :- r.Take(len);
      assert forall t: Text, rest: Bytes | |t| == len && t + rest == data :: bytes == data[..len] == t;
      if !ValidUtf8(bytes) {
        return Err(DecodeError);
      }
      res := Ok(Text(bytes));
    } else {
      return Err(DecodeError);
    }
    forall v: ColumnValue, rest: Bytes | ValueFits(v) &&
            old(r.Rest()) == PutValue(v, rest) ensures v == res.value && rest == r.Rest() {
      ValueUnique(v, res.value, rest, r.Rest());
    }
  }

  lemma {:induction false} ValuesSnoc(vs: TupleData, v: ColumnValue, rest: Bytes)
    requires ValueFits(v) && forall w <- vs :: ValueFits(w)
    ensures PutValues(vs + [v], rest) == PutValues(vs, PutValue(v, rest))
  {
    if vs == [] {
      assert [v][1..] == [];
    } else {
      ValuesSnoc(vs[1..], v, rest);
      assert (vs + [v])[1..] == vs[1..] + [v];
    }
  }

  method ReadValues(r: Reader, n: nat) returns (res: Result<TupleData>)
    requires r.Valid()
    modifies r
    ensures r.Valid()
    ensures res.Ok? ==> |res.value| == n && forall v <- res.value :: ValueFits(v)
    ensures res.Ok? ==> old(r.Rest()) == PutValues(res.value, r.Rest())
    ensures forall vs: TupleData, rest: Bytes ::
              |vs| == n && (forall v <- vs :: ValueFits(v)) && old(r.Rest()) == PutValues(vs, rest) ==>
              res == Ok(vs) && r.Rest() == rest
    ensures res.Err? ==> res.error == DecodeError
  {
    ghost var start := r.Rest();
    ghost var fits := exists vs: TupleData, rest: Bytes ::
        |vs| == n && (forall v <- vs :: ValueFits(v)) && start == PutValues(vs, rest);
    ghost var vs: TupleData, after: Bytes := [], [];
    if fits {
      vs, after :| |vs| == n && (forall v <- vs :: ValueFits(v)) && start == PutValues(vs, after);
    }
    var columns: TupleData := [];
    var i := 0;
    while i < n
      invariant 0 <= i <= n && |columns| == i && r.Valid()
      invariant forall v <- columns :: ValueFits(v)
      invariant start == PutValues(columns, r.Rest())
      invariant fits ==> |vs| == n && r.Rest() == PutValues(vs[i..], after)
    {
      assert fits ==> vs[i..][1..] == vs[i + 1..];
      var value :- ReadValue(r);
      ValuesSnoc(columns, value, r.Rest());
      columns := columns + [value];
      i := i + 1;
    }
    res := Ok(columns);
    forall ws: TupleData, rest: Bytes
      | |ws| == n && (forall w <- ws :: ValueFits(w)) && start == PutValues(ws, rest)
      ensures ws == columns && rest == r.Rest()
    {
      ValuesUnique(ws, columns, rest, r.Rest());
    }
  }

  method ReadTuple(r: Reader) returns (res: Result<TupleData>)
    requires r.Valid()
    modifies r
    ensures r.Valid()
    ensures res.Ok? ==> TupleFits(res.value) && old(r.Rest()) == PutTuple(res.value, r.Rest())
    ensures forall t: TupleData, rest: Bytes :: TupleFits(t) && old(r.Rest()) == PutTuple(t, rest) ==>
            res == Ok(t) && r.Rest() == rest
    ensures res.Err? ==> res.error == DecodeError
  {
    var ncols :- r.I16();
    if ncols < 0 {
      return Err(DecodeError);
    }
    res := ReadValues(r, ncols);
  }

  /** The bytes ahead of the cursor were `body`, which is how `m` is written before the bytes left. */
  ghost predicate ReadAs(m: Message, body: Bytes, left: Bytes) {
    exists flags :: WellFormed(m, flags) && body == EncodeBody(m, flags, left)
  }

  lemma {:induction false} ColumnsSnoc(cs: seq<Column>, fs: seq<u8>, c: Column, f: u8, rest: Bytes)
    requires |cs| == |fs|
    ensures PutColumns(cs + [c], fs + [f], rest) == PutColumns(cs, fs, PutColumn(c, f, rest))
  {
    if cs == [] {
      assert [c][1..] == [] && [f][1..] == [];
      assert cs + [c] == [c] && fs + [f] == [f];
    } else {
      ColumnsSnoc(cs[1..], fs[1..], c, f, rest);
      assert (cs + [c])[1..] == cs[1..] + [c] && (fs + [f])[1..] == fs[1..] + [f];
    }
  }

  lemma ColumnsStep(cs: seq<Column>, fs: seq<u8>, i: nat, rest: Bytes)
    requires i < |cs| && ColumnsFit(cs, fs)
    ensures ColumnFits(cs[i], fs[i])
    ensures PutColumns(cs[i..], fs[i..], rest) == PutColumn(cs[i], fs[i], PutColumns(cs[i + 1..], fs[i + 1..], rest))
  {
    assert cs[i..][1..] == cs[i + 1..] && fs[i..][1..] == fs[i + 1..];
  }

  lemma {:induction false} IdsSnoc(ids: seq<u32>, id: u32, rest: Bytes)
    ensures PutIds(ids + [id], rest) == PutIds(ids, PutU32(id, rest))
  {
    if ids == [] {
      assert [id][1..] == [];
    } else {
      IdsSnoc(ids[1..], id, rest);
      assert (ids + [id])[1..] == ids[1..] + [id];
    }
  }

  method ReadColumn(r: Reader) returns (res: Result<Column>, ghost flags: u8)
    requires r.Valid()
    modifies r
    ensures r.Valid()
    ensures res.Ok? ==> ColumnFits(res.value, flags) && old(r.Rest()) == PutColumn(res.value, flags, r.Rest())
    ensures forall c: Column, f: u8, rest: Bytes :: ColumnFits(c, f) && old(r.Rest()) == PutColumn(c, f, rest) ==>
              res == Ok(c) && r.Rest() == rest
    ensures res.Err? ==> res.error == DecodeError
  {
    flags := 0;
    var flag :- r.U8();
    var name :- r.CStr();
    var typeOid :- r.U32();
    var atttypmod :- r.I32();
    flags := flag;
    res := Ok(Column(flag == 1, name, typeOid, atttypmod));
  }

  method ReadColumns(r: Reader, n: nat) returns (res: Result<seq<Column>>, ghost flags: seq<u8>)
    requires r.Valid()
    modifies r
    ensures r.Valid()
    ensures res.Ok? ==> |res.value| == n && ColumnsFit(res.value, flags)
    ensures res.Ok? ==> old(r.Rest()) == PutColumns(res.value, flags, r.Rest())
    ensures forall cs: seq<Column>, fs: seq<u8>, rest: Bytes ::
              |cs| == n && ColumnsFit(cs, fs) && old(r.Rest()) == PutColumns(cs, fs, rest) ==>
              res == Ok(cs) && r.Rest() == rest
    ensures res.Err? ==> res.error == DecodeError
  {
    hide ColumnFits, PutColumn;
    ghost var start := r.Rest();
    ghost var fits := exists cs: seq<Column>, fs: seq<u8>, rest: Bytes ::
        |cs| == n && ColumnsFit(cs, fs) && start == PutColumns(cs, fs, rest);
    ghost var cs: seq<Column>, fs: seq<u8>, after: Bytes := [], [], [];
    if fits {
      cs, fs, after :| |cs| == n && ColumnsFit(cs, fs) && start == PutColumns(cs, fs, after);
    }
    var columns: seq<Column> := [];
    flags := [];
    var i := 0;
    while i < n
      invariant 0 <= i <= n && |columns| == i && r.Valid()
      invariant ColumnsFit(columns, flags)
      invariant start == PutColumns(columns, flags, r.Rest())
      invariant fits ==> |cs| == |fs| == n && ColumnsFit(cs, fs) && r.Rest() == PutColumns(cs[i..], fs[i..], after)
    {
      if fits {
        ColumnsStep(cs, fs, i, after);
      }
      ghost var flag: u8;
      var column;
      column, flag := ReadColumn(r);
      if column.Err? {
        return Err(DecodeError), flags;
      }
      ColumnsSnoc(columns, flags, column.value, flag, r.Rest());
      columns, flags := columns + [column.value], flags + [flag];
      i := i + 1;
    }
    res := Ok(columns);
    OnlyColumns(columns, flags, r.Rest());
  }

  lemma OnlyColumns(cs: seq<Column>, fs: seq<u8>, rest: Bytes)
    requires ColumnsFit(cs, fs)
    ensures forall ds: seq<Column>, gs: seq<u8>, left: Bytes ::
              |ds| == |cs| && ColumnsFit(ds, gs) && PutColumns(cs, fs, rest) == PutColumns(ds, gs, left) ==>
              ds == cs && left == rest
  {
    forall ds: seq<Column>, gs: seq<u8>, left: Bytes
      | |ds| == |cs| && ColumnsFit(ds, gs) && PutColumns(cs, fs, rest) == PutColumns(ds, gs, left)
      ensures ds == cs && left == rest
    {
      ColumnsUnique(ds, cs, gs, fs, left, rest);
    }
  }

  method ReadRelation(r: Reader) returns (res: Result<Message>)
    requires r.Valid()
    modifies r
    ensures r.Valid()
    ensures res.Ok? ==> res.value.RelationMsg? && ReadAs(res.value, old(r.Rest()), r.Rest())
    ensures forall m: Message, rest: Bytes :: m.RelationMsg? && ReadAs(m, old(r.Rest()), rest) ==>
              res == Ok(m) && r.Rest() == rest
    ensures res.Err? ==> res.error == DecodeError
  {
    hide ColumnFits, ValidUtf8, PutU8, PutU32, PutI16, PutString, PutColumns;
    var id :- r.U32();
    var namespace :- r.CStr();
    var name :- r.CStr();
    var replicaIdentity :- r.U8();
    var ncols :- r.I16();
    if ncols < 0 {
      return Err(DecodeError);
    }
    ghost var flags: seq<u8>;
    var columns;
    columns, flags := ReadColumns(r, ncols);
    if columns.Err? {
      return Err(DecodeError);
    }
    var rel := Relation(id, namespace, name, replicaIdentity, columns.value);
    assert old(r.Rest()) == EncodeBody(RelationMsg(rel), flags, r.Rest());
    res := Ok(RelationMsg(rel));
  }

  method ReadRows(r: Reader) returns (res: Result<(Option<OldTuple>, TupleData)>)
    requires r.Valid()
    modifies r
    ensures r.Valid()
    ensures res.Ok? ==> (res.value.0.Some? ==> TupleFits(res.value.0.value.tuple)) && TupleFits(res.value.1)
    ensures res.Ok? ==> old(r.Rest()) == PutRows(res.value.0, res.value.1, r.Rest())
    ensures forall o: Option<OldTuple>, n: TupleData, rest: Bytes ::
              (o.Some? ==> TupleFits(o.value.tuple)) && TupleFits(n) && old(r.Rest()) == PutRows(o, n, rest) ==>
              res == Ok((o, n)) && r.Rest() == rest
    ensures res.Err? ==> res.error == DecodeError
  {
    var tag :- r.U8();
    var oldTuple: Option<OldTuple> := None;
    var newTag := TAG_NEW;
    if tag == TAG_OLD || tag == TAG_KEY {
      var tuple :- ReadTuple(r);
      oldTuple := Some(OldTuple(if tag == TAG_OLD then Full else Key, tuple));
      newTag :- r.U8();
    } else if tag != TAG_NEW {
      return Err(DecodeError);
    }
    if newTag != TAG_NEW {
      return Err(DecodeError);
    }
    var newTuple :- ReadTuple(r);
    res := Ok((oldTuple, newTuple));
    forall o: Option<OldTuple>, n: TupleData, rest: Bytes
      | (o.Some? ==> TupleFits(o.value.tuple)) && TupleFits(n) && old(r.Rest()) == PutRows(o, n, rest)
      ensures o == oldTuple && n == newTuple && rest == r.Rest()
    {
      RowsUnique(o, oldTuple, n, newTuple, rest, r.Rest());
    }
  }

  method ReadUpdate(r: Reader) returns (res: Result<Message>)
    requires r.Valid()
    modifies r
    ensures r.Valid()
    ensures res.Ok? ==> res.value.Update? && ReadAs(res.value, old(r.Rest()), r.Rest())
    ensures forall m: Message, rest: Bytes :: m.Update? && ReadAs(m, old(r.Rest()), rest) ==>
              res == Ok(m) && r.Rest() == rest
    ensures res.Err? ==> res.error == DecodeError
  {
    var relationId :- r.U32();
    var rows :- ReadRows(r);
    res := Ok(Update(relationId, rows.0, rows.1));
    assert old(r.Rest()) == EncodeBody(res.value, [], r.Rest());
  }

  method ReadDelete(r: Reader) returns (res: Result<Message>)
    requires r.Valid()
    modifies r
    ensures r.Valid()
    ensures res.Ok? ==> res.value.Delete? && ReadAs(res.value, old(r.Rest()), r.Rest())
    ensures forall m: Message, rest: Bytes :: m.Delete? && ReadAs(m, old(r.Rest()), rest) ==>
              res == Ok(m) && r.Rest() == rest
    ensures res.Err? ==> res.error == DecodeError
  {
    var relationId :- r.U32();
    var tag :- r.U8();
    if tag != TAG_KEY && tag != TAG_OLD {
      return Err(DecodeError);
    }
    var tuple :- ReadTuple(r);
    res := Ok(Delete(relationId, OldTuple(if tag == TAG_KEY then Key else Full, tuple)));
    assert old(r.Rest()) == EncodeBody(res.value, [], r.Rest());
  }

  method ReadIds(r: Reader, n: nat) returns (res: Result<seq<u32>>)
    requires r.Valid()
    modifies r
    ensures r.Valid()
    ensures res.Ok? ==> |res.value| == n && old(r.Rest()) == PutIds(res.value, r.Rest())
    ensures forall ids: seq<u32>, rest: Bytes :: |ids| == n && old(r.Rest()) == PutIds(ids, rest) ==>
              res == Ok(ids) && r.Rest() == rest
    ensures res.Err? ==> res.error == DecodeError
  {
    ghost var start := r.Rest();
    ghost var fits := exists ids: seq<u32>, rest: Bytes :: |ids| == n && start == PutIds(ids, rest);
    ghost var ids: seq<u32>, after: Bytes := [], [];
    if fits {
      ids, after :| |ids| == n && start == PutIds(ids, after);
    }
    var relationIds: seq<u32> := [];
    var i := 0;
    while i < n
      invariant 0 <= i <= n && |relationIds| == i && r.Valid()
      invariant start == PutIds(relationIds, r.Rest())
      invariant fits ==> |ids| == n && r.Rest() == PutIds(ids[i..], after)
    {
      assert fits ==> ids[i..][1..] == ids[i + 1..];
      var id :- r.U32();
      IdsSnoc(relationIds, id, r.Rest());
      relationIds := relationIds + [id];
      i := i + 1;
    }
    res := Ok(relationIds);
    forall xs: seq<u32>, rest: Bytes | |xs| == n && start == PutIds(xs, rest)
      ensures xs == relationIds && rest == r.Rest()
    {
      IdsUnique(xs, relationIds, rest, r.Rest());
    }
  }

  method ReadTruncate(r: Reader) returns (res: Result<Message>)
    requires r.Valid()
    modifies r
    ensures r.Valid()
    ensures res.Ok? ==> res.value.Truncate? && ReadAs(res.value, old(r.Rest()), r.Rest())
    ensures forall m: Message, rest: Bytes :: m.Truncate? && ReadAs(m, old(r.Rest()), rest) ==>
              res == Ok(m) && r.Rest() == rest
    ensures res.Err? ==> res.error == DecodeError
  {
    var n :- r.I32();
    if n < 0 {
      return Err(DecodeError);
    }
    var flags :- r.U8();
    var relationIds :- ReadIds(r, n);
    res := Ok(Truncate(relationIds));
    assert old(r.Rest()) == EncodeBody(res.value, [flags], r.Rest());
  }

  method ReadBegin(r: Reader) returns (res: Result<Message>)
    requires r.Valid()
    modifies r
    ensures r.Valid()
    ensures res.Ok? ==> res.value.Begin? && ReadAs(res.value, old(r.Rest()), r.Rest())
    ensures forall m: Message, rest: Bytes :: m.Begin? && ReadAs(m, old(r.Rest()), rest) ==> res == Ok(m) && r.Rest() == rest
    ensures res.Err? ==> res.error == DecodeError
  {
    var finalLsn :- r.U64();
    var timestamp :- r.I64();
    var xid :- r.U32();
    res := Ok(Begin(finalLsn, timestamp, xid));
    assert old(r.Rest()) == EncodeBody(res.value, [], r.Rest());
  }

  method ReadCommit(r: Reader) returns (res: Result<Message>)
    requires r.Valid()
    modifies r
    ensures r.Valid()
    ensures res.Ok? ==> res.value.Commit? && ReadAs(res.value, old(r.Rest()), r.Rest())
    ensures forall m: Message, rest: Bytes :: m.Commit? && ReadAs(m, old(r.Rest()), rest) ==>
              res == Ok(m) && r.Rest() == rest
    ensures res.Err? ==> res.error == DecodeError
  {
    var flags :- r.U8();
    var commitLsn :- r.U64();
    var endLsn :- r.U64();
    var timestamp :- r.I64();
    res := Ok(Commit(flags, commitLsn, endLsn, timestamp));
    assert old(r.Rest()) == EncodeBody(res.value, [], r.Rest());
  }

  method ReadInsert(r: Reader) returns (res: Result<Message>)
    requires r.Valid()
    modifies r
    ensures r.Valid()
    ensures res.Ok? ==> res.value.Insert? && ReadAs(res.value, old(r.Rest()), r.Rest())
    ensures forall m: Message, rest: Bytes :: m.Insert? && ReadAs(m, old(r.Rest()), rest) ==>
              res == Ok(m) && r.Rest() == rest
    ensures res.Err? ==> res.error == DecodeError
  {
    var relationId :- r.U32();
    var tag :- r.U8();
    if tag != TAG_NEW {
      return Err(DecodeError);
    }
    var tuple :- ReadTuple(r);
    res := Ok(Insert(relationId, tuple));
    assert old(r.Rest()) == EncodeBody(res.value, [], r.Rest());
  }

  /** The body of a message of a known kind. */
  method ReadBody(r: Reader, kind: u8) returns (res: Result<Message>)
    requires r.Valid()
    modifies r
    ensures r.Valid()
    ensures res.Ok? ==> KindOf(res.value) == kind && ReadAs(res.value, old(r.Rest()), r.Rest())
    ensures forall m: Message, rest: Bytes :: KindOf(m) == kind && ReadAs(m, old(r.Rest()), rest) ==>
            res == Ok(m) && r.Rest() == rest
    ensures res.Err? ==> res.error == if kind in KINDS then DecodeError else UnsupportedMessage(kind)
  {
    if kind == 0x42 {
      res := ReadBegin(r);
    } else if kind == 0x43 {
      res := ReadCommit(r);
    } else if kind == 0x52 {
      res := ReadRelation(r);
    } else if kind == 0x49 {
      res := ReadInsert(r);
    } else if kind == 0x55 {
      res := ReadUpdate(r);
    } else if kind == 0x44 {
      res := ReadDelete(r);
    } else if kind == 0x54 {
      res := ReadTruncate(r);
    } else {
      res := Err(UnsupportedMessage(kind));
    }
  }

  /**
   Succeeds exactly on the encodings of messages, and then returns the message encoded.
   A payload of an unknown kind is told apart from a malformed one.
   */
  method Decode(payload: Payload) returns (res: Result<Message>)
    ensures res.Ok? ==> Encodes(payload, res.value) && LaidOut(payload, res.value)
    ensures forall m :: Encodes(payload, m) ==> res == Ok(m)
    ensures forall m :: LaidOut(payload, m) ==> res == Ok(m)
    ensures forall k: u8 :: res == Err(UnsupportedMessage(k)) <==>
              payload != [] && payload[0] == k && k !in [0x42, 0x43, 0x44, 0x49, 0x52, 0x54, 0x55]
    ensures res.Err? && (payload == [] || payload[0] in [0x42, 0x43, 0x44, 0x49, 0x52, 0x54, 0x55]) ==>
              res.error == DecodeError
  {
    EncodesIffLaidOut(payload);
    var r := new Reader(payload);
    var kind :- r.U8();
    ghost var body := r.Rest();
    var message := ReadBody(r, kind);
    forall m | Encodes(payload, m)
      ensures message == Ok(m) && r.Rest() == []
    {
      var flags :| WellFormed(m, flags) && payload == Encode(m, flags);
      assert ReadAs(m, body, []);
    }
    var msg :- message;
    var _ :- r.Finish();
    ghost var flags :| WellFormed(msg, flags) && body == EncodeBody(msg, flags, []);
    assert payload == Encode(msg, flags);
    return Ok(msg);
  }

  lemma EncodesIffLaidOut(payload: Bytes)
    ensures forall m :: Encodes(payload, m) <==> LaidOut(payload, m)
  {
    forall m ensures Encodes(payload, m) <==> LaidOut(payload, m) {
      LaidOutIff(payload, m);
    }
  }

  /** A payload encodes at most one message, so Decode is a function of the payload. */
  lemma EncodesOne(payload: Bytes, m: Message, n: Message)
    requires Encodes(payload, m) && Encodes(payload, n)
    ensures m == n
  {
    var f :| WellFormed(m, f) && payload == Encode(m, f);
    var g :| WellFormed(n, g) && payload == Encode(n, g);
    assert Encode(m, f) + [] == Encode(n, g);
    PrefixFree(m, n, f, g, []);
  }

  /** No proper prefix and no proper extension of a decodable payload decodes. */
  lemma DecodablePrefixFree(payload: Bytes, tail: Bytes, m: Message, n: Message)
    requires Encodes(payload, m) && Encodes(payload + tail, n)
    ensures tail == [] && m == n
  {
    var f :| WellFormed(m, f) && payload == Encode(m, f);
    var g :| WellFormed(n, g) && payload + tail == Encode(n, g);
    PrefixFree(m, n, f, g, tail);
  }

  /** The round trip, for every message that fits the format: written with the sender's
      flags it decodes to itself, and any payload it is decoded from agrees with that
      encoding everywhere but at the flag bytes. */
  lemma DecodeOfEncode(m: Message, flags: seq<u8>, payload: Bytes)
    requires WellFormed(m, flags)
    ensures WellFormed(m, DefaultFlags(m)) && Encodes(Encode(m, DefaultFlags(m)), m)
    ensures Encodes(payload, m) ==> SameExcept(payload, Encode(m, DefaultFlags(m)), FlagOffsets(m))
  {
    NearlyCanonical(m, flags);
    if Encodes(payload, m) {
      var g :| WellFormed(m, g) && payload == Encode(m, g);
      NearlyCanonical(m, g);
    }
  }
}
