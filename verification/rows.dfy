/** Rows built from tuples: names looked up by position, NULL kept apart from "not sent". */
module Rows {
  import opened Prelude
  import opened Schema
  import opened Wire

  datatype JsonValue = JsonNull | JsonString(text: Text)

  /** An object that keeps insertion order; a repeated name overwrites its value in place. */
  type Row = seq<(Text, JsonValue)>

  function Put(row: Row, name: Text, value: JsonValue): Row {
    if row == [] then [(name, value)]
    else if row[0].0 == name then [(name, value)] + row[1..]
    else [row[0]] + Put(row[1..], name, value)
  }

  predicate HasName(row: Row, name: Text) {
    exists k :: 0 <= k < |row| && row[k].0 == name
  }

  function Json(v: ColumnValue): JsonValue
    requires !v.UnchangedToast?
  {
    if v.Text? then JsonString(v.text) else JsonNull
  }

  /** In a full tuple everything but an unchanged TOAST value was sent; in a key tuple only text. */
  predicate Sent(kind: OldTupleKind, v: ColumnValue) {
    match kind
    case Full => !v.UnchangedToast?
    case Key => v.Text?
  }

  /** The row made of the first `n` columns, in the order the insertions happen. */
  function RowOf(kind: OldTupleKind, cols: seq<Column>, vals: TupleData, n: nat): Row
    requires n <= |cols| == |vals|
  {
    if n == 0 then []
    else
      var row := RowOf(kind, cols, vals, n - 1);
      if Sent(kind, vals[n - 1]) then Put(row, cols[n - 1].name, Json(vals[n - 1])) else row
  }

  /** The names of the unchanged TOAST columns among the first `n`. */
  function UnchangedOf(cols: seq<Column>, vals: TupleData, n: nat): seq<Text>
    requires n <= |cols| == |vals|
  {
    if n == 0 then []
    else
      UnchangedOf(cols, vals, n - 1) + if vals[n - 1].UnchangedToast? then [cols[n - 1].name] else []
  }

  method CheckArity(rel: Relation, tuple: TupleData) returns (r: Result<()>)
    ensures r == if |tuple| == |rel.columns| then Ok(()) else Err(DecodeError)
  {
    if |tuple| != |rel.columns| {
      return Err(DecodeError);
    }
    return Ok(());
  }

  function FullRow(rel: Relation, tuple: TupleData): Result<(Row, seq<Text>)> {
    var n := |rel.columns|;
    if |tuple| != n then Err(DecodeError)
    else Ok((RowOf(Full, rel.columns, tuple, n), UnchangedOf(rel.columns, tuple, n)))
  }

  function KeyRow(rel: Relation, tuple: TupleData): Result<Row> {
    var n := |rel.columns|;
    if |tuple| != n then Err(DecodeError) else Ok(RowOf(Key, rel.columns, tuple, n))
  }

  method BuildFullRow(rel: Relation, tuple: TupleData) returns (r: Result<(Row, seq<Text>)>)
    ensures r == FullRow(rel, tuple)
  {
    var _ :- CheckArity(rel, tuple);
    var row: Row := [];
    var omitted: seq<Text> := [];
    for i := 0 to |tuple|
      invariant row == RowOf(Full, rel.columns, tuple, i)
      invariant omitted == UnchangedOf(rel.columns, tuple, i)
    {
      match tuple[i]
      case Text(s) => row := Put(row, rel.columns[i].name, JsonString(s));
      case Null => row := Put(row, rel.columns[i].name, JsonNull);
      case UnchangedToast => omitted := omitted + [rel.columns[i].name];
    }
    return Ok((row, omitted));
  }

  method BuildKeyRow(rel: Relation, tuple: TupleData) returns (r: Result<Row>)
    ensures r == KeyRow(rel, tuple)
  {
    var _ :- CheckArity(rel, tuple);
    var row: Row := [];
    for i := 0 to |tuple|
      invariant row == RowOf(Key, rel.columns, tuple, i)
    {
      if tuple[i].Text? {
        row := Put(row, rel.columns[i].name, JsonString(tuple[i].text));
      }
    }
    return Ok(row);
  }

  // What the rows are, when no two columns of the table share a name.

  ghost predicate DistinctNames(cols: seq<Column>) {
    forall i, j :: 0 <= i < j < |cols| ==> cols[i].name != cols[j].name
  }

  /** How many of the first `n` columns were sent. */
  function Rank(kind: OldTupleKind, vals: TupleData, n: nat): (k: nat)
    requires n <= |vals|
    ensures k <= n
  {
    if n == 0 then 0 else Rank(kind, vals, n - 1) + if Sent(kind, vals[n - 1]) then 1 else 0
  }

  /** The sent columns among the first `n`, in table order. */
  function SentPairs(kind: OldTupleKind, cols: seq<Column>, vals: TupleData, n: nat): (row: Row)
    requires n <= |cols| == |vals|
    ensures |row| == Rank(kind, vals, n)
  {
    if n == 0 then []
    else
      SentPairs(kind, cols, vals, n - 1) +
      if Sent(kind, vals[n - 1]) then [(cols[n - 1].name, Json(vals[n - 1]))] else []
  }

  lemma {:induction false} SentPairsAt(kind: OldTupleKind, cols: seq<Column>, vals: TupleData, n: nat, j: nat)
    requires j < n <= |cols| == |vals| && Sent(kind, vals[j])
    ensures Rank(kind, vals, j) < Rank(kind, vals, n)
    ensures SentPairs(kind, cols, vals, n)[Rank(kind, vals, j)] == (cols[j].name, Json(vals[j]))
  {
    if j < n - 1 {
      SentPairsAt(kind, cols, vals, n - 1, j);
    }
  }

  lemma {:induction false} LaterNameNotInRow(kind: OldTupleKind, cols: seq<Column>, vals: TupleData, n: nat, j: nat)
    requires n <= j < |cols| == |vals| && DistinctNames(cols)
    ensures !HasName(SentPairs(kind, cols, vals, n), cols[j].name)
  {
    if n > 0 {
      LaterNameNotInRow(kind, cols, vals, n - 1, j);
    }
  }

  lemma {:induction false} PutNew(row: Row, name: Text, value: JsonValue)
    requires !HasName(row, name)
    ensures Put(row, name, value) == row + [(name, value)]
  {
    if row != [] {
      assert row[0].0 != name;
      assert forall k :: 0 <= k < |row[1..]| ==> row[1..][k] == row[k + 1];
      PutNew(row[1..], name, value);
    }
  }

  /** With distinct names nothing is ever overwritten. */
  lemma {:induction false} RowIsSentPairs(kind: OldTupleKind, cols: seq<Column>, vals: TupleData, n: nat)
    requires n <= |cols| == |vals| && DistinctNames(cols)
    ensures RowOf(kind, cols, vals, n) == SentPairs(kind, cols, vals, n)
  {
    if n > 0 {
      RowIsSentPairs(kind, cols, vals, n - 1);
      if Sent(kind, vals[n - 1]) {
        var row := SentPairs(kind, cols, vals, n - 1);
        LaterNameNotInRow(kind, cols, vals, n - 1, n - 1);
        PutNew(row, cols[n - 1].name, Json(vals[n - 1]));
      }
    }
  }

  lemma {:induction false} UnchangedAt(cols: seq<Column>, vals: TupleData, n: nat, j: nat)
    requires j < n <= |cols| == |vals| && vals[j].UnchangedToast?
    ensures |UnchangedOf(cols, vals, n)| == n - Rank(Full, vals, n)
    ensures j - Rank(Full, vals, j) < n - Rank(Full, vals, n)
    ensures UnchangedOf(cols, vals, n)[j - Rank(Full, vals, j)] == cols[j].name
  {
    UnchangedLength(cols, vals, n);
    UnchangedLength(cols, vals, n - 1);
    if j < n - 1 {
      UnchangedAt(cols, vals, n - 1, j);
    }
  }

  lemma {:induction false} UnchangedLength(cols: seq<Column>, vals: TupleData, n: nat)
    requires n <= |cols| == |vals|
    ensures |UnchangedOf(cols, vals, n)| == n - Rank(Full, vals, n)
  {
    if n > 0 {
      UnchangedLength(cols, vals, n - 1);
    }
  }

  /** How many of the first `n` values are not unchanged TOAST markers. */
  function Shown(vals: TupleData, n: nat): (k: nat)
    requires n <= |vals|
    ensures k <= n
  {
    if n == 0 then 0 else if vals[n - 1] == UnchangedToast then Shown(vals, n - 1) else Shown(vals, n - 1) + 1
  }

  /** How many of the first `n` values are text. */
  function Texts(vals: TupleData, n: nat): (k: nat)
    requires n <= |vals|
    ensures k <= n
  {
    if n == 0 then 0 else if vals[n - 1].Text? then Texts(vals, n - 1) + 1 else Texts(vals, n - 1)
  }

  lemma {:induction false} RankCounts(vals: TupleData, n: nat)
    requires n <= |vals|
    ensures Rank(Full, vals, n) == Shown(vals, n) && Rank(Key, vals, n) == Texts(vals, n)
  {
    if n > 0 {
      RankCounts(vals, n - 1);
    }
  }

  /** Column `j` is in the row after the columns shown before it, its text as a string and NULL as
      null, or else in the list of unchanged columns after those; and it is not in the other one. */
  ghost predicate Placed(cols: seq<Column>, vals: TupleData, row: Row, omitted: seq<Text>, j: nat)
    requires j < |cols| == |vals|
  {
    var k := Shown(vals, j);
    match vals[j]
    case UnchangedToast => j - k < |omitted| && omitted[j - k] == cols[j].name && !HasName(row, cols[j].name)
    case Null => k < |row| && row[k] == (cols[j].name, JsonNull) && cols[j].name !in omitted
    case Text(t) => k < |row| && row[k] == (cols[j].name, JsonString(t)) && cols[j].name !in omitted
  }

  /** A full row and the list of unchanged columns part the table's columns between them. */
  ghost predicate Partition(cols: seq<Column>, vals: TupleData, row: Row, omitted: seq<Text>)
    requires |cols| == |vals|
  {
    && |row| + |omitted| == |cols|
    && forall j :: 0 <= j < |cols| ==> Placed(cols, vals, row, omitted, j)
  }

  /** A full row fails on a wrong arity alone, and otherwise parts the columns. */
  lemma FullRowPartitions(rel: Relation, tuple: TupleData)
    requires DistinctNames(rel.columns)
    ensures FullRow(rel, tuple).Ok? <==> |tuple| == |rel.columns|
    ensures FullRow(rel, tuple).Ok? ==>
              Partition(rel.columns, tuple, FullRow(rel, tuple).value.0, FullRow(rel, tuple).value.1)
  {
    if |tuple| == |rel.columns| {
      RowPartitions(rel, tuple);
    }
  }

  lemma RowPartitions(rel: Relation, tuple: TupleData)
    requires DistinctNames(rel.columns) && |tuple| == |rel.columns|
    ensures Partition(rel.columns, tuple, RowOf(Full, rel.columns, tuple, |tuple|),
                                          UnchangedOf(rel.columns, tuple, |tuple|))
  {
    var cols, n := rel.columns, |tuple|;
    RowIsSentPairs(Full, cols, tuple, n);
    UnchangedLength(cols, tuple, n);
    forall j | 0 <= j < n
      ensures Placed(cols, tuple, RowOf(Full, cols, tuple, n), UnchangedOf(cols, tuple, n), j)
    {
      ColumnIsPlaced(cols, tuple, j);
    }
  }

  lemma ColumnIsPlaced(cols: seq<Column>, vals: TupleData, j: nat)
    requires DistinctNames(cols) && j < |vals| == |cols|
    ensures Placed(cols, vals, SentPairs(Full, cols, vals, |vals|), UnchangedOf(cols, vals, |vals|), j)
  {
    RankCounts(vals, j);
    if vals[j].UnchangedToast? {
      UnchangedAt(cols, vals, |vals|, j);
      UnchangedNotInRow(cols, vals, |vals|, j);
    } else {
      SentPairsAt(Full, cols, vals, |vals|, j);
      SentNotOmitted(cols, vals, |vals|, j);
    }
  }

  lemma {:induction false} UnchangedNotInRow(cols: seq<Column>, vals: TupleData, n: nat, j: nat)
    requires DistinctNames(cols) && j < |vals| == |cols| && n <= |vals| && vals[j].UnchangedToast?
    ensures !HasName(SentPairs(Full, cols, vals, n), cols[j].name)
  {
    if n > 0 {
      UnchangedNotInRow(cols, vals, n - 1, j);
    }
  }

  lemma {:induction false} SentNotOmitted(cols: seq<Column>, vals: TupleData, n: nat, j: nat)
    requires DistinctNames(cols) && j < |vals| == |cols| && n <= |vals| && !vals[j].UnchangedToast?
    ensures cols[j].name !in UnchangedOf(cols, vals, n)
  {
    if n > 0 {
      SentNotOmitted(cols, vals, n - 1, j);
    }
  }

  /** The partition needs the names to be distinct, and nothing else: a table with a repeated
      name has a tuple whose row loses a column. */
  lemma PartitionIffDistinct(rel: Relation)
    ensures DistinctNames(rel.columns) <==>
            forall tuple: TupleData :: |tuple| == |rel.columns| ==>
              Partition(rel.columns, tuple, RowOf(Full, rel.columns, tuple, |tuple|),
                                            UnchangedOf(rel.columns, tuple, |tuple|))
  {
    var cols := rel.columns;
    if DistinctNames(cols) {
      forall tuple: TupleData | |tuple| == |cols|
        ensures Partition(cols, tuple, RowOf(Full, cols, tuple, |tuple|), UnchangedOf(cols, tuple, |tuple|))
      {
        RowPartitions(rel, tuple);
      }
    } else {
      var i, j :| 0 <= i < j < |cols| && cols[i].name == cols[j].name;
      var nulls: TupleData := seq(|cols|, _ => Null);
      RepeatedNameLosesColumn(cols, nulls, i, j, |cols|);
      NullRow(cols, nulls, |cols|, i);
      assert |RowOf(Full, cols, nulls, |nulls|)| + |UnchangedOf(cols, nulls, |nulls|)| < |cols|;
    }
  }

  lemma {:induction false} RepeatedNameLosesColumn(cols: seq<Column>, nulls: TupleData, i: nat, j: nat, n: nat)
    requires i < j < n <= |cols| == |nulls| && cols[i].name == cols[j].name
    requires forall k :: 0 <= k < |nulls| ==> nulls[k] == Null
    ensures |RowOf(Full, cols, nulls, n)| < n
  {
    assert nulls[n - 1] == Null;
    PutLength(RowOf(Full, cols, nulls, n - 1), cols[n - 1].name, JsonNull);
    if n - 1 == j {
      NullRow(cols, nulls, j, i);
    } else {
      RepeatedNameLosesColumn(cols, nulls, i, j, n - 1);
    }
  }

  lemma {:induction false} PutLength(row: Row, name: Text, value: JsonValue)
    ensures |Put(row, name, value)| == |row| + if HasName(row, name) then 0 else 1
    ensures HasName(Put(row, name, value), name)
    ensures forall other :: HasName(row, other) ==> HasName(Put(row, name, value), other)
  {
    var r := Put(row, name, value);
    if row == [] || row[0].0 == name {
      assert r[0].0 == name;
      assert forall k :: 1 <= k < |row| ==> r[k] == row[k];
    } else {
      PutLength(row[1..], name, value);
      var tail := Put(row[1..], name, value);
      assert r == [row[0]] + tail && row == [row[0]] + row[1..];
      HasNameCons(row[0], row[1..], name);
      HasNameCons(row[0], tail, name);
      forall other | HasName(row, other)
        ensures HasName(r, other)
      {
        HasNameCons(row[0], row[1..], other);
        HasNameCons(row[0], tail, other);
      }
    }
  }

  lemma HasNameCons(pair: (Text, JsonValue), row: Row, name: Text)
    ensures HasName([pair] + row, name) <==> pair.0 == name || HasName(row, name)
  {
    var r := [pair] + row;
    if pair.0 == name {
      assert r[0].0 == name;
    }
    if HasName(row, name) {
      var k :| 0 <= k < |row| && row[k].0 == name;
      assert r[k + 1].0 == name;
    }
  }

  lemma {:induction false} NullRow(cols: seq<Column>, nulls: TupleData, n: nat, i: nat)
    requires i < n <= |cols| == |nulls|
    requires forall k :: 0 <= k < |nulls| ==> nulls[k] == Null
    ensures |RowOf(Full, cols, nulls, n)| <= n && HasName(RowOf(Full, cols, nulls, n), cols[i].name)
    ensures UnchangedOf(cols, nulls, n) == []
  {
    assert nulls[n - 1] == Null;
    PutLength(RowOf(Full, cols, nulls, n - 1), cols[n - 1].name, JsonNull);
    if n == 1 {
      assert UnchangedOf(cols, nulls, 0) == [];
    } else {
      NullRow(cols, nulls, n - 1, if i < n - 1 then i else 0);
    }
  }

  /** Nothing is listed as unchanged exactly when no value is an unchanged TOAST marker. */
  lemma {:induction false} NoneUnchanged(cols: seq<Column>, vals: TupleData, n: nat)
    requires n <= |cols| == |vals|
    ensures UnchangedOf(cols, vals, n) == [] <==> forall j :: 0 <= j < n ==> !vals[j].UnchangedToast?
  {
    if n > 0 {
      NoneUnchanged(cols, vals, n - 1);
    }
  }

  // Key rows.

  /** The pair is column `j` with its text. */
  ghost predicate IsText(cols: seq<Column>, vals: TupleData, pair: (Text, JsonValue), j: nat) {
    j < |cols| == |vals| && vals[j].Text? && pair == (cols[j].name, JsonString(vals[j].text))
  }

  ghost predicate IsSomeText(cols: seq<Column>, vals: TupleData, pair: (Text, JsonValue)) {
    exists j: nat :: IsText(cols, vals, pair, j)
  }

  /** Column `j` is named in the row exactly when it has a text, and then it is there with the text,
      after the texts before it. */
  ghost predicate TextInPlace(cols: seq<Column>, vals: TupleData, row: Row, j: nat)
    requires j < |cols| == |vals|
  {
    && (HasName(row, cols[j].name) <==> vals[j].Text?)
    && (vals[j].Text? ==> Texts(vals, j) < |row| && IsText(cols, vals, row[Texts(vals, j)], j))
  }

  /** The row names exactly the columns with a text, holds nothing but those texts, and holds them
      in table order. */
  ghost predicate TextsOnly(cols: seq<Column>, vals: TupleData, row: Row)
    requires |cols| == |vals|
  {
    && (forall k :: 0 <= k < |row| ==> IsSomeText(cols, vals, row[k]))
    && (forall j :: 0 <= j < |cols| ==> TextInPlace(cols, vals, row, j))
  }

  lemma {:induction false} KeyPairAt(cols: seq<Column>, vals: TupleData, n: nat, k: nat)
    requires n <= |cols| == |vals| && k < Rank(Key, vals, n)
    ensures IsSomeText(cols, vals, SentPairs(Key, cols, vals, n)[k])
  {
    var row := SentPairs(Key, cols, vals, n);
    if k < Rank(Key, vals, n - 1) {
      KeyPairAt(cols, vals, n - 1, k);
      assert row[k] == SentPairs(Key, cols, vals, n - 1)[k];
    } else {
      assert IsText(cols, vals, row[k], n - 1);
    }
  }

  lemma KeyPairsAreTexts(cols: seq<Column>, vals: TupleData)
    requires DistinctNames(cols) && |cols| == |vals|
    ensures TextsOnly(cols, vals, SentPairs(Key, cols, vals, |vals|))
  {
    hide Sent, SentPairs, IsSomeText, TextInPlace, DistinctNames;
    var row := SentPairs(Key, cols, vals, |vals|);
    forall k | 0 <= k < |row| ensures IsSomeText(cols, vals, row[k]) {
      KeyPairAt(cols, vals, |vals|, k);
    }
    forall j | 0 <= j < |cols| ensures TextInPlace(cols, vals, row, j) {
      TextIsInPlace(cols, vals, j);
    }
  }

  lemma NamedIsText(cols: seq<Column>, vals: TupleData, j: nat)
    requires DistinctNames(cols) && j < |cols| == |vals|
    requires HasName(SentPairs(Key, cols, vals, |vals|), cols[j].name)
    ensures vals[j].Text?
  {
    hide Sent, SentPairs, Rank;
    var row := SentPairs(Key, cols, vals, |vals|);
    var k :| 0 <= k < |row| && row[k].0 == cols[j].name;
    KeyPairAt(cols, vals, |vals|, k);
    var i: nat :| IsText(cols, vals, row[k], i);
    assert i == j;
  }

  lemma TextIsInPlace(cols: seq<Column>, vals: TupleData, j: nat)
    requires DistinctNames(cols) && j < |cols| == |vals|
    ensures TextInPlace(cols, vals, SentPairs(Key, cols, vals, |vals|), j)
  {
    hide DistinctNames, SentPairs;
    RankCounts(vals, j);
    if vals[j].Text? {
      SentPairsAt(Key, cols, vals, |vals|, j);
    }
    if HasName(SentPairs(Key, cols, vals, |vals|), cols[j].name) {
      NamedIsText(cols, vals, j);
    }
  }

  /** A key row fails on a wrong arity alone, and otherwise is exactly the texts that were sent. */
  lemma KeyRowIsSentText(rel: Relation, tuple: TupleData)
    requires DistinctNames(rel.columns)
    ensures KeyRow(rel, tuple).Ok? <==> |tuple| == |rel.columns|
    ensures KeyRow(rel, tuple).Ok? ==> TextsOnly(rel.columns, tuple, KeyRow(rel, tuple).value)
  {
    if |tuple| == |rel.columns| {
      RowIsSentPairs(Key, rel.columns, tuple, |tuple|);
      KeyPairsAreTexts(rel.columns, tuple);
    }
  }

  // Repeated names.

  /** An insertion sets the value of its name, in place if the name is there already and at the end
      if not, and touches no other pair. */
  lemma {:induction false} PutSets(row: Row, name: Text, value: JsonValue)
    ensures var after := Put(row, name, value);
            && |after| == (if HasName(row, name) then |row| else |row| + 1)
            && (!HasName(row, name) ==> after == row + [(name, value)])
            && (forall k :: 0 <= k < |row| ==> after[k].0 == row[k].0 && (row[k].0 != name ==> after[k] == row[k]))
            && exists k :: 0 <= k < |after| && after[k] == (name, value)
  {
    if row == [] {
      assert Put(row, name, value)[0] == (name, value);
    } else if row[0].0 == name {
      assert Put(row, name, value)[0] == (name, value);
    } else {
      PutSets(row[1..], name, value);
      HasNameCons(row[0], row[1..], name);
      assert row == [row[0]] + row[1..];
      var rest := Put(row[1..], name, value);
      var k :| 0 <= k < |rest| && rest[k] == (name, value);
      assert Put(row, name, value)[k + 1] == (name, value);
    }
  }
}
