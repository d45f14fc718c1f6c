/** What PostgreSQL gives back for a copied row, and when verification then succeeds
    (scripts/migrate-sqlite-to-postgres.ts, lines 125-140 and 322-337). */
module CopiedRows {
  import opened JsonNumbers
  import opened JsonText
  import opened JsonEquality
  import opened JsonWriting
  import opened StableText
  import opened RowCanonical
  import TableChecksum

  // ----- One value -----

  /** What PostgreSQL and its client return for a parameter that was stored: a boolean as sent, JSON
      as some text of the same value, a number in one of the spellings of its type, which keeps
      a spelling of its own, and in a text column the text of whatever was sent. */
  ghost predicate Returns(e: Engine, column: Column, sent: Js, back: Js) {
    if sent.Nil? then back.Nil?
    else
      match column
      case BooleanColumn => back == sent
      case JsonColumn =>
        sent.Str? && IsJsonText(sent.text) ==>
          back.Str? && IsJsonText(back.text) && ValueOfText(back.text) == ValueOfText(sent.text)
      case NumericColumn(prints) =>
        && (back.Str? || back.Num?) && prints(StringOf(e, back))
        && (prints(StringOf(e, sent)) ==> StringOf(e, back) == StringOf(e, sent))
      case OtherColumn => back == Str(StringOf(e, sent))
  }

  /** The source values that keep their form: in a text column no number, boolean or blob with
      content, in a numeric column nothing that its type would respell. */
  predicate KeepsForm(e: Engine, column: Column, v: Js) {
    match column
    case BooleanColumn => true
    case JsonColumn => true
    case NumericColumn(prints) => v.Nil? || prints(StringOf(e, v))
    case OtherColumn => v.Nil? || v.BigInt? || v.Str? || v == Bytes([])
  }

  /** A measure of forms that a copy never raises, and lowers exactly when it changes the form. */
  function Weight(e: Engine, column: Column, cell: Cell): nat {
    match column
    case BooleanColumn => 0
    case JsonColumn => 0
    case NumericColumn(prints) => if cell.CText? && !prints(cell.text) then 1 else 0
    case OtherColumn =>
      match cell
      case CNull => 10
      case CNumber(Infinite(_)) => 10
      case CNumber(Finite(x)) => |NumberText(e.spell(x))| + 1
      case CBool(_) => 6
      case CText(text) => |text|
      case CJson(_) => 0
  }

  lemma SentWhenConvertible(e: Engine, v: Js, column: Column)
    requires Standard(e) && Canonical(e, v, column).Gives?
    ensures ToPostgresValue(e, v, column).Gives? && (ToPostgresValue(e, v, column).value.Nil? <==> v.Nil?)
  {
  }

  lemma {:induction false} HexLength(bytes: seq<nat>)
    ensures |HexOf(bytes)| == 2 * |bytes|
  {
    if bytes != [] {
      HexLength(bytes[1..]);
    }
  }

  lemma JsonSurvives(e: Engine, v: Js, back: Js)
    requires Standard(e) && Canonical(e, v, JsonColumn).Gives?
    requires Returns(e, JsonColumn, ToPostgresValue(e, v, JsonColumn).value, back)
    ensures Canonical(e, back, JsonColumn) == Canonical(e, v, JsonColumn)
  {
    if !v.Nil? {
      JsonCellIs(e, v);
      var text := JsonSource(e, v).value;
      assert ToPostgresValue(e, v, JsonColumn).value == Str(text);
      CanonicalTextIs(e, back.text);
      TokenizedIffJson(back.text);
      SameCanonicalIffSameValue(text, back.text);
    }
  }

  /** A value that has a canonical form can be sent. What comes back has a form too: never a
      heavier one, and exactly for the values that keep their form the same. */
  lemma CanonicalSurvives(e: Engine, v: Js, column: Column, back: Js)
    requires Standard(e) && Canonical(e, v, column).Gives?
    requires ToPostgresValue(e, v, column).Gives? ==> Returns(e, column, ToPostgresValue(e, v, column).value, back)
    ensures ToPostgresValue(e, v, column).Gives? && Canonical(e, back, column).Gives?
    ensures var was, now := Canonical(e, v, column).value, Canonical(e, back, column).value;
            && (WrittenAlike(was, now) <==> KeepsForm(e, column, v))
            && (KeepsForm(e, column, v) ==> was == now)
            && Weight(e, column, now) <= Weight(e, column, was)
            && (Weight(e, column, now) == Weight(e, column, was) <==> KeepsForm(e, column, v))
  {
    SentWhenConvertible(e, v, column);
    match column
    case JsonColumn => JsonSurvives(e, v, back);
    case BooleanColumn =>
    case NumericColumn(_) => hide IntUnits, NumberText;
    case OtherColumn => TextSurvives(e, v, back);
  }

  lemma TextSurvives(e: Engine, v: Js, back: Js)
    requires Standard(e) && Canonical(e, v, OtherColumn).Gives?
    requires Returns(e, OtherColumn, ToPostgresValue(e, v, OtherColumn).value, back)
    ensures Canonical(e, back, OtherColumn).Gives?
    ensures var was, now := Canonical(e, v, OtherColumn).value, Canonical(e, back, OtherColumn).value;
            && (WrittenAlike(was, now) <==> KeepsForm(e, OtherColumn, v))
            && (KeepsForm(e, OtherColumn, v) ==> was == now)
            && Weight(e, OtherColumn, now) <= Weight(e, OtherColumn, was)
            && (Weight(e, OtherColumn, now) == Weight(e, OtherColumn, was) <==> KeepsForm(e, OtherColumn, v))
  {
    hide IntUnits, NumberText;
    if v.Bytes? {
      HexLength(v.bytes);
    }
  }

  lemma AlikeWeighAlike(e: Engine, column: Column, c: Cell, d: Cell)
    requires WrittenAlike(c, d)
    ensures Weight(e, column, c) == Weight(e, column, d)
  {
  }

  // ----- One row -----

  /** How PostgreSQL returns a whole row of parameters. */
  ghost predicate ReturnsRow(e: Engine, columns: seq<Column>, sent: Row, back: Row) {
    && |sent| == |back| == |columns|
    && forall i | 0 <= i < |columns| :: Returns(e, columns[i], sent[i], back[i])
  }

  predicate RowKeepsForm(e: Engine, columns: seq<Column>, row: Row) {
    |row| == |columns| && forall i | 0 <= i < |columns| :: KeepsForm(e, columns[i], row[i])
  }

  function CellsWeight(e: Engine, columns: seq<Column>, cells: seq<Cell>): nat
    requires |columns| == |cells|
  {
    if columns == [] then 0
    else Weight(e, columns[0], cells[0]) + CellsWeight(e, columns[1..], cells[1..])
  }

  lemma {:induction false} CellsWeighLess(e: Engine, columns: seq<Column>, was: seq<Cell>, now: seq<Cell>)
    requires |columns| == |was| == |now|
    requires forall i | 0 <= i < |columns| :: Weight(e, columns[i], now[i]) <= Weight(e, columns[i], was[i])
    ensures CellsWeight(e, columns, now) <= CellsWeight(e, columns, was)
    ensures CellsWeight(e, columns, now) == CellsWeight(e, columns, was) <==>
            forall i | 0 <= i < |columns| :: Weight(e, columns[i], now[i]) == Weight(e, columns[i], was[i])
  {
    hide Weight;
    if columns != [] {
      CellsWeighLess(e, columns[1..], was[1..], now[1..]);
      assert Weight(e, columns[0], now[0]) <= Weight(e, columns[0], was[0]);
      assert forall i | 0 <= i < |columns| :: i == 0 || columns[i] == columns[1..][i - 1];
      if forall i | 0 <= i < |columns| - 1 ::
          Weight(e, columns[1..][i], now[1..][i]) == Weight(e, columns[1..][i], was[1..][i]) {
        assert forall i | 1 <= i < |columns| ::
            Weight(e, columns[i], now[i]) == Weight(e, columns[1..][i - 1], now[1..][i - 1]);
      }
    }
  }

  /** What comes back for a row converts, is never heavier, and is serialized as its source row
      exactly when every value of the source row keeps its form. */
  lemma RowSurvives(e: Engine, columns: seq<Column>, row: Row, back: Row)
    requires Standard(e) && Convertible(e, columns, row) && ReturnsRow(e, columns, SentRow(e, columns, row), back)
    ensures Convertible(e, columns, back)
    ensures SerialRow(e, columns, back) == SerialRow(e, columns, row) <==> RowKeepsForm(e, columns, row)
    ensures RowWeight(e, columns, back) <= RowWeight(e, columns, row)
    ensures RowWeight(e, columns, back) == RowWeight(e, columns, row) <==> RowKeepsForm(e, columns, row)
  {
    hide Canonical, ToPostgresValue, Returns, KeepsForm, Standard, Stable, Weight, WrittenAlike, CellsWeight;
    forall i | 0 <= i < |columns|
      ensures Canonical(e, back[i], columns[i]).Gives?
      ensures var was, now := Canonical(e, row[i], columns[i]).value, Canonical(e, back[i], columns[i]).value;
              && (WrittenAlike(now, was) <==> KeepsForm(e, columns[i], row[i]))
              && Weight(e, columns[i], now) <= Weight(e, columns[i], was)
              && (Weight(e, columns[i], now) == Weight(e, columns[i], was) <==> KeepsForm(e, columns[i], row[i]))
    {
      assert ToPostgresValue(e, row[i], columns[i]).Gives? ==>
               SentRow(e, columns, row)[i] == ToPostgresValue(e, row[i], columns[i]).value;
      assert Returns(e, columns[i], SentRow(e, columns, row)[i], back[i]);
      CanonicalSurvives(e, row[i], columns[i], back[i]);
      AlikeSymmetric(Canonical(e, row[i], columns[i]).value, Canonical(e, back[i], columns[i]).value);
    }
    StandardSpelling(e);
    RowsWrittenAlikeIff(CanonicalRow(e, columns, back), CanonicalRow(e, columns, row), e.spell);
    CellsWeighLess(e, columns, CanonicalRow(e, columns, row), CanonicalRow(e, columns, back));
  }

  lemma AlikeSymmetric(c: Cell, d: Cell)
    ensures WrittenAlike(c, d) <==> WrittenAlike(d, c)
  {
  }

  function RowWeight(e: Engine, columns: seq<Column>, row: Row): nat {
    if Convertible(e, columns, row) then CellsWeight(e, columns, CanonicalRow(e, columns, row)) else 0
  }

  lemma {:induction false} CellsWeighAlike(e: Engine, columns: seq<Column>, c: seq<Cell>, d: seq<Cell>)
    requires |columns| == |c| && CellsAlike(c, d)
    ensures CellsWeight(e, columns, c) == CellsWeight(e, columns, d)
  {
    hide Weight, WrittenAlike;
    if columns != [] {
      assert WrittenAlike(c[0], d[0]);
      AlikeWeighAlike(e, columns[0], c[0], d[0]);
      assert forall i | 0 <= i < |c| - 1 ::
          WrittenAlike(c[i + 1], d[i + 1]) && c[1..][i] == c[i + 1] && d[1..][i] == d[i + 1];
      CellsWeighAlike(e, columns[1..], c[1..], d[1..]);
    }
  }

  lemma SameTextSameRowWeight(e: Engine, columns: seq<Column>, a: Row, b: Row)
    requires Standard(e) && Convertible(e, columns, a) && Convertible(e, columns, b)
    requires SerialRow(e, columns, a) == SerialRow(e, columns, b)
    ensures RowWeight(e, columns, a) == RowWeight(e, columns, b)
  {
    hide Canonical, Standard, Stable, CellsWeight;
    StandardSpelling(e);
    RowsWrittenAlikeIff(CanonicalRow(e, columns, a), CanonicalRow(e, columns, b), e.spell);
    CellsWeighAlike(e, columns, CanonicalRow(e, columns, a), CanonicalRow(e, columns, b));
  }

  // ----- One table -----

  predicate AllConvert(e: Engine, columns: seq<Column>, rows: seq<Row>) {
    forall i | 0 <= i < |rows| :: Convertible(e, columns, rows[i])
  }

  predicate AllKeepForm(e: Engine, columns: seq<Column>, rows: seq<Row>) {
    forall i | 0 <= i < |rows| :: RowKeepsForm(e, columns, rows[i])
  }

  /** What PostgreSQL returns for every row of a table. */
  ghost predicate ReturnsRows(e: Engine, columns: seq<Column>, rows: seq<Row>, backs: seq<Row>) {
    && |rows| == |backs|
    && forall i | 0 <= i < |rows| :: ReturnsRow(e, columns, SentRow(e, columns, rows[i]), backs[i])
  }

  function TableWeight(e: Engine, columns: seq<Column>, rows: seq<Row>): nat {
    if rows == [] then 0
    else TableWeight(e, columns, rows[..|rows| - 1]) + RowWeight(e, columns, rows[|rows| - 1])
  }

  lemma {:induction false} TableWeighsLess(e: Engine, columns: seq<Column>, rows: seq<Row>, backs: seq<Row>)
    requires Standard(e) && AllConvert(e, columns, rows) && ReturnsRows(e, columns, rows, backs)
    ensures TableWeight(e, columns, backs) <= TableWeight(e, columns, rows)
    ensures TableWeight(e, columns, backs) == TableWeight(e, columns, rows) ==> AllKeepForm(e, columns, rows)
    decreases |rows|
  {
    hide Standard, Convertible, ReturnsRow, RowKeepsForm, RowWeight, SentRow, SerialRow;
    if rows != [] {
      var n := |rows| - 1;
      TableWeighsLess(e, columns, rows[..n], backs[..n]);
      RowSurvives(e, columns, rows[n], backs[n]);
    }
  }

  // ----- Verification -----

  lemma WithoutOne<T>(s: seq<T>, i: nat)
    requires i < |s|
    ensures multiset(s[..i] + s[i + 1..]) == multiset(s) - multiset{s[i]}
    ensures multiset(s) == multiset(s[..i] + s[i + 1..]) + multiset{s[i]}
  {
    assert s == s[..i] + ([s[i]] + s[i + 1..]);
  }

  lemma SerializedRest(e: Engine, columns: seq<Column>, rows: seq<Row>, i: nat)
    requires i < |rows|
    ensures Serialized(e, columns, rows[..i] + rows[i + 1..]) ==
            Serialized(e, columns, rows)[..i] + Serialized(e, columns, rows)[i + 1..]
  {
    hide SerialRow;
  }

  lemma SerializedWithout(e: Engine, columns: seq<Column>, rows: seq<Row>, i: nat)
    requires i < |rows|
    ensures multiset(Serialized(e, columns, rows)) ==
            multiset(Serialized(e, columns, rows[..i] + rows[i + 1..])) + multiset{SerialRow(e, columns, rows[i])}
    ensures multiset(rows[..i] + rows[i + 1..]) == multiset(rows) - multiset{rows[i]}
  {
    hide SerialRow;
    SerializedRest(e, columns, rows, i);
    assert Serialized(e, columns, rows)[i] == SerialRow(e, columns, rows[i]);
    hide Serialized;
    WithoutOne(rows, i);
    WithoutOne(Serialized(e, columns, rows), i);
  }

  lemma SameElement<T>(a: seq<T>, b: seq<T>) returns (i: nat)
    requires a != [] && multiset(a) == multiset(b)
    ensures i < |b| && b[i] == a[0]
  {
    assert a[0] in multiset(b);
    i :| 0 <= i < |b| && b[i] == a[0];
  }

  /** Fetching rows in another order serializes the same texts in another order. */
  lemma {:induction false} SerializedPermuted(e: Engine, columns: seq<Column>, a: seq<Row>, b: seq<Row>)
    requires multiset(a) == multiset(b)
    ensures multiset(Serialized(e, columns, a)) == multiset(Serialized(e, columns, b))
    decreases |a|
  {
    hide SerialRow, Serialized;
    if a == [] {
      assert |multiset(b)| == 0;
    } else {
      var i := SameElement(a, b);
      SerializedWithout(e, columns, a, 0);
      SerializedWithout(e, columns, b, i);
      SerializedPermuted(e, columns, a[..0] + a[1..], b[..i] + b[i + 1..]);
    }
  }

  // ----- When a copied table verifies -----

  lemma {:induction false} TableWeightWithout(e: Engine, columns: seq<Column>, rows: seq<Row>, i: nat)
    requires i < |rows|
    ensures TableWeight(e, columns, rows) ==
            TableWeight(e, columns, rows[..i] + rows[i + 1..]) + RowWeight(e, columns, rows[i])
    decreases |rows|
  {
    hide RowWeight;
    var n := |rows| - 1;
    var rest := rows[..i] + rows[i + 1..];
    if i == n {
      assert rest == rows[..n];
    } else {
      assert rest[..n - 1] == rows[..n][..i] + rows[..n][i + 1..] && rest[n - 1] == rows[n];
      TableWeightWithout(e, columns, rows[..n], i);
    }
  }

  lemma SameFirst<T>(a: seq<T>, b: seq<T>) returns (i: nat)
    requires a != [] && multiset(a) == multiset(b)
    ensures i < |b| && b[i] == a[0]
    ensures multiset(a[..0] + a[1..]) == multiset(b[..i] + b[i + 1..])
  {
    i := SameElement(a, b);
    WithoutOne(a, 0);
    WithoutOne(b, i);
  }

  /** Tables whose rows are serialized alike, in whatever order, weigh the same. */
  lemma {:induction false} SameTextsSameWeight(e: Engine, columns: seq<Column>, a: seq<Row>, b: seq<Row>)
    requires Standard(e) && AllConvert(e, columns, a) && AllConvert(e, columns, b)
    requires multiset(Serialized(e, columns, a)) == multiset(Serialized(e, columns, b))
    ensures TableWeight(e, columns, a) == TableWeight(e, columns, b)
    decreases |a|
  {
    hide Standard, Convertible, RowWeight, SerialRow, Serialized, TableWeight;
    assert |a| == |multiset(Serialized(e, columns, a))| && |b| == |multiset(Serialized(e, columns, b))|;
    if a != [] {
      var i := SameFirst(Serialized(e, columns, a), Serialized(e, columns, b));
      SerializedRest(e, columns, a, 0);
      SerializedRest(e, columns, b, i);
      SameTextsSameWeight(e, columns, a[..0] + a[1..], b[..i] + b[i + 1..]);
      TableWeightWithout(e, columns, a, 0);
      TableWeightWithout(e, columns, b, i);
      SameTextSameRowWeight(e, columns, a[0], b[i]);
    } else {
      assert a == b;
    }
  }

  lemma BacksConvert(e: Engine, columns: seq<Column>, rows: seq<Row>, backs: seq<Row>)
    requires Standard(e) && AllConvert(e, columns, rows) && ReturnsRows(e, columns, rows, backs)
    ensures AllConvert(e, columns, backs)
    ensures AllKeepForm(e, columns, rows) ==> Serialized(e, columns, backs) == Serialized(e, columns, rows)
  {
    hide Standard, Convertible, ReturnsRow, RowKeepsForm, RowWeight, SentRow, SerialRow;
    forall i | 0 <= i < |rows|
      ensures Convertible(e, columns, backs[i])
      ensures RowKeepsForm(e, columns, rows[i]) ==> SerialRow(e, columns, backs[i]) == SerialRow(e, columns, rows[i])
    {
      RowSurvives(e, columns, rows[i], backs[i]);
    }
    if AllKeepForm(e, columns, rows) {
      assert forall i | 0 <= i < |rows| :: Serialized(e, columns, backs)[i] == Serialized(e, columns, rows)[i];
    }
  }

  /** The rows of a copy are serialized as those of the source, in whatever order, exactly when
      every source value keeps its form. */
  lemma CopiedTextsIff(e: Engine, columns: seq<Column>, rows: seq<Row>, backs: seq<Row>)
    requires Standard(e) && AllConvert(e, columns, rows) && ReturnsRows(e, columns, rows, backs)
    ensures multiset(Serialized(e, columns, backs)) == multiset(Serialized(e, columns, rows)) <==>
              AllKeepForm(e, columns, rows)
  {
    hide Standard, AllConvert, ReturnsRows, AllKeepForm, Serialized, TableWeight;
    BacksConvert(e, columns, rows, backs);
    if multiset(Serialized(e, columns, backs)) == multiset(Serialized(e, columns, rows)) {
      SameTextsSameWeight(e, columns, backs, rows);
      TableWeighsLess(e, columns, rows, backs);
    }
  }

  /** A copied table verifies, in any fetch order, when every source value keeps its form: when no
      text column holds a number, a boolean or a blob with content, and no numeric column a
      number its type would respell. It verifies only then, unless the checksum takes the
      two lists of rows for the same. */
  lemma CopiedTableVerifiesIff(hash: TableChecksum.Hash, e: Engine, columns: seq<Column>,
                               rows: seq<Row>, backs: seq<Row>, fetched: seq<Row>)
    requires Standard(e) && AllConvert(e, columns, rows) && ReturnsRows(e, columns, rows, backs)
    requires multiset(fetched) == multiset(backs)
    ensures AllKeepForm(e, columns, rows) ==>
              TableChecksum.Verified(hash, Serialized(e, columns, rows), Serialized(e, columns, fetched))
    ensures TableChecksum.Separates(hash, Serialized(e, columns, rows), Serialized(e, columns, fetched)) ==>
              (TableChecksum.Verified(hash, Serialized(e, columns, rows), Serialized(e, columns, fetched)) <==>
               AllKeepForm(e, columns, rows))
  {
    hide *;
    CopiedTextsIff(e, columns, rows, backs);
    SerializedPermuted(e, columns, fetched, backs);
    TableChecksum.SeparatedVerifyIff(hash, Serialized(e, columns, rows), Serialized(e, columns, fetched));
  }

  /** With only one row whose values do not keep their form, verification fails exactly when the
      hash tells that row from what came back for it. */
  lemma OneRowNoticedIff(hash: TableChecksum.Hash, e: Engine, columns: seq<Column>,
                         rows: seq<Row>, backs: seq<Row>, k: nat, fetched: seq<Row>)
    requires Standard(e) && AllConvert(e, columns, rows) && ReturnsRows(e, columns, rows, backs)
    requires k < |rows| && !RowKeepsForm(e, columns, rows[k])
    requires forall i | 0 <= i < |rows| && i != k :: RowKeepsForm(e, columns, rows[i])
    requires multiset(fetched) == multiset(backs)
    ensures SerialRow(e, columns, backs[k]) != SerialRow(e, columns, rows[k])
    ensures TableChecksum.Verified(hash, Serialized(e, columns, rows), Serialized(e, columns, fetched)) <==>
            TableChecksum.WeighSame(hash, SerialRow(e, columns, rows[k]), SerialRow(e, columns, backs[k]))
  {
    hide Standard, Convertible, ReturnsRow, RowKeepsForm, RowWeight, SentRow, SerialRow, TableChecksum.Verified,
      TableChecksum.WeighSame;
    forall i | 0 <= i < |rows|
      ensures SerialRow(e, columns, backs[i]) == SerialRow(e, columns, rows[i]) <==> RowKeepsForm(e, columns, rows[i])
    {
      RowSurvives(e, columns, rows[i], backs[i]);
    }
    assert Serialized(e, columns, backs) == Serialized(e, columns, rows)[k := SerialRow(e, columns, backs[k])];
    hide Serialized;
    SerializedPermuted(e, columns, fetched, backs);
    TableChecksum.ChangedRowNoticedIff(hash, Serialized(e, columns, rows), k, SerialRow(e, columns, backs[k]),
                                       Serialized(e, columns, fetched));
  }

  // ----- A number in a text column -----

  /** A number in a text column is sent as a number and comes back as a text: whatever the text,
      it has another form, so its row is serialized differently. */
  lemma NumberInTextColumnDiffers(e: Engine, columns: seq<Column>, row: Row, back: Row, i: nat, x: Double)
    requires Standard(e) && Convertible(e, columns, row) && Convertible(e, columns, back)
    requires i < |columns| && columns[i].OtherColumn? && row[i] == Num(Finite(x)) && back[i].Str?
    ensures SerialRow(e, columns, row) != SerialRow(e, columns, back)
  {
    SerialRowsIff(e, columns, row, back);
    assert !SameForm(e, columns[i], row[i], back[i]);
  }

  lemma SerializedUpdate(e: Engine, columns: seq<Column>, rows: seq<Row>, k: nat, row: Row)
    requires k < |rows|
    ensures Serialized(e, columns, rows[k := row]) == Serialized(e, columns, rows)[k := SerialRow(e, columns, row)]
  {
    hide SerialRow;
  }

  /** Then verification fails, when the hash tells the two texts apart and the other rows are
      intact. */
  lemma NumberInTextColumnFails(hash: TableChecksum.Hash, e: Engine, columns: seq<Column>,
                                rows: seq<Row>, k: nat, back: Row, i: nat, x: Double, fetched: seq<Row>)
    requires Standard(e) && k < |rows| && Convertible(e, columns, rows[k]) && Convertible(e, columns, back)
    requires i < |columns| && columns[i].OtherColumn? && rows[k][i] == Num(Finite(x)) && back[i].Str?
    requires SerialRow(e, columns, rows[k]) != SerialRow(e, columns, back) ==>
               !TableChecksum.WeighSame(hash, SerialRow(e, columns, rows[k]), SerialRow(e, columns, back))
    requires multiset(fetched) == multiset(rows[k := back])
    ensures !TableChecksum.Verified(hash, Serialized(e, columns, rows), Serialized(e, columns, fetched))
  {
    NumberInTextColumnDiffers(e, columns, rows[k], back, i, x);
    hide SerialRow, Standard, Convertible, TableChecksum.Verified, TableChecksum.WeighSame;
    assert Serialized(e, columns, rows)[k] == SerialRow(e, columns, rows[k]);
    hide Serialized;
    SerializedPermuted(e, columns, fetched, rows[k := back]);
    SerializedUpdate(e, columns, rows, k, back);
    TableChecksum.ChangedRowNoticedIff(hash, Serialized(e, columns, rows), k, SerialRow(e, columns, back),
                                       Serialized(e, columns, fetched));
  }
}
