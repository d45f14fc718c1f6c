/** Row conversion and the canonical form rows are compared in
    (scripts/migrate-sqlite-to-postgres.ts, convertValue, toPostgresValue, canonical). */
module RowCanonical {
  import opened CodeUnits
  import opened JsonNumbers
  import opened JsonText
  import opened CanonicalJson
  import opened JsonEquality
  import opened JsonWriting
  import opened StableText
  import opened Options
  import Radix
  import TableChecksum

  /** A column value as JavaScript holds it: what better-sqlite3 reads, what is sent to
      PostgreSQL, and what pg returns. */
  datatype Js =
    | Nil
    | Boolean(b: bool)
    | BigInt(n: int)
    | Num(num: Numeral)
    | Str(text: Text)
    | Bytes(bytes: seq<nat>)

  /** The target column types the conversion tells apart, text columns being the other ones.
      `prints` are the texts in which a numeric type gives its numbers back. */
  datatype Column = BooleanColumn | JsonColumn | NumericColumn(prints: Text -> bool) | OtherColumn

  /** What the JavaScript engine decides: which texts JSON.parse accepts, how a number is
      spelled, and what bytes read as UTF-8 say. */
  datatype Engine = Engine(parses: Text -> bool, spell: Double -> JsonNumber, utf8: seq<nat> -> Text)

  /** JSON.parse accepts RFC 8259 texts, different numbers are spelled differently, and UTF-8
      has at least one byte per unit. */
  ghost predicate Standard(e: Engine) {
    && (forall t: Text :: e.parses(t) <==> IsJsonText(t)) && Faithful(e.spell)
    && (forall bytes: seq<nat> :: |e.utf8(bytes)| <= |bytes|)
  }

  datatype Outcome<+T> = Throws | Gives(value: T)

  const ONE: Text := [0x31]
  const NOUGHT: Text := [0x30]
  const INFINITY: Text := Ascii("Infinity")

  // ----- Spelling -----

  /** String(n). */
  function NumeralText(e: Engine, n: Numeral): Text {
    match n
    case Finite(x) => NumberText(e.spell(x))
    case Infinite(negative) => MinusIf(negative) + INFINITY
  }

  /** String(v) of a value that is not null. */
  function StringOf(e: Engine, v: Js): Text {
    match v
    case Nil => NULL_TEXT
    case Boolean(b) => if b then TRUE_TEXT else FALSE_TEXT
    case BigInt(n) => IntUnits(n)
    case Num(n) => NumeralText(e, n)
    case Str(text) => text
    case Bytes(bytes) => e.utf8(bytes)
  }

  function HexOf(bytes: seq<nat>): Text {
    if bytes == [] then []
    else
      var high: nat, low: nat := bytes[0] / 16 % 16, bytes[0] % 16;
      Ascii([TableChecksum.HexChar(high), TableChecksum.HexChar(low)]) + HexOf(bytes[1..])
  }

  /** A byte as a JSON number. */
  function ByteToken(byte: nat): (t: JsonNumber)
    ensures t == NumberToken(false, t.whole, [], NoExponent) && Radix.ValueOf(10, t.whole) == byte
  {
    Radix.DigitsRoundTrip(10, byte);
    NumberToken(false, Radix.DigitsOf(10, byte), [], NoExponent)
  }

  function ByteItems(bytes: seq<nat>): seq<Item> {
    if bytes == [] then [] else [Bare(Json.Number(ByteToken(bytes[0])))] + ByteItems(bytes[1..])
  }

  /** What a buffer is stringified as: an object with its type and its bytes. */
  function BufferJson(bytes: seq<nat>): Json {
    Object([], [Member([], StringPieces(Ascii("type")), [], Bare(StringJson(Ascii("Buffer")))),
                Member([], StringPieces(Ascii("data")), [], Bare(Array([], ByteItems(bytes))))])
  }

  // ----- Conversion -----

  predicate IsTruth(e: Engine, v: Js) {
    v == Boolean(true) || v == BigInt(1) || v == Str(ONE) || (v.Num? && NumeralText(e, v.num) == ONE)
  }

  predicate IsFalsehood(e: Engine, v: Js) {
    v == Boolean(false) || v == BigInt(0) || v == Str(NOUGHT) || (v.Num? && NumeralText(e, v.num) == NOUGHT)
  }

  /** A converted value: of a JSON column's text, only what it denotes is left. */
  datatype Converted = Plain(js: Js) | Parsed(text: Text)

  function ConvertValue(e: Engine, v: Js, column: Column): Outcome<Converted> {
    if v.Nil? then Gives(Plain(Nil))
    else if column.BooleanColumn? then
      if IsTruth(e, v) then Gives(Plain(Boolean(true)))
      else if IsFalsehood(e, v) then Gives(Plain(Boolean(false)))
      else Throws
    else if column.JsonColumn? then
      if v.Str? then (if e.parses(v.text) then Gives(Parsed(v.text)) else Throws)
      else Gives(Plain(v))
    else if v.BigInt? then Gives(Plain(Str(IntUnits(v.n))))
    else Gives(Plain(v))
  }

  /** The JSON text of a non-null value: a string stands for itself, anything else is
      stringified, and a bigint cannot be. */
  function JsonSource(e: Engine, v: Js): Outcome<Text> {
    match v
    case Nil => Gives(NULL_TEXT)
    case Boolean(b) => Gives(if b then TRUE_TEXT else FALSE_TEXT)
    case BigInt(_) => Throws
    case Num(n) => Gives(if n.Infinite? then NULL_TEXT else NumeralText(e, n))
    case Str(text) => Gives(text)
    case Bytes(bytes) => Gives(Render(BufferJson(bytes)))
  }

  /** The parameter an INSERT sends. */
  function ToPostgresValue(e: Engine, v: Js, column: Column): Outcome<Js> {
    match ConvertValue(e, v, column)
    case Throws => Throws
    case Gives(converted) =>
      if column.JsonColumn? && !v.Nil? then
        match JsonSource(e, v)
        case Throws => Throws
        case Gives(text) => Gives(Str(text))
      else if converted.Plain? then Gives(converted.js)
      else Throws
  }

  /** canonicalJson, given the verdict of JSON.parse. */
  function CanonicalText(e: Engine, text: Text): Canonicalised {
    if !e.parses(text) then Invalid
    else
      match ValueAt(text, 0)
      case Fail => Invalid
      case Done(tree, _) => Tokenized(tree)
  }

  function Canonical(e: Engine, v: Js, column: Column): Outcome<Cell> {
    match ConvertValue(e, v, column)
    case Throws => Throws
    case Gives(converted) =>
      if column.JsonColumn? && !v.Nil? then
        match JsonSource(e, v)
        case Throws => Throws
        case Gives(text) =>
          (match CanonicalText(e, text)
           case Invalid => Throws
           case Tokenized(tree) => Gives(CJson(tree)))
      else if converted.Parsed? then Throws
      else if converted.js.Nil? then Gives(CNull)
      else if column.NumericColumn? then Gives(CText(StringOf(e, converted.js)))
      else Gives(Spelled(converted.js))
  }

  /** A converted value of a column that is neither JSON nor numeric. */
  function Spelled(js: Js): Cell {
    match js
    case Nil => CNull
    case Boolean(b) => CBool(b)
    case BigInt(n) => CText(IntUnits(n))
    case Num(n) => CNumber(n)
    case Str(text) => CText(text)
    case Bytes(bytes) => CText(HexOf(bytes))
  }

  // ----- Which values share a canonical form -----

  /** Values that other columns compare as text: integers in decimal, blobs in hexadecimal. */
  predicate IsTextual(v: Js) {
    v.BigInt? || v.Str? || v.Bytes?
  }

  function TextOf(v: Js): Text
    requires IsTextual(v)
  {
    match v
    case BigInt(n) => IntUnits(n)
    case Str(text) => text
    case Bytes(bytes) => HexOf(bytes)
  }

  /** Written as null outside JSON and numeric columns. */
  predicate StandsForNull(v: Js) {
    v.Nil? || (v.Num? && v.num.Infinite?)
  }

  /** The truth value that a boolean column has for a value, if any: only 0 and 1 stand for one,
      as integers, as numbers or as text. */
  function TruthOf(e: Engine, v: Js): Option<bool> {
    match v
    case Nil => None
    case Boolean(b) => Some(b)
    case BigInt(n) => if n == 1 then Some(true) else if n == 0 then Some(false) else None
    case Num(n) => TruthOfText(NumeralText(e, n))
    case Str(text) => TruthOfText(text)
    case Bytes(_) => None
  }

  function TruthOfText(text: Text): Option<bool> {
    if text == Ascii("1") then Some(true) else if text == Ascii("0") then Some(false) else None
  }

  /** A boolean column sends and compares a value's truth value, and throws when it has none. */
  lemma BooleanConverts(e: Engine, v: Js)
    ensures v.Nil? ==>
              ToPostgresValue(e, v, BooleanColumn) == Gives(Nil) && Canonical(e, v, BooleanColumn) == Gives(CNull)
    ensures !v.Nil? && TruthOf(e, v).Some? ==>
              && ToPostgresValue(e, v, BooleanColumn) == Gives(Boolean(TruthOf(e, v).value))
              && Canonical(e, v, BooleanColumn) == Gives(CBool(TruthOf(e, v).value))
    ensures !v.Nil? && TruthOf(e, v).None? ==>
              ToPostgresValue(e, v, BooleanColumn) == Throws && Canonical(e, v, BooleanColumn) == Throws
  {
    TruthIs(e, v);
    hide NumberText, IsTruth, IsFalsehood, TruthOf;
  }

  lemma TruthIs(e: Engine, v: Js)
    ensures IsTruth(e, v) <==> TruthOf(e, v) == Some(true)
    ensures IsFalsehood(e, v) <==> TruthOf(e, v) == Some(false)
  {
    assert Ascii("1") == ONE && Ascii("0") == NOUGHT && ONE[0] != NOUGHT[0];
    hide NumeralText;
  }

  /** The same value by value: of the integers only 1 is true and only 0 is false, and so for
      numbers by their spelling and for texts. */
  lemma BooleanColumnTakes(e: Engine, n: int, b: bool, x: Numeral, t: Text, bytes: seq<nat>)
    ensures ToPostgresValue(e, BigInt(n), BooleanColumn) ==
              if n == 1 then Gives(Boolean(true)) else if n == 0 then Gives(Boolean(false)) else Throws
    ensures ToPostgresValue(e, Boolean(b), BooleanColumn) == Gives(Boolean(b))
    ensures ToPostgresValue(e, Str(t), BooleanColumn) ==
              if t == Ascii("1") then Gives(Boolean(true))
              else if t == Ascii("0") then Gives(Boolean(false))
              else Throws
    ensures ToPostgresValue(e, Num(x), BooleanColumn) == ToPostgresValue(e, Str(NumeralText(e, x)), BooleanColumn)
    ensures ToPostgresValue(e, Bytes(bytes), BooleanColumn) == Throws
  {
    BooleanConverts(e, BigInt(n));
    BooleanConverts(e, Boolean(b));
    BooleanConverts(e, Str(t));
    BooleanConverts(e, Num(x));
    BooleanConverts(e, Bytes(bytes));
    hide ToPostgresValue, NumeralText, TruthOfText;
    assert TruthOf(e, Num(x)) == TruthOf(e, Str(NumeralText(e, x)));
    BooleanConverts(e, Str(NumeralText(e, x)));
    TextTruth(t);
  }

  lemma TextTruth(t: Text)
    ensures TruthOfText(t) == if t == Ascii("1") then Some(true) else if t == Ascii("0") then Some(false) else None
  {
  }

  /** When the comparison takes two values of a column for the same. */
  ghost predicate SameForm(e: Engine, column: Column, v: Js, w: Js) {
    match column
    case BooleanColumn => (v.Nil? <==> w.Nil?) && TruthOf(e, v) == TruthOf(e, w)
    case JsonColumn =>
      && (v.Nil? <==> w.Nil?)
      && (!v.Nil? && !w.Nil? ==> SameJsonValue(JsonSource(e, v), JsonSource(e, w)))
    case NumericColumn(_) => (v.Nil? <==> w.Nil?) && (!v.Nil? ==> StringOf(e, v) == StringOf(e, w))
    case OtherColumn =>
      || v == w
      || (StandsForNull(v) && StandsForNull(w))
      || (IsTextual(v) && IsTextual(w) && TextOf(v) == TextOf(w))
  }

  ghost predicate SameJsonValue(s: Outcome<Text>, t: Outcome<Text>) {
    && s.Gives? && t.Gives? && IsJsonText(s.value) && IsJsonText(t.value)
    && ValueOfText(s.value) == ValueOfText(t.value)
  }

  lemma CanonicalTextIs(e: Engine, text: Text)
    requires Standard(e)
    ensures CanonicalText(e, text) == CanonicalOf(text)
  {
  }

  lemma JsonCellIs(e: Engine, v: Js)
    requires Standard(e) && !v.Nil? && Canonical(e, v, JsonColumn).Gives?
    ensures JsonSource(e, v).Gives? && IsJsonText(JsonSource(e, v).value)
    ensures CanonicalOf(JsonSource(e, v).value).Tokenized?
    ensures Canonical(e, v, JsonColumn) == Gives(CJson(CanonicalOf(JsonSource(e, v).value).tree))
  {
    var text := JsonSource(e, v).value;
    CanonicalTextIs(e, text);
    TokenizedIffJson(text);
  }

  lemma JsonFormIff(e: Engine, v: Js, w: Js)
    requires Standard(e) && Canonical(e, v, JsonColumn).Gives? && Canonical(e, w, JsonColumn).Gives?
    ensures Canonical(e, v, JsonColumn) == Canonical(e, w, JsonColumn) <==> SameForm(e, JsonColumn, v, w)
    ensures WritesNull(Canonical(e, v, JsonColumn).value) <==> v.Nil?
  {
    if !v.Nil? { JsonCellIs(e, v); }
    if !w.Nil? { JsonCellIs(e, w); }
    if !v.Nil? && !w.Nil? {
      SameCanonicalIffSameValue(JsonSource(e, v).value, JsonSource(e, w).value);
    }
  }

  lemma PlainFormIff(e: Engine, column: Column, v: Js, w: Js)
    requires !column.JsonColumn? && Canonical(e, v, column).Gives? && Canonical(e, w, column).Gives?
    ensures WrittenAlike(Canonical(e, v, column).value, Canonical(e, w, column).value) <==> SameForm(e, column, v, w)
    ensures WritesNull(Canonical(e, v, column).value) <==> v.Nil? || (column.OtherColumn? && StandsForNull(v))
  {
    if column.BooleanColumn? {
      BooleanConverts(e, v);
      BooleanConverts(e, w);
    }
    hide HexOf, NumeralText, IntUnits, TruthOf, IsTruth, IsFalsehood;
  }

  /** Two values of a column have the same canonical form exactly when they are the same value of
      it, except that an infinity and null, which are told apart here, are later written alike. */
  lemma CanonicalEqualIff(e: Engine, column: Column, v: Js, w: Js)
    requires Standard(e) && Canonical(e, v, column).Gives? && Canonical(e, w, column).Gives?
    ensures Canonical(e, v, column) == Canonical(e, w, column) <==>
            SameForm(e, column, v, w) && (column.OtherColumn? && StandsForNull(v) ==> v == w)
    ensures WrittenAlike(Canonical(e, v, column).value, Canonical(e, w, column).value) <==> SameForm(e, column, v, w)
  {
    if column.JsonColumn? {
      JsonFormIff(e, v, w);
      JsonFormIff(e, w, v);
    } else {
      PlainFormIff(e, column, v, w);
    }
  }

  /** A text and the blob whose hexadecimal digits it spells are taken for the same. */
  lemma BlobLooksLikeText(e: Engine)
    ensures Canonical(e, Bytes([0xAB]), OtherColumn) == Canonical(e, Str(Ascii("ab")), OtherColumn)
  {
    var bytes: seq<nat> := [0xAB];
    assert bytes[1..] == [] && bytes[0] / 16 % 16 == 10 && bytes[0] % 16 == 11;
    assert TableChecksum.HexChar(10) == 'a' && TableChecksum.HexChar(11) == 'b';
    assert HexOf(bytes) == Ascii([TableChecksum.HexChar(10), TableChecksum.HexChar(11)]) + HexOf([]);
    assert [TableChecksum.HexChar(10), TableChecksum.HexChar(11)] == "ab";
    assert HexOf(bytes) == Ascii("ab");
  }

  /** Outside JSON and numeric columns an infinity is written as a missing value is. */
  lemma InfinityLooksLikeNull(e: Engine, negative: bool)
    ensures var v := Canonical(e, Num(Infinite(negative)), OtherColumn);
            v.Gives? && v.value != CNull && Stable([v.value], e.spell) == Stable([CNull], e.spell)
  {
    assert CellItems([CNumber(Infinite(negative))], e.spell) == CellItems([CNull], e.spell);
  }

  // ----- JSON columns in the text compared -----

  /** A JSON column keeps a JSON null apart from a missing value, also in the text compared. */
  lemma JsonNullIsNotSqlNull(e: Engine, text: Text)
    requires Standard(e) && IsJsonText(text)
    ensures Canonical(e, Str(text), JsonColumn).Gives? && Canonical(e, Nil, JsonColumn) == Gives(CNull)
    ensures Stable([Canonical(e, Str(text), JsonColumn).value], e.spell) != Stable([CNull], e.spell)
  {
    CanonicalTextIs(e, text);
    TokenizedIffJson(text);
    RowsWrittenAlikeIff([Canonical(e, Str(text), JsonColumn).value], [CNull], e.spell);
  }

  /** In a JSON column, values get the same text exactly when they denote equal values. */
  lemma JsonCellsEqualIff(e: Engine, s: Text, t: Text)
    requires Standard(e) && IsJsonText(s) && IsJsonText(t)
    ensures Canonical(e, Str(s), JsonColumn).Gives? && Canonical(e, Str(t), JsonColumn).Gives?
    ensures var c, d := Canonical(e, Str(s), JsonColumn).value, Canonical(e, Str(t), JsonColumn).value;
            Stable([c], e.spell) == Stable([d], e.spell) <==> ValueOfText(s) == ValueOfText(t)
  {
    CanonicalTextIs(e, s);
    CanonicalTextIs(e, t);
    TokenizedIffJson(s);
    TokenizedIffJson(t);
    SameCanonicalIffSameValue(s, t);
    RowsWrittenAlikeIff([Canonical(e, Str(s), JsonColumn).value], [Canonical(e, Str(t), JsonColumn).value], e.spell);
  }

  // ----- Rows -----

  type Row = seq<Js>

  predicate Convertible(e: Engine, columns: seq<Column>, row: Row) {
    |row| == |columns| && forall i | 0 <= i < |columns| :: Canonical(e, row[i], columns[i]).Gives?
  }

  function CanonicalRow(e: Engine, columns: seq<Column>, row: Row): (cells: seq<Cell>)
    requires Convertible(e, columns, row)
    ensures |cells| == |columns| && forall i | 0 <= i < |columns| :: cells[i] == Canonical(e, row[i], columns[i]).value
  {
    seq(|columns|, i requires 0 <= i < |columns| => Canonical(e, row[i], columns[i]).value)
  }

  /** One row serialized for hashing. A row that cannot be converted aborts the run, so its text
      is never used. */
  function SerialRow(e: Engine, columns: seq<Column>, row: Row): Text {
    if Convertible(e, columns, row) then Stable(CanonicalRow(e, columns, row), e.spell) else []
  }

  ghost predicate RowsSameForm(e: Engine, columns: seq<Column>, a: Row, b: Row) {
    |a| == |b| == |columns| && forall i | 0 <= i < |columns| :: SameForm(e, columns[i], a[i], b[i])
  }

  /** Two rows are serialized alike exactly when each value of one is the same value of its
      column as the other's. */
  lemma SerialRowsIff(e: Engine, columns: seq<Column>, a: Row, b: Row)
    requires Standard(e) && Convertible(e, columns, a) && Convertible(e, columns, b)
    ensures SerialRow(e, columns, a) == SerialRow(e, columns, b) <==> RowsSameForm(e, columns, a, b)
  {
    hide Stable, Canonical, SameForm, WrittenAlike, Standard;
    assert Faithful(e.spell) by { StandardSpelling(e); }
    RowsWrittenAlikeIff(CanonicalRow(e, columns, a), CanonicalRow(e, columns, b), e.spell);
    forall i | 0 <= i < |columns|
      ensures WrittenAlike(CanonicalRow(e, columns, a)[i], CanonicalRow(e, columns, b)[i]) <==>
                SameForm(e, columns[i], a[i], b[i])
    {
      CanonicalEqualIff(e, columns[i], a[i], b[i]);
    }
  }

  lemma StandardSpelling(e: Engine)
    requires Standard(e)
    ensures Faithful(e.spell)
  {
  }

  /** The parameters of one row of an INSERT. */
  function SentRow(e: Engine, columns: seq<Column>, row: Row): (sent: Row)
    ensures |sent| == |row|
  {
    seq(|row|, i requires 0 <= i < |row| =>
      if i < |columns|
          && ToPostgresValue(e, row[i], columns[i]).Gives? then ToPostgresValue(e, row[i], columns[i]).value
      else Nil)
  }

  function Serialized(e: Engine, columns: seq<Column>, rows: seq<Row>): (texts: seq<Text>)
    ensures |texts| == |rows|
    ensures forall i | 0 <= i < |rows| :: texts[i] == SerialRow(e, columns, rows[i])
  {
    if rows == [] then []
    else Serialized(e, columns, rows[..|rows| - 1]) + [SerialRow(e, columns, rows[|rows| - 1])]
  }
}
