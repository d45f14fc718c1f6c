/** What each stored value is sent as and compared as, column type by column type
    (scripts/migrate-sqlite-to-postgres.ts, lines 34-54 and 125-140). Boolean columns are in
    RowCanonical. */
module SentValues {
  import opened CodeUnits
  import opened JsonNumbers
  import opened JsonText
  import opened JsonEquality
  import opened JsonWriting
  import opened StableText
  import opened RowCanonical
  import TableChecksum

  // ----- Numeric and text columns -----

  /** Outside boolean and JSON columns an integer is sent and compared as the text that spells it,
      and any other value is sent as it is. */
  lemma PlainSent(e: Engine, v: Js, column: Column)
    requires column.NumericColumn? || column.OtherColumn?
    ensures ToPostgresValue(e, v, column).Gives? && Canonical(e, v, column).Gives?
    ensures !v.BigInt? ==> ToPostgresValue(e, v, column) == Gives(v)
    ensures v.BigInt? ==>
              && ToPostgresValue(e, v, column).value.Str?
              && ParseUnits(ToPostgresValue(e, v, column).value.text) == v.n
              && Canonical(e, v, column) == Gives(CText(ToPostgresValue(e, v, column).value.text))
    ensures v.Nil? ==> Canonical(e, v, column) == Gives(CNull)
    ensures v.Str? ==> Canonical(e, v, column) == Gives(CText(v.text))
    ensures v.Bytes? && column.NumericColumn? ==> Canonical(e, v, column) == Gives(CText(e.utf8(v.bytes)))
    ensures v.Boolean? && column.NumericColumn? ==>
              Canonical(e, v, column) == Gives(CText(if v.b then Ascii("true") else Ascii("false")))
    ensures v.Boolean? && column.OtherColumn? ==> Canonical(e, v, column) == Gives(CBool(v.b))
  {
    if v.BigInt? {
      IntUnitsParse(v.n);
    }
    Alphabet();
    hide IntUnits, ParseUnits, HexOf, NumberText;
  }

  /** A number is compared as itself in a text column, and by its spelling in a numeric one. */
  lemma NumberCompared(e: Engine, n: Numeral, prints: Text -> bool)
    ensures Canonical(e, Num(n), OtherColumn) == Gives(CNumber(n))
    ensures n.Finite? ==> Canonical(e, Num(n), NumericColumn(prints)) == Gives(CText(NumberText(e.spell(n.x))))
    ensures n.Infinite? ==>
              Canonical(e, Num(n), NumericColumn(prints)) ==
                Gives(CText((if n.negative then Ascii("-") else []) + Ascii("Infinity")))
  {
    assert Ascii("-") == [MINUS];
    hide NumberText;
  }

  /** In a text column a blob is compared by its hexadecimal digits, two for each byte. */
  lemma BlobCompared(e: Engine, bytes: seq<nat>, i: nat)
    requires i < |bytes| && bytes[i] < 256
    ensures var cell := Canonical(e, Bytes(bytes), OtherColumn);
            && cell.Gives? && cell.value.CText? && |cell.value.text| == 2 * |bytes|
            && HexDigit(cell.value.text[2 * i]) * 16 + HexDigit(cell.value.text[2 * i + 1]) == bytes[i]
  {
    HexReads(bytes, i);
    hide HexOf, HexDigit;
  }

  lemma {:induction false} HexReads(bytes: seq<nat>, i: nat)
    requires i < |bytes| && bytes[i] < 256
    ensures |HexOf(bytes)| == 2 * |bytes|
    ensures HexDigit(HexOf(bytes)[2 * i]) * 16 + HexDigit(HexOf(bytes)[2 * i + 1]) == bytes[i]
  {
    hide HexDigit, TableChecksum.HexChar, HexOf;
    HexSize(bytes);
    HexSize(bytes[1..]);
    assert [bytes[0]] + bytes[1..] == bytes;
    ByteReads(bytes[0], bytes[1..]);
    if i > 0 {
      HexReads(bytes[1..], i - 1);
      ShiftedTwo(HexOf(bytes), HexOf(bytes[1..]), 2 * (i - 1));
    }
  }

  lemma ShiftedTwo(t: Text, u: Text, k: nat)
    requires |t| >= 2 && t[2..] == u && k + 1 < |u|
    ensures k + 3 < |t| && t[k + 2] == u[k] && t[k + 3] == u[k + 1]
  {
    assert t[2..][k] == t[k + 2] && t[2..][k + 1] == t[k + 3];
  }

  lemma {:induction false} HexSize(bytes: seq<nat>)
    ensures |HexOf(bytes)| == 2 * |bytes|
  {
    if bytes != [] {
      HexSize(bytes[1..]);
    }
  }

  lemma ByteReads(byte: nat, rest: seq<nat>)
    ensures var t := HexOf([byte] + rest);
            && |t| >= 2 && t[2..] == HexOf(rest)
            && (byte < 256 ==> HexDigit(t[0]) * 16 + HexDigit(t[1]) == byte)
  {
    var bytes := [byte] + rest;
    assert bytes[1..] == rest;
    var high: nat, low: nat := byte / 16 % 16, byte % 16;
    HexCharReads(high);
    HexCharReads(low);
    assert byte < 256 ==> byte / 16 == high;
    assert HexOf(bytes) == Ascii([TableChecksum.HexChar(high), TableChecksum.HexChar(low)]) + HexOf(rest);
    hide HexDigit, TableChecksum.HexChar, HexOf;
  }

  lemma HexCharReads(d: nat)
    requires d < 16
    ensures TableChecksum.HexChar(d) < '\U{80}' && HexDigit(TableChecksum.HexChar(d) as int) == d
  {
  }

  // ----- JSON columns -----

  ghost function ByteNumbers(bytes: seq<nat>): seq<Value> {
    if bytes == [] then [] else [VNumber(bytes[0] as real)] + ByteNumbers(bytes[1..])
  }

  /** The JSON value that a stored value other than a text stands for. */
  ghost function JsonMeaning(e: Engine, v: Js): Value {
    match v
    case Boolean(b) => VBool(b)
    case Num(Finite(x)) => VNumber(NumberValue(e.spell(x)))
    case Bytes(bytes) =>
      VObject(map[Ascii("type") := VString(Ascii("Buffer"))] + map[Ascii("data") := VArray(ByteNumbers(bytes))])
    case _ => VNull
  }

  lemma ByteValue(byte: nat)
    ensures Denote(Json.Number(ByteToken(byte))) == VNumber(byte as real)
  {
    var t := ByteToken(byte);
    assert t.whole + [] == t.whole;
    assert Scaled(byte, 0) == byte as real;
    hide ByteToken;
  }

  lemma {:induction false} BytesDenote(bytes: seq<nat>)
    ensures DenoteItems(ByteItems(bytes)) == ByteNumbers(bytes)
  {
    hide ByteToken, Denote;
    if bytes != [] {
      ByteValue(bytes[0]);
      BytesDenote(bytes[1..]);
      assert ByteItems(bytes)[1..] == ByteItems(bytes[1..]);
    }
  }

  lemma BufferDenotes(bytes: seq<nat>)
    ensures Denote(BufferJson(bytes)) ==
            VObject(map[Ascii("type") := VString(Ascii("Buffer"))] + map[Ascii("data") := VArray(ByteNumbers(bytes))])
  {
    hide Denote, DenoteMembers, DenoteItems, StringPieces, StringJson, JsonText.Units, ByteItems, ByteNumbers;
    BytesDenote(bytes);
    StringPiecesUnits(Ascii("type"));
    StringPiecesUnits(Ascii("data"));
    StringDenotes(Ascii("Buffer"));
    ContainersDenote(ByteItems(bytes), BufferJson(bytes).members);
    TwoMembersDenote(StringPieces(Ascii("type")), StringJson(Ascii("Buffer")), StringPieces(Ascii("data")),
                     Array([], ByteItems(bytes)));
  }

  lemma ContainersDenote(items: seq<Item>, members: seq<Member>)
    ensures Denote(Array([], items)) == VArray(DenoteItems(items))
    ensures Denote(Object([], members)) == VObject(DenoteMembers(members))
  {
  }

  lemma TwoMembersDenote(a: seq<Piece>, x: Json, b: seq<Piece>, y: Json)
    ensures DenoteMembers([Member([], a, [], Bare(x)), Member([], b, [], Bare(y))])
         == map[JsonText.Units(a) := Denote(x)] + map[JsonText.Units(b) := Denote(y)]
  {
    hide Denote, JsonText.Units;
    var first, second := Member([], a, [], Bare(x)), Member([], b, [], Bare(y));
    assert [first, second][1..] == [second] && [second][1..] == [];
    assert DenoteMembers([second]) == map[JsonText.Units(b) := Denote(y)];
  }

  /** A value that is no text, stringified. */
  lemma StringifiedMeans(e: Engine, v: Js)
    requires !v.Nil? && !v.Str? && !v.BigInt?
    ensures JsonSource(e, v).Gives? && IsJsonText(JsonSource(e, v).value)
    ensures ValueOfText(JsonSource(e, v).value) == JsonMeaning(e, v)
  {
    hide ByteNumbers, BufferJson, NumberText, NumberValue;
    match v
    case Boolean(b) => RenderedValue(if b then True else False);
    case Num(Finite(x)) => RenderedValue(Json.Number(e.spell(x)));
    case Num(Infinite(_)) => RenderedValue(Null);
    case Bytes(bytes) =>
      RenderedValue(BufferJson(bytes));
      BufferDenotes(bytes);
  }

  /** In a JSON column a missing value stays missing; a text is sent as it is when it is JSON, and
      throws otherwise; a 64-bit integer throws; any other value is sent as a JSON text of what it
      stands for. What is compared is the canonical tree of the text sent. */
  lemma JsonSent(e: Engine, v: Js)
    requires Standard(e)
    ensures var sent, cell := ToPostgresValue(e, v, JsonColumn), Canonical(e, v, JsonColumn);
            && (v.Nil? ==> sent == Gives(Nil) && cell == Gives(CNull))
            && (v.BigInt? || (v.Str? && !IsJsonText(v.text)) ==> sent == Throws && cell == Throws)
            && (v.Str? && IsJsonText(v.text) ==> sent == Gives(v))
            && (!v.Nil? && !v.BigInt? && !v.Str? ==>
                  sent.Gives? && sent.value.Str? && IsJsonText(sent.value.text)
                  && ValueOfText(sent.value.text) == JsonMeaning(e, v))
            && (!v.Nil? && sent.Gives? ==>
                  && sent.value.Str? && CanonicalOf(sent.value.text).Tokenized?
                  && cell == Gives(CJson(CanonicalOf(sent.value.text).tree)))
  {
    if !v.Nil? && !v.Str? && !v.BigInt? {
      StringifiedMeans(e, v);
    }
    var source := JsonSource(e, v);
    if source.Gives? {
      CanonicalTextIs(e, source.value);
      TokenizedIffJson(source.value);
    }
    hide CanonicalOf, CanonicalText, JsonMeaning, BufferJson, NumeralText;
  }
}
