/** Writing JSON as JSON.stringify does, without whitespace: string literals, numbers, and what
    equal texts then say. */
module JsonWriting {
  import opened CodeUnits
  import opened JsonNumbers
  import opened JsonText
  import opened CanonicalJson
  import opened JsonRoundTrip
  import opened JsonEquality

  const LINE_FEED: CodeUnit := 0x0A

  /** A finite double by its place in numeric order; both zeros are 0. */
  type Double = int

  /** Different numbers are spelled as different decimals. */
  ghost predicate Faithful(spell: Double -> JsonNumber) {
    forall x: Double, y: Double :: NumberValue(spell(x)) == NumberValue(spell(y)) ==> x == y
  }

  // ----- String literals -----

  function HexLetterOf(d: int): HexLetter
    requires 0 <= d < 16
  {
    if d < 10 then 0x30 + d else 0x61 + d - 10
  }

  function HexPiece(u: CodeUnit): Piece {
    Hex(HexLetterOf(u / 0x1000), HexLetterOf(u / 0x100 % 0x10), HexLetterOf(u / 0x10 % 0x10), HexLetterOf(u % 0x10))
  }

  predicate IsHigh(u: CodeUnit) {
    0xD800 <= u < 0xDC00
  }

  predicate IsLow(u: CodeUnit) {
    0xDC00 <= u < 0xE000
  }

  /** A unit that is not part of a surrogate pair. */
  function UnitPiece(u: CodeUnit): Piece {
    if u == QUOTE || u == BACKSLASH then Short(u)
    else if u == 0x08 then Short(0x62)
    else if u == 0x09 then Short(0x74)
    else if u == 0x0A then Short(0x6E)
    else if u == 0x0C then Short(0x66)
    else if u == 0x0D then Short(0x72)
    else if u < 0x20 || IsHigh(u) || IsLow(u) then HexPiece(u)
    else Raw(u)
  }

  function StringPieces(t: Text): seq<Piece> {
    if t == [] then []
    else if |t| > 1 && IsHigh(t[0]) && IsLow(t[1]) then [Raw(t[0])] + ([Raw(t[1])] + StringPieces(t[2..]))
    else [UnitPiece(t[0])] + StringPieces(t[1..])
  }

  /** A string, written. */
  function StringJson(t: Text): Json {
    String(StringPieces(t))
  }

  /** A value with no whitespace around it. */
  function Bare(c: Json): Item {
    Item([], c, [])
  }

  lemma HexLetterDigit(d: int)
    requires 0 <= d < 16
    ensures HexDigit(HexLetterOf(d)) == d
  {
  }

  lemma Nibbles(u: CodeUnit)
    ensures 0 <= u / 0x1000 < 16
    ensures u / 0x1000 * 0x1000 + u / 0x100 % 0x10 * 0x100 + u / 0x10 % 0x10 * 0x10 + u % 0x10 == u
  {
    var a, b := u / 0x10, u / 0x100;
    assert a / 0x10 == b && b / 0x10 == u / 0x1000;
  }

  lemma HexPieceUnit(u: CodeUnit)
    ensures PieceUnit(HexPiece(u)) == u
  {
    Nibbles(u);
    HexLetterDigit(u / 0x1000);
    HexLetterDigit(u / 0x100 % 0x10);
    HexLetterDigit(u / 0x10 % 0x10);
    HexLetterDigit(u % 0x10);
    hide HexDigit, HexLetterOf;
  }

  lemma UnitPieceUnit(u: CodeUnit)
    ensures PieceUnit(UnitPiece(u)) == u
  {
    HexPieceUnit(u);
  }

  /** Every string is read back from its literal. */
  lemma {:induction false} StringPiecesUnits(t: Text)
    ensures JsonText.Units(StringPieces(t)) == t
  {
    hide HexPiece, PieceUnit, UnitPiece;
    if t != [] {
      if |t| > 1 && IsHigh(t[0]) && IsLow(t[1]) {
        StringPiecesUnits(t[2..]);
        RawUnits(t[1], StringPieces(t[2..]));
        RawUnits(t[0], [Raw(t[1])] + StringPieces(t[2..]));
        assert [t[0]] + ([t[1]] + t[2..]) == t;
      } else {
        StringPiecesUnits(t[1..]);
        UnitPieceUnit(t[0]);
        assert ([UnitPiece(t[0])] + StringPieces(t[1..]))[1..] == StringPieces(t[1..]);
        assert [t[0]] + t[1..] == t;
      }
    }
  }

  predicate IsLowerHex(u: CodeUnit) {
    0x30 <= u <= 0x39 || 0x61 <= u <= 0x66
  }

  /** A unit with the other half of its surrogate pair beside it. */
  predicate Paired(t: Text, i: nat)
    requires i < |t|
  {
    || (0xD800 <= t[i] < 0xDC00 && i + 1 < |t| && 0xDC00 <= t[i + 1] < 0xE000)
    || (0xDC00 <= t[i] < 0xE000 && i > 0 && 0xD800 <= t[i - 1] < 0xDC00)
  }

  /** A unit stands for itself exactly when it is no control character, quotation mark, backslash or
      lone surrogate; seven units have a short escape, and the rest are written with lower-case
      hexadecimal digits. */
  predicate IsPieceFor(p: Piece, u: CodeUnit, paired: bool) {
    && (p.Raw? <==> u >= 0x20 && u != 0x22 && u != 0x5C && (0xD800 <= u < 0xE000 ==> paired))
    && (p.Short? <==> u == 0x22 || u == 0x5C || u == 0x08 || 0x09 <= u <= 0x0A || 0x0C <= u <= 0x0D)
    && (p.Hex? ==> IsLowerHex(p.a) && IsLowerHex(p.b) && IsLowerHex(p.c) && IsLowerHex(p.d))
    && PieceUnit(p) == u
  }

  lemma UnitPieceFits(u: CodeUnit)
    ensures IsPieceFor(UnitPiece(u), u, false)
  {
    UnitPieceUnit(u);
    hide PieceUnit, HexDigit;
  }

  /** The literal of a string, unit by unit. */
  lemma {:induction false} EscapedExactly(t: Text, i: nat)
    requires i < |t|
    ensures |StringPieces(t)| == |t| && IsPieceFor(StringPieces(t)[i], t[i], Paired(t, i))
  {
    hide IsPieceFor, UnitPiece;
    if |t| > 1 && IsHigh(t[0]) && IsLow(t[1]) {
      RawSurrogate(t[0]);
      RawSurrogate(t[1]);
      if |t| > 2 {
        EscapedExactly(t[2..], if i < 2 then 0 else i - 2);
      }
    } else {
      UnitPieceFits(t[0]);
      if |t| > 1 {
        EscapedExactly(t[1..], if i < 1 then 0 else i - 1);
      }
    }
  }

  lemma RawSurrogate(u: CodeUnit)
    requires 0xD800 <= u < 0xE000
    ensures IsPieceFor(Raw(u), u, true)
  {
  }

  lemma RawUnits(u: CodeUnit, rest: seq<Piece>)
    requires IsRawUnit(u)
    ensures JsonText.Units([Raw(u)] + rest) == [u] + JsonText.Units(rest)
  {
    assert ([Raw(u)] + rest)[1..] == rest;
  }

  // ----- What a written value denotes -----

  lemma RenderedValue(c: Json)
    ensures IsJsonText(Render(c)) && ValueOfText(Render(c)) == Denote(c)
  {
    hide Render, Denote, Flat;
    FlatBare(Render(c));
    CanonicalOfDocument(Item([], c, []));
  }

  lemma FlatBare(t: Text)
    ensures Flat(Then([], Then(t, Then([], End)))) == t
  {
    assert Flat(Then([], End)) == [] && Flat(Then(t, Then([], End))) == t + [] == t;
  }

  // ----- Equal texts -----

  lemma SameTextSameValue(c: Json, d: Json)
    requires Render(c) == Render(d)
    ensures Denote(c) == Denote(d)
  {
    var x, y := Item([], c, []), Item([], d, []);
    hide Render, Denote;
    assert RenderItem(x) == RenderItem(y);
    CanonicalOfDocument(x);
    CanonicalOfDocument(y);
  }

  /** A text that goes on with a space or a line feed after a value tells where the value ends. */
  lemma SameLine(c: Json, x: Text, d: Json, y: Text)
    requires Render(c) + ([LINE_FEED] + x) == Render(d) + ([LINE_FEED] + y)
    ensures Render(c) == Render(d) && x == y
  {
    LineEndsAt(c, x);
    LineEndsAt(d, y);
    var text := Render(c) + ([LINE_FEED] + x);
    assert |Render(c)| == |Render(d)|;
    assert text[..|Render(c)|] == Render(c) == Render(d);
    assert text[|Render(c)| + 1..] == x == y;
  }

  lemma LineEndsAt(c: Json, x: Text)
    ensures ValueAt(Render(c) + ([LINE_FEED] + x), 0) == Done(TreeOf(c), |Render(c)|)
  {
    var text := Render(c) + ([LINE_FEED] + x);
    hide Render, TreeOf;
    assert text[0..|Render(c)|] == Render(c);
    AtIsSlice(text, 0, Render(c));
    ValueRendered(c, text, 0, []);
  }
}
