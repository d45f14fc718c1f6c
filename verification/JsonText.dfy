/** JSON texts: the grammar of RFC 8259 as syntax trees with a rendering, and the value
    each text denotes. Whitespace, string escapes, number spellings and duplicate names
    are all part of the syntax. */
module JsonText {
  import opened CodeUnits
  import opened JsonNumbers

  const QUOTE: CodeUnit := 0x22
  const BACKSLASH: CodeUnit := 0x5C
  const COMMA: CodeUnit := 0x2C
  const COLON: CodeUnit := 0x3A
  const OPEN_ARRAY: CodeUnit := 0x5B
  const CLOSE_ARRAY: CodeUnit := 0x5D
  const OPEN_OBJECT: CodeUnit := 0x7B
  const CLOSE_OBJECT: CodeUnit := 0x7D
  const SMALL_U: CodeUnit := 0x75
  const NULL_TEXT: Text := [0x6E, 0x75, 0x6C, 0x6C]
  const TRUE_TEXT: Text := [0x74, 0x72, 0x75, 0x65]
  const FALSE_TEXT: Text := [0x66, 0x61, 0x6C, 0x73, 0x65]

  /** The insignificant whitespace of section 2. */
  predicate IsJsonSpace(u: CodeUnit) {
    u == 0x20 || u == 0x09 || u == 0x0A || u == 0x0D
  }

  predicate IsSpacing(t: Text) {
    forall i | 0 <= i < |t| :: IsJsonSpace(t[i])
  }

  type Spacing = t: Text | IsSpacing(t)

  // ----- Strings (section 7) -----

  function HexDigit(u: CodeUnit): int {
    if 0x30 <= u <= 0x39 then u - 0x30
    else if 0x41 <= u <= 0x46 then u - 0x41 + 10
    else if 0x61 <= u <= 0x66 then u - 0x61 + 10
    else -1
  }

  /** The unit a two-character escape stands for, or -1. */
  function ShortUnit(letter: CodeUnit): (r: int)
    ensures r < 0x10000
  {
    if letter == QUOTE || letter == BACKSLASH || letter == 0x2F then letter
    else if letter == 0x62 then 0x08
    else if letter == 0x66 then 0x0C
    else if letter == 0x6E then 0x0A
    else if letter == 0x72 then 0x0D
    else if letter == 0x74 then 0x09
    else -1
  }

  predicate IsRawUnit(u: CodeUnit) {
    u >= 0x20 && u != QUOTE && u != BACKSLASH
  }

  // ----- The characters meant -----

  /** The structural characters and literal names of sections 2 and 3. */
  lemma Alphabet()
    ensures [OPEN_ARRAY, CLOSE_ARRAY, OPEN_OBJECT, CLOSE_OBJECT, COLON, COMMA] == Ascii("[]{}:,")
    ensures NULL_TEXT == Ascii("null") && TRUE_TEXT == Ascii("true") && FALSE_TEXT == Ascii("false")
    ensures [QUOTE, BACKSLASH, SMALL_U] == Ascii("\"\\u")
    ensures [MINUS, PLUS, POINT, ZERO, LOWER_E, UPPER_E] == Ascii("-+.0eE")
  {
  }

  /** The whitespace of section 2: space, tab, line feed and carriage return. */
  lemma JsonSpaceIs(u: CodeUnit)
    ensures forall i | 0 <= i < 4 :: IsJsonSpace(Ascii(" \t\n\r")[i])
    ensures IsJsonSpace(u) ==> u in Ascii(" \t\n\r")
  {
    var spaces := Ascii(" \t\n\r");
    assert spaces[0] == 0x20 && spaces[1] == 0x09 && spaces[2] == 0x0A && spaces[3] == 0x0D;
  }

  /** Hexadecimal digits count from their place among the sixteen, in either case. */
  lemma HexDigitIs(u: CodeUnit)
    ensures forall d | 0 <= d < 16 ::
              HexDigit(Ascii("0123456789abcdef")[d]) == d == HexDigit(Ascii("0123456789ABCDEF")[d])
    ensures HexDigit(u) >= 0 ==> u in Ascii("0123456789abcdef") || u in Ascii("0123456789ABCDEF")
  {
    var lower, upper := Ascii("0123456789abcdef"), Ascii("0123456789ABCDEF");
    if HexDigit(u) >= 0 {
      assert lower[HexDigit(u)] == u || upper[HexDigit(u)] == u;
    }
  }

  /** The two-character escapes of section 7: the characters in the first list stand for those at
      the same place in the second, and no other escape does. */
  lemma ShortUnitIs(letter: CodeUnit)
    ensures forall i | 0 <= i < 8 ::
              ShortUnit(Ascii("\"\\/bfnrt")[i]) == [0x22, 0x5C, 0x2F, 0x08, 0x0C, 0x0A, 0x0D, 0x09][i]
    ensures ShortUnit(letter) >= 0 ==> letter in Ascii("\"\\/bfnrt")
  {
    var letters := Ascii("\"\\/bfnrt");
    assert letters[0] == 0x22 && letters[1] == 0x5C && letters[2] == 0x2F && letters[3] == 0x62 && letters[4] == 0x66
        && letters[5] == 0x6E && letters[6] == 0x72 && letters[7] == 0x74;
  }

  type RawUnit = u: CodeUnit | IsRawUnit(u) witness 0x61
  type ShortLetter = u: CodeUnit | ShortUnit(u) >= 0 witness 0x6E
  type HexLetter = u: CodeUnit | HexDigit(u) >= 0 witness 0x30

  /** One character of a string literal: written as itself, as a two-character escape, or as
      a six-character escape with four hexadecimal digits. */
  datatype Piece =
    | Raw(unit: RawUnit)
    | Short(letter: ShortLetter)
    | Hex(a: HexLetter, b: HexLetter, c: HexLetter, d: HexLetter)

  function HexUnit(a: HexLetter, b: HexLetter, c: HexLetter, d: HexLetter): CodeUnit {
    HexDigit(a) * 0x1000 + HexDigit(b) * 0x100 + HexDigit(c) * 0x10 + HexDigit(d)
  }

  function PieceText(p: Piece): Text {
    match p
    case Raw(u) => [u]
    case Short(letter) => [BACKSLASH, letter]
    case Hex(a, b, c, d) => [BACKSLASH, SMALL_U, a, b, c, d]
  }

  function PieceUnit(p: Piece): CodeUnit {
    match p
    case Raw(u) => u
    case Short(letter) => ShortUnit(letter)
    case Hex(a, b, c, d) => HexUnit(a, b, c, d)
  }

  function BodyText(ps: seq<Piece>): Text {
    if ps == [] then [] else PieceText(ps[0]) + BodyText(ps[1..])
  }

  function LiteralText(ps: seq<Piece>): Text {
    [QUOTE] + (BodyText(ps) + [QUOTE])
  }

  function Units(ps: seq<Piece>): Text
  {
    if ps == [] then [] else [PieceUnit(ps[0])] + Units(ps[1..])
  }

  // ----- Numbers (section 6) -----

  function SignText(s: Sign): Text {
    match s
    case Unsigned => []
    case Plus => [PLUS]
    case Minus => [MINUS]
  }

  function ExponentText(e: Exponent): Text
  {
    match e
    case NoExponent => []
    case Exponent(upper, sign, digits) =>
      Flat(Then([if upper then UPPER_E else LOWER_E], Then(SignText(sign), Then(DigitUnits(digits), End))))
  }

  function FractionText(fraction: seq<Digit>): Text
  {
    if fraction == [] then [] else Flat(Then([POINT], Then(DigitUnits(fraction), End)))
  }

  function NumberText(t: NumberToken): Text
  {
    Flat(Then(MinusIf(t.negative), Then(DigitUnits(t.whole),
         Then(FractionText(t.fraction), Then(ExponentText(t.exponent), End)))))
  }

  // ----- Values (sections 3 to 5) -----

  datatype Json =
    | Null
    | True
    | False
    | Number(token: JsonNumber)
    | String(pieces: seq<Piece>)
    | Array(empty: Spacing, items: seq<Item>)
    | Object(empty: Spacing, members: seq<Member>)

  /** A value with the whitespace around it. */
  datatype Item = Item(before: Spacing, value: Json, after: Spacing)

  datatype Member = Member(beforeName: Spacing, name: seq<Piece>, afterName: Spacing, item: Item)

  function Render(c: Json): Text
  {
    match c
    case Null => NULL_TEXT
    case True => TRUE_TEXT
    case False => FALSE_TEXT
    case Number(token) => NumberText(token)
    case String(pieces) => LiteralText(pieces)
    case Array(empty, items) =>
      if items == [] then Flat(Then([OPEN_ARRAY], Then(empty, Then([CLOSE_ARRAY], End))))
      else Flat(Then([OPEN_ARRAY], Then(items[0].before, Then(ItemsTail(items), End))))
    case Object(empty, members) =>
      if members == [] then Flat(Then([OPEN_OBJECT], Then(empty, Then([CLOSE_OBJECT], End))))
      else Flat(Then([OPEN_OBJECT], Then(members[0].beforeName, Then(MembersTail(members), End))))
  }

  /** The items of an array from the first value to the closing bracket. */
  function ItemsTail(items: seq<Item>): Text
    requires items != []
  {
    Flat(Then(Render(items[0].value), Then(items[0].after, ItemsRest(items))))
  }

  function ItemsRest(items: seq<Item>): Parts
    requires items != []
    decreases items, 0
  {
    if |items| == 1 then Then([CLOSE_ARRAY], End)
    else Then([COMMA], Then(items[1].before, Then(ItemsTail(items[1..]), End)))
  }

  /** The members of an object from the first name to the closing brace. */
  function MembersTail(members: seq<Member>): Text
    requires members != []
  {
    Flat(Then(LiteralText(members[0].name), Then(members[0].afterName, Then([COLON], Then(members[0].item.before,
         Then(Render(members[0].item.value), Then(members[0].item.after, MembersRest(members))))))))
  }

  function MembersRest(members: seq<Member>): Parts
    requires members != []
    decreases members, 0
  {
    if |members| == 1 then Then([CLOSE_OBJECT], End)
    else Then([COMMA], Then(members[1].beforeName, Then(MembersTail(members[1..]), End)))
  }

  // ----- What a text denotes -----

  /** JSON values: numbers are rationals, objects are finite maps from names. */
  datatype Value =
    | VNull
    | VBool(b: bool)
    | VNumber(r: real)
    | VString(units: Text)
    | VArray(items: seq<Value>)
    | VObject(members: map<Text, Value>)

  ghost function Denote(c: Json): Value
  {
    match c
    case Null => VNull
    case True => VBool(true)
    case False => VBool(false)
    case Number(token) => VNumber(NumberValue(token))
    case String(pieces) => VString(Units(pieces))
    case Array(_, items) => VArray(DenoteItems(items))
    case Object(_, members) => VObject(DenoteMembers(members))
  }

  ghost function DenoteItems(items: seq<Item>): seq<Value>
  {
    if items == [] then []
    else
      [Denote(items[0].value)] + DenoteItems(items[1..])
  }

  /** The last of several members with one name counts. */
  ghost function DenoteMembers(members: seq<Member>): map<Text, Value>
  {
    if members == [] then map[]
    else
      map[Units(members[0].name) := Denote(members[0].item.value)] + DenoteMembers(members[1..])
  }

  function RenderItem(doc: Item): Text
  {
    Flat(Then(doc.before, Then(Render(doc.value), Then(doc.after, End))))
  }

  /** `text` is a JSON text: what JSON.parse accepts. */
  ghost predicate IsJsonText(text: Text) {
    exists doc: Item :: RenderItem(doc) == text
  }

  /** The value `text` denotes. */
  ghost function ValueOfText(text: Text): Value
    requires IsJsonText(text)
  {
    var doc: Item :| RenderItem(doc) == text;
    Denote(doc.value)
  }
}
