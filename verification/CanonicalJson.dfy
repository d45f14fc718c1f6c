/** The migrator's JSON tokenizer (scripts/migrate-sqlite-to-postgres.ts, canonicalJson):
    a cursor over the text that builds a canonical tree. */
module CanonicalJson {
  import opened CodeUnits
  import opened JsonNumbers
  import opened JsonText
  import opened Sorting

  /** The tagged arrays the tokenizer returns. */
  datatype Tree =
    | TLiteral(name: Text)
    | TNumber(canonical: Text)
    | TString(units: Text)
    | TArray(items: seq<Tree>)
    | TObject(entries: seq<(Text, Tree)>)

  datatype Scan<+T> = Fail | Done(value: T, next: nat)

  function Remaining(text: Text, pos: nat): nat {
    if pos < |text| then |text| - pos else 0
  }

  // ----- Scanning -----

  /** What the pattern \s matches. */
  predicate IsSpace(u: CodeUnit) {
    || 0x09 <= u <= 0x0D || u == 0x20 || u == 0xA0 || u == 0x1680 || 0x2000 <= u <= 0x200A
    || u == 0x2028 || u == 0x2029 || u == 0x202F || u == 0x205F || u == 0x3000 || u == 0xFEFF
  }

  function SkipSpace(text: Text, pos: nat): (p: nat)
    ensures pos <= p && (pos <= |text| ==> p <= |text|)
    decreases Remaining(text, pos)
  {
    if pos < |text| && IsSpace(text[pos]) then SkipSpace(text, pos + 1) else pos
  }

  predicate IsDigit(u: CodeUnit) {
    0x30 <= u <= 0x39
  }

  function SkipDigits(text: Text, pos: nat): (p: nat)
    ensures pos <= p && (pos <= |text| ==> p <= |text|) && (pos > |text| ==> p == pos)
    ensures forall i | pos <= i < p :: i < |text| && IsDigit(text[i])
    decreases Remaining(text, pos)
  {
    if pos < |text| && IsDigit(text[pos]) then SkipDigits(text, pos + 1) else pos
  }

  predicate Stands(text: Text, pos: nat, u: CodeUnit) {
    pos < |text| && text[pos] == u
  }

  function DigitsBetween(text: Text, from: nat, to: nat): (ds: seq<Digit>)
    requires from <= to <= |text| && forall i | from <= i < to :: IsDigit(text[i])
    ensures |ds| == to - from
    decreases Remaining(text, from)
  {
    if from == to then []
    else
      assert IsDigit(text[from]);
      var first: Digit := text[from] - ZERO;
      [first] + DigitsBetween(text, from + 1, to)
  }

  function ExponentAt(text: Text, pos: nat): (r: (Exponent, nat))
    requires pos <= |text|
    ensures pos <= r.1 <= |text|
  {
    if Stands(text, pos, LOWER_E) || Stands(text, pos, UPPER_E) then
      var sign :=
        if Stands(text, pos + 1, PLUS) then Plus
        else if Stands(text, pos + 1, MINUS) then Minus
        else Unsigned;
      var from := if sign.Unsigned? then pos + 1 else pos + 2;
      var to := SkipDigits(text, from);
      if to > from then (Exponent(text[pos] == UPPER_E, sign, DigitsBetween(text, from, to)), to) else (NoExponent, pos)
    else (NoExponent, pos)
  }

  function FractionAt(text: Text, pos: nat): (r: (seq<Digit>, nat))
    requires pos <= |text|
    ensures pos <= r.1 <= |text|
  {
    if Stands(text, pos, POINT) then
      var to := SkipDigits(text, pos + 1);
      if to > pos + 1 then (DigitsBetween(text, pos + 1, to), to) else ([], pos)
    else ([], pos)
  }

  /** The longest number token at `pos`, as the tokenizer's pattern matches it. */
  function NumberAt(text: Text, pos: nat): (r: Scan<NumberToken>)
    requires pos <= |text|
    ensures r.Done? ==> pos < r.next <= |text|
  {
    var negative := Stands(text, pos, MINUS);
    var from := if negative then pos + 1 else pos;
    var to := SkipDigits(text, from);
    if to == from then Fail
    else
      var (fraction, afterFraction) := FractionAt(text, to);
      var (exponent, next) := ExponentAt(text, afterFraction);
      Done(NumberToken(negative, DigitsBetween(text, from, to), fraction, exponent), next)
  }

  /** Where the scan of a string literal stops: past its closing quote, or past the end. */
  function SkipBody(text: Text, pos: nat): (p: nat)
    ensures pos <= p && (pos < |text| ==> pos < p)
    decreases Remaining(text, pos)
  {
    if pos >= |text| then pos
    else if text[pos] == BACKSLASH then SkipBody(text, pos + 2)
    else if text[pos] == QUOTE then pos + 1
    else SkipBody(text, pos + 1)
  }

  datatype Decoded = Malformed | Units(units: Text)

  predicate AreHexDigits(a: CodeUnit, b: CodeUnit, c: CodeUnit, d: CodeUnit) {
    HexDigit(a) >= 0 && HexDigit(b) >= 0 && HexDigit(c) >= 0 && HexDigit(d) >= 0
  }

  /** JSON.parse of a string literal, from after its opening quote. */
  function DecodeBody(body: Text): Decoded {
    if body == [] then Malformed
    else if body[0] == QUOTE then (if |body| == 1 then Decoded.Units([]) else Malformed)
    else if body[0] == BACKSLASH then
      if |body| >= 6 && body[1] == SMALL_U && AreHexDigits(body[2], body[3], body[4], body[5]) then
        Prepend(HexUnit(body[2], body[3], body[4], body[5]), DecodeBody(body[6..]))
      else if |body| >= 2 && ShortUnit(body[1]) >= 0 then
        Prepend(ShortUnit(body[1]), DecodeBody(body[2..]))
      else Malformed
    else if IsRawUnit(body[0]) then Prepend(body[0], DecodeBody(body[1..]))
    else Malformed
  }

  function Prepend(u: CodeUnit, rest: Decoded): Decoded {
    match rest
    case Malformed => Malformed
    case Units(units) => Decoded.Units([u] + units)
  }

  /** The string literal at `pos`, decoded; the first unit is taken for its quote. */
  function StringAt(text: Text, pos: nat): (r: Scan<Text>)
    requires pos < |text|
    ensures r.Done? ==> pos < r.next
  {
    var end := SkipBody(text, pos + 1);
    var stop := if end <= |text| then end else |text|;
    if text[pos] != QUOTE then Fail
    else
      match DecodeBody(text[pos + 1..stop])
      case Malformed => Fail
      case Units(units) => Done(units, end)
  }

  // ----- The recursive tokenizer as a function of the cursor -----

  lemma LessIsOrder()
    ensures IsStrictOrder(Less)
  {
    forall a, b, c ensures !Less(a, a) && (Less(a, b) && Less(b, c) ==> Less(a, c))
                        && (a != b ==> Less(a, b) || Less(b, a)) {
      LessTrichotomy(a, b);
      LessTrichotomy(a, a);
      if Less(a, b) && Less(b, c) { LessTransitive(a, b, c); }
    }
  }

  function ObjectTree(entries: map<Text, Tree>): Tree {
    LessIsOrder();
    TObject(SortedEntries(Less, entries))
  }

  /** The value at `pos`, after any whitespace. */
  function ValueAt(text: Text, pos: nat): (r: Scan<Tree>)
    ensures r.Done? ==> pos < r.next && pos < |text|
    decreases Remaining(text, pos), 1
  {
    var p := SkipSpace(text, pos);
    if p >= |text| then Fail else ValueHere(text, p)
  }

  /** The value that starts at `p`, told from its first unit. */
  function ValueHere(text: Text, p: nat): (r: Scan<Tree>)
    requires p < |text|
    ensures r.Done? ==> p < r.next
    decreases Remaining(text, p), 0
  {
    if text[p] == QUOTE then
      match StringAt(text, p)
      case Fail => Fail
      case Done(units, next) => Done(TString(units), next)
    else if text[p] == OPEN_ARRAY then
      match ItemsAt(text, SkipSpace(text, p + 1), [])
      case Fail => Fail
      case Done(items, next) => Done(TArray(items), next)
    else if text[p] == OPEN_OBJECT then
      match MembersAt(text, SkipSpace(text, p + 1), map[])
      case Fail => Fail
      case Done(entries, next) => Done(ObjectTree(entries), next)
    else ScalarAt(text, p)
  }

  function ScalarAt(text: Text, p: nat): (r: Scan<Tree>)
    requires p < |text|
    ensures r.Done? ==> p < r.next
  {
    if At(text, p, NULL_TEXT) then Done(TLiteral(NULL_TEXT), p + 4)
    else if At(text, p, TRUE_TEXT) then Done(TLiteral(TRUE_TEXT), p + 4)
    else if At(text, p, FALSE_TEXT) then Done(TLiteral(FALSE_TEXT), p + 5)
    else
      match NumberAt(text, p)
      case Fail => Fail
      case Done(token, next) => Done(TNumber(CanonicalNumber(token)), next)
  }

  /** Past the whitespace at `pos` and then past one comma, if there is one. */
  function SkipComma(text: Text, pos: nat): (p: nat)
    ensures pos <= p
  {
    var p := SkipSpace(text, pos);
    if Stands(text, p, COMMA) then p + 1 else p
  }

  /** One turn of the array loop: a value and the comma after it, if any. */
  function ItemAt(text: Text, pos: nat): (r: Scan<Tree>)
    ensures r.Done? ==> pos < r.next && pos < |text|
    decreases Remaining(text, pos), 2
  {
    match ValueAt(text, pos)
    case Fail => Fail
    case Done(item, next) => Done(item, SkipComma(text, next))
  }

  function ItemsAt(text: Text, pos: nat, items: seq<Tree>): (r: Scan<seq<Tree>>)
    ensures r.Done? ==> pos < r.next
    decreases Remaining(text, pos), 3
  {
    if Stands(text, pos, CLOSE_ARRAY) then Done(items, pos + 1)
    else
      match ItemAt(text, pos)
      case Fail => Fail
      case Done(item, next) => ItemsAt(text, next, items + [item])
  }

  /** A member's name, up to the unit after its colon; the colon itself is not looked at. */
  function NameAt(text: Text, pos: nat): (r: Scan<Text>)
    ensures r.Done? ==> pos < r.next && pos < |text|
  {
    var start := SkipSpace(text, pos);
    if start >= |text| then Fail
    else
      match StringAt(text, start)
      case Fail => Fail
      case Done(name, afterName) => Done(name, SkipSpace(text, afterName) + 1)
  }

  /** One turn of the object loop: a name, a colon, a value and the comma after it, if any. */
  function MemberAt(text: Text, pos: nat): (r: Scan<(Text, Tree)>)
    ensures r.Done? ==> pos < r.next && pos < |text|
    decreases Remaining(text, pos), 2
  {
    match NameAt(text, pos)
    case Fail => Fail
    case Done(name, start) =>
      match ValueAt(text, start)
      case Fail => Fail
      case Done(value, next) => Done((name, value), SkipComma(text, next))
  }

  function MembersAt(text: Text, pos: nat, entries: map<Text, Tree>): (r: Scan<map<Text, Tree>>)
    ensures r.Done? ==> pos < r.next
    decreases Remaining(text, pos), 3
  {
    if Stands(text, pos, CLOSE_OBJECT) then Done(entries, pos + 1)
    else
      match MemberAt(text, pos)
      case Fail => Fail
      case Done((name, value), next) => MembersAt(text, next, entries[name := value])
  }
}
