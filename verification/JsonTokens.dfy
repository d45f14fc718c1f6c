/** The tokenizer's scans recover what the grammar renders: spacing, numbers, strings. */
module JsonTokens {
  import opened CodeUnits
  import opened JsonNumbers
  import opened JsonText
  import opened CanonicalJson

  lemma AtTail(text: Text, pos: nat, piece: Text)
    requires At(text, pos, piece) && piece != []
    ensures text[pos] == piece[0] && At(text, pos + 1, piece[1..])
  {
  }

  lemma {:induction false} SpacingSkipped(text: Text, pos: nat, spacing: Spacing)
    requires At(text, pos, spacing)
    requires pos + |spacing| < |text| ==> !IsSpace(text[pos + |spacing|])
    ensures SkipSpace(text, pos) == pos + |spacing|
    decreases |spacing|
  {
    if spacing != [] {
      AtTail(text, pos, spacing);
      SpacingSkipped(text, pos + 1, spacing[1..]);
    }
  }

  lemma {:induction false} DigitsScanned(text: Text, pos: nat, ds: seq<Digit>)
    requires At(text, pos, DigitUnits(ds))
    requires pos + |ds| < |text| ==> !IsDigit(text[pos + |ds|])
    ensures var to := SkipDigits(text, pos);
            to == pos + |ds| && to <= |text| && DigitsBetween(text, pos, to) == ds
    decreases |ds|
  {
    if ds != [] {
      AtTail(text, pos, DigitUnits(ds));
      DigitsScanned(text, pos + 1, ds[1..]);
    }
  }

  /** What may follow a value in a valid text. */
  predicate Ends(text: Text, pos: nat) {
    pos < |text| ==>
      || IsJsonSpace(text[pos])
      || text[pos] == COMMA || text[pos] == CLOSE_ARRAY || text[pos] == CLOSE_OBJECT
  }

  function MarkUnit(upper: bool): CodeUnit {
    if upper then UPPER_E else LOWER_E
  }

  lemma ExponentParts(text: Text, pos: nat, upper: bool, sign: Sign, from: nat, to: nat)
    requires Stands(text, pos, MarkUnit(upper))
    requires sign == Plus ==> Stands(text, pos + 1, PLUS)
    requires sign == Minus ==> Stands(text, pos + 1, MINUS)
    requires from == pos + 1 + |SignText(sign)| && from < to <= |text| && to == SkipDigits(text, from)
    requires IsDigit(text[from])
    ensures ExponentAt(text, pos) == (Exponent(upper, sign, DigitsBetween(text, from, to)), to)
  {
  }

  lemma EndIsNoDigit(text: Text, pos: nat)
    requires Ends(text, pos)
    ensures pos < |text| ==> !IsDigit(text[pos])
  {
  }

  lemma ExponentSplit(text: Text, pos: nat, e: Exponent)
    requires e.Exponent? && At(text, pos, ExponentText(e))
    ensures Stands(text, pos, MarkUnit(e.upper)) && At(text, pos + 1, SignText(e.sign))
    ensures At(text, pos + 1 + |SignText(e.sign)|, DigitUnits(e.digits))
    ensures |ExponentText(e)| == 1 + |SignText(e.sign)| + |e.digits|
  {
    AtThree(text, pos, [MarkUnit(e.upper)], SignText(e.sign), DigitUnits(e.digits));
    AtTail(text, pos, [MarkUnit(e.upper)]);
  }

  lemma ExponentScanned(text: Text, pos: nat, e: Exponent)
    requires e.Exponent? ==> e.digits != []
    requires At(text, pos, ExponentText(e)) && Ends(text, pos + |ExponentText(e)|)
    ensures ExponentAt(text, pos) == (e, pos + |ExponentText(e)|)
  {
    if e.Exponent? {
      ExponentSplit(text, pos, e);
      var from := pos + 1 + |SignText(e.sign)|;
      EndIsNoDigit(text, from + |e.digits|);
      DigitsScanned(text, from, e.digits);
      AtTail(text, from, DigitUnits(e.digits));
      if !e.sign.Unsigned? {
        AtTail(text, pos + 1, SignText(e.sign));
      }
      ExponentParts(text, pos, e.upper, e.sign, from, from + |e.digits|);
    }
  }

  lemma FractionSplit(text: Text, pos: nat, fraction: seq<Digit>)
    requires fraction != [] && At(text, pos, FractionText(fraction))
    ensures Stands(text, pos, POINT) && At(text, pos + 1, DigitUnits(fraction))
    ensures |FractionText(fraction)| == 1 + |fraction|
  {
    var digits := Then(DigitUnits(fraction), End);
    AtParts(text, pos, Then([POINT], digits));
    AtTail(text, pos, [POINT]);
    AtParts(text, pos + 1, digits);
  }

  /** `at` is where the fraction ends: at an exponent or at the end of the token. */
  lemma FractionScanned(text: Text, pos: nat, fraction: seq<Digit>)
    requires At(text, pos, FractionText(fraction))
    requires var at := pos + |FractionText(fraction)|;
             at < |text| ==> !IsDigit(text[at]) && text[at] != POINT
    ensures FractionAt(text, pos) == (fraction, pos + |FractionText(fraction)|)
  {
    if fraction != [] {
      FractionSplit(text, pos, fraction);
      DigitsScanned(text, pos + 1, fraction);
    }
  }

  lemma NumberParts(text: Text, pos: nat, t: NumberToken, from: nat, to: nat, at: nat, next: nat)
    requires from == pos + |MinusIf(t.negative)| && from < to <= |text|
    requires t.negative ==> Stands(text, pos, MINUS)
    requires IsDigit(text[from]) && to == SkipDigits(text, from) && DigitsBetween(text, from, to) == t.whole
    requires FractionAt(text, to) == (t.fraction, at) && at <= |text| && ExponentAt(text, at) == (t.exponent, next)
    ensures NumberAt(text, pos) == Done(t, next)
  {
  }

  lemma ExponentIsNoDigit(text: Text, pos: nat, e: Exponent)
    requires At(text, pos, ExponentText(e)) && Ends(text, pos + |ExponentText(e)|)
    ensures pos < |text| ==> !IsDigit(text[pos]) && text[pos] != POINT
  {
    if e.Exponent? {
      ExponentSplit(text, pos, e);
    }
  }

  lemma TailIsNoDigit(text: Text, to: nat, at: nat, fraction: seq<Digit>, e: Exponent)
    requires at == to + |FractionText(fraction)| && At(text, to, FractionText(fraction))
    requires At(text, at, ExponentText(e)) && Ends(text, at + |ExponentText(e)|)
    ensures to < |text| ==> !IsDigit(text[to])
  {
    if fraction == [] {
      ExponentIsNoDigit(text, at, e);
    } else {
      FractionSplit(text, to, fraction);
    }
  }

  lemma TailScanned(text: Text, to: nat, at: nat, next: nat, fraction: seq<Digit>, e: Exponent)
    requires at == to + |FractionText(fraction)| && At(text, to, FractionText(fraction))
    requires next == at + |ExponentText(e)| && At(text, at, ExponentText(e)) && Ends(text, next)
    requires e.Exponent? ==> e.digits != []
    ensures FractionAt(text, to) == (fraction, at) && ExponentAt(text, at) == (e, next)
  {
    ExponentIsNoDigit(text, at, e);
    FractionScanned(text, to, fraction);
    ExponentScanned(text, at, e);
  }

  /** The whole digits with the sign before them, once what follows is known. */
  lemma WholeScanned(text: Text, pos: nat, negative: bool, from: nat, whole: seq<Digit>)
    requires whole != [] && from == pos + |MinusIf(negative)|
    requires At(text, pos, MinusIf(negative)) && At(text, from, DigitUnits(whole))
    requires from + |whole| < |text| ==> !IsDigit(text[from + |whole|])
    ensures negative ==> Stands(text, pos, MINUS)
    ensures from < |text| && IsDigit(text[from])
    ensures SkipDigits(text, from) == from + |whole| && DigitsBetween(text, from, from + |whole|) == whole
  {
    DigitsScanned(text, from, whole);
    AtTail(text, from, DigitUnits(whole));
    if negative {
      AtTail(text, pos, MinusIf(negative));
    }
  }

  lemma NumberSplit(text: Text, pos: nat, from: nat, to: nat, at: nat, t: NumberToken)
    requires At(text, pos, NumberText(t))
    requires from == pos + |MinusIf(t.negative)| && to == from + |t.whole| && at == to + |FractionText(t.fraction)|
    ensures At(text, pos, MinusIf(t.negative)) && At(text, from, DigitUnits(t.whole))
    ensures At(text, to, FractionText(t.fraction)) && At(text, at, ExponentText(t.exponent))
    ensures pos + |NumberText(t)| == at + |ExponentText(t.exponent)|
  {
    var exponent := Then(ExponentText(t.exponent), End);
    var fraction := Then(FractionText(t.fraction), exponent);
    var whole := Then(DigitUnits(t.whole), fraction);
    AtParts(text, pos, Then(MinusIf(t.negative), whole));
    AtParts(text, from, whole);
    AtParts(text, to, fraction);
    AtParts(text, at, exponent);
  }

  /** The number pattern matches exactly a rendered token. */
  lemma NumberScanned(text: Text, pos: nat, t: JsonNumber)
    requires At(text, pos, NumberText(t)) && Ends(text, pos + |NumberText(t)|)
    ensures NumberAt(text, pos) == Done(t, pos + |NumberText(t)|)
  {
    var from := pos + |MinusIf(t.negative)|;
    var to := from + |t.whole|;
    var at := to + |FractionText(t.fraction)|;
    NumberSplit(text, pos, from, to, at, t);
    TailIsNoDigit(text, to, at, t.fraction, t.exponent);
    WholeScanned(text, pos, t.negative, from, t.whole);
    TailScanned(text, to, at, pos + |NumberText(t)|, t.fraction, t.exponent);
    NumberParts(text, pos, t, from, to, at, pos + |NumberText(t)|);
  }

  // ----- Strings -----

  lemma {:induction false} BodyScanned(text: Text, pos: nat, ps: seq<Piece>)
    requires At(text, pos, BodyText(ps) + [QUOTE])
    ensures SkipBody(text, pos) == pos + |BodyText(ps)| + 1
    decreases |ps|
  {
    if ps == [] {
      AtTail(text, pos, [QUOTE]);
      assert BodyText(ps) + [QUOTE] == [QUOTE];
    } else {
      var first, rest := PieceText(ps[0]), BodyText(ps[1..]);
      assert BodyText(ps) + [QUOTE] == first + (rest + [QUOTE]);
      AtConcat(text, pos, first, rest + [QUOTE]);
      PieceScanned(text, pos, ps[0]);
      BodyScanned(text, pos + |first|, ps[1..]);
    }
  }

  /** The scan steps over one written character as a whole. */
  lemma PieceScanned(text: Text, pos: nat, p: Piece)
    requires At(text, pos, PieceText(p))
    ensures SkipBody(text, pos) == SkipBody(text, pos + |PieceText(p)|)
  {
    AtTail(text, pos, PieceText(p));
    match p
    case Raw(u) =>
    case Short(letter) =>
    case Hex(a, b, c, d) =>
      AtIsSlice(text, pos, PieceText(p));
      var slice := text[pos..pos + 6];
      assert slice == [BACKSLASH, SMALL_U, a, b, c, d];
      assert text[pos + 2] == slice[2] && text[pos + 3] == slice[3] && text[pos + 4] == slice[4]
          && text[pos + 5] == slice[5];
      assert SkipBody(text, pos + 2) == SkipBody(text, pos + 3);
      assert SkipBody(text, pos + 4) == SkipBody(text, pos + 5);
  }

  lemma {:induction false} BodyDecoded(ps: seq<Piece>)
    ensures DecodeBody(BodyText(ps) + [QUOTE]) == Decoded.Units(JsonText.Units(ps))
  {
    if ps == [] {
      assert BodyText(ps) + [QUOTE] == [QUOTE];
    } else {
      var first, rest := PieceText(ps[0]), BodyText(ps[1..]) + [QUOTE];
      assert BodyText(ps) + [QUOTE] == first + rest;
      BodyDecoded(ps[1..]);
      PieceDecoded(ps[0], rest);
    }
  }

  lemma PieceDecoded(p: Piece, rest: Text)
    ensures DecodeBody(PieceText(p) + rest) == Prepend(PieceUnit(p), DecodeBody(rest))
  {
    var body := PieceText(p) + rest;
    match p
    case Raw(u) => assert body[1..] == rest;
    case Short(letter) =>
      assert body[2..] == rest;
      assert letter != SMALL_U;
    case Hex(a, b, c, d) =>
      assert body[2] == a && body[3] == b && body[4] == c && body[5] == d;
      assert body[6..] == rest;
  }

  /** A rendered string literal is decoded to the units it was written for. */
  lemma StringScanned(text: Text, pos: nat, ps: seq<Piece>)
    requires At(text, pos, LiteralText(ps))
    ensures pos < |text| && text[pos] == QUOTE
    ensures StringAt(text, pos) == Done(JsonText.Units(ps), pos + |LiteralText(ps)|)
  {
    hide DecodeBody, SkipBody, BodyText, JsonText.Units;
    var body := BodyText(ps) + [QUOTE];
    AtConcat(text, pos, [QUOTE], body);
    AtTail(text, pos, [QUOTE]);
    BodyScanned(text, pos + 1, ps);
    BodyDecoded(ps);
    AtIsSlice(text, pos + 1, body);
  }
}
