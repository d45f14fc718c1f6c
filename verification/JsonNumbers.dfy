/** JSON number tokens, the rational each denotes, and the exact normal form the migrator
    compares them by (scripts/migrate-sqlite-to-postgres.ts, lines 105-111). */
module JsonNumbers {
  import opened CodeUnits
  import opened Radix

  datatype Sign = Unsigned | Plus | Minus

  type Digit = d: int | 0 <= d < 10

  datatype Exponent = NoExponent | Exponent(upper: bool, sign: Sign, digits: seq<Digit>)

  /** The groups of the tokenizer's pattern; an empty fraction means there is none. */
  datatype NumberToken = NumberToken(negative: bool, whole: seq<Digit>, fraction: seq<Digit>, exponent: Exponent)

  const MINUS: CodeUnit := 0x2D
  const PLUS: CodeUnit := 0x2B
  const POINT: CodeUnit := 0x2E
  const ZERO: CodeUnit := 0x30
  const LOWER_E: CodeUnit := 0x65
  const UPPER_E: CodeUnit := 0x45

  /** A number of RFC 8259 section 6: digits where they are due, no superfluous leading zero. */
  predicate ValidNumber(t: NumberToken) {
    && t.whole != [] && (|t.whole| > 1 ==> t.whole[0] != 0)
    && (t.exponent.Exponent? ==> t.exponent.digits != [])
  }

  type JsonNumber = t: NumberToken | ValidNumber(t) witness NumberToken(false, [0], [], NoExponent)

  lemma DigitsOfTen(ds: seq<Digit>)
    ensures AreDigits(10, ds)
  {
  }

  function ExponentValue(e: Exponent): int {
    match e
    case NoExponent => 0
    case Exponent(_, sign, digits) =>
      var magnitude: int := ValueOf(10, digits);
      if sign.Minus? then -magnitude else magnitude
  }

  // ----- The rational a token denotes -----

  ghost function Pow10(e: int): real
    decreases if e < 0 then -e else e
  {
    if e == 0 then 1.0
    else if e > 0 then 10.0 * Pow10(e - 1)
    else Pow10(e + 1) / 10.0
  }

  ghost function Scaled(n: nat, e: int): real {
    n as real * Pow10(e)
  }

  ghost function Signed(negative: bool, r: real): real {
    if negative then -r else r
  }

  ghost function NumberValue(t: NumberToken): real {
    Signed(t.negative, Scaled(ValueOf(10, t.whole + t.fraction), ExponentValue(t.exponent) - |t.fraction|))
  }

  // ----- What a token's parts contribute -----

  ghost function TenTo(n: nat): real {
    if n == 0 then 1.0 else 10.0 * TenTo(n - 1)
  }

  lemma {:induction false} Pow10Shift(e: int, n: nat)
    ensures Pow10(e + n) == Pow10(e) * TenTo(n)
  {
    if n > 0 {
      Pow10Shift(e, n - 1);
      assert Pow10(e + n) == 10.0 * Pow10(e + n - 1);
    }
  }

  lemma ScaledBy(negative: bool, v: nat, e: int, n: nat)
    ensures Signed(negative, Scaled(v, e + n)) == Signed(negative, Scaled(v, e)) * TenTo(n)
  {
    Pow10Shift(e, n);
    assert v as real * (Pow10(e) * TenTo(n)) == (v as real * Pow10(e)) * TenTo(n);
  }

  /** The token without its exponent, and the power of ten that the exponent spells. */
  ghost function Mantissa(t: NumberToken): real {
    NumberValue(t.(exponent := NoExponent))
  }

  /** The digits of a token, read as an integer, are its value times a power of ten for each
      digit after the point. */
  lemma MantissaIs(t: NumberToken)
    ensures Mantissa(t) * TenTo(|t.fraction|) == Signed(t.negative, ValueOf(10, t.whole + t.fraction) as real)
  {
    var v := ValueOf(10, t.whole + t.fraction);
    NotScaled(v);
    hide Scaled, Signed, TenTo, ValueOf;
    ScaledBy(t.negative, v, -|t.fraction|, |t.fraction|);
  }

  lemma NotScaled(v: nat)
    ensures Scaled(v, 0) == v as real
  {
  }

  /** An exponent multiplies by that power of ten, and one with a minus divides by it. */
  lemma ExponentIs(t: NumberToken)
    requires t.exponent.Exponent?
    ensures var n := ValueOf(10, t.exponent.digits);
            if t.exponent.sign.Minus? then NumberValue(t) * TenTo(n) == Mantissa(t)
            else NumberValue(t) == Mantissa(t) * TenTo(n)
  {
    hide Scaled, Signed, TenTo, ValueOf;
    var v, n := ValueOf(10, t.whole + t.fraction), ValueOf(10, t.exponent.digits);
    if t.exponent.sign.Minus? {
      ScaledBy(t.negative, v, -n - |t.fraction|, n);
    } else {
      ScaledBy(t.negative, v, -|t.fraction|, n);
    }
  }

  lemma {:induction false} DigitsSpell(ds: seq<Digit>)
    ensures ParseDigitUnits(DigitUnits(ds)) == ValueOf(10, ds)
  {
    if ds != [] {
      DigitsSpell(ds[..|ds| - 1]);
      DigitsLast(ds);
    }
  }

  lemma {:induction false} DigitsLast(ds: seq<Digit>)
    requires ds != []
    ensures DigitUnits(ds) == DigitUnits(ds[..|ds| - 1]) + [ZERO + ds[|ds| - 1]]
  {
    if |ds| > 1 {
      DigitsLast(ds[1..]);
      assert ds[1..][..|ds| - 2] == ds[..|ds| - 1][1..];
    } else {
      assert ds[1..] == [] && ds[..0] == [];
    }
  }

  // ----- The normal form -----

  function StripLeadingZeros(ds: seq<Digit>): (r: seq<Digit>)
    ensures r != [] ==> r[0] != 0
  {
    if ds != [] && ds[0] == 0 then StripLeadingZeros(ds[1..]) else ds
  }

  datatype Stripped = Stripped(digits: seq<Digit>, exponent: int)

  function StripTrailingZeros(ds: seq<Digit>, exponent: int): Stripped {
    if ds != [] && ds[|ds| - 1] == 0 then StripTrailingZeros(ds[..|ds| - 1], exponent + 1)
    else Stripped(ds, exponent)
  }

  function Normalise(t: NumberToken): Stripped {
    StripTrailingZeros(StripLeadingZeros(t.whole + t.fraction), ExponentValue(t.exponent) - |t.fraction|)
  }

  function DigitUnits(ds: seq<Digit>): (t: Text)
    ensures |t| == |ds|
  {
    if ds == [] then [] else [ZERO + ds[0]] + DigitUnits(ds[1..])
  }

  lemma {:induction false} DigitUnitAt(ds: seq<Digit>, i: nat)
    requires i < |ds|
    ensures DigitUnits(ds)[i] == ZERO + ds[i]
  {
    if i > 0 {
      DigitUnitAt(ds[1..], i - 1);
    }
  }

  function IntUnits(n: int): Text {
    Ascii(IntText(n))
  }

  /** The integer that a text of code units spells. */
  function ParseUnits(t: Text): int {
    if t != [] && t[0] == MINUS then -ParseDigitUnits(t[1..]) else ParseDigitUnits(t)
  }

  function ParseDigitUnits(t: Text): int {
    if t == [] then 0 else ParseDigitUnits(t[..|t| - 1]) * 10 + (t[|t| - 1] - ZERO)
  }

  lemma {:induction false} ParseAscii(s: string)
    requires forall i | 0 <= i < |s| :: s[i] < '\U{80}'
    ensures ParseDigitUnits(Ascii(s)) == ParseDecimal(s)
  {
    if s != "" {
      ParseAscii(s[..|s| - 1]);
      assert Ascii(s)[..|s| - 1] == Ascii(s[..|s| - 1]);
    }
  }

  /** String(n) of an integer spells it. */
  lemma IntUnitsParse(n: int)
    ensures ParseUnits(IntUnits(n)) == n
  {
    IntTextParses(n);
    var s := IntText(n);
    ParseAscii(s);
    if n < 0 {
      ParseAscii(s[1..]);
      assert Ascii(s)[1..] == Ascii(s[1..]);
    }
  }

  function MinusIf(negative: bool): Text {
    if negative then [MINUS] else []
  }

  /** The canonical string: '0', or sign, significant digits, 'e' and the exponent. */
  function CanonicalNumber(t: NumberToken): Text
  {
    var n := Normalise(t);
    if n.digits == [] then [ZERO]
    else MinusIf(t.negative) + (DigitUnits(n.digits) + ([LOWER_E] + IntUnits(n.exponent)))
  }

  lemma {:induction false} StripTrailingKeepsDigits(ds: seq<Digit>, e: int)
    ensures var s := StripTrailingZeros(ds, e);
            s.digits <= ds && (s.digits != [] ==> s.digits[|s.digits| - 1] != 0)
  {
    if ds != [] && ds[|ds| - 1] == 0 {
      StripTrailingKeepsDigits(ds[..|ds| - 1], e + 1);
    }
  }

  lemma {:induction false} StripLeadingKeepsDigits(ds: seq<Digit>)
    ensures ValueOf(10, StripLeadingZeros(ds)) == ValueOf(10, ds)
  {
    if ds != [] && ds[0] == 0 {
      StripLeadingKeepsDigits(ds[1..]);
      assert ds == [0] + ds[1..];
      ValueOfConcat(10, [0], ds[1..]);
      assert ValueOf(10, [0]) == 0;
    }
  }

  /** The loops that build the string, as the source runs them. */
  method NormaliseToken(t: NumberToken) returns (canonical: Text)
    ensures canonical == CanonicalNumber(t)
  {
    var digits := StripLeadingZeros(t.whole + t.fraction);
    var exponent := ExponentValue(t.exponent) - |t.fraction|;
    while digits != [] && digits[|digits| - 1] == 0
      invariant StripTrailingZeros(digits, exponent) == Normalise(t)
    {
      digits := digits[..|digits| - 1];
      exponent := exponent + 1;
    }
    if digits == [] {
      return [ZERO];
    }
    canonical := MinusIf(t.negative) + (DigitUnits(digits) + ([LOWER_E] + IntUnits(exponent)));
  }

  // ----- Same string exactly when same rational -----

  lemma {:induction false} Pow10Positive(e: int)
    ensures Pow10(e) > 0.0
    decreases if e < 0 then -e else e
  {
    if e > 0 {
      Pow10Positive(e - 1);
    } else if e < 0 {
      Pow10Positive(e + 1);
    }
  }

  lemma ScaledShift(n: nat, e: int)
    ensures Scaled(10 * n, e) == Scaled(n, e + 1)
  {
    assert Pow10(e + 1) == 10.0 * Pow10(e);
    assert (10 * n) as real == 10.0 * n as real;
  }

  lemma {:induction false} StripTrailingKeepsValue(ds: seq<Digit>, e: int)
    ensures var s := StripTrailingZeros(ds, e);
            Scaled(ValueOf(10, ds), e) == Scaled(ValueOf(10, s.digits), s.exponent)
  {
    if ds != [] && ds[|ds| - 1] == 0 {
      StripTrailingKeepsValue(ds[..|ds| - 1], e + 1);
      ScaledShift(ValueOf(10, ds[..|ds| - 1]), e);
    }
  }

  lemma NormaliseKeepsValue(t: NumberToken)
    ensures var n := Normalise(t);
            && NumberValue(t) == Signed(t.negative, Scaled(ValueOf(10, n.digits), n.exponent))
            && (n.digits != [] ==> n.digits[0] != 0 && n.digits[|n.digits| - 1] != 0 && ValueOf(10, n.digits) > 0)
  {
    var ds := StripLeadingZeros(t.whole + t.fraction);
    var e := ExponentValue(t.exponent) - |t.fraction|;
    StripLeadingKeepsDigits(t.whole + t.fraction);
    StripTrailingKeepsDigits(ds, e);
    StripTrailingKeepsValue(ds, e);
    var n := Normalise(t);
    if n.digits != [] {
      assert n.digits[0] == ds[0];
    }
  }

  lemma {:induction false} ScaledDown(n: nat, e: int, k: nat) returns (m: nat)
    ensures Scaled(n, e + k) == Scaled(m, e)
    ensures k > 0 ==> m % 10 == 0
    ensures k == 0 ==> m == n
    decreases k
  {
    if k == 0 {
      m := n;
    } else {
      var m' := ScaledDown(n, e + 1, k - 1);
      ScaledShift(m', e);
      m := 10 * m';
    }
  }

  lemma ScaledCancels(m: nat, n: nat, e: int)
    requires Scaled(m, e) == Scaled(n, e)
    ensures m == n
  {
    Pow10Positive(e);
    assert (m as real - n as real) * Pow10(e) == 0.0;
    assert m as real == n as real;
  }

  /** A positive rational has one significand not divisible by ten, and one exponent. */
  lemma ScaledUnique(m: nat, d: int, n: nat, e: int)
    requires m % 10 != 0 && n % 10 != 0 && Scaled(m, d) == Scaled(n, e)
    ensures m == n && d == e
  {
    if d >= e {
      var m' := ScaledDown(m, e, d - e);
      ScaledCancels(m', n, e);
    } else {
      var n' := ScaledDown(n, d, e - d);
      ScaledCancels(n', m, d);
    }
  }

  /** No zero at either end. */
  predicate IsStripped(n: Stripped) {
    n.digits != [] ==> n.digits[0] != 0 && n.digits[|n.digits| - 1] != 0 && ValueOf(10, n.digits) > 0
  }

  lemma SameValueSameStripped(p: bool, m: Stripped, q: bool, n: Stripped)
    requires IsStripped(m) && IsStripped(n) && m.digits != [] && n.digits != []
    requires Signed(p, Scaled(ValueOf(10, m.digits), m.exponent)) ==
            Signed(q, Scaled(ValueOf(10, n.digits), n.exponent))
    ensures m == n && p == q
  {
    var a, b := ValueOf(10, m.digits), ValueOf(10, n.digits);
    ScaledSign(a, m.exponent);
    ScaledSign(b, n.exponent);
    DigitsOfTen(m.digits);
    DigitsOfTen(n.digits);
    hide Scaled, ValueOf;
    ScaledUnique(a, m.exponent, b, n.exponent);
    CanonicalDigits(10, m.digits, n.digits);
  }

  lemma EmptyIsZero(p: bool, n: Stripped)
    requires IsStripped(n)
    ensures n.digits == [] <==> Signed(p, Scaled(ValueOf(10, n.digits), n.exponent)) == 0.0
  {
    ScaledSign(ValueOf(10, n.digits), n.exponent);
  }

  /** The rational decides the normal form. */
  lemma SameValueSameNormal(s: NumberToken, t: NumberToken)
    requires NumberValue(s) == NumberValue(t)
    ensures var m, n := Normalise(s), Normalise(t);
            if m.digits == [] then n.digits == [] else m == n && s.negative == t.negative
  {
    NormaliseKeepsValue(s);
    NormaliseKeepsValue(t);
    hide Normalise, NumberValue, Scaled, ValueOf, Signed;
    EmptyIsZero(s.negative, Normalise(s));
    EmptyIsZero(t.negative, Normalise(t));
    if Normalise(s).digits != [] {
      SameValueSameStripped(s.negative, Normalise(s), t.negative, Normalise(t));
    }
  }

  lemma ScaledSign(n: nat, e: int)
    ensures if n == 0 then Scaled(n, e) == 0.0 else Scaled(n, e) > 0.0
  {
    Pow10Positive(e);
  }

  /** Equal canonical strings come from equal normal forms. */
  lemma SameStringSameNormal(s: NumberToken, t: NumberToken)
    requires CanonicalNumber(s) == CanonicalNumber(t)
    ensures var m, n := Normalise(s), Normalise(t);
            if m.digits == [] then n.digits == [] else m == n && s.negative == t.negative
  {
    var m, n := Normalise(s), Normalise(t);
    if m.digits != [] && n.digits != [] {
      CanonicalShape(s.negative, m.digits, m.exponent, t.negative, n.digits, n.exponent);
    }
  }

  lemma SamePrefix(a: Text, x: Text, b: Text, y: Text)
    requires a + x == b + y && |a| == |b|
    ensures a == b && x == y
  {
    assert (a + x)[..|a|] == a && (b + y)[..|b|] == b;
    assert (a + x)[|a|..] == x && (b + y)[|b|..] == y;
  }

  /** Two texts free of `stop` before it end at the same place. */
  lemma SameRun(a: Text, x: Text, b: Text, y: Text, stop: CodeUnit)
    requires a + ([stop] + x) == b + ([stop] + y) && stop !in a && stop !in b
    ensures a == b && x == y
  {
    assert (a + ([stop] + x))[|a|] == stop && (b + ([stop] + y))[|b|] == stop;
    assert forall i | 0 <= i < |a| :: (a + ([stop] + x))[i] != stop;
    assert forall i | 0 <= i < |b| :: (b + ([stop] + y))[i] != stop;
    SamePrefix(a, [stop] + x, b, [stop] + y);
    SamePrefix([stop], x, [stop], y);
  }

  /** No digit looks like the minus sign, so the sign can be told from the first unit. */
  lemma SameSign(p: bool, a: Text, q: bool, b: Text)
    requires MinusIf(p) + a == MinusIf(q) + b
    requires a != [] && b != [] && a[0] != MINUS && b[0] != MINUS
    ensures p == q && a == b
  {
    assert (MinusIf(p) + a)[0] == if p then MINUS else a[0];
    assert (MinusIf(q) + b)[0] == if q then MINUS else b[0];
    SamePrefix(MinusIf(p), a, MinusIf(q), b);
  }

  lemma NoStopInDigits(ds: seq<Digit>)
    ensures LOWER_E !in DigitUnits(ds)
  {
    forall i | 0 <= i < |ds| ensures DigitUnits(ds)[i] != LOWER_E {
      DigitUnitAt(ds, i);
    }
  }

  lemma CanonicalShape(p: bool, ds: seq<Digit>, d: int, q: bool, es: seq<Digit>, e: int)
    requires ds != [] && es != []
    requires MinusIf(p) + (DigitUnits(ds) + ([LOWER_E] + IntUnits(d)))
          == MinusIf(q) + (DigitUnits(es) + ([LOWER_E] + IntUnits(e)))
    ensures p == q && ds == es && d == e
  {
    DigitUnitAt(ds, 0);
    DigitUnitAt(es, 0);
    NoStopInDigits(ds);
    NoStopInDigits(es);
    SameSign(p, DigitUnits(ds) + ([LOWER_E] + IntUnits(d)), q, DigitUnits(es) + ([LOWER_E] + IntUnits(e)));
    SameRun(DigitUnits(ds), IntUnits(d), DigitUnits(es), IntUnits(e), LOWER_E);
    forall i | 0 <= i < |ds| ensures ds[i] == es[i] {
      DigitUnitAt(ds, i);
      DigitUnitAt(es, i);
    }
    AsciiInjective(IntText(d), IntText(e));
    IntTextInjective(d, e);
  }

  lemma AsciiInjective(s: string, t: string)
    requires forall i | 0 <= i < |s| :: s[i] < '\U{80}'
    requires forall i | 0 <= i < |t| :: t[i] < '\U{80}'
    requires Ascii(s) == Ascii(t)
    ensures s == t
  {
    forall i | 0 <= i < |s| ensures s[i] == t[i] {
      assert Ascii(s)[i] == Ascii(t)[i];
    }
  }

  /** Two number tokens get the same canonical string exactly when they denote the same
      rational; every spelling of zero gets '0'. */
  lemma SameCanonicalNumberIff(s: NumberToken, t: NumberToken)
    ensures CanonicalNumber(s) == CanonicalNumber(t) <==> NumberValue(s) == NumberValue(t)
    ensures CanonicalNumber(s) == [ZERO] <==> NumberValue(s) == 0.0
  {
    NormaliseKeepsValue(s);
    NormaliseKeepsValue(t);
    var m, n := Normalise(s), Normalise(t);
    ScaledSign(ValueOf(10, m.digits), m.exponent);
    ScaledSign(ValueOf(10, n.digits), n.exponent);
    if CanonicalNumber(s) == CanonicalNumber(t) {
      SameStringSameNormal(s, t);
    }
    if NumberValue(s) == NumberValue(t) {
      SameValueSameNormal(s, t);
    }
  }
}
