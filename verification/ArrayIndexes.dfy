/** The keys that JavaScript enumerates first: array indexes, by number. */
module ArrayIndexes {
  import opened Radix
  import opened CodeUnits
  import opened JsonNumbers

  predicate AreDigitUnits(t: Text) {
    forall i | 0 <= i < |t| :: 0x30 <= t[i] <= 0x39
  }

  /** Digits without leading zeros. */
  predicate IsNumeralText(t: Text) {
    t != [] && AreDigitUnits(t) && (t[0] == 0x30 ==> |t| == 1)
  }

  /** An array index: a decimal below 2^32 - 1 without leading zeros. */
  predicate IsIndex(t: Text) {
    IsNumeralText(t) && (|t| < 10 || (|t| == 10 && !Less(Ascii("4294967294"), t)))
  }

  /** The numeric order of indexes. */
  predicate IndexLess(a: Text, b: Text) {
    |a| < |b| || (|a| == |b| && Less(a, b))
  }

  lemma {:induction false} LongerIsGreater(a: Text, b: Text)
    requires AreDigitUnits(a) && AreDigitUnits(b) && |a| > |b| && a[0] != 0x30
    ensures ParseDigitUnits(a) > ParseDigitUnits(b) >= 0
  {
    if b != [] {
      LongerIsGreater(a[..|a| - 1], b[..|b| - 1]);
    } else if |a| > 1 {
      LongerIsGreater(a[..|a| - 1], b);
    }
  }

  lemma {:induction false} SameLengthOrder(a: Text, b: Text)
    requires AreDigitUnits(a) && AreDigitUnits(b) && |a| == |b|
    ensures Less(a, b) <==> ParseDigitUnits(a) < ParseDigitUnits(b)
    decreases |a|
  {
    if a != [] {
      var n := |a| - 1;
      SameLengthOrder(a[..n], b[..n]);
      SameLengthOrder(b[..n], a[..n]);
      LessTrichotomy(a[..n], b[..n]);
      LessByLast(a, b);
    }
  }

  lemma {:induction false} LessByLast(a: Text, b: Text)
    requires |a| == |b| > 0
    ensures var n := |a| - 1;
            Less(a, b) <==> Less(a[..n], b[..n]) || (a[..n] == b[..n] && a[n] < b[n])
    decreases |a|
  {
    var n := |a| - 1;
    if n > 0 && a[0] == b[0] {
      LessByLast(a[1..], b[1..]);
      assert a[1..][..n - 1] == a[..n][1..] && b[1..][..n - 1] == b[..n][1..];
      assert a[..n] == [a[0]] + a[..n][1..] && b[..n] == [b[0]] + b[..n][1..];
    }
  }

  lemma DigitsSpellNumber(t: Text)
    requires IsNumeralText(t)
    ensures ParseDigitUnits(t) >= 0 && t == IntUnits(ParseDigitUnits(t))
  {
    hide ParseDigitUnits, ParseDecimal, Decimal;
    var s := AsNumeral(t);
    ParseAscii(s);
    ParseNotNegative(t);
    DecimalIff(ParseDigitUnits(t), s);
  }

  lemma AsNumeral(t: Text) returns (s: string)
    requires IsNumeralText(t)
    ensures (forall i | 0 <= i < |s| :: s[i] < '\U{80}') && t == Ascii(s) && IsNumeral(s)
  {
    s := seq(|t|, i requires 0 <= i < |t| => t[i] as char);
  }

  lemma {:induction false} ParseNotNegative(t: Text)
    requires AreDigitUnits(t)
    ensures ParseDigitUnits(t) >= 0
  {
    if t != [] {
      ParseNotNegative(t[..|t| - 1]);
    }
  }

  lemma NumberIsDigits(n: nat)
    ensures var t := IntUnits(n);
            IsNumeralText(t) && ParseDigitUnits(t) == n
  {
    DecimalIff(n, Decimal(n));
    ParseAscii(Decimal(n));
  }

  lemma LimitParses(t: Text)
    requires t == Ascii("4294967294")
    ensures ParseDigitUnits(t) == 4294967294
  {
    assert ParseDigitUnits(t[..1]) == 4 by { assert t[..1][..0] == []; }
    assert ParseDigitUnits(t[..2]) == 42 by { assert t[..2][..1] == t[..1]; }
    assert ParseDigitUnits(t[..4]) == 4294 by { assert t[..4][..3] == t[..3] && t[..3][..2] == t[..2]; }
    assert ParseDigitUnits(t[..6]) == 429496 by { assert t[..6][..5] == t[..5] && t[..5][..4] == t[..4]; }
    assert ParseDigitUnits(t[..8]) == 42949672 by { assert t[..8][..7] == t[..7] && t[..7][..6] == t[..6]; }
    assert t[..10] == t && t[..10][..9] == t[..9] && t[..9][..8] == t[..8];
  }

  /** Index keys are exactly the numbers below 2^32 - 1, written without leading zeros. */
  lemma IndexIff(t: Text)
    ensures IsIndex(t) <==> exists n: nat :: n < 0xFFFF_FFFF && t == IntUnits(n)
  {
    hide ParseDigitUnits, Less, IntUnits;
    if n: nat :| n < 0xFFFF_FFFF && t == IntUnits(n) {
      NumberIsDigits(n);
      BelowLimit(t);
    }
    if IsNumeralText(t) {
      DigitsSpellNumber(t);
      BelowLimit(t);
    }
  }

  lemma BelowLimit(t: Text)
    requires IsNumeralText(t)
    ensures IsIndex(t) <==> ParseDigitUnits(t) < 0xFFFF_FFFF
  {
    hide ParseDigitUnits, Less;
    var limit := Ascii("4294967294");
    LimitParses(limit);
    if |t| < 10 {
      LongerIsGreater(limit, t);
    } else if |t| == 10 {
      SameLengthOrder(limit, t);
    } else {
      LongerIsGreater(t, limit);
    }
  }

  /** They are enumerated by number. */
  lemma IndexesByNumber(m: nat, n: nat)
    ensures IndexLess(IntUnits(m), IntUnits(n)) <==> m < n
  {
    NumberIsDigits(m);
    NumberIsDigits(n);
    var a, b := IntUnits(m), IntUnits(n);
    if |a| == |b| {
      SameLengthOrder(a, b);
    } else if |a| < |b| {
      LongerIsGreater(b, a);
    } else {
      LongerIsGreater(a, b);
    }
  }
}
