/** Natural numbers as digit sequences in a base, most significant digit first. */
module Radix {

  ghost predicate AreDigits(base: nat, ds: seq<nat>) {
    forall i | 0 <= i < |ds| :: ds[i] < base
  }

  function ValueOf(base: nat, ds: seq<nat>): nat {
    if ds == [] then 0 else ValueOf(base, ds[..|ds| - 1]) * base + ds[|ds| - 1]
  }

  function DigitsOf(base: nat, n: nat): (ds: seq<nat>)
    requires base >= 2
    ensures ds != []
    decreases n
  {
    if n < base then [n]
    else
      QuotientShrinks(base, n);
      DigitsOf(base, n / base) + [n % base]
  }

  lemma MulMonotone(a: nat, b: nat, k: nat)
    requires a <= b
    ensures a * k <= b * k
  {
    assert (b - a) * k >= 0;
  }

  lemma QuotientShrinks(base: nat, n: nat)
    requires 2 <= base <= n
    ensures 0 < n / base < n
    ensures n == n / base * base + n % base
  {
    var q, r := n / base, n % base;
    assert n == base * q + r;
    assert q != 0;
    MulMonotone(2, base, q);
  }

  lemma {:induction false} DigitsRoundTrip(base: nat, n: nat)
    requires base >= 2
    ensures AreDigits(base, DigitsOf(base, n)) && ValueOf(base, DigitsOf(base, n)) == n
    ensures n > 0 ==> DigitsOf(base, n)[0] != 0
  {
    if n >= base {
      QuotientShrinks(base, n);
      DigitsRoundTrip(base, n / base);
      var high := DigitsOf(base, n / base);
      assert (high + [n % base])[..|high|] == high;
    } else {
      assert [n][..0] == [];
    }
  }

  function Power(base: nat, k: nat): nat {
    if k == 0 then 1 else base * Power(base, k - 1)
  }

  lemma {:induction false} PowerPositive(base: nat, k: nat)
    requires base > 0
    ensures Power(base, k) > 0
  {
    if k > 0 {
      PowerPositive(base, k - 1);
    }
  }

  lemma Distribute(base: nat, h: nat, p: nat, v: nat)
    ensures (h * p + v) * base == h * (base * p) + v * base
  {
    calc {
      (h * p + v) * base;
      (h * p) * base + v * base;
      h * (p * base) + v * base;
    }
  }

  lemma {:induction false} ValueOfConcat(base: nat, high: seq<nat>, low: seq<nat>)
    ensures ValueOf(base, high + low) == ValueOf(base, high) * Power(base, |low|) + ValueOf(base, low)
  {
    if low == [] {
      assert high + low == high;
    } else {
      var low' := low[..|low| - 1];
      assert (high + low)[..|high + low| - 1] == high + low';
      ValueOfConcat(base, high, low');
      Distribute(base, ValueOf(base, high), Power(base, |low'|), ValueOf(base, low'));
    }
  }

  lemma {:induction false} ValueBounded(base: nat, ds: seq<nat>)
    requires base > 0 && AreDigits(base, ds)
    ensures ValueOf(base, ds) < Power(base, |ds|)
  {
    if ds != [] {
      var high := ds[..|ds| - 1];
      ValueBounded(base, high);
      BoundStep(base, ValueOf(base, high), Power(base, |high|), ds[|ds| - 1]);
    }
  }

  lemma BoundStep(base: nat, v: nat, p: nat, d: nat)
    requires v < p && d < base
    ensures v * base + d < base * p
  {
    MulMonotone(v + 1, p, base);
  }

  /** Digit sequences of equal length that denote the same number are the same. */
  lemma {:induction false} SameLengthSameDigits(base: nat, a: seq<nat>, b: seq<nat>)
    requires base > 0 && AreDigits(base, a) && AreDigits(base, b)
    requires |a| == |b| && ValueOf(base, a) == ValueOf(base, b)
    ensures a == b
  {
    if a != [] {
      var a', b' := a[..|a| - 1], b[..|b| - 1];
      LastDigit(base, ValueOf(base, a'), ValueOf(base, b'), a[|a| - 1], b[|b| - 1]);
      SameLengthSameDigits(base, a', b');
      assert a == a' + [a[|a| - 1]] && b == b' + [b[|b| - 1]];
    }
  }

  lemma LastDigit(base: nat, q: nat, r: nat, d: nat, e: nat)
    requires d < base && e < base && q * base + d == r * base + e
    ensures q == r && d == e
  {
    if q < r {
      MulMonotone(q + 1, r, base);
    } else if r < q {
      MulMonotone(r + 1, q, base);
    }
  }

  /** Without leading zeros the number decides the digits, length included. */
  lemma {:induction false} CanonicalDigits(base: nat, a: seq<nat>, b: seq<nat>)
    requires base > 0 && AreDigits(base, a) && AreDigits(base, b)
    requires a != [] && a[0] != 0 && b != [] && b[0] != 0
    requires ValueOf(base, a) == ValueOf(base, b)
    ensures a == b
  {
    if |a| < |b| {
      ShorterIsSmaller(base, a, b);
    } else if |b| < |a| {
      ShorterIsSmaller(base, b, a);
    }
    SameLengthSameDigits(base, a, b);
  }

  lemma LeadingDigit(base: nat, b: seq<nat>)
    requires b != [] && b[0] != 0
    ensures ValueOf(base, b) >= Power(base, |b| - 1)
  {
    var top := [b[0]];
    assert b == top + b[1..];
    ValueOfConcat(base, top, b[1..]);
    assert ValueOf(base, top) == b[0];
    MulMonotone(1, b[0], Power(base, |b| - 1));
  }

  lemma ShorterIsSmaller(base: nat, a: seq<nat>, b: seq<nat>)
    requires base > 0 && AreDigits(base, a) && |a| < |b| && b[0] != 0
    ensures ValueOf(base, a) < ValueOf(base, b)
  {
    ValueBounded(base, a);
    LeadingDigit(base, b);
    PowerMonotone(base, |a|, |b| - 1);
  }

  lemma {:induction false} PowerMonotone(base: nat, j: nat, k: nat)
    requires base > 0 && j <= k
    ensures Power(base, j) <= Power(base, k)
  {
    if j < k {
      PowerMonotone(base, j, k - 1);
      MulMonotone(1, base, Power(base, k - 1));
    }
  }

  // ----- Decimal text -----

  function DigitChar(d: nat): char
    requires d < 10
  {
    '0' + d as char
  }

  function DigitText(ds: seq<nat>): (s: string)
    requires AreDigits(10, ds)
    ensures |s| == |ds| && forall i | 0 <= i < |ds| :: s[i] == DigitChar(ds[i])
  {
    seq(|ds|, i requires 0 <= i < |ds| => DigitChar(ds[i]))
  }

  /** String(n) of a non-negative integer. */
  function Decimal(n: nat): (s: string)
    ensures s != [] && forall i | 0 <= i < |s| :: '0' <= s[i] <= '9'
  {
    DigitsRoundTrip(10, n);
    DigitText(DigitsOf(10, n))
  }

  /** String(n) of an integer. */
  function IntText(n: int): (s: string)
    ensures s != [] && (s[0] == '-' <==> n < 0)
  {
    if n < 0 then "-" + Decimal(-n) else Decimal(n)
  }

  lemma DecimalInjective(m: nat, n: nat)
    requires Decimal(m) == Decimal(n)
    ensures m == n
  {
    DigitsRoundTrip(10, m);
    DigitsRoundTrip(10, n);
    var a, b := DigitsOf(10, m), DigitsOf(10, n);
    assert |a| == |Decimal(m)| == |Decimal(n)| == |b|;
    forall i | 0 <= i < |a| ensures a[i] == b[i] {
      assert Decimal(m)[i] == DigitChar(a[i]) && Decimal(n)[i] == DigitChar(b[i]);
    }
    assert a == b;
  }

  lemma IntTextInjective(m: int, n: int)
    requires IntText(m) == IntText(n)
    ensures m == n
  {
    if m < 0 {
      assert IntText(m)[1..] == Decimal(-m) && IntText(n)[1..] == Decimal(-n);
      DecimalInjective(-m, -n);
    } else {
      DecimalInjective(m, n);
    }
  }

  // ----- Reading decimals -----

  /** The number that decimal digits spell, each by its distance from '0'. */
  function ParseDecimal(s: string): int {
    if s == "" then 0 else ParseDecimal(s[..|s| - 1]) * 10 + (s[|s| - 1] as int - '0' as int)
  }

  /** The same with a minus sign in front or not. */
  function ParseInt(s: string): int {
    if s != "" && s[0] == '-' then -ParseDecimal(s[1..]) else ParseDecimal(s)
  }

  /** Digits only, and no superfluous zero in front. */
  predicate IsNumeral(s: string) {
    s != "" && (forall i | 0 <= i < |s| :: '0' <= s[i] <= '9') && (s[0] == '0' ==> s == "0")
  }

  lemma {:induction false} DigitTextParses(ds: seq<nat>)
    requires AreDigits(10, ds)
    ensures ParseDecimal(DigitText(ds)) == ValueOf(10, ds)
  {
    if ds != [] {
      var n := |ds| - 1;
      assert DigitText(ds)[..n] == DigitText(ds[..n]);
      DigitTextParses(ds[..n]);
    }
  }

  lemma NumeralDigits(s: string) returns (ds: seq<nat>)
    requires forall i | 0 <= i < |s| :: '0' <= s[i] <= '9'
    ensures AreDigits(10, ds) && |ds| == |s| && DigitText(ds) == s
    ensures forall i | 0 <= i < |s| :: ds[i] == s[i] as int - '0' as int
  {
    ds := seq(|s|, i requires 0 <= i < |s| => s[i] as int - '0' as int);
    assert forall i | 0 <= i < |s| :: DigitText(ds)[i] == s[i];
  }

  /** String(n) is the one numeral that spells n. */
  lemma DecimalIff(n: nat, s: string)
    ensures s == Decimal(n) <==> IsNumeral(s) && ParseDecimal(s) == n
  {
    DecimalParses(n);
    if IsNumeral(s) && ParseDecimal(s) == n {
      var ds := NumeralDigits(s);
      DigitTextParses(ds);
      DigitsRoundTrip(10, n);
      SameNumeral(ds, DigitsOf(10, n));
    }
  }

  lemma SameNumeral(a: seq<nat>, b: seq<nat>)
    requires AreDigits(10, a) && AreDigits(10, b) && a != [] && b != [] && ValueOf(10, a) == ValueOf(10, b)
    requires (a[0] == 0 ==> a == [0]) && (b[0] == 0 ==> b == [0])
    ensures a == b
  {
    assert ValueOf(10, [0]) == 0;
    if a[0] != 0 {
      LeadingDigit(10, a);
      PowerPositive(10, |a| - 1);
    }
    if b[0] != 0 {
      LeadingDigit(10, b);
      PowerPositive(10, |b| - 1);
    }
    if a[0] != 0 && b[0] != 0 {
      CanonicalDigits(10, a, b);
    }
  }

  lemma DecimalParses(n: nat)
    ensures IsNumeral(Decimal(n)) && ParseDecimal(Decimal(n)) == n
  {
    DigitsRoundTrip(10, n);
    var ds := DigitsOf(10, n);
    DigitTextParses(ds);
    assert Decimal(n)[0] == DigitChar(ds[0]);
    assert n == 0 ==> ds == [0];
  }

  /** String(n) of an integer spells it. */
  lemma IntTextParses(n: int)
    ensures ParseInt(IntText(n)) == n
    ensures IsNumeral(if n < 0 then IntText(n)[1..] else IntText(n))
  {
    DecimalParses(if n < 0 then -n else n);
    if n < 0 {
      assert IntText(n)[1..] == Decimal(-n);
    }
  }
}
