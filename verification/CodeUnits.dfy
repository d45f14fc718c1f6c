/** JavaScript strings: sequences of UTF-16 code units, compared unit by unit. */
module CodeUnits {

  type CodeUnit = u: int | 0 <= u < 0x10000

  type Text = seq<CodeUnit>

  /** The code units of an ASCII literal. */
  function Ascii(s: string): (t: Text)
    requires forall i | 0 <= i < |s| :: s[i] < '\U{80}'
    ensures |t| == |s| && forall i | 0 <= i < |s| :: t[i] == s[i] as int
  {
    seq(|s|, i requires 0 <= i < |s| => s[i] as int)
  }

  /** `piece` stands in `text` at `pos`. */
  predicate At(text: Text, pos: nat, piece: Text): (b: bool)
    ensures b ==> pos + |piece| <= |text|
    decreases |piece|
  {
    if piece == [] then pos <= |text|
    else pos < |text| && text[pos] == piece[0] && At(text, pos + 1, piece[1..])
  }

  lemma {:induction false} AtConcat(text: Text, pos: nat, x: Text, y: Text)
    ensures At(text, pos, x + y) <==> At(text, pos, x) && At(text, pos + |x|, y)
    decreases |x|
  {
    if x == [] {
      assert x + y == y;
    } else {
      AtConcat(text, pos + 1, x[1..], y);
      assert (x + y)[1..] == x[1..] + y;
    }
  }

  lemma {:induction false} AtIsSlice(text: Text, pos: nat, piece: Text)
    requires pos + |piece| <= |text|
    ensures At(text, pos, piece) <==> text[pos..pos + |piece|] == piece
    decreases |piece|
  {
    if piece != [] {
      AtIsSlice(text, pos + 1, piece[1..]);
      var slice := text[pos..pos + |piece|];
      assert slice[1..] == text[pos + 1..pos + |piece|];
      assert slice == [slice[0]] + slice[1..] && piece == [piece[0]] + piece[1..];
    }
  }

  /** A text as the list of its parts. */
  datatype Parts = End | Then(part: Text, rest: Parts)

  function Flat(parts: Parts): Text {
    match parts
    case End => []
    case Then(part, rest) => part + Flat(rest)
  }

  lemma AtParts(text: Text, pos: nat, parts: Parts)
    requires parts.Then? && At(text, pos, Flat(parts))
    ensures At(text, pos, parts.part) && At(text, pos + |parts.part|, Flat(parts.rest))
    ensures |Flat(parts)| == |parts.part| + |Flat(parts.rest)|
  {
    AtConcat(text, pos, parts.part, Flat(parts.rest));
  }

  lemma AtThree(text: Text, pos: nat, a: Text, b: Text, c: Text)
    requires At(text, pos, Flat(Then(a, Then(b, Then(c, End)))))
    ensures At(text, pos, a) && At(text, pos + |a|, b) && At(text, pos + |a| + |b|, c)
    ensures |Flat(Then(a, Then(b, Then(c, End))))| == |a| + |b| + |c|
  {
    AtParts(text, pos, Then(a, Then(b, Then(c, End))));
    AtParts(text, pos + |a|, Then(b, Then(c, End)));
    AtParts(text, pos + |a| + |b|, Then(c, End));
  }

  // ----- Order: the `<` of JavaScript strings -----

  predicate Less(a: Text, b: Text) {
    if b == [] then false
    else if a == [] then true
    else if a[0] != b[0] then a[0] < b[0]
    else Less(a[1..], b[1..])
  }

  /** How two texts compare: at the first place where they differ, or by length when one is the
      beginning of the other. */
  lemma {:induction false} FirstDifference(a: Text, b: Text) returns (k: nat)
    ensures k <= |a| && k <= |b| && a[..k] == b[..k]
    ensures k == |a| || k == |b| || a[k] != b[k]
    ensures Less(a, b) <==> if k < |a| && k < |b| then a[k] < b[k] else k < |b|
  {
    if a != [] && b != [] && a[0] == b[0] {
      k := FirstDifference(a[1..], b[1..]);
      k := k + 1;
      assert a[..k] == [a[0]] + a[1..][..k - 1] && b[..k] == [b[0]] + b[1..][..k - 1];
    } else {
      k := 0;
    }
  }

  lemma {:induction false} LessTransitive(a: Text, b: Text, c: Text)
    requires Less(a, b) && Less(b, c)
    ensures Less(a, c)
  {
    if a != [] && a[0] == b[0] == c[0] {
      LessTransitive(a[1..], b[1..], c[1..]);
    }
  }

  lemma {:induction false} LessTrichotomy(a: Text, b: Text)
    ensures Less(a, b) || a == b || Less(b, a)
    ensures !(Less(a, b) && Less(b, a)) && !Less(a, a)
  {
    if a != [] && b != [] {
      LessTrichotomy(a[1..], b[1..]);
      LessTrichotomy(a[1..], a[1..]);
      if a[0] == b[0] && a[1..] == b[1..] {
        assert a == [a[0]] + a[1..] && b == [b[0]] + b[1..];
      }
    } else if a != [] {
      LessTrichotomy(a[1..], a[1..]);
    }
  }
}
