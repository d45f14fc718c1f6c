/** The two `?`-to-`$n` scanners (src/db/postgres-driver.ts, convertPlaceholders and
    translatePlaceholders), and when they agree. */
module Placeholders {
  import opened Radix

  /** Where a scan stands: outside quotes, in a '...' literal, or in a "..." identifier. */
  datatype Mode = Plain | Literal | Identifier

  /** One character; `identifiers` says whether double quotes count. */
  function Step(mode: Mode, ch: char, identifiers: bool): Mode {
    match mode
    case Plain =>
      if ch == '\'' then Literal
      else if ch == '\"' && identifiers then Identifier
      else Plain
    case Literal => if ch == '\'' then Plain else Literal
    case Identifier => if ch == '\"' then Plain else Identifier
  }

  /** The mode before position n. A doubled quote inside a literal leaves and re-enters it. */
  function ModeAt(sql: string, n: nat, identifiers: bool): Mode
    requires n <= |sql|
  {
    if n == 0 then Plain else Step(ModeAt(sql, n - 1, identifiers), sql[n - 1], identifiers)
  }

  predicate IsPlaceholder(sql: string, i: nat, identifiers: bool)
    requires i < |sql|
  {
    sql[i] == '?' && ModeAt(sql, i, identifiers).Plain?
  }

  /** How many placeholders stand before position n. */
  function Rank(sql: string, n: nat, identifiers: bool): nat
    requires n <= |sql|
  {
    if n == 0 then 0 else Rank(sql, n - 1, identifiers) + (if IsPlaceholder(sql, n - 1, identifiers) then 1 else 0)
  }

  /** What position i becomes: the k-th placeholder becomes $k, anything else is kept. */
  function Piece(sql: string, i: nat, identifiers: bool): string
    requires i < |sql|
  {
    if IsPlaceholder(sql, i, identifiers) then "$" + Decimal(Rank(sql, i, identifiers) + 1) else [sql[i]]
  }

  /** The translation of the first n characters. */
  function Translated(sql: string, n: nat, identifiers: bool): string
    requires n <= |sql|
  {
    if n == 0 then "" else Translated(sql, n - 1, identifiers) + Piece(sql, n - 1, identifiers)
  }

  lemma ScanStart(sql: string, identifiers: bool)
    ensures ModeAt(sql, 0, identifiers) == Plain && Rank(sql, 0, identifiers) == 0
            && Translated(sql, 0, identifiers) == ""
  {
  }

  /** What one more character changes. */
  lemma ScanStep(sql: string, i: nat, identifiers: bool)
    requires i < |sql|
    ensures var mode, rank := ModeAt(sql, i, identifiers), Rank(sql, i, identifiers);
            && ModeAt(sql, i + 1, identifiers) == Step(mode, sql[i], identifiers)
            && Rank(sql, i + 1, identifiers) == (if mode.Plain? && sql[i] == '?' then rank + 1 else rank)
            && Translated(sql, i + 1, identifiers) == Translated(sql, i, identifiers)
                 + (if mode.Plain? && sql[i] == '?' then "$" + Decimal(rank + 1) else [sql[i]])
  {
    hide Decimal;
  }

  method ConvertPlaceholders(sql: string) returns (out: string)
    ensures out == Translated(sql, |sql|, true)
  {
    hide Decimal, ModeAt, Rank, Translated;
    ScanStart(sql, true);
    out := "";
    var paramIndex := 0;
    var inSingleQuote, inDoubleQuote := false, false;
    var i := 0;
    while i < |sql|
      invariant i <= |sql| && paramIndex == Rank(sql, i, true)
      invariant inSingleQuote <==> ModeAt(sql, i, true).Literal?
      invariant inDoubleQuote <==> ModeAt(sql, i, true).Identifier?
      invariant out == Translated(sql, i, true)
    {
      var ch := sql[i];
      ScanStep(sql, i, true);
      if inSingleQuote {
        out := out + [ch];
        if ch == '\'' {
          if i + 1 < |sql| && sql[i + 1] == '\'' {
            // A doubled quote is written out whole; the literal goes on.
            i := i + 1;
            ScanStep(sql, i, true);
            out := out + [sql[i]];
          } else {
            inSingleQuote := false;
          }
        }
      } else if inDoubleQuote {
        out := out + [ch];
        if ch == '\"' {
          inDoubleQuote := false;
        }
      } else if ch == '\'' {
        inSingleQuote := true;
        out := out + [ch];
      } else if ch == '\"' {
        inDoubleQuote := true;
        out := out + [ch];
      } else if ch == '?' {
        paramIndex := paramIndex + 1;
        out := out + ("$" + Decimal(paramIndex));
      } else {
        out := out + [ch];
      }
      i := i + 1;
    }
  }

  method TranslatePlaceholders(sql: string) returns (out: string)
    ensures out == Translated(sql, |sql|, false)
  {
    hide Decimal, ModeAt, Rank, Translated;
    ScanStart(sql, false);
    out := "";
    var inString := false;
    var paramIndex := 0;
    for i := 0 to |sql|
      invariant paramIndex == Rank(sql, i, false) && out == Translated(sql, i, false)
      invariant inString <==> ModeAt(sql, i, false).Literal?
      invariant !ModeAt(sql, i, false).Identifier?
    {
      var ch := sql[i];
      ScanStep(sql, i, false);
      if ch == '\'' {
        inString := !inString;
        out := out + [ch];
      } else if ch == '?' && !inString {
        paramIndex := paramIndex + 1;
        out := out + ("$" + Decimal(paramIndex));
      } else {
        out := out + [ch];
      }
    }
  }

  // ----- What the translation means -----

  lemma {:induction false} TranslatedPrefix(sql: string, m: nat, n: nat, identifiers: bool)
    requires m <= n <= |sql|
    ensures Translated(sql, m, identifiers) <= Translated(sql, n, identifiers)
    ensures Rank(sql, m, identifiers) <= Rank(sql, n, identifiers)
  {
    hide ModeAt, Piece, IsPlaceholder;
    if m < n {
      TranslatedPrefix(sql, m, n - 1, identifiers);
    }
  }

  /** Position i's piece stands in the output right after the pieces before it: a placeholder as
      `$` and a numeral that spells one more than the placeholders before it, any other character
      as itself. */
  lemma PieceInOutput(sql: string, i: nat, identifiers: bool)
    requires i < |sql|
    ensures var at := |Translated(sql, i, identifiers)|;
            var out := Translated(sql, |sql|, identifiers);
            var piece := Piece(sql, i, identifiers);
            && at + |piece| <= |out| && out[at..at + |piece|] == piece
            && if IsPlaceholder(sql, i, identifiers) then
                 && piece[0] == '$' && IsNumeral(piece[1..])
                 && ParseDecimal(piece[1..]) == |PlaceholdersBefore(sql, i, identifiers)| + 1
               else piece == [sql[i]]
  {
    DecimalParses(Rank(sql, i, identifiers) + 1);
    RankCounts(sql, i, identifiers);
    PieceStands(sql, i, identifiers);
    hide Translated, Rank;
  }

  lemma PieceStands(sql: string, i: nat, identifiers: bool)
    requires i < |sql|
    ensures var at := |Translated(sql, i, identifiers)|;
            var out := Translated(sql, |sql|, identifiers);
            var piece := Piece(sql, i, identifiers);
            at + |piece| <= |out| && out[at..at + |piece|] == piece
  {
    hide ModeAt, Piece;
    TranslatedPrefix(sql, i + 1, |sql|, identifiers);
    var before, upTo := Translated(sql, i, identifiers), Translated(sql, i + 1, identifiers);
    assert upTo[|before|..] == Piece(sql, i, identifiers);
  }

  function PlaceholdersBefore(sql: string, n: nat, identifiers: bool): set<nat>
    requires n <= |sql|
  {
    set i: nat | i < n && IsPlaceholder(sql, i, identifiers)
  }

  lemma {:induction false} RankCounts(sql: string, n: nat, identifiers: bool)
    requires n <= |sql|
    ensures Rank(sql, n, identifiers) == |PlaceholdersBefore(sql, n, identifiers)|
  {
    hide IsPlaceholder;
    if n > 0 {
      RankCounts(sql, n - 1, identifiers);
      var before := PlaceholdersBefore(sql, n - 1, identifiers);
      assert PlaceholdersBefore(sql, n, identifiers) ==
        if IsPlaceholder(sql, n - 1, identifiers) then before + {n - 1} else before;
    }
  }

  // ----- Statements written from their parts -----

  /** A statement is code, literals and quoted identifiers one after another. */
  datatype Part = Code(text: string) | Quoted(content: string) | Named(content: string)

  function Doubled(content: string, quote: char): string {
    if content == "" then ""
    else (if content[0] == quote then [quote, quote] else [content[0]]) + Doubled(content[1..], quote)
  }

  function Written(part: Part): string {
    match part
    case Code(text) => text
    case Quoted(content) => "\'" + (Doubled(content, '\'') + "\'")
    case Named(content) => "\"" + (Doubled(content, '\"') + "\"")
  }

  function WrittenAll(parts: seq<Part>): string {
    if parts == [] then "" else WrittenAll(parts[..|parts| - 1]) + Written(parts[|parts| - 1])
  }

  /** Code with its question marks numbered on from k. */
  function Numbered(text: string, k: nat): string {
    if text == "" then ""
    else if text[0] == '?' then ("$" + Decimal(k + 1)) + Numbered(text[1..], k + 1)
    else [text[0]] + Numbered(text[1..], k)
  }

  function Questions(text: string): nat {
    if text == "" then 0 else (if text[0] == '?' then 1 else 0) + Questions(text[1..])
  }

  function QuestionsIn(parts: seq<Part>): nat {
    if parts == [] then 0
    else
      var last := parts[|parts| - 1];
      QuestionsIn(parts[..|parts| - 1]) + (if last.Code? then Questions(last.text) else 0)
  }

  /** The statement with the question marks of its code numbered, and nothing else changed. */
  function NumberedAll(parts: seq<Part>): string {
    if parts == [] then ""
    else
      var before, last := parts[..|parts| - 1], parts[|parts| - 1];
      NumberedAll(before) + (if last.Code? then Numbered(last.text, QuestionsIn(before)) else Written(last))
  }

  /** Code holds no quotes that the scanner heeds, and quoted identifiers are for the one that
      heeds double quotes. */
  predicate Fits(part: Part, identifiers: bool) {
    match part
    case Code(text) => '\'' !in text && (identifiers ==> '\"' !in text)
    case Quoted(_) => true
    case Named(_) => identifiers
  }

  /** Where a scanner has come to after a whole text: mode, count and output. */
  datatype Scan = Scan(mode: Mode, rank: nat, out: string)

  function ScanOf(sql: string, identifiers: bool): Scan {
    Scan(ModeAt(sql, |sql|, identifiers), Rank(sql, |sql|, identifiers), Translated(sql, |sql|, identifiers))
  }

  lemma {:induction false} PrefixMode(sql: string, more: string, n: nat, identifiers: bool)
    requires n <= |sql|
    ensures ModeAt(sql + more, n, identifiers) == ModeAt(sql, n, identifiers)
  {
    hide Step;
    if n > 0 {
      PrefixMode(sql, more, n - 1, identifiers);
    }
  }

  lemma {:induction false} PrefixScan(sql: string, more: string, n: nat, identifiers: bool)
    requires n <= |sql|
    ensures ModeAt(sql + more, n, identifiers) == ModeAt(sql, n, identifiers)
    ensures Rank(sql + more, n, identifiers) == Rank(sql, n, identifiers)
    ensures Translated(sql + more, n, identifiers) == Translated(sql, n, identifiers)
  {
    hide ModeAt, IsPlaceholder, Piece;
    PrefixMode(sql, more, n, identifiers);
    if n > 0 {
      PrefixScan(sql, more, n - 1, identifiers);
      PrefixPiece(sql, more, n - 1, identifiers);
    }
  }

  lemma PrefixPiece(sql: string, more: string, i: nat, identifiers: bool)
    requires i < |sql| && Rank(sql + more, i, identifiers) == Rank(sql, i, identifiers)
    ensures IsPlaceholder(sql + more, i, identifiers) == IsPlaceholder(sql, i, identifiers)
    ensures Piece(sql + more, i, identifiers) == Piece(sql, i, identifiers)
  {
    hide ModeAt, Rank, Decimal;
    PrefixMode(sql, more, i, identifiers);
  }

  /** One character further. */
  lemma ScanNext(sql: string, c: char, identifiers: bool)
    ensures var s := ScanOf(sql, identifiers);
            ScanOf(sql + [c], identifiers) ==
              if s.mode.Plain? && c == '?' then Scan(Plain, s.rank + 1, s.out + ("$" + Decimal(s.rank + 1)))
              else Scan(Step(s.mode, c, identifiers), s.rank, s.out + [c])
  {
    hide Decimal;
    PrefixScan(sql, [c], |sql|, identifiers);
  }

  lemma {:induction false} ScanCode(sql: string, text: string, identifiers: bool)
    requires ScanOf(sql, identifiers).mode.Plain? && Fits(Code(text), identifiers)
    ensures var s := ScanOf(sql, identifiers);
            ScanOf(sql + text, identifiers) == Scan(Plain, s.rank + Questions(text), s.out + Numbered(text, s.rank))
    decreases text
  {
    hide ScanOf, Decimal;
    if text == "" {
      assert sql + text == sql && ScanOf(sql, identifiers).out + "" == ScanOf(sql, identifiers).out;
    } else {
      assert text[0] in text && forall c | c in text[1..] :: c in text;
      ScanNext(sql, text[0], identifiers);
      ScanCode(sql + [text[0]], text[1..], identifiers);
      assert sql + text == sql + [text[0]] + text[1..];
      var s := ScanOf(sql, identifiers);
      var piece := if text[0] == '?' then "$" + Decimal(s.rank + 1) else [text[0]];
      var rest := Numbered(text[1..], if text[0] == '?' then s.rank + 1 else s.rank);
      assert s.out + piece + rest == s.out + (piece + rest);
    }
  }

  /** A character of a literal's content, or of an identifier's, as it is written. */
  lemma ScanOneQuoted(sql: string, c: char, quote: char, identifiers: bool)
    requires quote == '\'' || (quote == '\"' && identifiers)
    requires ScanOf(sql, identifiers).mode == if quote == '\'' then Literal else Identifier
    ensures var s, first := ScanOf(sql, identifiers), if c == quote then [quote, quote] else [c];
            ScanOf(sql + first, identifiers) == s.(out := s.out + first)
  {
    hide ScanOf;
    ScanNext(sql, c, identifiers);
    if c == quote {
      var s := ScanOf(sql, identifiers);
      ScanNext(sql + [quote], quote, identifiers);
      assert sql + [quote] + [quote] == sql + [quote, quote] && s.out + [quote] + [quote] == s.out + [quote, quote];
    }
  }

  /** Inside quotes nothing is numbered, and a doubled quote leaves and enters again. */
  lemma {:induction false} ScanQuoted(sql: string, content: string, quote: char, identifiers: bool)
    requires quote == '\'' || (quote == '\"' && identifiers)
    requires ScanOf(sql, identifiers).mode == if quote == '\'' then Literal else Identifier
    ensures var s := ScanOf(sql, identifiers);
            ScanOf(sql + Doubled(content, quote), identifiers) == s.(out := s.out + Doubled(content, quote))
    decreases content
  {
    hide ScanOf;
    var s := ScanOf(sql, identifiers);
    if content == "" {
      assert sql + "" == sql && s.out + "" == s.out;
    } else {
      var first := if content[0] == quote then [quote, quote] else [content[0]];
      ScanOneQuoted(sql, content[0], quote, identifiers);
      ScanQuoted(sql + first, content[1..], quote, identifiers);
      var rest := Doubled(content[1..], quote);
      assert sql + first + rest == sql + (first + rest) && s.out + first + rest == s.out + (first + rest);
    }
  }

  lemma ScanQuotes(sql: string, content: string, quote: char, identifiers: bool)
    requires quote == '\'' || (quote == '\"' && identifiers)
    requires ScanOf(sql, identifiers).mode.Plain?
    ensures var s, written := ScanOf(sql, identifiers), [quote] + (Doubled(content, quote) + [quote]);
            ScanOf(sql + written, identifiers) == s.(out := s.out + written)
  {
    hide ScanOf;
    var s, inner := ScanOf(sql, identifiers), Doubled(content, quote);
    ScanNext(sql, quote, identifiers);
    ScanQuoted(sql + [quote], content, quote, identifiers);
    ScanNext(sql + [quote] + inner, quote, identifiers);
    assert sql + [quote] + inner + [quote] == sql + ([quote] + (inner + [quote]));
    assert s.out + [quote] + inner + [quote] == s.out + ([quote] + (inner + [quote]));
  }

  /** Both scanners number exactly the question marks of the code, in order, and copy everything
      else: literals with their doubled quotes, and for the one that heeds them identifiers. */
  lemma {:induction false} PartsTranslated(parts: seq<Part>, identifiers: bool)
    requires forall i | 0 <= i < |parts| :: Fits(parts[i], identifiers)
    ensures var sql := WrittenAll(parts); Translated(sql, |sql|, identifiers) == NumberedAll(parts)
    ensures ScanOf(WrittenAll(parts), identifiers) == Scan(Plain, QuestionsIn(parts), NumberedAll(parts))
  {
    if parts != [] {
      var before, last := parts[..|parts| - 1], parts[|parts| - 1];
      PartsTranslated(before, identifiers);
      var sql := WrittenAll(before);
      assert WrittenAll(parts) == sql + Written(last);
      LastPart(sql, last, identifiers);
      hide Translated, ModeAt, Rank, Numbered, Written, WrittenAll;
    }
  }

  lemma LastPart(sql: string, last: Part, identifiers: bool)
    requires ScanOf(sql, identifiers).mode.Plain? && Fits(last, identifiers)
    ensures var s := ScanOf(sql, identifiers);
            ScanOf(sql + Written(last), identifiers) ==
              Scan(Plain, s.rank + (if last.Code? then Questions(last.text) else 0),
                   s.out + (if last.Code? then Numbered(last.text, s.rank) else Written(last)))
  {
    match last
    case Code(text) => ScanCode(sql, text, identifiers);
    case Quoted(content) => ScanQuotes(sql, content, '\'', identifiers);
    case Named(content) => ScanQuotes(sql, content, '\"', identifiers);
  }

  /** Where the parts of a statement have come to after its first n characters: complete, or inside
      an opening quote with some content. */
  ghost predicate PartsSoFar(sql: string, n: nat, identifiers: bool, parts: seq<Part>, open: string)
    requires n <= |sql|
  {
    && (forall i | 0 <= i < |parts| :: Fits(parts[i], identifiers))
    && match ModeAt(sql, n, identifiers)
       case Plain => sql[..n] == WrittenAll(parts)
       case Literal => '\'' !in open && sql[..n] == WrittenAll(parts) + ("\'" + open)
       case Identifier => '\"' !in open && sql[..n] == WrittenAll(parts) + ("\"" + open)
  }

  lemma {:induction false} NothingDoubled(content: string, quote: char)
    requires quote !in content
    ensures Doubled(content, quote) == content
  {
    if content != "" {
      NothingDoubled(content[1..], quote);
    }
  }

  lemma OnePartMore(parts: seq<Part>, part: Part, before: string)
    requires before == WrittenAll(parts) + Written(part)
    ensures before == WrittenAll(parts + [part])
  {
    assert (parts + [part])[..|parts|] == parts;
  }

  lemma FitsToo(parts: seq<Part>, part: Part, identifiers: bool)
    requires Fits(part, identifiers) && forall i | 0 <= i < |parts| :: Fits(parts[i], identifiers)
    ensures forall i | 0 <= i < |parts + [part]| :: Fits((parts + [part])[i], identifiers)
  {
  }

  /** One more character of code, or an opening quote. */
  lemma NextInCode(sql: string, n: nat, identifiers: bool, parts: seq<Part>) returns (more: seq<Part>)
    requires n < |sql| && PartsSoFar(sql, n, identifiers, parts, "") && ModeAt(sql, n, identifiers).Plain?
    ensures PartsSoFar(sql, n + 1, identifiers, more, "")
    ensures !identifiers ==> !ModeAt(sql, n + 1, identifiers).Identifier?
  {
    hide ModeAt, Rank, Translated, WrittenAll, Doubled, Decimal, Fits;
    ScanStep(sql, n, identifiers);
    var c := sql[n];
    assert sql[..n + 1] == sql[..n] + [c];
    if c == '\'' || (c == '\"' && identifiers) {
      more := parts;
      assert sql[..n + 1] == WrittenAll(parts) + ([c] + "");
    } else {
      more := parts + [Code([c])];
      OneCharacterFits(c, identifiers);
      FitsToo(parts, Code([c]), identifiers);
      OnePartMore(parts, Code([c]), sql[..n + 1]);
    }
  }

  lemma OneCharacterFits(c: char, identifiers: bool)
    requires c != '\'' && !(c == '\"' && identifiers)
    ensures Fits(Code([c]), identifiers)
  {
  }

  /** One more character inside quotes, or the closing quote. */
  lemma NextInQuotes(sql: string, n: nat, identifiers: bool, parts: seq<Part>, open: string)
    returns (more: seq<Part>, now: string)
    requires n < |sql| && PartsSoFar(sql, n, identifiers, parts, open) && !ModeAt(sql, n, identifiers).Plain?
    requires !identifiers ==> !ModeAt(sql, n, identifiers).Identifier?
    ensures PartsSoFar(sql, n + 1, identifiers, more, now)
    ensures !identifiers ==> !ModeAt(sql, n + 1, identifiers).Identifier?
  {
    hide ModeAt, Rank, Translated, WrittenAll, Doubled, Decimal;
    ScanStep(sql, n, identifiers);
    var c, quote := sql[n], if ModeAt(sql, n, identifiers).Literal? then '\'' else '\"';
    assert sql[..n + 1] == sql[..n] + [c];
    if c == quote {
      var part := if quote == '\'' then Quoted(open) else Named(open);
      NothingDoubled(open, quote);
      assert sql[..n + 1] == WrittenAll(parts) + ([quote] + (open + [quote]));
      more, now := parts + [part], "";
      FitsToo(parts, part, identifiers);
      OnePartMore(parts, part, sql[..n + 1]);
    } else {
      more, now := parts, open + [c];
      assert sql[..n + 1] == WrittenAll(parts) + ([quote] + now);
    }
  }

  lemma NothingOpen(sql: string, n: nat, identifiers: bool, parts: seq<Part>, open: string)
    requires n <= |sql| && PartsSoFar(sql, n, identifiers, parts, open) && ModeAt(sql, n, identifiers).Plain?
    ensures PartsSoFar(sql, n, identifiers, parts, "")
  {
  }

  /** Every statement whose quotes are all closed is made of such parts, so the law of parts covers
      it. */
  lemma {:induction false} StatementHasParts(sql: string, n: nat, identifiers: bool)
    returns (parts: seq<Part>, open: string)
    requires n <= |sql|
    ensures PartsSoFar(sql, n, identifiers, parts, open)
    ensures !identifiers ==> !ModeAt(sql, n, identifiers).Identifier?
  {
    if n == 0 {
      parts, open := [], "";
    } else {
      hide PartsSoFar, ModeAt;
      parts, open := StatementHasParts(sql, n - 1, identifiers);
      if ModeAt(sql, n - 1, identifiers).Plain? {
        NothingOpen(sql, n - 1, identifiers, parts, open);
        parts := NextInCode(sql, n - 1, identifiers, parts);
        open := "";
      } else {
        parts, open := NextInQuotes(sql, n - 1, identifiers, parts, open);
      }
    }
  }

  /** So for every statement whose quotes are closed there are parts that fit, whose text it is, and
      its translation numbers exactly their code. */
  lemma ClosedStatementTranslated(sql: string, identifiers: bool) returns (parts: seq<Part>)
    requires ModeAt(sql, |sql|, identifiers).Plain?
    ensures (forall i | 0 <= i < |parts| :: Fits(parts[i], identifiers)) && WrittenAll(parts) == sql
    ensures Translated(sql, |sql|, identifiers) == NumberedAll(parts)
  {
    var open;
    parts, open := StatementHasParts(sql, |sql|, identifiers);
    assert sql[..|sql|] == sql;
    PartsTranslated(parts, identifiers);
  }

  /** Each number from 1 to the count of placeholders is given to exactly one of them. */
  lemma {:induction false} EachNumberOnce(sql: string, n: nat, identifiers: bool, k: nat) returns (i: nat)
    requires n <= |sql| && 1 <= k <= Rank(sql, n, identifiers)
    ensures i < n && IsPlaceholder(sql, i, identifiers) && Rank(sql, i, identifiers) + 1 == k
    ensures forall j | 0 <= j < n && j != i && IsPlaceholder(sql, j, identifiers) :: Rank(sql, j, identifiers) + 1 != k
  {
    if k == Rank(sql, n, identifiers) && IsPlaceholder(sql, n - 1, identifiers) {
      i := n - 1;
      forall j | 0 <= j < i && IsPlaceholder(sql, j, identifiers) ensures Rank(sql, j, identifiers) + 1 != k {
        TranslatedPrefix(sql, j + 1, i, identifiers);
      }
    } else {
      i := EachNumberOnce(sql, n - 1, identifiers, k);
    }
  }

  // ----- When the two scanners agree -----

  /** Both scanners see the first n question marks alike. */
  ghost predicate AgreeBefore(sql: string, n: nat)
    requires n <= |sql|
  {
    forall i | 0 <= i < n :: IsPlaceholder(sql, i, true) <==> IsPlaceholder(sql, i, false)
  }

  lemma {:induction false} AgreeingPrefix(sql: string, n: nat)
    requires n <= |sql| && AgreeBefore(sql, n)
    ensures Translated(sql, n, true) == Translated(sql, n, false) && Rank(sql, n, true) == Rank(sql, n, false)
  {
    hide Piece, IsPlaceholder;
    if n > 0 {
      AgreeingPrefix(sql, n - 1);
      SamePiece(sql, n - 1);
    }
  }

  lemma SamePiece(sql: string, i: nat)
    requires i < |sql| && Rank(sql, i, true) == Rank(sql, i, false)
    requires IsPlaceholder(sql, i, true) <==> IsPlaceholder(sql, i, false)
    ensures Piece(sql, i, true) == Piece(sql, i, false)
  {
    hide IsPlaceholder, Decimal, Rank;
  }

  /** The first question mark they see differently comes out as '$' on one side only. */
  lemma DisagreementShows(sql: string, i: nat)
    requires i < |sql| && AgreeBefore(sql, i)
    requires IsPlaceholder(sql, i, true) != IsPlaceholder(sql, i, false)
    ensures Translated(sql, |sql|, true) != Translated(sql, |sql|, false)
  {
    hide ModeAt, Decimal;
    AgreeingPrefix(sql, i);
    PieceInOutput(sql, i, true);
    PieceInOutput(sql, i, false);
    var at := |Translated(sql, i, true)|;
    assert Translated(sql, |sql|, true)[at] == Piece(sql, i, true)[0];
    assert Translated(sql, |sql|, false)[at] == Piece(sql, i, false)[0];
  }

  /** The two scanners return the same text exactly when every question mark is a placeholder
      for both or for neither. */
  lemma SameTranslationIff(sql: string)
    ensures Translated(sql, |sql|, true) == Translated(sql, |sql|, false) <==> AgreeBefore(sql, |sql|)
  {
    if AgreeBefore(sql, |sql|) {
      AgreeingPrefix(sql, |sql|);
    } else {
      var i :| 0 <= i < |sql| && IsPlaceholder(sql, i, true) != IsPlaceholder(sql, i, false);
      var first := FirstDisagreement(sql, i);
      DisagreementShows(sql, first);
    }
  }

  lemma {:induction false} FirstDisagreement(sql: string, i: nat) returns (first: nat)
    requires i < |sql| && IsPlaceholder(sql, i, true) != IsPlaceholder(sql, i, false)
    ensures first <= i && AgreeBefore(sql, first)
    ensures IsPlaceholder(sql, first, true) != IsPlaceholder(sql, first, false)
  {
    if AgreeBefore(sql, i) {
      first := i;
    } else {
      var j :| 0 <= j < i && IsPlaceholder(sql, j, true) != IsPlaceholder(sql, j, false);
      first := FirstDisagreement(sql, j);
    }
  }

  /** Every double quote lies inside a single-quoted literal. */
  ghost predicate QuotedIdentifiersOnlyInLiterals(sql: string) {
    forall i | 0 <= i < |sql| && sql[i] == '\"' :: ModeAt(sql, i, false).Literal?
  }

  lemma {:induction false} SameMode(sql: string, n: nat)
    requires n <= |sql| && QuotedIdentifiersOnlyInLiterals(sql)
    ensures ModeAt(sql, n, true) == ModeAt(sql, n, false) && !ModeAt(sql, n, false).Identifier?
  {
    if n > 0 {
      SameMode(sql, n - 1);
    }
  }

  /** Without double-quoted identifiers the two scanners return the same text. */
  lemma SameWithoutIdentifiers(sql: string)
    requires QuotedIdentifiersOnlyInLiterals(sql)
    ensures Translated(sql, |sql|, true) == Translated(sql, |sql|, false)
  {
    forall i | 0 <= i < |sql| ensures IsPlaceholder(sql, i, true) <==> IsPlaceholder(sql, i, false) {
      SameMode(sql, i);
    }
    SameTranslationIff(sql);
  }

  /** A question mark in a quoted identifier tells them apart. */
  lemma IdentifierTellsApart()
    ensures Translated("\"?\"", 3, true) != Translated("\"?\"", 3, false)
  {
    var sql := "\"?\"";
    assert sql[0] == '\"' && sql[1] == '?';
    assert ModeAt(sql, 1, true) == Step(ModeAt(sql, 0, true), sql[0], true) == Identifier;
    assert ModeAt(sql, 1, false) == Step(ModeAt(sql, 0, false), sql[0], false) == Plain;
    SameTranslationIff(sql);
  }
}
