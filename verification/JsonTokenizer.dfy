/** The tokenizer as the source runs it: one shared position, advanced in loops. */
module JsonTokenizer {
  import opened CodeUnits
  import opened JsonNumbers
  import opened JsonText
  import opened CanonicalJson
  import opened JsonEquality
  import opened Sorting

  class Tokenizer {
    const text: Text
    var position: nat

    constructor (text: Text)
      ensures this.text == text && position == 0
    {
      this.text := text;
      position := 0;
    }

    method Whitespace()
      modifies this
      ensures position == SkipSpace(text, old(position))
    {
      while position < |text| && IsSpace(text[position])
        invariant SkipSpace(text, position) == SkipSpace(text, old(position))
        decreases Remaining(text, position)
      {
        position := position + 1;
      }
    }

    /** The literal from its opening quote; `ok` is false where the source throws. */
    method StringLiteral() returns (ok: bool, units: Text)
      requires position < |text|
      modifies this
      ensures match StringAt(text, old(position))
              case Fail => !ok
              case Done(u, next) => ok && units == u && position == next
    {
      var start := position;
      position := position + 1;
      var closed := false;
      while position < |text| && !closed
        invariant position > start
        invariant if closed then position == SkipBody(text, start + 1)
                  else SkipBody(text, position) == SkipBody(text, start + 1)
        decreases Remaining(text, position), !closed
      {
        if text[position] == BACKSLASH {
          position := position + 2;
        } else {
          closed := text[position] == QUOTE;
          position := position + 1;
        }
      }
      var stop := if position <= |text| then position else |text|;
      units := [];
      if text[start] != QUOTE {
        return false, units;
      }
      match DecodeBody(text[start + 1..stop]) {
        case Malformed => ok := false;
        case Units(decoded) => ok, units := true, decoded;
      }
    }

    method Comma()
      modifies this
      ensures position == SkipComma(text, old(position))
    {
      Whitespace();
      if position < |text| && text[position] == COMMA {
        position := position + 1;
      }
    }

    method Value() returns (ok: bool, tree: Tree)
      modifies this
      ensures match ValueAt(text, old(position))
              case Fail => !ok
              case Done(t, next) => ok && tree == t && position == next
      decreases Remaining(text, position), 1
    {
      ok, tree := false, TLiteral([]);
      Whitespace();
      if position >= |text| {
        return;
      }
      ghost var here := ValueHere(text, position);
      assert here == ValueAt(text, old(position));
      if text[position] == QUOTE {
        var units;
        ok, units := StringLiteral();
        tree := TString(units);
      } else if text[position] == OPEN_ARRAY {
        var items;
        ok, items := Items();
        tree := TArray(items);
      } else if text[position] == OPEN_OBJECT {
        var entries;
        ok, entries := Members();
        LessIsOrder();
        tree := TObject(SortedEntries(Less, entries));
      } else {
        ok, tree := Scalar();
      }
      assert here.Fail? ==> !ok;
      assert here.Done? ==> ok && tree == here.value && position == here.next;
    }

    method Scalar() returns (ok: bool, tree: Tree)
      requires position < |text|
      modifies this
      ensures match ScalarAt(text, old(position))
              case Fail => !ok
              case Done(t, next) => ok && tree == t && position == next
    {
      var literals := [NULL_TEXT, TRUE_TEXT, FALSE_TEXT];
      for i := 0 to 3
        invariant position == old(position)
        invariant forall j | 0 <= j < i :: !At(text, position, literals[j])
      {
        if At(text, position, literals[i]) {
          tree := TLiteral(literals[i]);
          position := position + |literals[i]|;
          return true, tree;
        }
      }
      assert forall j | 0 <= j < 3 :: !At(text, position, literals[j]);
      assert literals[0] == NULL_TEXT && literals[1] == TRUE_TEXT && literals[2] == FALSE_TEXT;
      match NumberAt(text, position) {
        case Fail => ok, tree := false, TLiteral([]);
        case Done(token, next) =>
          var canonical := NormaliseToken(token);
          ok, tree := true, TNumber(canonical);
          position := next;
      }
    }

    method Items() returns (ok: bool, items: seq<Tree>)
      requires position < |text|
      modifies this
      ensures match ItemsAt(text, SkipSpace(text, old(position) + 1), [])
              case Fail => !ok
              case Done(all, next) => ok && items == all && position == next
      decreases Remaining(text, position), 0
    {
      ok, items := true, [];
      position := position + 1;
      Whitespace();
      while !Stands(text, position, CLOSE_ARRAY)
        invariant position > old(position)
        invariant ItemsAt(text, position, items) == ItemsAt(text, SkipSpace(text, old(position) + 1), [])
        decreases Remaining(text, position)
      {
        var item;
        ok, item := Value();
        if !ok { return; }
        Comma();
        items := items + [item];
      }
      position := position + 1;
    }

    method Members() returns (ok: bool, entries: map<Text, Tree>)
      requires position < |text|
      modifies this
      ensures match MembersAt(text, SkipSpace(text, old(position) + 1), map[])
              case Fail => !ok
              case Done(all, next) => ok && entries == all && position == next
      decreases Remaining(text, position), 0
    {
      ok, entries := true, map[];
      position := position + 1;
      Whitespace();
      while !Stands(text, position, CLOSE_OBJECT)
        invariant position > old(position)
        invariant MembersAt(text, position, entries) == MembersAt(text, SkipSpace(text, old(position) + 1), map[])
        decreases Remaining(text, position)
      {
        var name, value;
        ok, name := Name();
        if !ok { return; }
        ok, value := Value();
        if !ok { return; }
        Comma();
        entries := entries[name := value];
      }
      position := position + 1;
    }

    method Name() returns (ok: bool, name: Text)
      modifies this
      ensures match NameAt(text, old(position))
              case Fail => !ok
              case Done(n, next) => ok && name == n && position == next
    {
      ok, name := false, [];
      Whitespace();
      if position >= |text| {
        return;
      }
      ok, name := StringLiteral();
      if ok {
        Whitespace();
        position := position + 1;
      }
    }
  }

  /** `parses` is the verdict of JSON.parse on the text. */
  method CanonicaliseText(text: Text, parses: bool) returns (r: Canonicalised)
    requires parses <==> IsJsonText(text)
    ensures r == CanonicalOf(text)
  {
    if !parses {
      return Invalid;
    }
    var tokenizer := new Tokenizer(text);
    var ok, tree := tokenizer.Value();
    r := if ok then Tokenized(tree) else Invalid;
  }
}
