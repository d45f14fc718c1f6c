/** The tokenizer reads every rendering of a JSON document back to the document's tree. */
module JsonRoundTrip {
  import opened CodeUnits
  import opened JsonNumbers
  import opened JsonText
  import opened CanonicalJson
  import opened JsonTokens

  /** The canonical tree of a document, read off its syntax. */
  function TreeOf(c: Json): Tree
  {
    match c
    case Null => TLiteral(NULL_TEXT)
    case True => TLiteral(TRUE_TEXT)
    case False => TLiteral(FALSE_TEXT)
    case Number(token) => TNumber(CanonicalNumber(token))
    case String(pieces) => TString(JsonText.Units(pieces))
    case Array(_, items) => TArray(TreesOf(items))
    case Object(_, members) => ObjectTree(TreeMembers(members))
  }

  function TreesOf(items: seq<Item>): seq<Tree>
  {
    if items == [] then []
    else
      [TreeOf(items[0].value)] + TreesOf(items[1..])
  }

  function TreeMembers(members: seq<Member>): map<Text, Tree>
  {
    if members == [] then map[]
    else
      map[JsonText.Units(members[0].name) := TreeOf(members[0].item.value)] + TreeMembers(members[1..])
  }

  // ----- Where a value can start -----

  predicate StartsValue(u: CodeUnit) {
    !IsSpace(u) && u != CLOSE_ARRAY && u != CLOSE_OBJECT && u != COMMA
  }

  predicate StartsNumber(u: CodeUnit) {
    u == MINUS || IsDigit(u)
  }

  lemma NumberStart(t: JsonNumber)
    ensures NumberText(t) != [] && StartsNumber(NumberText(t)[0])
  {
    var rest := Then(FractionText(t.fraction), Then(ExponentText(t.exponent), End));
    assert NumberText(t) == MinusIf(t.negative) + Flat(Then(DigitUnits(t.whole), rest));
    assert Flat(Then(DigitUnits(t.whole), rest)) == DigitUnits(t.whole) + Flat(rest);
  }

  lemma ValueStart(c: Json)
    ensures Render(c) != [] && StartsValue(Render(c)[0])
    ensures c.String? ==> Render(c)[0] == QUOTE
    ensures c.Array? ==> Render(c)[0] == OPEN_ARRAY
    ensures c.Object? ==> Render(c)[0] == OPEN_OBJECT
  {
    if c.Number? {
      NumberStart(c.token);
    }
  }

  /** A value, its spacing before it: the cursor skips to the value. */
  lemma SkippedToValue(c: Json, text: Text, pos: nat, gap: Spacing)
    requires At(text, pos, gap) && At(text, pos + |gap|, Render(c))
    ensures SkipSpace(text, pos) == pos + |gap| < |text|
    ensures Render(c) != [] && text[pos + |gap|] == Render(c)[0]
  {
    ValueStart(c);
    AtTail(text, pos + |gap|, Render(c));
    SpacingSkipped(text, pos, gap);
  }

  lemma StandsSpaced(text: Text, pos: nat, spacing: Spacing)
    requires At(text, pos, spacing) && spacing != []
    ensures pos < |text| && IsJsonSpace(text[pos]) && Ends(text, pos)
  {
    AtTail(text, pos, spacing);
  }

  /** Spacing followed by a structural unit ends a value, and is skipped up to that unit. */
  lemma SpacedEnd(text: Text, pos: nat, spacing: Spacing, u: CodeUnit)
    requires At(text, pos, spacing) && Stands(text, pos + |spacing|, u)
    requires u == COMMA || u == CLOSE_ARRAY || u == CLOSE_OBJECT
    ensures Ends(text, pos) && SkipSpace(text, pos) == pos + |spacing|
    ensures SkipComma(text, pos) == pos + |spacing| + (if u == COMMA then 1 else 0)
  {
    SpacingSkipped(text, pos, spacing);
    if spacing != [] {
      StandsSpaced(text, pos, spacing);
    }
  }

  // ----- Scalars -----

  lemma NumberRendered(token: JsonNumber, text: Text, pos: nat)
    requires At(text, pos, NumberText(token)) && Ends(text, pos + |NumberText(token)|)
    ensures pos < |text| && ScalarAt(text, pos) == Done(TNumber(CanonicalNumber(token)), pos + |NumberText(token)|)
  {
    hide NumberAt, NumberText, CanonicalNumber;
    NumberStart(token);
    AtTail(text, pos, NumberText(token));
    NumberScanned(text, pos, token);
  }

  lemma ScalarRendered(c: Json, text: Text, pos: nat)
    requires !c.String? && !c.Array? && !c.Object?
    requires At(text, pos, Render(c)) && Ends(text, pos + |Render(c)|)
    ensures pos < |text| && ScalarAt(text, pos) == Done(TreeOf(c), pos + |Render(c)|)
  {
    hide NumberAt, NumberText, CanonicalNumber;
    ValueStart(c);
    AtTail(text, pos, Render(c));
    if c.Number? {
      NumberRendered(c.token, text, pos);
    }
  }

  // ----- Values -----

  lemma {:induction false} ValueRendered(c: Json, text: Text, pos: nat, gap: Spacing)
    requires At(text, pos, gap) && At(text, pos + |gap|, Render(c))
    requires Ends(text, pos + |gap| + |Render(c)|)
    ensures ValueAt(text, pos) == Done(TreeOf(c), pos + |gap| + |Render(c)|)
    decreases c, 2
  {
    hide *;
    SkippedToValue(c, text, pos, gap);
    ValueFound(text, pos);
    HereRendered(c, text, pos + |gap|);
  }

  lemma ValueFound(text: Text, pos: nat)
    requires SkipSpace(text, pos) < |text|
    ensures ValueAt(text, pos) == ValueHere(text, SkipSpace(text, pos))
  {
    hide ValueHere, SkipSpace;
  }

  lemma {:induction false} HereRendered(c: Json, text: Text, p: nat)
    requires p < |text| && At(text, p, Render(c)) && Ends(text, p + |Render(c)|)
    ensures ValueHere(text, p) == Done(TreeOf(c), p + |Render(c)|)
    decreases c, 1
  {
    ValueStart(c);
    AtTail(text, p, Render(c));
    match c
    case String(pieces) => StringScanned(text, p, pieces);
    case Array(_, items) =>
      if items == [] { EmptyArrayRendered(c, text, p); } else { ArrayRendered(c, text, p); }
    case Object(_, members) =>
      if members == [] { EmptyObjectRendered(c, text, p); } else { ObjectRendered(c, text, p); }
    case Number(_) => ScalarRendered(c, text, p); NumberStart(c.token);
    case _ => ScalarRendered(c, text, p);
  }

  lemma EmptyArrayRendered(c: Json, text: Text, p: nat)
    requires c.Array? && c.items == [] && At(text, p, Render(c))
    ensures ItemsAt(text, SkipSpace(text, p + 1), []) == Done([], p + |Render(c)|)
  {
    AtThree(text, p, [OPEN_ARRAY], c.empty, [CLOSE_ARRAY]);
    AtTail(text, p + 1 + |c.empty|, [CLOSE_ARRAY]);
    SpacedEnd(text, p + 1, c.empty, CLOSE_ARRAY);
  }

  lemma {:induction false} ArrayRendered(c: Json, text: Text, p: nat)
    requires c.Array? && c.items != [] && At(text, p, Render(c))
    ensures ItemsAt(text, SkipSpace(text, p + 1), []) == Done(TreesOf(c.items), p + |Render(c)|)
    decreases c, 0
  {
    hide *;
    ArrayParts(c, text, p);
    ItemsRendered(c.items, text, SkipSpace(text, p + 1), [], []);
    assert [] + TreesOf(c.items) == TreesOf(c.items);
  }

  lemma ArrayParts(c: Json, text: Text, p: nat)
    requires c.Array? && c.items != [] && At(text, p, Render(c))
    ensures var first := SkipSpace(text, p + 1);
            IsSpacing([]) && At(text, first, []) && At(text, first, ItemsTail(c.items))
                && first + |ItemsTail(c.items)| == p + |Render(c)|
  {
    hide ItemsTail, SkipSpace;
    var before := c.items[0].before;
    AtThree(text, p, [OPEN_ARRAY], before, ItemsTail(c.items));
    ItemsStart(c.items, text, p + 1, before);
  }

  lemma ItemsStart(items: seq<Item>, text: Text, pos: nat, gap: Spacing)
    requires items != []
    requires At(text, pos, gap) && At(text, pos + |gap|, ItemsTail(items))
    ensures At(text, pos + |gap|, Render(items[0].value))
    ensures SkipSpace(text, pos) == pos + |gap| && !Stands(text, pos, CLOSE_ARRAY)
  {
    hide Flat, At, Render, ItemsRest, SkipSpace;
    AtParts(text, pos + |gap|, Then(Render(items[0].value), Then(items[0].after, ItemsRest(items))));
    SkippedToValue(items[0].value, text, pos, gap);
    ValueStart(items[0].value);
    if gap != [] {
      StandsSpaced(text, pos, gap);
    }
  }

  /** The parts of the first item and what follows it. */
  lemma ItemParts(items: seq<Item>, text: Text, start: nat, after: nat, rest: nat)
    requires items != [] && At(text, start, ItemsTail(items))
    requires after == start + |Render(items[0].value)| && rest == after + |items[0].after|
    ensures At(text, start, Render(items[0].value)) && At(text, after, items[0].after)
    ensures At(text, rest, Flat(ItemsRest(items)))
    ensures start + |ItemsTail(items)| == rest + |Flat(ItemsRest(items))|
  {
    hide Flat, At, Render, ItemsRest;
    var spaced := Then(items[0].after, ItemsRest(items));
    AtParts(text, start, Then(Render(items[0].value), spaced));
    AtParts(text, after, spaced);
  }

  /** After an item: a bracket closes the array, or a comma leads to the next item. */
  lemma ItemsRestAt(items: seq<Item>, text: Text, rest: nat)
    requires items != [] && At(text, rest, Flat(ItemsRest(items)))
    ensures Stands(text, rest, if |items| == 1 then CLOSE_ARRAY else COMMA)
    ensures |items| == 1 ==> |Flat(ItemsRest(items))| == 1
  {
    hide At, Render, ItemsTail;
    AtParts(text, rest, ItemsRest(items));
    AtTail(text, rest, ItemsRest(items).part);
  }

  lemma NextItemsAt(items: seq<Item>, text: Text, rest: nat)
    requires |items| > 1 && At(text, rest, Flat(ItemsRest(items)))
    ensures At(text, rest + 1, items[1].before) && At(text, rest + 1 + |items[1].before|, ItemsTail(items[1..]))
    ensures |Flat(ItemsRest(items))| == 1 + |items[1].before| + |ItemsTail(items[1..])|
  {
    hide At, Flat, Render, ItemsTail;
    AtThree(text, rest, [COMMA], items[1].before, ItemsTail(items[1..]));
  }

  /** A value with its spacing, up to the structural unit after it. */
  lemma {:induction false} ItemRendered(item: Item, text: Text, pos: nat, gap: Spacing, after: nat, u: CodeUnit)
    requires At(text, pos, gap) && At(text, pos + |gap|, Render(item.value))
    requires after == pos + |gap| + |Render(item.value)|
    requires At(text, after, item.after) && Stands(text, after + |item.after|, u)
    requires u == COMMA || u == CLOSE_ARRAY || u == CLOSE_OBJECT
    ensures ValueAt(text, pos) == Done(TreeOf(item.value), after)
    ensures SkipComma(text, after) == after + |item.after| + (if u == COMMA then 1 else 0)
    decreases item, 0
  {
    hide *;
    SpacedEnd(text, after, item.after, u);
    ValueRendered(item.value, text, pos, gap);
  }

  function ArrayUnit(items: seq<Item>): CodeUnit {
    if |items| == 1 then CLOSE_ARRAY else COMMA
  }

  /** One turn of the loop over the first item. */
  lemma {:induction false} FirstItemRendered(items: seq<Item>, text: Text, pos: nat, gap: Spacing, rest: nat)
    requires items != []
    requires At(text, pos, gap) && At(text, pos + |gap|, ItemsTail(items))
    requires rest == pos + |gap| + |Render(items[0].value)| + |items[0].after|
    ensures ItemAt(text, pos) == Done(TreeOf(items[0].value), rest + (if |items| == 1 then 0 else 1))
    ensures At(text, rest, Flat(ItemsRest(items)))
    ensures pos + |gap| + |ItemsTail(items)| == rest + |Flat(ItemsRest(items))|
    decreases items, 1
  {
    hide At, Flat, Render, ItemsTail, ItemsRest, ValueAt, TreeOf, SkipComma, Stands;
    var after := pos + |gap| + |Render(items[0].value)|;
    ItemParts(items, text, pos + |gap|, after, rest);
    ItemsRestAt(items, text, rest);
    ItemRendered(items[0], text, pos, gap, after, ArrayUnit(items));
  }

  lemma ItemsTurn(text: Text, pos: nat, acc: seq<Tree>, item: Tree, next: nat)
    requires !Stands(text, pos, CLOSE_ARRAY) && ItemAt(text, pos) == Done(item, next)
    ensures ItemsAt(text, pos, acc) == ItemsAt(text, next, acc + [item])
  {
  }

  lemma ItemsEnd(text: Text, pos: nat, acc: seq<Tree>)
    requires Stands(text, pos, CLOSE_ARRAY)
    ensures ItemsAt(text, pos, acc) == Done(acc, pos + 1)
  {
  }

  lemma {:induction false} TreesStep(items: seq<Item>, acc: seq<Tree>)
    requires items != []
    ensures acc + TreesOf(items) == acc + [TreeOf(items[0].value)] + TreesOf(items[1..])
    ensures |items| == 1 ==> acc + TreesOf(items) == acc + [TreeOf(items[0].value)]
  {
    hide TreeOf;
    var first, rest := [TreeOf(items[0].value)], TreesOf(items[1..]);
    assert acc + (first + rest) == acc + first + rest;
    if |items| == 1 {
      assert rest == [];
    }
  }

  lemma {:induction false} ItemsRendered(items: seq<Item>, text: Text, pos: nat, gap: Spacing, acc: seq<Tree>)
    requires items != []
    requires At(text, pos, gap) && At(text, pos + |gap|, ItemsTail(items))
    ensures ItemsAt(text, pos, acc) == Done(acc + TreesOf(items), pos + |gap| + |ItemsTail(items)|)
    decreases items, 2
  {
    hide *;
    var rest := pos + |gap| + |Render(items[0].value)| + |items[0].after|;
    ItemsStart(items, text, pos, gap);
    FirstItemRendered(items, text, pos, gap, rest);
    ItemsTurn(text, pos, acc, TreeOf(items[0].value), rest + (if |items| == 1 then 0 else 1));
    ItemsRenderedRest(items, text, rest, acc);
  }

  lemma {:induction false} ItemsRenderedRest(items: seq<Item>, text: Text, rest: nat, acc: seq<Tree>)
    requires items != [] && At(text, rest, Flat(ItemsRest(items)))
    ensures ItemsAt(text, rest + (if |items| == 1 then 0 else 1), acc + [TreeOf(items[0].value)])
         == Done(acc + TreesOf(items), rest + |Flat(ItemsRest(items))|)
    decreases items[1..], 3
  {
    hide *;
    var now := acc + [TreeOf(items[0].value)];
    TreesStep(items, acc);
    if |items| == 1 {
      ItemsRestAt(items, text, rest);
      ItemsEnd(text, rest, now);
    } else {
      NextItemsAt(items, text, rest);
      ItemsRendered(items[1..], text, rest + 1, items[1].before, now);
    }
  }

  // ----- Objects -----

  /** The entries collected so far, then the remaining members: a later name replaces an
      earlier one. */
  function Added(entries: map<Text, Tree>, members: seq<Member>): map<Text, Tree>
  {
    entries + TreeMembers(members)
  }

  lemma EmptyObjectRendered(c: Json, text: Text, p: nat)
    requires c.Object? && c.members == [] && At(text, p, Render(c))
    ensures MembersAt(text, SkipSpace(text, p + 1), map[]) == Done(map[], p + |Render(c)|)
  {
    AtThree(text, p, [OPEN_OBJECT], c.empty, [CLOSE_OBJECT]);
    AtTail(text, p + 1 + |c.empty|, [CLOSE_OBJECT]);
    SpacedEnd(text, p + 1, c.empty, CLOSE_OBJECT);
  }

  lemma {:induction false} ObjectRendered(c: Json, text: Text, p: nat)
    requires c.Object? && c.members != [] && At(text, p, Render(c))
    ensures MembersAt(text, SkipSpace(text, p + 1), map[]) == Done(TreeMembers(c.members), p + |Render(c)|)
    decreases c, 0
  {
    hide *;
    ObjectParts(c, text, p);
    MembersRendered(c.members, text, SkipSpace(text, p + 1), [], map[]);
    AddedToNothing(c.members);
  }

  lemma AddedToNothing(members: seq<Member>)
    ensures Added(map[], members) == TreeMembers(members)
  {
  }

  lemma ObjectParts(c: Json, text: Text, p: nat)
    requires c.Object? && c.members != [] && At(text, p, Render(c))
    ensures var first := SkipSpace(text, p + 1);
            IsSpacing([]) && At(text, first, []) && At(text, first, MembersTail(c.members))
                && first + |MembersTail(c.members)| == p + |Render(c)|
  {
    hide MembersTail, SkipSpace;
    var before := c.members[0].beforeName;
    AtThree(text, p, [OPEN_OBJECT], before, MembersTail(c.members));
    MembersStart(c.members, text, p + 1, before);
  }

  lemma MembersStart(members: seq<Member>, text: Text, pos: nat, gap: Spacing)
    requires members != []
    requires At(text, pos, gap) && At(text, pos + |gap|, MembersTail(members))
    ensures At(text, pos + |gap|, LiteralText(members[0].name))
    ensures SkipSpace(text, pos) == pos + |gap| < |text| && !Stands(text, pos, CLOSE_OBJECT)
  {
    hide Flat, At, Render, MembersRest, SkipSpace, BodyText;
    var m := members[0];
    AtParts(text, pos + |gap|, Then(LiteralText(m.name), Then(m.afterName, Then([COLON], Then(m.item.before,
            Then(Render(m.item.value), Then(m.item.after, MembersRest(members))))))));
    AtTail(text, pos + |gap|, LiteralText(m.name));
    SpacingSkipped(text, pos, gap);
    if gap != [] {
      StandsSpaced(text, pos, gap);
    }
  }

  /** Where the colon of a member stands. */
  function ColonPlace(m: Member, start: nat): nat {
    start + |LiteralText(m.name)| + |m.afterName|
  }

  function FromValue(members: seq<Member>): Parts
    requires members != []
  {
    Then(Render(members[0].item.value), Then(members[0].item.after, MembersRest(members)))
  }

  lemma MemberNameParts(members: seq<Member>, text: Text, start: nat, colon: nat)
    requires members != [] && At(text, start, MembersTail(members)) && colon == ColonPlace(members[0], start)
    ensures At(text, start, LiteralText(members[0].name))
    ensures At(text, start + |LiteralText(members[0].name)|, members[0].afterName)
    ensures Stands(text, colon, COLON) && At(text, colon + 1, members[0].item.before)
    ensures At(text, colon + 1 + |members[0].item.before|, Flat(FromValue(members)))
    ensures start + |MembersTail(members)| == colon + 1 + |members[0].item.before| + |Flat(FromValue(members))|
  {
    hide At, Render, LiteralText, MembersRest;
    var m := members[0];
    var before := Then(m.item.before, FromValue(members));
    var colonOn := Then([COLON], before);
    var afterName := Then(m.afterName, colonOn);
    AtParts(text, start, Then(LiteralText(m.name), afterName));
    AtParts(text, start + |LiteralText(m.name)|, afterName);
    AtParts(text, colon, colonOn);
    AtTail(text, colon, [COLON]);
    AtParts(text, colon + 1, before);
  }

  lemma MemberValueParts(members: seq<Member>, text: Text, value: nat, after: nat, rest: nat)
    requires members != [] && At(text, value, Flat(FromValue(members)))
    requires after == value + |Render(members[0].item.value)| && rest == after + |members[0].item.after|
    ensures At(text, value, Render(members[0].item.value)) && At(text, after, members[0].item.after)
    ensures At(text, rest, Flat(MembersRest(members)))
    ensures value + |Flat(FromValue(members))| == rest + |Flat(MembersRest(members))|
  {
    hide At, Flat, Render, MembersRest;
    AtParts(text, value, FromValue(members));
    AtParts(text, after, FromValue(members).rest);
  }

  lemma ColonSkipped(text: Text, pos: nat, spacing: Spacing)
    requires At(text, pos, spacing) && Stands(text, pos + |spacing|, COLON)
    ensures SkipSpace(text, pos) == pos + |spacing|
  {
    SpacingSkipped(text, pos, spacing);
  }

  /** After the value: a brace closes the object, or a comma leads to the next member. */
  lemma MembersRestAt(members: seq<Member>, text: Text, rest: nat)
    requires members != [] && At(text, rest, Flat(MembersRest(members)))
    ensures Stands(text, rest, if |members| == 1 then CLOSE_OBJECT else COMMA)
    ensures |members| == 1 ==> |Flat(MembersRest(members))| == 1
  {
    hide At, Render, MembersTail;
    AtParts(text, rest, MembersRest(members));
    AtTail(text, rest, MembersRest(members).part);
  }

  lemma NextMembersAt(members: seq<Member>, text: Text, rest: nat)
    requires |members| > 1 && At(text, rest, Flat(MembersRest(members)))
    ensures At(text, rest + 1, members[1].beforeName)
    ensures At(text, rest + 1 + |members[1].beforeName|, MembersTail(members[1..]))
    ensures |Flat(MembersRest(members))| == 1 + |members[1].beforeName| + |MembersTail(members[1..])|
  {
    hide At, Flat, Render, MembersTail;
    AtThree(text, rest, [COMMA], members[1].beforeName, MembersTail(members[1..]));
  }

  /** The name and colon of the first member, read from the spacing before it. */
  lemma NameRendered(m: Member, text: Text, pos: nat, start: nat, colon: nat)
    requires SkipSpace(text, pos) == start
    requires At(text, start, LiteralText(m.name)) && colon == ColonPlace(m, start)
    requires At(text, start + |LiteralText(m.name)|, m.afterName) && Stands(text, colon, COLON)
    ensures NameAt(text, pos) == Done(JsonText.Units(m.name), colon + 1)
  {
    hide At, StringAt, LiteralText, JsonText.Units;
    StringScanned(text, start, m.name);
    ColonSkipped(text, start + |LiteralText(m.name)|, m.afterName);
  }

  lemma FirstNameRendered(members: seq<Member>, text: Text, pos: nat, start: nat, colon: nat)
    requires members != [] && SkipSpace(text, pos) == start && At(text, start, MembersTail(members))
    requires colon == ColonPlace(members[0], start)
    ensures NameAt(text, pos) == Done(JsonText.Units(members[0].name), colon + 1)
    ensures At(text, colon + 1, members[0].item.before)
    ensures At(text, colon + 1 + |members[0].item.before|, Flat(FromValue(members)))
    ensures start + |MembersTail(members)| == colon + 1 + |members[0].item.before| + |Flat(FromValue(members))|
  {
    hide *;
    MemberNameParts(members, text, start, colon);
    NameRendered(members[0], text, pos, start, colon);
  }

  function ObjectUnit(members: seq<Member>): CodeUnit {
    if |members| == 1 then CLOSE_OBJECT else COMMA
  }

  lemma {:induction false} FirstValueRendered(members: seq<Member>, text: Text, pos: nat, after: nat, rest: nat)
    requires members != [] && At(text, pos, members[0].item.before)
    requires At(text, pos + |members[0].item.before|, Flat(FromValue(members)))
    requires after == pos + |members[0].item.before| + |Render(members[0].item.value)|
    requires rest == after + |members[0].item.after|
    ensures ValueAt(text, pos) == Done(TreeOf(members[0].item.value), after)
    ensures SkipComma(text, after) == rest + (if |members| == 1 then 0 else 1)
    ensures At(text, rest, Flat(MembersRest(members)))
    ensures pos + |members[0].item.before| + |Flat(FromValue(members))| == rest + |Flat(MembersRest(members))|
    decreases members, 0
  {
    hide At, Flat, Render, FromValue, MembersRest, ValueAt, TreeOf, SkipComma, Stands;
    MemberValueParts(members, text, pos + |members[0].item.before|, after, rest);
    MembersRestAt(members, text, rest);
    ItemRendered(members[0].item, text, pos, members[0].item.before, after, ObjectUnit(members));
  }

  lemma MemberStep(text: Text, pos: nat, name: Text, start: nat, tree: Tree, after: nat)
    requires NameAt(text, pos) == Done(name, start) && ValueAt(text, start) == Done(tree, after)
    ensures MemberAt(text, pos) == Done((name, tree), SkipComma(text, after))
  {
    hide NameAt, ValueAt, SkipComma;
  }

  /** One turn of the loop over the first member. */
  lemma {:induction false} MemberRendered(members: seq<Member>, text: Text, pos: nat, start: nat, rest: nat)
    requires members != [] && SkipSpace(text, pos) == start && At(text, start, MembersTail(members))
    requires rest == ColonPlace(members[0], start) + 1 + |members[0].item.before|
                   + |Render(members[0].item.value)| + |members[0].item.after|
    ensures MemberAt(text, pos) == Done((JsonText.Units(members[0].name), TreeOf(members[0].item.value)),
                                        rest + (if |members| == 1 then 0 else 1))
    ensures At(text, rest, Flat(MembersRest(members)))
    ensures start + |MembersTail(members)| == rest + |Flat(MembersRest(members))|
    decreases members, 1
  {
    hide *;
    var m := members[0];
    var from := ColonPlace(m, start) + 1;
    var after := from + |m.item.before| + |Render(m.item.value)|;
    FirstNameRendered(members, text, pos, start, from - 1);
    FirstValueRendered(members, text, from, after, rest);
    MemberStep(text, pos, JsonText.Units(m.name), from, TreeOf(m.item.value), after);
  }

  lemma MembersTurn(text: Text, pos: nat, entries: map<Text, Tree>, name: Text, tree: Tree, next: nat)
    requires !Stands(text, pos, CLOSE_OBJECT) && MemberAt(text, pos) == Done((name, tree), next)
    ensures MembersAt(text, pos, entries) == MembersAt(text, next, entries[name := tree])
  {
  }

  lemma MembersEnd(text: Text, pos: nat, entries: map<Text, Tree>)
    requires Stands(text, pos, CLOSE_OBJECT)
    ensures MembersAt(text, pos, entries) == Done(entries, pos + 1)
  {
  }

  lemma AddedStep(entries: map<Text, Tree>, members: seq<Member>)
    requires members != []
    ensures var now := entries[JsonText.Units(members[0].name) := TreeOf(members[0].item.value)];
            Added(entries, members) == Added(now, members[1..]) && (|members| == 1 ==> Added(entries, members) == now)
  {
    hide TreeOf, JsonText.Units;
  }

  lemma {:induction false} MembersRendered(members: seq<Member>, text: Text, pos: nat, gap: Spacing,
                                           entries: map<Text, Tree>)
    requires members != []
    requires At(text, pos, gap) && At(text, pos + |gap|, MembersTail(members))
    ensures MembersAt(text, pos, entries)
         == Done(Added(entries, members), pos + |gap| + |MembersTail(members)|)
    decreases members, 2
  {
    hide *;
    var m := members[0];
    var start := pos + |gap|;
    var rest := ColonPlace(m, start) + 1 + |m.item.before| + |Render(m.item.value)| + |m.item.after|;
    MembersStart(members, text, pos, gap);
    MemberRendered(members, text, pos, start, rest);
    MembersTurn(text, pos, entries, JsonText.Units(m.name), TreeOf(m.item.value),
                rest + (if |members| == 1 then 0 else 1));
    MembersRenderedRest(members, text, rest, entries);
  }

  lemma {:induction false} MembersRenderedRest(members: seq<Member>, text: Text, rest: nat, entries: map<Text, Tree>)
    requires members != []
    requires At(text, rest, Flat(MembersRest(members)))
    ensures MembersAt(text, rest + (if |members| == 1 then 0 else 1),
                      entries[JsonText.Units(members[0].name) := TreeOf(members[0].item.value)])
         == Done(Added(entries, members), rest + |Flat(MembersRest(members))|)
    decreases members[1..], 3
  {
    hide *;
    var now := entries[JsonText.Units(members[0].name) := TreeOf(members[0].item.value)];
    AddedStep(entries, members);
    if |members| == 1 {
      MembersRestAt(members, text, rest);
      MembersEnd(text, rest, now);
    } else {
      NextMembersAt(members, text, rest);
      MembersRendered(members[1..], text, rest + 1, members[1].beforeName, now);
    }
  }

  /** The tokenizer, started at the beginning of any rendering of a document, returns the
      document's tree: whatever its whitespace, escapes, number spellings and duplicate names. */
  lemma DocumentTokenized(doc: Item)
    ensures ValueAt(RenderItem(doc), 0).Done? && ValueAt(RenderItem(doc), 0).value == TreeOf(doc.value)
  {
    hide *;
    DocumentParts(doc);
    ValueRendered(doc.value, RenderItem(doc), 0, doc.before);
  }

  lemma DocumentParts(doc: Item)
    ensures var text, next := RenderItem(doc), |doc.before| + |Render(doc.value)|;
            At(text, 0, doc.before) && At(text, |doc.before|, Render(doc.value)) && Ends(text, next)
  {
    hide Render;
    var text := RenderItem(doc);
    AtIsSlice(text, 0, text);
    assert text[0..|text|] == text;
    AtThree(text, 0, doc.before, Render(doc.value), doc.after);
    if doc.after != [] {
      StandsSpaced(text, |doc.before| + |Render(doc.value)|, doc.after);
    }
  }
}
