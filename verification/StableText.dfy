/** The text rows are compared in (scripts/migrate-sqlite-to-postgres.ts, stable): one JSON array
    of a row's cells, and when two rows get the same text. */
module StableText {
  import opened CodeUnits
  import opened JsonNumbers
  import opened JsonText
  import opened CanonicalJson
  import opened JsonEquality
  import opened JsonWriting

  /** A JavaScript number. */
  datatype Numeral = Finite(x: Double) | Infinite(negative: bool)

  /** The canonical form of one value, as `canonical` hands it to `stable`. */
  datatype Cell =
    | CNull
    | CBool(b: bool)
    | CJson(tree: Tree)
    | CText(text: Text)
    | CNumber(n: Numeral)

  // ----- Writing -----

  const STRING_TAG: Text := Ascii("string")
  const NUMBER_TAG: Text := Ascii("number")
  const ARRAY_TAG: Text := Ascii("array")
  const OBJECT_TAG: Text := Ascii("object")
  const JSON_KEY: Text := Ascii("json")

  function ListJson(items: seq<Item>): Json {
    Array([], items)
  }

  /** A tagged array of two. */
  function Tagged(tag: Text, value: Json): Json {
    ListJson([Bare(StringJson(tag)), Bare(value)])
  }

  function TreeJson(tree: Tree): Json
    decreases tree, 1
  {
    match tree
    case TLiteral(name) => ListJson([Bare(StringJson(name))])
    case TNumber(canonical) => Tagged(NUMBER_TAG, StringJson(canonical))
    case TString(units) => Tagged(STRING_TAG, StringJson(units))
    case TArray(items) => Tagged(ARRAY_TAG, ListJson(TreeItems(items)))
    case TObject(entries) => Tagged(OBJECT_TAG, ListJson(EntryItems(entries)))
  }

  function TreeItems(items: seq<Tree>): seq<Item>
    decreases items, 0
  {
    if items == [] then [] else [Bare(TreeJson(items[0]))] + TreeItems(items[1..])
  }

  /** An entry's tree, which is smaller than the entry. */
  function TreeIn(entry: (Text, Tree)): (tree: Tree)
    ensures tree < entry
  {
    entry.1
  }

  function EntryItems(entries: seq<(Text, Tree)>): seq<Item>
    decreases entries, 0
  {
    if entries == [] then []
    else [Bare(Tagged(entries[0].0, TreeJson(TreeIn(entries[0]))))] + EntryItems(entries[1..])
  }

  function NumeralJson(n: Numeral, spell: Double -> JsonNumber): Json {
    match n
    case Finite(x) => Json.Number(spell(x))
    case Infinite(_) => Json.Null
  }

  function CellJson(cell: Cell, spell: Double -> JsonNumber): Json {
    match cell
    case CNull => Json.Null
    case CBool(b) => if b then True else False
    case CJson(tree) => Object([], [Member([], StringPieces(JSON_KEY), [], Bare(TreeJson(tree)))])
    case CText(text) => StringJson(text)
    case CNumber(n) => NumeralJson(n, spell)
  }

  function CellItems(cells: seq<Cell>, spell: Double -> JsonNumber): seq<Item> {
    if cells == [] then [] else [Bare(CellJson(cells[0], spell))] + CellItems(cells[1..], spell)
  }

  /** `stable` of a row's cells. */
  function Stable(cells: seq<Cell>, spell: Double -> JsonNumber): Text {
    Render(ListJson(CellItems(cells, spell)))
  }

  // ----- Trees are told apart -----

  lemma StringDenotes(t: Text)
    ensures Denote(StringJson(t)) == VString(t)
  {
    StringPiecesUnits(t);
  }

  lemma TaggedDenotes(tag: Text, value: Json)
    ensures Denote(Tagged(tag, value)) == VArray([VString(tag), Denote(value)])
  {
    hide StringJson;
    StringDenotes(tag);
    var items := [Bare(StringJson(tag)), Bare(value)];
    assert items[1..] == [Bare(value)] && [Bare(value)][1..] == [];
    assert DenoteItems([Bare(value)]) == [Denote(value)];
    assert DenoteItems(items) == [VString(tag)] + [Denote(value)];
  }

  lemma LiteralDenotes(name: Text)
    ensures Denote(TreeJson(TLiteral(name))) == VArray([VString(name)])
  {
    hide StringJson;
    StringDenotes(name);
    var items := [Bare(StringJson(name))];
    assert items[1..] == [] && DenoteItems([]) == [];
    assert DenoteItems(items) == [Denote(StringJson(name))] + [];
  }

  /** What a tree's writing denotes, one level down. */
  ghost function Shape(tree: Tree): Value {
    match tree
    case TLiteral(name) => VArray([VString(name)])
    case TNumber(canonical) => VArray([VString(NUMBER_TAG), VString(canonical)])
    case TString(units) => VArray([VString(STRING_TAG), VString(units)])
    case TArray(items) => VArray([VString(ARRAY_TAG), VArray(DenoteItems(TreeItems(items)))])
    case TObject(entries) => VArray([VString(OBJECT_TAG), VArray(DenoteItems(EntryItems(entries)))])
  }

  lemma TreeDenotes(tree: Tree)
    ensures Denote(TreeJson(tree)) == Shape(tree)
  {
    match tree
    case TLiteral(name) => LiteralDenotes(name);
    case TNumber(canonical) => TaggedDenotes(NUMBER_TAG, StringJson(canonical)); StringDenotes(canonical);
    case TString(units) => TaggedDenotes(STRING_TAG, StringJson(units)); StringDenotes(units);
    case TArray(items) => TaggedDenotes(ARRAY_TAG, ListJson(TreeItems(items)));
    case TObject(entries) => TaggedDenotes(OBJECT_TAG, ListJson(EntryItems(entries)));
  }

  lemma TagsDiffer()
    ensures NUMBER_TAG != STRING_TAG && NUMBER_TAG != ARRAY_TAG && NUMBER_TAG != OBJECT_TAG
    ensures STRING_TAG != ARRAY_TAG && STRING_TAG != OBJECT_TAG && ARRAY_TAG != OBJECT_TAG
  {
    assert NUMBER_TAG[0] != STRING_TAG[0] && |ARRAY_TAG| == 5;
    assert OBJECT_TAG[0] != NUMBER_TAG[0] && OBJECT_TAG[0] != STRING_TAG[0];
  }

  lemma PairInjective(a: Value, b: Value, c: Value, d: Value)
    requires [a, b] == [c, d]
    ensures a == c && b == d
  {
    assert [a, b][0] == [c, d][0] && [a, b][1] == [c, d][1];
  }

  /** Trees with one shape have the same constructor and the same parts. */
  lemma SameShape(a: Tree, b: Tree)
    requires Shape(a) == Shape(b)
    ensures a.TLiteral? && b.TLiteral? ==> a == b
    ensures a.TNumber? && b.TNumber? ==> a == b
    ensures a.TString? && b.TString? ==> a == b
    ensures a.TArray? && b.TArray? ==> DenoteItems(TreeItems(a.items)) == DenoteItems(TreeItems(b.items))
    ensures a.TObject? && b.TObject? ==> DenoteItems(EntryItems(a.entries)) == DenoteItems(EntryItems(b.entries))
    ensures a.TLiteral? == b.TLiteral? && a.TNumber? == b.TNumber? && a.TString? == b.TString? && a.TArray? == b.TArray?
  {
    TagsDiffer();
    hide DenoteItems, NUMBER_TAG, STRING_TAG, ARRAY_TAG, OBJECT_TAG;
    assert |Shape(a).items| == |Shape(b).items| && Shape(a).items[0] == Shape(b).items[0];
    assert !a.TLiteral? && !b.TLiteral? ==> Shape(a).items[1] == Shape(b).items[1];
  }

  lemma {:induction false} TreeInjective(a: Tree, b: Tree)
    requires Denote(TreeJson(a)) == Denote(TreeJson(b))
    ensures a == b
    decreases a, 1
  {
    TreeDenotes(a);
    TreeDenotes(b);
    SameShape(a, b);
    hide Shape, TreeJson;
    match (a, b)
    case (TArray(xs), TArray(ys)) => TreesInjective(xs, ys);
    case (TObject(xs), TObject(ys)) => EntriesInjective(xs, ys);
    case _ =>
  }

  lemma FirstTree(xs: seq<Tree>)
    requires xs != []
    ensures DenoteItems(TreeItems(xs)) == [Denote(TreeJson(xs[0]))] + DenoteItems(TreeItems(xs[1..]))
  {
    hide TreeJson, Denote;
    assert ([Bare(TreeJson(xs[0]))] + TreeItems(xs[1..]))[1..] == TreeItems(xs[1..]);
  }

  lemma {:induction false} TreesInjective(xs: seq<Tree>, ys: seq<Tree>)
    requires DenoteItems(TreeItems(xs)) == DenoteItems(TreeItems(ys))
    ensures xs == ys
    decreases xs, 0
  {
    hide TreeJson, Denote;
    if xs != [] && ys != [] {
      FirstTree(xs);
      FirstTree(ys);
      ConsEqual(Denote(TreeJson(xs[0])), DenoteItems(TreeItems(xs[1..])), Denote(TreeJson(ys[0])),
                DenoteItems(TreeItems(ys[1..])));
      TreeInjective(xs[0], ys[0]);
      TreesInjective(xs[1..], ys[1..]);
      assert xs == [xs[0]] + xs[1..] && ys == [ys[0]] + ys[1..];
    }
  }

  lemma FirstEntry(xs: seq<(Text, Tree)>)
    requires xs != []
    ensures DenoteItems(EntryItems(xs)) ==
            [VArray([VString(xs[0].0), Denote(TreeJson(xs[0].1))])] + DenoteItems(EntryItems(xs[1..]))
  {
    TaggedDenotes(xs[0].0, TreeJson(xs[0].1));
    hide TreeJson, Denote, Tagged;
    assert ([Bare(Tagged(xs[0].0, TreeJson(TreeIn(xs[0]))))] + EntryItems(xs[1..]))[1..] == EntryItems(xs[1..]);
  }

  lemma {:induction false} EntriesInjective(xs: seq<(Text, Tree)>, ys: seq<(Text, Tree)>)
    requires DenoteItems(EntryItems(xs)) == DenoteItems(EntryItems(ys))
    ensures xs == ys
    decreases xs, 0
  {
    hide TreeJson, Denote;
    if xs != [] && ys != [] {
      FirstEntry(xs);
      FirstEntry(ys);
      var u, v := Denote(TreeJson(xs[0].1)), Denote(TreeJson(ys[0].1));
      ConsEqual(VArray([VString(xs[0].0), u]), DenoteItems(EntryItems(xs[1..])), VArray([VString(ys[0].0), v]),
                DenoteItems(EntryItems(ys[1..])));
      PairInjective(VString(xs[0].0), u, VString(ys[0].0), v);
      TreeInjective(TreeIn(xs[0]), ys[0].1);
      EntriesInjective(xs[1..], ys[1..]);
      assert xs == [xs[0]] + xs[1..] && ys == [ys[0]] + ys[1..];
    }
  }

  // ----- Cells written alike -----

  /** JSON has no infinities: they are written as null. */
  predicate WritesNull(cell: Cell) {
    cell.CNull? || (cell.CNumber? && cell.n.Infinite?)
  }

  /** Equal, or two of the forms that are written as null. */
  predicate WrittenAlike(c: Cell, d: Cell) {
    c == d || (WritesNull(c) && WritesNull(d))
  }

  lemma JsonCellDenotes(tree: Tree, spell: Double -> JsonNumber)
    ensures Denote(CellJson(CJson(tree), spell)) == VObject(map[JSON_KEY := Denote(TreeJson(tree))])
  {
    hide TreeJson, JSON_KEY, StringPieces;
    StringPiecesUnits(JSON_KEY);
    var members := [Member([], StringPieces(JSON_KEY), [], Bare(TreeJson(tree)))];
    assert members[1..] == [];
    assert DenoteMembers(members) == map[JSON_KEY := Denote(TreeJson(tree))];
  }

  lemma SameJsonCell(a: Tree, b: Tree)
    requires VObject(map[JSON_KEY := Denote(TreeJson(a))]) == VObject(map[JSON_KEY := Denote(TreeJson(b))])
    ensures a == b
  {
    assert map[JSON_KEY := Denote(TreeJson(a))][JSON_KEY] == map[JSON_KEY := Denote(TreeJson(b))][JSON_KEY];
    TreeInjective(a, b);
  }

  /** Cells whose writings denote one value are equal or both written as null. */
  lemma SameCellValue(c: Cell, d: Cell, spell: Double -> JsonNumber)
    requires Faithful(spell) && Denote(CellJson(c, spell)) == Denote(CellJson(d, spell))
    ensures WrittenAlike(c, d)
  {
    if c.CJson? { JsonCellDenotes(c.tree, spell); }
    if d.CJson? { JsonCellDenotes(d.tree, spell); }
    if c.CText? { StringDenotes(c.text); }
    if d.CText? { StringDenotes(d.text); }
    hide TreeJson, JSON_KEY, StringJson;
    if c.CJson? && d.CJson? {
      SameJsonCell(c.tree, d.tree);
    }
  }

  /** Two cells get the same text exactly when they are equal or both written as null. */
  lemma CellsWrittenAlikeIff(c: Cell, d: Cell, spell: Double -> JsonNumber)
    requires Faithful(spell)
    ensures Render(CellJson(c, spell)) == Render(CellJson(d, spell)) <==> WrittenAlike(c, d)
  {
    if WrittenAlike(c, d) {
      assert CellJson(c, spell) == CellJson(d, spell);
    }
    if Render(CellJson(c, spell)) == Render(CellJson(d, spell)) {
      SameTextSameValue(CellJson(c, spell), CellJson(d, spell));
      SameCellValue(c, d, spell);
    }
  }

  predicate CellsAlike(cs: seq<Cell>, ds: seq<Cell>) {
    |cs| == |ds| && forall i | 0 <= i < |cs| :: WrittenAlike(cs[i], ds[i])
  }

  lemma {:induction false} SameItems(cs: seq<Cell>, ds: seq<Cell>, spell: Double -> JsonNumber)
    requires CellsAlike(cs, ds)
    ensures CellItems(cs, spell) == CellItems(ds, spell)
  {
    hide TreeJson, StringJson;
    if cs != [] {
      assert WrittenAlike(cs[0], ds[0]);
      assert CellsAlike(cs[1..], ds[1..]);
      SameItems(cs[1..], ds[1..], spell);
    }
  }

  lemma FirstCell(cs: seq<Cell>, spell: Double -> JsonNumber)
    requires cs != []
    ensures DenoteItems(CellItems(cs, spell)) ==
            [Denote(CellJson(cs[0], spell))] + DenoteItems(CellItems(cs[1..], spell))
  {
    hide CellJson, Denote;
    assert ([Bare(CellJson(cs[0], spell))] + CellItems(cs[1..], spell))[1..] == CellItems(cs[1..], spell);
  }

  lemma {:induction false} SameItemValues(cs: seq<Cell>, ds: seq<Cell>, spell: Double -> JsonNumber)
    requires Faithful(spell) && DenoteItems(CellItems(cs, spell)) == DenoteItems(CellItems(ds, spell))
    ensures CellsAlike(cs, ds)
  {
    hide CellJson, Denote, Faithful, WrittenAlike;
    if cs != [] && ds != [] {
      FirstCell(cs, spell);
      FirstCell(ds, spell);
      ConsEqual(Denote(CellJson(cs[0], spell)), DenoteItems(CellItems(cs[1..], spell)),
                Denote(CellJson(ds[0], spell)), DenoteItems(CellItems(ds[1..], spell)));
      SameCellValue(cs[0], ds[0], spell);
      SameItemValues(cs[1..], ds[1..], spell);
      AlikeFromTail(cs, ds);
    } else if cs != [] {
      FirstCell(cs, spell);
    } else if ds != [] {
      FirstCell(ds, spell);
    }
  }

  lemma AlikeFromTail(cs: seq<Cell>, ds: seq<Cell>)
    requires cs != [] && ds != [] && WrittenAlike(cs[0], ds[0]) && CellsAlike(cs[1..], ds[1..])
    ensures CellsAlike(cs, ds)
  {
    hide WrittenAlike;
    forall i | 0 <= i < |cs| ensures WrittenAlike(cs[i], ds[i]) {
      if i > 0 {
        assert cs[1..][i - 1] == cs[i] && ds[1..][i - 1] == ds[i];
      }
    }
  }

  /** Two rows get the same text exactly when their cells do, one by one. */
  lemma RowsWrittenAlikeIff(cs: seq<Cell>, ds: seq<Cell>, spell: Double -> JsonNumber)
    requires Faithful(spell)
    ensures Stable(cs, spell) == Stable(ds, spell) <==> CellsAlike(cs, ds)
  {
    hide CellsAlike, Render, CellItems, Faithful;
    if CellsAlike(cs, ds) {
      SameItems(cs, ds, spell);
    }
    if Stable(cs, spell) == Stable(ds, spell) {
      SameTextSameValue(ListJson(CellItems(cs, spell)), ListJson(CellItems(ds, spell)));
      SameItemValues(cs, ds, spell);
    }
  }

  // ----- What the text says -----

  /** A canonical tree as JSON: lists that begin with the kind of value. */
  ghost function TreeMeaning(tree: Tree): Value
    decreases tree, 1
  {
    match tree
    case TLiteral(name) => VArray([VString(name)])
    case TNumber(canonical) => VArray([VString(Ascii("number")), VString(canonical)])
    case TString(units) => VArray([VString(Ascii("string")), VString(units)])
    case TArray(items) => VArray([VString(Ascii("array")), VArray(TreeMeanings(items))])
    case TObject(entries) => VArray([VString(Ascii("object")), VArray(EntryMeanings(entries))])
  }

  ghost function TreeMeanings(items: seq<Tree>): seq<Value>
    decreases items, 0
  {
    if items == [] then [] else [TreeMeaning(items[0])] + TreeMeanings(items[1..])
  }

  ghost function EntryMeanings(entries: seq<(Text, Tree)>): seq<Value>
    decreases entries, 0
  {
    if entries == [] then []
    else [VArray([VString(entries[0].0), TreeMeaning(TreeIn(entries[0]))])] + EntryMeanings(entries[1..])
  }

  /** A canonical value as JSON: null, a boolean, a text or a number as itself, JSON under a name of
      its own. */
  ghost function CellMeaning(cell: Cell, spell: Double -> JsonNumber): Value {
    match cell
    case CNull => VNull
    case CBool(b) => VBool(b)
    case CJson(tree) => VObject(map[Ascii("json") := TreeMeaning(tree)])
    case CText(text) => VString(text)
    case CNumber(Finite(x)) => VNumber(NumberValue(spell(x)))
    case CNumber(Infinite(_)) => VNull
  }

  ghost function CellMeanings(cells: seq<Cell>, spell: Double -> JsonNumber): seq<Value> {
    if cells == [] then [] else [CellMeaning(cells[0], spell)] + CellMeanings(cells[1..], spell)
  }

  lemma {:induction false} TreeMeans(tree: Tree)
    ensures Denote(TreeJson(tree)) == TreeMeaning(tree)
    decreases tree, 1
  {
    TreeDenotes(tree);
    hide Denote, TreeJson, DenoteItems, TreeItems, EntryItems;
    match tree
    case TArray(items) => TreesMean(items);
    case TObject(entries) => EntriesMean(entries);
    case _ =>
  }

  lemma {:induction false} TreesMean(items: seq<Tree>)
    ensures DenoteItems(TreeItems(items)) == TreeMeanings(items)
    decreases items, 0
  {
    hide Denote, TreeJson, TreeMeaning;
    if items != [] {
      FirstTree(items);
      TreeMeans(items[0]);
      TreesMean(items[1..]);
    }
  }

  lemma {:induction false} EntriesMean(entries: seq<(Text, Tree)>)
    ensures DenoteItems(EntryItems(entries)) == EntryMeanings(entries)
    decreases entries, 0
  {
    hide Denote, TreeJson, TreeMeaning;
    if entries != [] {
      FirstEntry(entries);
      TreeMeans(TreeIn(entries[0]));
      EntriesMean(entries[1..]);
    }
  }

  lemma CellMeans(cell: Cell, spell: Double -> JsonNumber)
    ensures Denote(CellJson(cell, spell)) == CellMeaning(cell, spell)
  {
    if cell.CJson? {
      JsonCellDenotes(cell.tree, spell);
      TreeMeans(cell.tree);
    }
    if cell.CText? { StringDenotes(cell.text); }
    hide TreeJson, StringJson, TreeMeaning;
  }

  lemma {:induction false} CellsMean(cells: seq<Cell>, spell: Double -> JsonNumber)
    ensures DenoteItems(CellItems(cells, spell)) == CellMeanings(cells, spell)
  {
    hide CellJson, Denote, CellMeaning;
    if cells != [] {
      FirstCell(cells, spell);
      CellMeans(cells[0], spell);
      CellsMean(cells[1..], spell);
    }
  }

  /** `stable` writes a row as a JSON text: the list of its values. */
  lemma StableMeans(cells: seq<Cell>, spell: Double -> JsonNumber)
    ensures IsJsonText(Stable(cells, spell))
    ensures ValueOfText(Stable(cells, spell)) == VArray(CellMeanings(cells, spell))
  {
    RenderedValue(ListJson(CellItems(cells, spell)));
    CellsMean(cells, spell);
    hide CellItems, Render, DenoteItems;
  }
}
