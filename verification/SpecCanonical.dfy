/** Comparing two parsed OpenAPI documents (scripts/validate-openapi.js): object keys are sorted at
    every depth and the JSON texts of the results are compared. */
module SpecCanonical {
  import opened CodeUnits
  import opened JsonNumbers
  import opened JsonText
  import opened JsonWriting
  import opened JsonEquality
  import opened CanonicalJson
  import opened Sorting
  import opened ArrayIndexes

  /** What the YAML and JSON parsers return. The entries of an object stand in insertion order. */
  datatype Spec =
    | Null
    | Bool(b: bool)
    | Number(x: Double)
    | NonFinite(name: Text)
    | Str(units: Text)
    | Date(time: int)
    | Arr(items: seq<Spec>)
    | Obj(entries: seq<(Text, Spec)>)

  const PROTO: Text := Ascii("__proto__")

  /** An entry's value, which is smaller than the entry. */
  function ValueIn(entry: (Text, Spec)): (v: Spec)
    ensures v < entry
  {
    entry.1
  }

  // ----- canonicalise -----

  /** Assigning to `__proto__` sets the prototype instead of adding a key, and a date has no keys
      of its own. */
  function Canonicalise(s: Spec): Spec
    decreases s, 1
  {
    match s
    case Arr(items) => Arr(CanonicalItems(items))
    case Obj(entries) =>
      LessIsOrder();
      Obj(SortedEntries(Less, CanonicalEntries(entries)))
    case Date(_) => Obj([])
    case _ => s
  }

  function CanonicalItems(items: seq<Spec>): seq<Spec>
    decreases items, 0
  {
    if items == [] then [] else [Canonicalise(items[0])] + CanonicalItems(items[1..])
  }

  function CanonicalEntries(entries: seq<(Text, Spec)>): map<Text, Spec>
    decreases entries, 0
  {
    if entries == [] then map[]
    else
      var before, last := CanonicalEntries(entries[..|entries| - 1]), entries[|entries| - 1];
      if last.0 == PROTO then before else before[last.0 := Canonicalise(ValueIn(last))]
  }

  // ----- JSON.stringify -----

  function MapOf<V>(entries: seq<(Text, V)>): map<Text, V> {
    if entries == [] then map[] else map[entries[0].0 := entries[0].1] + MapOf(entries[1..])
  }

  function OnlyIndexes<V>(m: map<Text, V>): map<Text, V> {
    map k | k in m && IsIndex(k) :: m[k]
  }

  function NoIndexes<V>(entries: seq<(Text, V)>): seq<(Text, V)> {
    if entries == [] then []
    else (if IsIndex(entries[0].0) then [] else [entries[0]]) + NoIndexes(entries[1..])
  }

  /** The order in which an object's keys are enumerated: indexes first, by number, then the
      other keys as inserted. */
  function Enumerated<V>(entries: seq<(Text, V)>): seq<(Text, V)> {
    IndexLessIsOrder();
    SortedEntries(IndexLess, OnlyIndexes(MapOf(entries))) + NoIndexes(entries)
  }

  /** The JSON a value is written as; `spell` is the number formatting. */
  function Written(s: Spec, spell: Double -> JsonNumber): Json
    decreases s, 1
  {
    match s
    case Null => Json.Null
    case Bool(b) => if b then True else False
    case Number(x) => Json.Number(spell(x))
    case NonFinite(_) => Json.Null
    case Str(units) => String(StringPieces(units))
    case Date(_) => Object([], [])
    case Arr(items) => Array([], WrittenItems(items, spell))
    case Obj(entries) => Object([], Members(Enumerated(WrittenEntries(entries, spell))))
  }

  function WrittenItems(items: seq<Spec>, spell: Double -> JsonNumber): seq<Item>
    decreases items, 0
  {
    if items == [] then [] else [Item([], Written(items[0], spell), [])] + WrittenItems(items[1..], spell)
  }

  function WrittenEntries(entries: seq<(Text, Spec)>, spell: Double -> JsonNumber): seq<(Text, Json)>
    decreases entries, 0
  {
    if entries == [] then []
    else [(entries[0].0, Written(ValueIn(entries[0]), spell))] + WrittenEntries(entries[1..], spell)
  }

  function Members(entries: seq<(Text, Json)>): seq<Member> {
    if entries == [] then []
    else [Member([], StringPieces(entries[0].0), [], Item([], entries[0].1, []))] + Members(entries[1..])
  }

  function Stringify(s: Spec, spell: Double -> JsonNumber): Text {
    Render(Written(s, spell))
  }

  predicate SpecsAreEqual(a: Spec, b: Spec, spell: Double -> JsonNumber) {
    Stringify(Canonicalise(a), spell) == Stringify(Canonicalise(b), spell)
  }

  // ----- What equality should mean -----

  datatype Meaning =
    | MNull
    | MBool(b: bool)
    | MNumber(x: Double)
    | MNonFinite(name: Text)
    | MString(units: Text)
    | MDate(time: int)
    | MArray(items: seq<Meaning>)
    | MObject(members: map<Text, Meaning>)

  /** Objects are finite maps at every depth, arrays ordered lists. */
  function MeaningOf(s: Spec): Meaning
    decreases s, 1
  {
    match s
    case Null => MNull
    case Bool(b) => MBool(b)
    case Number(x) => MNumber(x)
    case NonFinite(name) => MNonFinite(name)
    case Str(units) => MString(units)
    case Date(time) => MDate(time)
    case Arr(items) => MArray(MeaningItems(items))
    case Obj(entries) => MObject(MeaningEntries(entries))
  }

  function MeaningItems(items: seq<Spec>): seq<Meaning>
    decreases items, 0
  {
    if items == [] then [] else [MeaningOf(items[0])] + MeaningItems(items[1..])
  }

  function MeaningEntries(entries: seq<(Text, Spec)>): map<Text, Meaning>
    decreases entries, 0
  {
    if entries == [] then map[]
    else
      var last := entries[|entries| - 1];
      MeaningEntries(entries[..|entries| - 1])[last.0 := MeaningOf(ValueIn(last))]
  }

  /** What the comparison sees of it: members called `__proto__` are lost at every depth, a date
      is an object without members, and the numbers JSON cannot write are null. */
  function Seen(s: Spec): Meaning
    decreases s, 1
  {
    match s
    case NonFinite(_) => MNull
    case Date(_) => MObject(map[])
    case Arr(items) => MArray(SeenItems(items))
    case Obj(entries) => MObject(SeenEntries(entries))
    case _ => MeaningOf(s)
  }

  function SeenItems(items: seq<Spec>): seq<Meaning>
    decreases items, 0
  {
    if items == [] then [] else [Seen(items[0])] + SeenItems(items[1..])
  }

  function SeenEntries(entries: seq<(Text, Spec)>): map<Text, Meaning>
    decreases entries, 0
  {
    if entries == [] then map[]
    else
      var before, last := SeenEntries(entries[..|entries| - 1]), entries[|entries| - 1];
      if last.0 == PROTO then before else before[last.0 := Seen(ValueIn(last))]
  }

  // ----- Strings and keys -----

  lemma IndexLessIsOrder()
    ensures IsStrictOrder(IndexLess)
  {
    forall a: Text, b: Text ensures !IndexLess(a, a) && (a != b ==> IndexLess(a, b) || IndexLess(b, a)) {
      LessTrichotomy(a, b);
    }
    forall a: Text, b: Text, c: Text | IndexLess(a, b) && IndexLess(b, c) ensures IndexLess(a, c) {
      if |a| == |b| == |c| {
        LessTransitive(a, b, c);
      }
    }
  }

  // ----- Enumerating keeps the map -----

  lemma {:induction false} MapOfConcat<V>(a: seq<(Text, V)>, b: seq<(Text, V)>)
    ensures MapOf(a + b) == MapOf(a) + MapOf(b)
  {
    if a == [] {
      assert a + b == b;
    } else {
      assert (a + b)[1..] == a[1..] + b;
      MapOfConcat(a[1..], b);
    }
  }

  function WithoutIndexes<V>(m: map<Text, V>): map<Text, V> {
    map k | k in m && !IsIndex(k) :: m[k]
  }

  lemma {:induction false} NoIndexesMap<V>(entries: seq<(Text, V)>)
    ensures MapOf(NoIndexes(entries)) == WithoutIndexes(MapOf(entries))
  {
    hide IsIndex;
    if entries != [] {
      NoIndexesMap(entries[1..]);
      var rest, kept := entries[1..], NoIndexes(entries[1..]);
      hide NoIndexes;
      assert ([entries[0]] + kept)[1..] == kept && [] + kept == kept;
      assert MapOf([entries[0]] + kept) == map[entries[0].0 := entries[0].1] + MapOf(kept);
      FirstKept(entries[0].0, entries[0].1, MapOf(rest));
    }
  }

  lemma FirstKept<V>(key: Text, value: V, m: map<Text, V>)
    ensures WithoutIndexes(map[key := value] + m) ==
            if IsIndex(key) then WithoutIndexes(m) else map[key := value] + WithoutIndexes(m)
  {
    hide IsIndex;
  }

  /** Entries with distinct keys each stand in the map. */
  lemma {:induction false} MapOfDistinct<V>(entries: seq<(Text, V)>)
    requires forall i, j | 0 <= i < j < |entries| :: entries[i].0 != entries[j].0
    ensures forall i | 0 <= i < |entries| ::
              entries[i].0 in MapOf(entries) && MapOf(entries)[entries[i].0] == entries[i].1
    ensures forall k | k in MapOf(entries) :: exists i :: 0 <= i < |entries| && entries[i].0 == k
  {
    if entries != [] {
      var rest := entries[1..];
      assert forall i | 0 <= i < |rest| :: rest[i] == entries[i + 1];
      MapOfDistinct(rest);
      assert entries[0].0 !in MapOf(rest);
      forall i | 0 <= i < |entries|
        ensures entries[i].0 in MapOf(entries) && MapOf(entries)[entries[i].0] == entries[i].1
      {
        if i > 0 {
          assert rest[i - 1] == entries[i];
        }
      }
    }
  }

  lemma SortedAre<V>(less: (Text, Text) -> bool, m: map<Text, V>) returns (keys: seq<Text>)
    requires IsStrictOrder(less)
    ensures ArePairs(SortedEntries(less, m), keys, m)
  {
    keys := SortedKeys(less, m.Keys);
    hide SortedKeys;
    forall i, j | 0 <= i < j < |keys| ensures keys[i] != keys[j] {
      assert less(keys[i], keys[j]);
    }
  }

  lemma SortedMap<V>(less: (Text, Text) -> bool, m: map<Text, V>)
    requires IsStrictOrder(less)
    ensures MapOf(SortedEntries(less, m)) == m
  {
    var keys := SortedAre(less, m);
    hide IsStrictOrder, SortedEntries, MapOf, ArePairs;
    MapOfPairs(SortedEntries(less, m), keys, m);
  }

  /** `entries` pairs the distinct `keys`, those of `m`, with their values. */
  ghost predicate ArePairs<V>(entries: seq<(Text, V)>, keys: seq<Text>, m: map<Text, V>) {
    && |keys| == |entries| && (forall k :: k in keys <==> k in m)
    && (forall i | 0 <= i < |keys| :: keys[i] in m && entries[i] == (keys[i], m[keys[i]]))
    && (forall i, j | 0 <= i < j < |keys| :: keys[i] != keys[j])
  }

  lemma MapOfPair<V>(entries: seq<(Text, V)>, keys: seq<Text>, m: map<Text, V>, k: Text)
    requires ArePairs(entries, keys, m)
    ensures k in MapOf(entries) <==> k in m
    ensures k in m ==> MapOf(entries)[k] == m[k]
  {
    hide MapOf;
    MapOfDistinct(entries);
    if k in m {
      var i :| 0 <= i < |keys| && keys[i] == k;
      assert entries[i] == (k, m[k]);
    }
  }

  lemma MapOfPairs<V>(entries: seq<(Text, V)>, keys: seq<Text>, m: map<Text, V>)
    requires ArePairs(entries, keys, m)
    ensures MapOf(entries) == m
  {
    hide MapOf, ArePairs;
    forall k ensures (k in MapOf(entries) <==> k in m) && (k in m ==> MapOf(entries)[k] == m[k]) {
      MapOfPair(entries, keys, m, k);
    }
  }

  lemma EnumeratedMap<V>(entries: seq<(Text, V)>)
    ensures MapOf(Enumerated(entries)) == MapOf(entries)
  {
    IndexLessIsOrder();
    var m := MapOf(entries);
    SortedMap(IndexLess, OnlyIndexes(m));
    NoIndexesMap(entries);
    hide IsIndex, MapOf, NoIndexes, SortedEntries;
    MapOfConcat(SortedEntries(IndexLess, OnlyIndexes(m)), NoIndexes(entries));
  }

  // ----- What a written object denotes -----

  ghost function DenoteMap(m: map<Text, Json>): map<Text, Value> {
    map k | k in m :: Denote(m[k])
  }

  lemma {:induction false} MembersDenote(entries: seq<(Text, Json)>)
    ensures DenoteMembers(Members(entries)) == DenoteMap(MapOf(entries))
  {
    hide Denote, JsonText.Units, StringPieces;
    if entries != [] {
      var first := Member([], StringPieces(entries[0].0), [], Item([], entries[0].1, []));
      assert ([first] + Members(entries[1..]))[1..] == Members(entries[1..]);
      StringPiecesUnits(entries[0].0);
      MembersDenote(entries[1..]);
    }
  }

  /** An object's canonical form, written: keyed by what `canonicalise` keeps. */
  function WrittenMap(entries: seq<(Text, Spec)>, spell: Double -> JsonNumber): map<Text, Json> {
    if entries == [] then map[]
    else
      var before, last := WrittenMap(entries[..|entries| - 1], spell), entries[|entries| - 1];
      if last.0 == PROTO then before else before[last.0 := Written(Canonicalise(last.1), spell)]
  }

  lemma {:induction false} WrittenMapIs(entries: seq<(Text, Spec)>, spell: Double -> JsonNumber)
    ensures WrittenMap(entries, spell) == map k | k in CanonicalEntries(entries) ::
              Written(CanonicalEntries(entries)[k], spell)
  {
    hide Canonicalise, Written;
    if entries != [] {
      WrittenMapIs(entries[..|entries| - 1], spell);
    }
  }

  lemma {:induction false} WrittenEntriesAre(entries: seq<(Text, Spec)>, spell: Double -> JsonNumber)
    ensures |WrittenEntries(entries, spell)| == |entries|
    ensures forall i | 0 <= i < |entries| ::
              WrittenEntries(entries, spell)[i] == (entries[i].0, Written(entries[i].1, spell))
  {
    hide Written;
    if entries != [] {
      WrittenEntriesAre(entries[1..], spell);
      assert forall i | 0 < i < |entries| :: entries[i] == entries[1..][i - 1];
    }
  }

  lemma SortedWritten(m: map<Text, Spec>, w: map<Text, Json>, spell: Double -> JsonNumber)
    requires IsStrictOrder(Less)
    requires w == map k | k in m :: Written(m[k], spell)
    ensures WrittenEntries(SortedEntries(Less, m), spell) == SortedEntries(Less, w)
  {
    hide Written, Less;
    WrittenEntriesAre(SortedEntries(Less, m), spell);
    assert m.Keys == w.Keys;
  }

  lemma ObjectWritten(entries: seq<(Text, Spec)>, spell: Double -> JsonNumber)
    requires IsStrictOrder(Less)
    ensures Written(Canonicalise(Obj(entries)), spell) ==
            Object([], Members(Enumerated(SortedEntries(Less, WrittenMap(entries, spell)))))
  {
    WrittenMapIs(entries, spell);
    SortedWritten(CanonicalEntries(entries), WrittenMap(entries, spell), spell);
  }

  lemma ObjectDenotes(entries: seq<(Text, Spec)>, spell: Double -> JsonNumber)
    ensures Denote(Written(Canonicalise(Obj(entries)), spell)) == VObject(DenoteMap(WrittenMap(entries, spell)))
  {
    LessIsOrder();
    ObjectWritten(entries, spell);
    var sorted := SortedEntries(Less, WrittenMap(entries, spell));
    SortedMap(Less, WrittenMap(entries, spell));
    hide Enumerated, SortedEntries, WrittenMap, MapOf, Canonicalise, Written, Members;
    EnumeratedMap(sorted);
    MembersDenote(Enumerated(sorted));
  }

  lemma ObjectSame(xs: seq<(Text, Spec)>, ys: seq<(Text, Spec)>, spell: Double -> JsonNumber)
    requires WrittenMap(xs, spell) == WrittenMap(ys, spell)
    ensures Written(Canonicalise(Obj(xs)), spell) == Written(Canonicalise(Obj(ys)), spell)
  {
    LessIsOrder();
    ObjectWritten(xs, spell);
    ObjectWritten(ys, spell);
  }

  // ----- Seen alike, written alike -----

  /** `a` and `b` are seen alike, written alike and denote alike, all or none. */
  ghost predicate Alike(a: Spec, b: Spec, spell: Double -> JsonNumber) {
    var u, v := Written(Canonicalise(a), spell), Written(Canonicalise(b), spell);
    && (Seen(a) == Seen(b) ==> u == v)
    && (Denote(u) == Denote(v) ==> Seen(a) == Seen(b))
  }

  lemma {:induction false} LastEntry(entries: seq<(Text, Spec)>, key: Text, spell: Double -> JsonNumber)
    returns (i: nat)
    requires key in SeenEntries(entries) || key in WrittenMap(entries, spell)
    ensures i < |entries| && key in SeenEntries(entries) && key in WrittenMap(entries, spell)
    ensures SeenEntries(entries)[key] == Seen(entries[i].1)
    ensures WrittenMap(entries, spell)[key] == Written(Canonicalise(entries[i].1), spell)
  {
    hide Seen, Written, Canonicalise;
    var n := |entries| - 1;
    if entries[n].0 == key && key != PROTO {
      i := n;
    } else {
      i := LastEntry(entries[..n], key, spell);
    }
  }

  lemma EntriesSeenAlike(xs: seq<(Text, Spec)>, ys: seq<(Text, Spec)>, spell: Double -> JsonNumber)
    requires forall i, j | 0 <= i < |xs| && 0 <= j < |ys| :: Alike(xs[i].1, ys[j].1, spell)
    requires SeenEntries(xs) == SeenEntries(ys)
    ensures WrittenMap(xs, spell) == WrittenMap(ys, spell)
  {
    hide Seen, Written, Canonicalise, SeenEntries, WrittenMap, Denote;
    forall k ensures k in WrittenMap(xs, spell) <==> k in WrittenMap(ys, spell) {
      SameKey(xs, k, spell);
      SameKey(ys, k, spell);
    }
    forall k | k in WrittenMap(xs, spell) && k in WrittenMap(ys, spell)
      ensures WrittenMap(xs, spell)[k] == WrittenMap(ys, spell)[k]
    {
      var i := LastEntry(xs, k, spell);
      var j := LastEntry(ys, k, spell);
      assert Alike(xs[i].1, ys[j].1, spell);
    }
  }

  lemma SameKey(entries: seq<(Text, Spec)>, k: Text, spell: Double -> JsonNumber)
    ensures k in WrittenMap(entries, spell) <==> k in SeenEntries(entries)
  {
    if k in WrittenMap(entries, spell) || k in SeenEntries(entries) {
      var i := LastEntry(entries, k, spell);
    }
  }

  lemma EntriesDenoteAlike(xs: seq<(Text, Spec)>, ys: seq<(Text, Spec)>, spell: Double -> JsonNumber)
    requires forall i, j | 0 <= i < |xs| && 0 <= j < |ys| :: Alike(xs[i].1, ys[j].1, spell)
    requires DenoteMap(WrittenMap(xs, spell)) == DenoteMap(WrittenMap(ys, spell))
    ensures SeenEntries(xs) == SeenEntries(ys)
  {
    hide Seen, Written, Canonicalise, SeenEntries, WrittenMap, Denote;
    assert WrittenMap(xs, spell).Keys == DenoteMap(WrittenMap(xs, spell)).Keys;
    assert WrittenMap(ys, spell).Keys == DenoteMap(WrittenMap(ys, spell)).Keys;
    forall k ensures k in SeenEntries(xs) <==> k in SeenEntries(ys) {
      SameKey(xs, k, spell);
      SameKey(ys, k, spell);
    }
    forall k | k in SeenEntries(xs) && k in SeenEntries(ys) ensures SeenEntries(xs)[k] == SeenEntries(ys)[k] {
      var i := LastEntry(xs, k, spell);
      var j := LastEntry(ys, k, spell);
      assert Alike(xs[i].1, ys[j].1, spell);
      assert DenoteMap(WrittenMap(xs, spell))[k] == Denote(WrittenMap(xs, spell)[k]);
      assert DenoteMap(WrittenMap(ys, spell))[k] == Denote(WrittenMap(ys, spell)[k]);
    }
  }

  lemma {:induction false} ItemsAlike(xs: seq<Spec>, ys: seq<Spec>, spell: Double -> JsonNumber)
    requires Faithful(spell)
    ensures SeenItems(xs) == SeenItems(ys) ==>
              WrittenItems(CanonicalItems(xs), spell) == WrittenItems(CanonicalItems(ys), spell)
    ensures DenoteItems(WrittenItems(CanonicalItems(xs), spell)) ==
            DenoteItems(WrittenItems(CanonicalItems(ys), spell)) ==>
              SeenItems(xs) == SeenItems(ys)
    decreases xs, 0
  {
    hide Seen, Written, Canonicalise, Denote, Faithful;
    if xs != [] && ys != [] {
      AllAlike(xs[0], ys[0], spell);
      ItemsAlike(xs[1..], ys[1..], spell);
      FirstItem(xs, spell);
      FirstItem(ys, spell);
      ConsEqual(Seen(xs[0]), SeenItems(xs[1..]), Seen(ys[0]), SeenItems(ys[1..]));
      ConsEqual(Denote(Written(Canonicalise(xs[0]), spell)), DenoteItems(WrittenItems(CanonicalItems(xs[1..]), spell)),
                Denote(Written(Canonicalise(ys[0]), spell)), DenoteItems(WrittenItems(CanonicalItems(ys[1..]), spell)));
    }
  }

  lemma FirstItem(xs: seq<Spec>, spell: Double -> JsonNumber)
    requires xs != []
    ensures WrittenItems(CanonicalItems(xs), spell) ==
            [Item([], Written(Canonicalise(xs[0]), spell), [])] + WrittenItems(CanonicalItems(xs[1..]), spell)
    ensures DenoteItems(WrittenItems(CanonicalItems(xs), spell)) ==
            [Denote(Written(Canonicalise(xs[0]), spell))] + DenoteItems(WrittenItems(CanonicalItems(xs[1..]), spell))
  {
    hide Written, Canonicalise, Denote;
    assert ([Canonicalise(xs[0])] + CanonicalItems(xs[1..]))[1..] == CanonicalItems(xs[1..]);
    var item := Item([], Written(Canonicalise(xs[0]), spell), []);
    assert ([item] + WrittenItems(CanonicalItems(xs[1..]), spell))[1..] == WrittenItems(CanonicalItems(xs[1..]), spell);
  }

  lemma ObjectsAlike(xs: seq<(Text, Spec)>, ys: seq<(Text, Spec)>, spell: Double -> JsonNumber)
    requires forall i, j | 0 <= i < |xs| && 0 <= j < |ys| :: Alike(xs[i].1, ys[j].1, spell)
    ensures Alike(Obj(xs), Obj(ys), spell)
  {
    EntriesAlike(xs, ys, spell);
    hide Alike;
    ObjectsAlikeIf(xs, ys, spell);
  }

  lemma EntriesAlike(xs: seq<(Text, Spec)>, ys: seq<(Text, Spec)>, spell: Double -> JsonNumber)
    requires forall i, j | 0 <= i < |xs| && 0 <= j < |ys| :: Alike(xs[i].1, ys[j].1, spell)
    ensures SeenEntries(xs) == SeenEntries(ys) ==> WrittenMap(xs, spell) == WrittenMap(ys, spell)
    ensures DenoteMap(WrittenMap(xs, spell)) == DenoteMap(WrittenMap(ys, spell)) ==> SeenEntries(xs) == SeenEntries(ys)
  {
    hide Alike, SeenEntries, WrittenMap, DenoteMap;
    if SeenEntries(xs) == SeenEntries(ys) {
      EntriesSeenAlike(xs, ys, spell);
    }
    if DenoteMap(WrittenMap(xs, spell)) == DenoteMap(WrittenMap(ys, spell)) {
      EntriesDenoteAlike(xs, ys, spell);
    }
  }

  lemma ObjectsAlikeIf(xs: seq<(Text, Spec)>, ys: seq<(Text, Spec)>, spell: Double -> JsonNumber)
    requires SeenEntries(xs) == SeenEntries(ys) ==> WrittenMap(xs, spell) == WrittenMap(ys, spell)
    requires DenoteMap(WrittenMap(xs, spell)) == DenoteMap(WrittenMap(ys, spell)) ==> SeenEntries(xs) == SeenEntries(ys)
    ensures Alike(Obj(xs), Obj(ys), spell)
  {
    ObjectDenotes(xs, spell);
    ObjectDenotes(ys, spell);
    hide Written, Canonicalise, SeenEntries, WrittenMap, Denote, DenoteMap;
    if SeenEntries(xs) == SeenEntries(ys) {
      ObjectSame(xs, ys, spell);
    }
  }

  /** A date is what an object without entries is. */
  function AsObject(s: Spec): Spec {
    if s.Date? then Obj([]) else s
  }

  lemma DateIsEmpty(s: Spec, spell: Double -> JsonNumber)
    ensures Seen(AsObject(s)) == Seen(s)
    ensures Written(Canonicalise(AsObject(s)), spell) == Written(Canonicalise(s), spell)
  {
    if s.Date? {
      LessIsOrder();
      var empty: map<Text, Spec> := map[];
      assert SortedEntries(Less, empty) == [];
      assert CanonicalEntries([]) == empty;
    }
  }

  lemma StringsAlike(s: Text, t: Text, spell: Double -> JsonNumber)
    ensures Alike(Str(s), Str(t), spell)
  {
    StringPiecesUnits(s);
    StringPiecesUnits(t);
  }

  /** An object is unlike everything else. */
  lemma ObjectUnlike(xs: seq<(Text, Spec)>, b: Spec, spell: Double -> JsonNumber)
    requires !b.Obj? && !b.Date?
    ensures Alike(Obj(xs), b, spell) && Alike(b, Obj(xs), spell)
  {
    ObjectDenotes(xs, spell);
    LessIsOrder();
    hide SortedEntries, CanonicalEntries, WrittenMap, Less, Enumerated, Members;
  }

  lemma ScalarsAlike(a: Spec, b: Spec, spell: Double -> JsonNumber)
    requires Faithful(spell) && !a.Obj? && !b.Obj? && !a.Date? && !b.Date? && !(a.Arr? && b.Arr?) && !(a.Str? && b.Str?)
    ensures Alike(a, b, spell)
  {
    hide StringPieces;
  }

  lemma AlikeAsObjects(a: Spec, b: Spec, spell: Double -> JsonNumber)
    ensures Alike(AsObject(a), AsObject(b), spell) ==> Alike(a, b, spell)
  {
    DateIsEmpty(a, spell);
    DateIsEmpty(b, spell);
    hide AsObject, Seen, Written, Canonicalise, Denote;
  }

  lemma {:induction false} AllAlike(a: Spec, b: Spec, spell: Double -> JsonNumber)
    requires Faithful(spell)
    ensures Alike(a, b, spell)
    decreases a, 1
  {
    AlikeAsObjects(a, b, spell);
    hide Alike, Faithful;
    match (AsObject(a), AsObject(b))
    case (Obj(xs), Obj(ys)) =>
      forall i, j | 0 <= i < |xs| && 0 <= j < |ys| ensures Alike(xs[i].1, ys[j].1, spell) {
        AllAlike(ValueIn(xs[i]), ys[j].1, spell);
      }
      ObjectsAlike(xs, ys, spell);
    case (Arr(xs), Arr(ys)) => ArraysAlike(xs, ys, spell);
    case (Str(s), Str(t)) => StringsAlike(s, t, spell);
    case (Obj(xs), _) => ObjectUnlike(xs, b, spell);
    case (_, Obj(ys)) => ObjectUnlike(ys, a, spell);
    case _ => ScalarsAlike(a, b, spell);
  }

  lemma ArraysAlike(xs: seq<Spec>, ys: seq<Spec>, spell: Double -> JsonNumber)
    requires Faithful(spell)
    ensures Alike(Arr(xs), Arr(ys), spell)
    decreases xs, 1
  {
    ItemsAlike(xs, ys, spell);
  }

  // ----- The comparison -----

  /** Two documents compare equal exactly when they are seen alike. */
  lemma SpecsEqualIff(a: Spec, b: Spec, spell: Double -> JsonNumber)
    requires Faithful(spell)
    ensures SpecsAreEqual(a, b, spell) <==> Seen(a) == Seen(b)
  {
    hide Written, Canonicalise, Seen, Render, Denote;
    AllAlike(a, b, spell);
    if SpecsAreEqual(a, b, spell) {
      SameTextSameValue(Written(Canonicalise(a), spell), Written(Canonicalise(b), spell));
    }
  }

  /** Nothing in the document that the comparison does not see. */
  predicate Plain(s: Spec)
    decreases s
  {
    match s
    case NonFinite(_) => false
    case Date(_) => false
    case Arr(items) => forall i | 0 <= i < |items| :: Plain(items[i])
    case Obj(entries) => forall i | 0 <= i < |entries| :: entries[i].0 != PROTO && Plain(entries[i].1)
    case _ => true
  }

  lemma {:induction false} PlainIsSeen(s: Spec)
    requires Plain(s)
    ensures Seen(s) == MeaningOf(s)
    decreases s, 1
  {
    match s
    case Arr(items) => PlainItems(items);
    case Obj(entries) => PlainEntries(entries);
    case _ =>
  }

  lemma {:induction false} PlainItems(items: seq<Spec>)
    requires forall i | 0 <= i < |items| :: Plain(items[i])
    ensures SeenItems(items) == MeaningItems(items)
    decreases items, 0
  {
    hide Seen, MeaningOf;
    if items != [] {
      PlainIsSeen(items[0]);
      PlainItems(items[1..]);
    }
  }

  lemma {:induction false} PlainEntries(entries: seq<(Text, Spec)>)
    requires forall i | 0 <= i < |entries| :: entries[i].0 != PROTO && Plain(entries[i].1)
    ensures SeenEntries(entries) == MeaningEntries(entries)
    decreases entries, 0
  {
    hide Seen, MeaningOf;
    if entries != [] {
      PlainIsSeen(ValueIn(entries[|entries| - 1]));
      PlainEntries(entries[..|entries| - 1]);
    }
  }

  /** No object has two members of one name, as is so of every parsed document. */
  predicate UniqueKeys(s: Spec)
    decreases s
  {
    match s
    case Arr(items) => forall i | 0 <= i < |items| :: UniqueKeys(items[i])
    case Obj(entries) =>
      && (forall i, j | 0 <= i < j < |entries| :: entries[i].0 != entries[j].0)
      && (forall i | 0 <= i < |entries| :: UniqueKeys(entries[i].1))
    case _ => true
  }

  /** Plain documents are exactly those in which the comparison sees everything. */
  lemma {:induction false} PlainIffSeen(s: Spec)
    requires UniqueKeys(s)
    ensures Plain(s) <==> Seen(s) == MeaningOf(s)
    decreases s, 1
  {
    match s
    case Arr(items) => PlainItemsIff(items);
    case Obj(entries) => PlainEntriesIff(entries);
    case _ =>
  }

  lemma {:induction false} PlainItemsIff(items: seq<Spec>)
    requires forall i | 0 <= i < |items| :: UniqueKeys(items[i])
    ensures (forall i | 0 <= i < |items| :: Plain(items[i])) <==> SeenItems(items) == MeaningItems(items)
    decreases items, 0
  {
    hide Seen, MeaningOf, Plain, UniqueKeys;
    if items != [] {
      PlainIffSeen(items[0]);
      PlainItemsIff(items[1..]);
      ConsEqualIff(Seen(items[0]), SeenItems(items[1..]), MeaningOf(items[0]), MeaningItems(items[1..]));
      assert forall i | 0 <= i < |items| :: i == 0 || items[i] == items[1..][i - 1];
      assert forall i | 0 <= i < |items| - 1 :: items[1..][i] == items[i + 1];
    }
  }

  lemma ConsEqualIff<T>(x: T, xs: seq<T>, y: T, ys: seq<T>)
    ensures [x] + xs == [y] + ys <==> x == y && xs == ys
  {
    if [x] + xs == [y] + ys {
      assert ([x] + xs)[0] == ([y] + ys)[0] && ([x] + xs)[1..] == xs && ([y] + ys)[1..] == ys;
    }
  }

  lemma {:induction false} MeaningKeys(entries: seq<(Text, Spec)>, k: Text)
    ensures k in MeaningEntries(entries) <==> exists i :: 0 <= i < |entries| && entries[i].0 == k
    ensures k in SeenEntries(entries) <==> k in MeaningEntries(entries) && k != PROTO
    decreases |entries|
  {
    hide Seen, MeaningOf, PROTO;
    if entries != [] {
      var before, n := entries[..|entries| - 1], |entries| - 1;
      MeaningKeys(before, k);
      if i :| 0 <= i < n && before[i].0 == k {
        assert entries[i].0 == k;
      }
      if i :| 0 <= i < |entries| && entries[i].0 == k && i < n {
        assert before[i].0 == k;
      }
    }
  }

  lemma {:induction false} PlainEntriesIff(entries: seq<(Text, Spec)>)
    requires forall i, j | 0 <= i < j < |entries| :: entries[i].0 != entries[j].0
    requires forall i | 0 <= i < |entries| :: UniqueKeys(entries[i].1)
    ensures (forall i | 0 <= i < |entries| :: entries[i].0 != PROTO && Plain(entries[i].1)) <==>
            SeenEntries(entries) == MeaningEntries(entries)
    decreases entries, 0
  {
    hide Seen, MeaningOf, PROTO, Plain, UniqueKeys;
    if entries != [] {
      var n := |entries| - 1;
      var before, last := entries[..n], entries[n];
      PlainIffSeen(ValueIn(last));
      PlainEntriesIff(before);
      MeaningKeys(before, last.0);
      MeaningKeys(entries, last.0);
      hide SeenEntries, MeaningEntries;
      LastEntryIff(before, last);
      assert forall i | 0 <= i < n :: before[i] == entries[i];
    }
  }

  lemma LastEntryIff(before: seq<(Text, Spec)>, last: (Text, Spec))
    requires last.0 !in MeaningEntries(before) && last.0 !in SeenEntries(before)
    ensures SeenEntries(before + [last]) == MeaningEntries(before + [last]) <==>
            last.0 != PROTO && Seen(last.1) == MeaningOf(last.1) && SeenEntries(before) == MeaningEntries(before)
  {
    hide Seen, MeaningOf, PROTO;
    assert (before + [last])[..|before|] == before;
    var m, n, k := MeaningEntries(before), SeenEntries(before), last.0;
    assert k in m[k := MeaningOf(last.1)] && k !in n;
    if k != PROTO && n[k := Seen(last.1)] == m[k := MeaningOf(last.1)] {
      assert n[k := Seen(last.1)][k] == m[k := MeaningOf(last.1)][k];
      assert n == n[k := Seen(last.1)] - {k} && m == m[k := MeaningOf(last.1)] - {k};
    }
  }

  /** On plain documents, exactly when they are equal as trees of finite maps and lists. */
  lemma PlainSpecsEqualIff(a: Spec, b: Spec, spell: Double -> JsonNumber)
    requires Faithful(spell) && Plain(a) && Plain(b)
    ensures SpecsAreEqual(a, b, spell) <==> MeaningOf(a) == MeaningOf(b)
  {
    SpecsEqualIff(a, b, spell);
    PlainIsSeen(a);
    PlainIsSeen(b);
  }

  /** A member called `__proto__` makes a difference the comparison misses. */
  lemma ProtoMissed(value: Spec, spell: Double -> JsonNumber)
    requires Faithful(spell)
    ensures SpecsAreEqual(Obj([(Ascii("__proto__"), value)]), Obj([]), spell)
    ensures MeaningOf(Obj([(Ascii("__proto__"), value)])) != MeaningOf(Obj([]))
  {
    SpecsEqualIff(Obj([(PROTO, value)]), Obj([]), spell);
    assert [(PROTO, value)][..0] == [];
    assert PROTO in MeaningEntries([(PROTO, value)]);
  }

  /** Two dates compare equal whatever their times, and equal to an object without members. */
  lemma DateMissed(a: int, b: int, spell: Double -> JsonNumber)
    requires Faithful(spell) && a != b
    ensures SpecsAreEqual(Date(a), Date(b), spell) && MeaningOf(Date(a)) != MeaningOf(Date(b))
    ensures SpecsAreEqual(Date(a), Obj([]), spell) && MeaningOf(Date(a)) != MeaningOf(Obj([]))
  {
    SpecsEqualIff(Date(a), Date(b), spell);
    SpecsEqualIff(Date(a), Obj([]), spell);
  }

  /** A number JSON cannot write compares equal to null. */
  lemma NonFiniteMissed(name: Text, spell: Double -> JsonNumber)
    requires Faithful(spell)
    ensures SpecsAreEqual(NonFinite(name), Spec.Null, spell) && MeaningOf(NonFinite(name)) != MeaningOf(Spec.Null)
  {
    SpecsEqualIff(NonFinite(name), Spec.Null, spell);
  }

  // ----- What the compared text says -----

  /** A document as JSON: what it holds, without what the comparison does not see. */
  ghost function JsonOf(s: Spec, spell: Double -> JsonNumber): Value
    decreases s, 1
  {
    match s
    case Null => VNull
    case Bool(b) => VBool(b)
    case Number(x) => VNumber(NumberValue(spell(x)))
    case NonFinite(_) => VNull
    case Str(units) => VString(units)
    case Date(_) => VObject(map[])
    case Arr(items) => VArray(JsonItems(items, spell))
    case Obj(entries) => VObject(JsonEntries(entries, spell))
  }

  ghost function JsonItems(items: seq<Spec>, spell: Double -> JsonNumber): seq<Value>
    decreases items, 0
  {
    if items == [] then [] else [JsonOf(items[0], spell)] + JsonItems(items[1..], spell)
  }

  ghost function JsonEntries(entries: seq<(Text, Spec)>, spell: Double -> JsonNumber): map<Text, Value>
    decreases entries, 0
  {
    if entries == [] then map[]
    else
      var before, last := JsonEntries(entries[..|entries| - 1], spell), entries[|entries| - 1];
      if last.0 == PROTO then before else before[last.0 := JsonOf(ValueIn(last), spell)]
  }

  lemma {:induction false} WrittenMeans(s: Spec, spell: Double -> JsonNumber)
    ensures Denote(Written(Canonicalise(s), spell)) == JsonOf(s, spell)
    decreases s, 1
  {
    DateIsEmpty(s, spell);
    match s
    case Arr(items) =>
      hide Written, Canonicalise, Denote;
      ArrayDenotes(items, spell);
      ItemsMean(items, spell);
    case Obj(entries) =>
      hide Written, Canonicalise, Denote;
      ObjectDenotes(entries, spell);
      EntriesMean(entries, spell);
    case Date(_) =>
      hide Written, Canonicalise, Denote;
      ObjectDenotes([], spell);
    case Str(units) => StringPiecesUnits(units);
    case _ =>
  }

  lemma ArrayDenotes(items: seq<Spec>, spell: Double -> JsonNumber)
    ensures Denote(Written(Canonicalise(Arr(items)), spell)) ==
            VArray(DenoteItems(WrittenItems(CanonicalItems(items), spell)))
  {
  }

  lemma {:induction false} ItemsMean(items: seq<Spec>, spell: Double -> JsonNumber)
    ensures DenoteItems(WrittenItems(CanonicalItems(items), spell)) == JsonItems(items, spell)
    decreases items, 0
  {
    hide Written, Canonicalise, Denote, JsonOf;
    if items != [] {
      var rest := CanonicalItems(items[1..]);
      assert ([Canonicalise(items[0])] + rest)[1..] == rest;
      var first := Item([], Written(Canonicalise(items[0]), spell), []);
      assert ([first] + WrittenItems(rest, spell))[1..] == WrittenItems(rest, spell);
      WrittenMeans(items[0], spell);
      ItemsMean(items[1..], spell);
    }
  }

  lemma {:induction false} EntriesMean(entries: seq<(Text, Spec)>, spell: Double -> JsonNumber)
    ensures DenoteMap(WrittenMap(entries, spell)) == JsonEntries(entries, spell)
    decreases entries, 0
  {
    hide Written, Canonicalise, Denote, JsonOf;
    if entries != [] {
      WrittenMeans(ValueIn(entries[|entries| - 1]), spell);
      EntriesMean(entries[..|entries| - 1], spell);
    }
  }

  /** The text that is compared is a JSON text of the document. */
  lemma ComparedTextMeans(s: Spec, spell: Double -> JsonNumber)
    ensures IsJsonText(Stringify(Canonicalise(s), spell))
    ensures ValueOfText(Stringify(Canonicalise(s), spell)) == JsonOf(s, spell)
  {
    hide Written, Canonicalise, Render, Denote;
    RenderedValue(Written(Canonicalise(s), spell));
    WrittenMeans(s, spell);
  }
}
