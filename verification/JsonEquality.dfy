/** Canonical trees decide JSON equality: two texts get equal trees exactly when they denote
    equal values. */
module JsonEquality {
  import opened CodeUnits
  import opened JsonNumbers
  import opened JsonText
  import opened CanonicalJson
  import opened JsonRoundTrip
  import opened Sorting

  // ----- Members: the last of several with one name -----

  ghost predicate HasName(members: seq<Member>, name: Text) {
    exists i :: 0 <= i < |members| && JsonText.Units(members[i].name) == name
  }

  lemma {:induction false} LastMember(members: seq<Member>, name: Text) returns (i: nat)
    requires HasName(members, name)
    ensures i < |members| && name in TreeMembers(members) && name in DenoteMembers(members)
    ensures TreeMembers(members)[name] == TreeOf(members[i].item.value)
    ensures DenoteMembers(members)[name] == Denote(members[i].item.value)
  {
    if HasName(members[1..], name) {
      var j := LastMember(members[1..], name);
      i := j + 1;
    } else {
      NoName(members[1..], name);
      var k :| 0 <= k < |members| && JsonText.Units(members[k].name) == name;
      assert k > 0 ==> members[1..][k - 1] == members[k];
      i := 0;
    }
  }

  lemma {:induction false} NoName(members: seq<Member>, name: Text)
    requires !HasName(members, name)
    ensures name !in TreeMembers(members) && name !in DenoteMembers(members)
  {
    if members != [] {
      forall i | 0 <= i < |members[1..]| ensures JsonText.Units(members[1..][i].name) != name {
        assert members[1..][i] == members[i + 1];
      }
      assert JsonText.Units(members[0].name) != name;
      NoName(members[1..], name);
    }
  }

  /** Equal names and, member by member, equal trees exactly for equal values: then the
      two maps of trees are equal exactly when the two maps of values are. */
  lemma SameMembersIff(ms: seq<Member>, ns: seq<Member>)
    requires forall i, j | 0 <= i < |ms| && 0 <= j < |ns| ::
               TreeOf(ms[i].item.value) == TreeOf(ns[j].item.value)
               <==> Denote(ms[i].item.value) == Denote(ns[j].item.value)
    ensures TreeMembers(ms) == TreeMembers(ns) <==> DenoteMembers(ms) == DenoteMembers(ns)
  {
    forall name ensures SameAt(ms, ns, name) {
      SameMemberIff(ms, ns, name);
    }
    if TreeMembers(ms) == TreeMembers(ns) {
      forall name ensures name in DenoteMembers(ms) <==> name in DenoteMembers(ns) {
        assert SameAt(ms, ns, name);
      }
      forall name | name in DenoteMembers(ms) ensures DenoteMembers(ms)[name] == DenoteMembers(ns)[name] {
        assert SameAt(ms, ns, name);
      }
    }
    if DenoteMembers(ms) == DenoteMembers(ns) {
      forall name ensures name in TreeMembers(ms) <==> name in TreeMembers(ns) {
        assert SameAt(ms, ns, name);
      }
      forall name | name in TreeMembers(ms) ensures TreeMembers(ms)[name] == TreeMembers(ns)[name] {
        assert SameAt(ms, ns, name);
      }
    }
  }

  ghost predicate SameAt(ms: seq<Member>, ns: seq<Member>, name: Text) {
    && (name in TreeMembers(ms) <==> name in DenoteMembers(ms))
    && (name in TreeMembers(ns) <==> name in DenoteMembers(ns))
    && (name in TreeMembers(ms) && name in TreeMembers(ns) ==>
          (TreeMembers(ms)[name] == TreeMembers(ns)[name] <==> DenoteMembers(ms)[name] == DenoteMembers(ns)[name]))
  }

  lemma SameMemberIff(ms: seq<Member>, ns: seq<Member>, name: Text)
    requires forall i, j | 0 <= i < |ms| && 0 <= j < |ns| ::
               TreeOf(ms[i].item.value) == TreeOf(ns[j].item.value)
               <==> Denote(ms[i].item.value) == Denote(ns[j].item.value)
    ensures SameAt(ms, ns, name)
  {
    if !HasName(ms, name) { NoName(ms, name); }
    if !HasName(ns, name) { NoName(ns, name); }
    if HasName(ms, name) && HasName(ns, name) {
      var i := LastMember(ms, name);
      var j := LastMember(ns, name);
    } else if HasName(ms, name) {
      var i := LastMember(ms, name);
    } else if HasName(ns, name) {
      var j := LastMember(ns, name);
    }
  }

  lemma ObjectTreeInjective(m: map<Text, Tree>, n: map<Text, Tree>)
    requires ObjectTree(m) == ObjectTree(n)
    ensures m == n
  {
    LessIsOrder();
    SortedEntriesInjective(Less, m, n);
  }

  // ----- The equivalence -----

  /** The canonical tree and the value separate the same documents. */
  lemma {:induction false} SameTreeIffSameValue(c: Json, d: Json)
    ensures TreeOf(c) == TreeOf(d) <==> Denote(c) == Denote(d)
    decreases c, 1
  {
    match (c, d)
    case (Number(s), Number(t)) => SameCanonicalNumberIff(s, t);
    case (Array(_, xs), Array(_, ys)) => SameItemsIff(xs, ys);
    case (Object(_, ms), Object(_, ns)) =>
      forall i, j | 0 <= i < |ms| && 0 <= j < |ns|
        ensures TreeOf(ms[i].item.value) == TreeOf(ns[j].item.value)
                <==> Denote(ms[i].item.value) == Denote(ns[j].item.value)
      {
        SameTreeIffSameValue(ms[i].item.value, ns[j].item.value);
      }
      SameMembersIff(ms, ns);
      if TreeOf(c) == TreeOf(d) {
        ObjectTreeInjective(TreeMembers(ms), TreeMembers(ns));
      }
    case _ =>
      assert NULL_TEXT[0] != TRUE_TEXT[0] && NULL_TEXT[0] != FALSE_TEXT[0] && TRUE_TEXT[0] != FALSE_TEXT[0];
  }

  lemma {:induction false} SameItemsIff(xs: seq<Item>, ys: seq<Item>)
    ensures TreesOf(xs) == TreesOf(ys) <==> DenoteItems(xs) == DenoteItems(ys)
    decreases xs, 0
  {
    if xs != [] && ys != [] {
      SameTreeIffSameValue(xs[0].value, ys[0].value);
      SameItemsIff(xs[1..], ys[1..]);
      ConsEqual(TreeOf(xs[0].value), TreesOf(xs[1..]), TreeOf(ys[0].value), TreesOf(ys[1..]));
      ConsEqual(Denote(xs[0].value), DenoteItems(xs[1..]), Denote(ys[0].value), DenoteItems(ys[1..]));
    }
  }

  lemma ConsEqual<T>(a: T, x: seq<T>, b: T, y: seq<T>)
    ensures [a] + x == [b] + y <==> a == b && x == y
  {
    if [a] + x == [b] + y {
      assert ([a] + x)[0] == ([b] + y)[0];
      assert ([a] + x)[1..] == x && ([b] + y)[1..] == y;
    }
  }

  // ----- The tokenizer on texts -----

  datatype Canonicalised = Invalid | Tokenized(tree: Tree)

  /** canonicalJson: reject what JSON.parse rejects, then tokenize from the start. */
  ghost function CanonicalOf(text: Text): Canonicalised {
    if !IsJsonText(text) then Invalid
    else
      match ValueAt(text, 0)
      case Fail => Invalid
      case Done(tree, _) => Tokenized(tree)
  }

  /** A text denotes one value, and its canonical tree is that of any document it renders. */
  lemma CanonicalOfDocument(doc: Item)
    ensures CanonicalOf(RenderItem(doc)) == Tokenized(TreeOf(doc.value))
    ensures IsJsonText(RenderItem(doc)) && ValueOfText(RenderItem(doc)) == Denote(doc.value)
  {
    var text := RenderItem(doc);
    assert IsJsonText(text);
    DocumentTokenized(doc);
    var other: Item :| RenderItem(other) == text && ValueOfText(text) == Denote(other.value);
    DocumentTokenized(other);
    SameTreeIffSameValue(doc.value, other.value);
  }

  /** Every JSON text is tokenized, and no other text is. */
  lemma TokenizedIffJson(text: Text)
    ensures CanonicalOf(text).Tokenized? <==> IsJsonText(text)
  {
    if IsJsonText(text) {
      var doc: Item :| RenderItem(doc) == text;
      CanonicalOfDocument(doc);
    }
  }

  /** Two JSON texts get equal canonical trees exactly when they denote equal values. */
  lemma SameCanonicalIffSameValue(s: Text, t: Text)
    requires IsJsonText(s) && IsJsonText(t)
    ensures CanonicalOf(s) == CanonicalOf(t) <==> ValueOfText(s) == ValueOfText(t)
  {
    var c: Item :| RenderItem(c) == s;
    var d: Item :| RenderItem(d) == t;
    CanonicalOfDocument(c);
    CanonicalOfDocument(d);
    SameTreeIffSameValue(c.value, d.value);
  }
}
