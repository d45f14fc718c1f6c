/** The query cost and depth rules over possibly cyclic fragment documents
    (src/graphql/validation.ts). An absent selection set is the empty one:
    the source gives both the same result. */
module QueryRules {

  datatype Selection =
    | Field(name: string, sub: seq<Selection>)
    | InlineFragment(sub: seq<Selection>)
    | Spread(fragment: string)

  datatype FragmentDefinition = FragmentDefinition(name: string, sub: seq<Selection>)

  type Fragments = map<string, seq<Selection>>

  const FIELD_COST := 1
  const EXPENSIVE_COST := 5
  const MAX_QUERY_COST := 135
  const EXPENSIVE_FIELDS := {"milestones", "players", "player", "scoutSubscription"}

  /** The name-to-fragment table of a document: a later definition replaces an earlier one. */
  function FragmentTable(defs: seq<FragmentDefinition>): Fragments {
    if defs == [] then map[]
    else FragmentTable(defs[..|defs| - 1])[defs[|defs| - 1].name := defs[|defs| - 1].sub]
  }

  /** No later definition has the name of the i-th. */
  ghost predicate IsLastOfName(defs: seq<FragmentDefinition>, i: nat)
    requires i < |defs|
  {
    forall j | i < j < |defs| :: defs[j].name != defs[i].name
  }

  /** The table of these definitions: exactly their names, each with the body of its last
      definition. */
  ghost predicate IsTableOf(fr: Fragments, defs: seq<FragmentDefinition>) {
    && (forall name :: name in fr <==> IsDefined(defs, name))
    && (forall i | 0 <= i < |defs| && IsLastOfName(defs, i) :: defs[i].name in fr && fr[defs[i].name] == defs[i].sub)
  }

  ghost predicate IsDefined(defs: seq<FragmentDefinition>, name: string) {
    exists i :: 0 <= i < |defs| && defs[i].name == name
  }

  lemma DefinedNext(before: seq<FragmentDefinition>, last: FragmentDefinition, name: string)
    ensures IsDefined(before + [last], name) <==> IsDefined(before, name) || name == last.name
  {
    if i :| 0 <= i < |before| && before[i].name == name {
      assert (before + [last])[i].name == name;
    }
    assert (before + [last])[|before|] == last;
  }

  lemma LastNext(before: seq<FragmentDefinition>, last: FragmentDefinition, i: nat)
    requires i < |before| && IsLastOfName(before + [last], i)
    ensures IsLastOfName(before, i) && before[i].name != last.name
  {
    var all := before + [last];
    assert all[|before|] == last && all[i] == before[i];
    forall j | i < j < |before| ensures before[j].name != before[i].name {
      assert all[j] == before[j];
    }
  }

  lemma {:induction false} TableHoldsDefinitions(defs: seq<FragmentDefinition>)
    ensures IsTableOf(FragmentTable(defs), defs)
    decreases |defs|
  {
    hide IsDefined, IsLastOfName;
    if defs != [] {
      var before, last := defs[..|defs| - 1], defs[|defs| - 1];
      TableHoldsDefinitions(before);
      assert defs == before + [last];
      forall name ensures name in FragmentTable(defs) <==> IsDefined(defs, name) {
        DefinedNext(before, last, name);
      }
      forall i | 0 <= i < |defs| && IsLastOfName(defs, i)
        ensures defs[i].name in FragmentTable(defs) && FragmentTable(defs)[defs[i].name] == defs[i].sub
      {
        if i < |before| {
          LastNext(before, last, i);
        }
      }
    } else {
      NothingDefined();
    }
  }

  lemma NothingDefined()
    ensures forall name :: !IsDefined([], name)
  {
  }

  predicate IsMeta(name: string) {
    "__" <= name
  }

  function FieldCost(name: string): nat {
    if name in EXPENSIVE_FIELDS then EXPENSIVE_COST else FIELD_COST
  }

  // ----- The cost traversal as a function of the visited set it starts from -----

  datatype Tally = Tally(total: nat, visited: set<string>)

  function Cost(fr: Fragments, sels: seq<Selection>, visited: set<string>): (r: Tally)
    ensures visited <= r.visited
    decreases fr.Keys - visited, sels
  {
    if sels == [] then Tally(0, visited)
    else
      var head := CostOf(fr, sels[0], visited);
      var tail := Cost(fr, sels[1..], head.visited);
      Tally(head.total + tail.total, tail.visited)
  }

  function CostOf(fr: Fragments, sel: Selection, visited: set<string>): (r: Tally)
    ensures visited <= r.visited
    decreases fr.Keys - visited, sel
  {
    match sel
    case Field(name, sub) =>
      if IsMeta(name) then Tally(0, visited)
      else
        var inner := Cost(fr, sub, visited);
        Tally(FieldCost(name) + inner.total, inner.visited)
    case InlineFragment(sub) => Cost(fr, sub, visited)
    case Spread(f) =>
      if f !in visited && f in fr then Cost(fr, fr[f], visited + {f})
      else Tally(0, visited)
  }

  /** One validation pass: `visited` is shared by every recursive call. */
  class CostTraversal {
    const fragments: Fragments
    var visited: set<string>

    constructor (fragments: Fragments)
      ensures this.fragments == fragments && visited == {}
    {
      this.fragments := fragments;
      visited := {};
    }

    method CalculateCost(node: seq<Selection>) returns (total: nat)
      modifies this
      ensures Tally(total, visited) == Cost(fragments, node, old(visited))
      decreases fragments.Keys - visited, node
    {
      total := 0;
      for i := 0 to |node|
        invariant old(visited) <= visited
        invariant var rest := Cost(fragments, node[i..], visited);
                  Cost(fragments, node, old(visited)) == Tally(total + rest.total, rest.visited)
      {
        ghost var before := visited;
        ghost var soFar := total;
        ghost var head := CostOf(fragments, node[i], before);
        assert node[i..][1..] == node[i + 1..];
        match node[i] {
          case Field(name, sub) =>
            if !IsMeta(name) {
              total := total + FieldCost(name);
              var inner := CalculateCost(sub);
              total := total + inner;
            }
          case InlineFragment(sub) =>
            var inner := CalculateCost(sub);
            total := total + inner;
          case Spread(f) =>
            if f !in visited && f in fragments {
              visited := visited + {f};
              var inner := CalculateCost(fragments[f]);
              total := total + inner;
            }
        }
        assert Tally(total - soFar, visited) == head;
      }
    }
  }

  // ----- What the cost means: own fields plus each reachable fragment once -----

  /** What one occurrence of a field weighs. */
  function FieldWeight(name: string): nat {
    match name
    case "milestones" => 5
    case "players" => 5
    case "player" => 5
    case "scoutSubscription" => 5
    case _ => 1
  }

  lemma FieldWeighsItsCost(name: string)
    ensures FieldCost(name) == FieldWeight(name) && (IsMeta(name) <==> "__" <= name)
  {
  }

  /** The weight of the fields written in `sels` itself; spreads weigh nothing here. */
  function OwnWeight(sels: seq<Selection>): nat {
    if sels == [] then 0 else OwnWeightOf(sels[0]) + OwnWeight(sels[1..])
  }

  function OwnWeightOf(sel: Selection): nat {
    match sel
    case Field(name, sub) => if "__" <= name then 0 else FieldWeight(name) + OwnWeight(sub)
    case InlineFragment(sub) => OwnWeight(sub)
    case Spread(_) => 0
  }

  /** The fragments spread directly in `sels`, outside meta-fields. */
  function Spreads(sels: seq<Selection>): set<string> {
    if sels == [] then {} else SpreadsOf(sels[0]) + Spreads(sels[1..])
  }

  function SpreadsOf(sel: Selection): set<string> {
    match sel
    case Field(name, sub) => if "__" <= name then {} else Spreads(sub)
    case InlineFragment(sub) => Spreads(sub)
    case Spread(f) => {f}
  }

  /** `path` leads from `sels` through defined fragments, each spread by the one before. */
  ghost predicate IsSpreadPath(fr: Fragments, sels: seq<Selection>, path: seq<string>) {
    && path != []
    && path[0] in Spreads(sels)
    && (forall i | 0 <= i < |path| :: path[i] in fr)
    && (forall i | 0 < i < |path| :: path[i] in Spreads(fr[path[i - 1]]))
  }

  ghost predicate Reaches(fr: Fragments, sels: seq<Selection>, f: string) {
    exists path :: IsSpreadPath(fr, sels, path) && path[|path| - 1] == f
  }

  ghost function Reachable(fr: Fragments, sels: seq<Selection>): set<string> {
    set f | f in fr && Reaches(fr, sels, f)
  }

  /** The weights of a set of fragments, each counted once. */
  ghost function FragmentWeight(fr: Fragments, names: set<string>): nat
    requires names <= fr.Keys
  {
    if names == {} then 0
    else
      var f :| f in names;
      OwnWeight(fr[f]) + FragmentWeight(fr, names - {f})
  }

  lemma FragmentWeightSplit(fr: Fragments, names: set<string>, f: string)
    requires names <= fr.Keys && f in names
    ensures FragmentWeight(fr, names) == OwnWeight(fr[f]) + FragmentWeight(fr, names - {f})
  {
    var g :| g in names && FragmentWeight(fr, names) == OwnWeight(fr[g]) + FragmentWeight(fr, names - {g});
    if g != f {
      FragmentWeightSplit(fr, names - {g}, f);
      FragmentWeightSplit(fr, names - {f}, g);
      assert names - {g} - {f} == names - {f} - {g};
    }
  }

  lemma FragmentWeightUnion(fr: Fragments, a: set<string>, b: set<string>)
    requires a <= fr.Keys && b <= fr.Keys && a !! b
    ensures FragmentWeight(fr, a + b) == FragmentWeight(fr, a) + FragmentWeight(fr, b)
  {
    if a == {} {
      assert a + b == b;
    } else {
      var f :| f in a;
      FragmentWeightSplit(fr, a, f);
      FragmentWeightSplit(fr, a + b, f);
      FragmentWeightUnion(fr, a - {f}, b);
      assert a + b - {f} == (a - {f}) + b;
    }
  }

  lemma {:induction false} CostTotal(fr: Fragments, sels: seq<Selection>, visited: set<string>)
    ensures var r := Cost(fr, sels, visited);
            && r.visited - visited <= fr.Keys
            && r.total == OwnWeight(sels) + FragmentWeight(fr, r.visited - visited)
    decreases fr.Keys - visited, sels
  {
    if sels == [] {
      assert visited - visited == {};
    } else {
      var head := CostOf(fr, sels[0], visited);
      var tail := Cost(fr, sels[1..], head.visited);
      CostOfTotal(fr, sels[0], visited);
      CostTotal(fr, sels[1..], head.visited);
      FragmentWeightUnion(fr, head.visited - visited, tail.visited - head.visited);
      assert tail.visited - visited == (head.visited - visited) + (tail.visited - head.visited);
    }
  }

  lemma {:induction false} CostOfTotal(fr: Fragments, sel: Selection, visited: set<string>)
    ensures var r := CostOf(fr, sel, visited);
            && r.visited - visited <= fr.Keys
            && r.total == OwnWeightOf(sel) + FragmentWeight(fr, r.visited - visited)
    decreases fr.Keys - visited, sel
  {
    assert visited - visited == {};
    match sel
    case Field(name, sub) => FieldWeighsItsCost(name); if !IsMeta(name) { CostTotal(fr, sub, visited); }
    case InlineFragment(sub) => CostTotal(fr, sub, visited);
    case Spread(f) =>
      if f !in visited && f in fr {
        CostTotal(fr, fr[f], visited + {f});
        var added := Cost(fr, fr[f], visited + {f}).visited - visited;
        FragmentWeightSplit(fr, added, f);
        assert added - {f} == Cost(fr, fr[f], visited + {f}).visited - (visited + {f});
      }
  }

  /** Every fragment of `names` has all the defined fragments it spreads in `within`. */
  ghost predicate ClosedIn(fr: Fragments, names: set<string>, within: set<string>) {
    forall f | f in names && f in fr :: Spreads(fr[f]) * fr.Keys <= within
  }

  lemma {:induction false} CostCloses(fr: Fragments, sels: seq<Selection>, visited: set<string>)
    ensures var r := Cost(fr, sels, visited);
            Spreads(sels) * fr.Keys <= r.visited && ClosedIn(fr, r.visited - visited, r.visited)
    decreases fr.Keys - visited, sels
  {
    if sels != [] {
      CostOfCloses(fr, sels[0], visited);
      CostCloses(fr, sels[1..], CostOf(fr, sels[0], visited).visited);
    }
  }

  lemma {:induction false} CostOfCloses(fr: Fragments, sel: Selection, visited: set<string>)
    ensures var r := CostOf(fr, sel, visited);
            SpreadsOf(sel) * fr.Keys <= r.visited && ClosedIn(fr, r.visited - visited, r.visited)
    decreases fr.Keys - visited, sel
  {
    match sel
    case Field(name, sub) => if !IsMeta(name) { CostCloses(fr, sub, visited); }
    case InlineFragment(sub) => CostCloses(fr, sub, visited);
    case Spread(f) => if f !in visited && f in fr { CostCloses(fr, fr[f], visited + {f}); }
  }

  lemma ReachesWider(fr: Fragments, narrow: seq<Selection>, wide: seq<Selection>, f: string)
    requires Spreads(narrow) <= Spreads(wide) && Reaches(fr, narrow, f)
    ensures Reaches(fr, wide, f)
  {
    var path :| IsSpreadPath(fr, narrow, path) && path[|path| - 1] == f;
    assert IsSpreadPath(fr, wide, path);
  }

  lemma ReachesThrough(fr: Fragments, sels: seq<Selection>, f: string, g: string)
    requires f in Spreads(sels) && f in fr && Reaches(fr, fr[f], g)
    ensures Reaches(fr, sels, g)
  {
    var path :| IsSpreadPath(fr, fr[f], path) && path[|path| - 1] == g;
    assert IsSpreadPath(fr, sels, [f] + path);
  }

  lemma {:induction false} CostReaches(fr: Fragments, sels: seq<Selection>, visited: set<string>, f: string)
    requires f in Cost(fr, sels, visited).visited - visited
    ensures f in fr && Reaches(fr, sels, f)
    decreases fr.Keys - visited, sels
  {
    var head := CostOf(fr, sels[0], visited);
    if f in head.visited {
      CostOfReaches(fr, sels[0], visited, f);
      assert Spreads([sels[0]]) == SpreadsOf(sels[0]) + Spreads([]);
      ReachesWider(fr, [sels[0]], sels, f);
    } else {
      CostReaches(fr, sels[1..], head.visited, f);
      ReachesWider(fr, sels[1..], sels, f);
    }
  }

  lemma {:induction false} CostOfReaches(fr: Fragments, sel: Selection, visited: set<string>, f: string)
    requires f in CostOf(fr, sel, visited).visited - visited
    ensures f in fr && Reaches(fr, [sel], f)
    decreases fr.Keys - visited, sel
  {
    assert Spreads([sel]) == SpreadsOf(sel) + Spreads([]);
    match sel
    case Field(name, sub) =>
      CostReaches(fr, sub, visited, f);
      ReachesWider(fr, sub, [sel], f);
    case InlineFragment(sub) =>
      CostReaches(fr, sub, visited, f);
      ReachesWider(fr, sub, [sel], f);
    case Spread(g) =>
      if f == g {
        assert IsSpreadPath(fr, [sel], [g]);
      } else {
        CostReaches(fr, fr[g], visited + {g}, f);
        ReachesThrough(fr, [sel], g, f);
      }
  }

  lemma {:induction false} ClosedHoldsPath(fr: Fragments, sels: seq<Selection>, path: seq<string>, closed: set<string>,
                                           k: nat)
    requires IsSpreadPath(fr, sels, path) && k < |path|
    requires Spreads(sels) * fr.Keys <= closed && ClosedIn(fr, closed, closed)
    ensures path[k] in closed
  {
    if k > 0 {
      ClosedHoldsPath(fr, sels, path, closed, k - 1);
      assert path[k] in Spreads(fr[path[k - 1]]);
    }
  }

  /** The fragments visited from an empty set are exactly the reachable ones, cycles included. */
  lemma VisitedAreReachable(fr: Fragments, operation: seq<Selection>)
    ensures Cost(fr, operation, {}).visited == Reachable(fr, operation)
  {
    var r := Cost(fr, operation, {});
    CostCloses(fr, operation, {});
    assert r.visited - {} == r.visited;
    forall f | f in r.visited ensures f in Reachable(fr, operation) {
      CostReaches(fr, operation, {}, f);
    }
    forall f | f in Reachable(fr, operation) ensures f in r.visited {
      var path :| IsSpreadPath(fr, operation, path) && path[|path| - 1] == f;
      ClosedHoldsPath(fr, operation, path, r.visited, |path| - 1);
    }
  }

  /** The cost of an operation: its own fields, plus every reachable fragment exactly once. */
  lemma CostIsReachableWeight(fr: Fragments, operation: seq<Selection>)
    ensures Cost(fr, operation, {}).total
         == OwnWeight(operation) + FragmentWeight(fr, Reachable(fr, operation))
  {
    CostTotal(fr, operation, {});
    VisitedAreReachable(fr, operation);
    assert Cost(fr, operation, {}).visited - {} == Reachable(fr, operation);
  }

  lemma {:induction false} OwnWeightConcat(a: seq<Selection>, b: seq<Selection>)
    ensures OwnWeight(a + b) == OwnWeight(a) + OwnWeight(b)
    ensures Spreads(a + b) == Spreads(a) + Spreads(b)
  {
    if a == [] {
      assert a + b == b;
    } else {
      OwnWeightConcat(a[1..], b);
      assert (a + b)[1..] == a[1..] + b;
    }
  }

  lemma CountMiddle(before: seq<Selection>, x: Selection, after: seq<Selection>, y: Selection)
    ensures multiset(before + ([x] + after))[y] == multiset(before + after)[y] + multiset([x])[y]
  {
    assert multiset([x] + after) == multiset([x]) + multiset(after);
    assert multiset(before + ([x] + after)) == multiset(before) + multiset([x] + after);
    assert multiset(before + after) == multiset(before) + multiset(after);
  }

  lemma MiddleOut(before: seq<Selection>, x: Selection, after: seq<Selection>, tail: seq<Selection>)
    requires multiset([x] + tail) == multiset(before + ([x] + after))
    ensures multiset(tail) == multiset(before + after)
  {
    assert forall y :: multiset(tail)[y] == multiset(before + after)[y] by {
      forall y ensures multiset(tail)[y] == multiset(before + after)[y] {
        CountMiddle(before, x, after, y);
        CountMiddle([], x, tail, y);
        assert [] + ([x] + tail) == [x] + tail && [] + tail == tail;
      }
    }
  }

  lemma TakeOut(a: seq<Selection>, b: seq<Selection>) returns (before: seq<Selection>, after: seq<Selection>)
    requires multiset(a) == multiset(b) && a != []
    ensures b == before + ([a[0]] + after)
    ensures multiset(a[1..]) == multiset(before + after)
  {
    assert a[0] in multiset(b);
    var i :| 0 <= i < |b| && b[i] == a[0];
    before, after := b[..i], b[i + 1..];
    assert b == before + ([a[0]] + after) && a == [a[0]] + a[1..];
    MiddleOut(before, a[0], after, a[1..]);
  }

  lemma {:induction false} PermutedSelections(a: seq<Selection>, b: seq<Selection>)
    requires multiset(a) == multiset(b)
    ensures OwnWeight(a) == OwnWeight(b) && Spreads(a) == Spreads(b)
  {
    if a == [] {
      assert |multiset(b)| == 0;
    } else {
      var before, after := TakeOut(a, b);
      PermutedSelections(a[1..], before + after);
      OwnWeightConcat(before, [a[0]] + after);
      OwnWeightConcat(before, after);
      assert ([a[0]] + after)[1..] == after;
    }
  }

  /** The same selections in another order, at every depth. */
  ghost predicate Reordered(a: seq<Selection>, b: seq<Selection>)
    decreases a, 1
  {
    exists c: seq<Selection> :: Matched(a, c) && multiset(c) == multiset(b)
  }

  /** Position by position the same selections, up to the order inside each. */
  ghost predicate Matched(a: seq<Selection>, c: seq<Selection>)
    decreases a, 0
  {
    |a| == |c| && forall i | 0 <= i < |a| :: SameUpToOrder(a[i], c[i])
  }

  ghost predicate SameUpToOrder(x: Selection, y: Selection)
    decreases x, 2
  {
    match x
    case Field(name, sub) => y.Field? && y.name == name && Reordered(sub, y.sub)
    case InlineFragment(sub) => y.InlineFragment? && Reordered(sub, y.sub)
    case Spread(_) => y == x
  }

  ghost predicate ReorderedFragments(fr: Fragments, gr: Fragments) {
    fr.Keys == gr.Keys && forall f | f in fr :: Reordered(fr[f], gr[f])
  }

  /** Shuffling one list is a reordering. */
  lemma PermutedIsReordered(a: seq<Selection>, b: seq<Selection>)
    requires multiset(a) == multiset(b)
    ensures Reordered(a, b)
  {
    forall i | 0 <= i < |a| ensures SameUpToOrder(a[i], a[i]) {
      SameAsItself(a[i]);
    }
    assert Matched(a, a);
  }

  lemma {:induction false} SameAsItself(x: Selection)
    ensures SameUpToOrder(x, x)
  {
    match x
    case Field(_, sub) => ListAsItself(sub);
    case InlineFragment(sub) => ListAsItself(sub);
    case Spread(_) =>
  }

  lemma {:induction false} ListAsItself(a: seq<Selection>)
    ensures Reordered(a, a)
  {
    forall i | 0 <= i < |a| ensures SameUpToOrder(a[i], a[i]) {
      SameAsItself(a[i]);
    }
    assert Matched(a, a);
  }

  lemma {:induction false} ReorderedWeighs(a: seq<Selection>, b: seq<Selection>)
    requires Reordered(a, b)
    ensures OwnWeight(a) == OwnWeight(b) && Spreads(a) == Spreads(b)
    decreases a, 1
  {
    var c :| Matched(a, c) && multiset(c) == multiset(b);
    MatchedWeighs(a, c);
    PermutedSelections(c, b);
  }

  lemma {:induction false} MatchedWeighs(a: seq<Selection>, c: seq<Selection>)
    requires Matched(a, c)
    ensures OwnWeight(a) == OwnWeight(c) && Spreads(a) == Spreads(c)
    decreases a, 0
  {
    if a != [] {
      assert SameUpToOrder(a[0], c[0]);
      SameWeighs(a[0], c[0]);
      assert forall i | 0 <= i < |a| - 1 :: SameUpToOrder(a[1..][i], c[1..][i]) by {
        forall i | 0 <= i < |a| - 1 ensures SameUpToOrder(a[1..][i], c[1..][i]) {
          assert SameUpToOrder(a[i + 1], c[i + 1]);
        }
      }
      MatchedWeighs(a[1..], c[1..]);
    }
  }

  lemma {:induction false} SameWeighs(x: Selection, y: Selection)
    requires SameUpToOrder(x, y)
    ensures OwnWeightOf(x) == OwnWeightOf(y) && SpreadsOf(x) == SpreadsOf(y)
    decreases x, 2
  {
    match x
    case Field(_, sub) => ReorderedWeighs(sub, y.sub);
    case InlineFragment(sub) => ReorderedWeighs(sub, y.sub);
    case Spread(_) =>
  }

  lemma ReorderedReaches(fr: Fragments, gr: Fragments, a: seq<Selection>, b: seq<Selection>, f: string)
    requires fr.Keys == gr.Keys && forall g | g in fr :: Spreads(fr[g]) == Spreads(gr[g])
    requires Spreads(a) == Spreads(b) && Reaches(fr, a, f)
    ensures Reaches(gr, b, f)
  {
    var path :| IsSpreadPath(fr, a, path) && path[|path| - 1] == f;
    assert IsSpreadPath(gr, b, path);
  }

  lemma {:induction false} SameFragmentWeights(fr: Fragments, gr: Fragments, names: set<string>)
    requires fr.Keys == gr.Keys && names <= fr.Keys && forall g | g in fr :: OwnWeight(fr[g]) == OwnWeight(gr[g])
    ensures FragmentWeight(fr, names) == FragmentWeight(gr, names)
  {
    if names != {} {
      var f :| f in names;
      FragmentWeightSplit(fr, names, f);
      FragmentWeightSplit(gr, names, f);
      SameFragmentWeights(fr, gr, names - {f});
    }
  }

  /** Reordering selections, at any depth of the operation and of its fragments, never changes
      the cost. */
  lemma CostIgnoresOrder(fr: Fragments, gr: Fragments, a: seq<Selection>, b: seq<Selection>)
    requires ReorderedFragments(fr, gr) && Reordered(a, b)
    ensures Cost(fr, a, {}).total == Cost(gr, b, {}).total
  {
    ReorderedWeighs(a, b);
    forall f | f in fr ensures OwnWeight(fr[f]) == OwnWeight(gr[f]) && Spreads(fr[f]) == Spreads(gr[f]) {
      ReorderedWeighs(fr[f], gr[f]);
    }
    CostIsReachableWeight(fr, a);
    CostIsReachableWeight(gr, b);
    hide Reordered, OwnWeight, Spreads, Cost, FragmentWeight;
    forall f | f in fr ensures Reaches(fr, a, f) <==> Reaches(gr, b, f) {
      if Reaches(fr, a, f) { ReorderedReaches(fr, gr, a, b, f); }
      if Reaches(gr, b, f) { ReorderedReaches(gr, fr, b, a, f); }
    }
    assert Reachable(fr, a) == Reachable(gr, b);
    SameFragmentWeights(fr, gr, Reachable(fr, a));
  }

  // ----- The depth traversal -----

  datatype Reading = Reading(max: nat, visited: set<string>)

  function Max(a: nat, b: nat): nat {
    if a < b then b else a
  }

  function Measure(fr: Fragments, sels: seq<Selection>, depth: nat, visited: set<string>): (r: Reading)
    ensures visited <= r.visited && depth <= r.max
    decreases fr.Keys - visited, sels
  {
    if sels == [] then Reading(depth, visited)
    else
      var head := MeasureOf(fr, sels[0], depth, visited);
      var tail := Measure(fr, sels[1..], depth, head.visited);
      Reading(Max(head.max, tail.max), tail.visited)
  }

  function MeasureOf(fr: Fragments, sel: Selection, depth: nat, visited: set<string>): (r: Reading)
    ensures visited <= r.visited && depth <= r.max
    decreases fr.Keys - visited, sel
  {
    match sel
    case Field(name, sub) =>
      if IsMeta(name) then Reading(depth, visited) else Measure(fr, sub, depth + 1, visited)
    case InlineFragment(sub) => Measure(fr, sub, depth, visited)
    case Spread(f) =>
      if f !in visited && f in fr then Measure(fr, fr[f], depth, visited + {f})
      else Reading(depth, visited)
  }

  class DepthTraversal {
    const fragments: Fragments
    var visited: set<string>

    constructor (fragments: Fragments)
      ensures this.fragments == fragments && visited == {}
    {
      this.fragments := fragments;
      visited := {};
    }

    method MeasureDepth(node: seq<Selection>, depth: nat) returns (max: nat)
      modifies this
      ensures Reading(max, visited) == Measure(fragments, node, depth, old(visited))
      decreases fragments.Keys - visited, node
    {
      max := depth;
      for i := 0 to |node|
        invariant old(visited) <= visited && depth <= max
        invariant var rest := Measure(fragments, node[i..], depth, visited);
                  Measure(fragments, node, depth, old(visited)) == Reading(Max(max, rest.max), rest.visited)
      {
        ghost var before := visited;
        ghost var soFar := max;
        ghost var head := MeasureOf(fragments, node[i], depth, before);
        assert node[i..][1..] == node[i + 1..];
        match node[i] {
          case Field(name, sub) =>
            if !IsMeta(name) {
              var childDepth := MeasureDepth(sub, depth + 1);
              if childDepth > max { max := childDepth; }
            }
          case InlineFragment(sub) =>
            var childDepth := MeasureDepth(sub, depth);
            if childDepth > max { max := childDepth; }
          case Spread(f) =>
            if f !in visited && f in fragments {
              visited := visited + {f};
              var childDepth := MeasureDepth(fragments[f], depth);
              if childDepth > max { max := childDepth; }
            }
        }
        assert visited == head.visited && max == Max(soFar, head.max);
      }
    }
  }

  /** Both rules walk the same fragments, and the depth never exceeds the cost. */
  lemma {:induction false} DepthWithinCost(fr: Fragments, sels: seq<Selection>, depth: nat, visited: set<string>)
    ensures var m, c := Measure(fr, sels, depth, visited), Cost(fr, sels, visited);
            m.visited == c.visited && m.max <= depth + c.total
    decreases fr.Keys - visited, sels
  {
    if sels != [] {
      DepthOfWithinCost(fr, sels[0], depth, visited);
      DepthWithinCost(fr, sels[1..], depth, CostOf(fr, sels[0], visited).visited);
    }
  }

  lemma {:induction false} DepthOfWithinCost(fr: Fragments, sel: Selection, depth: nat, visited: set<string>)
    ensures var m, c := MeasureOf(fr, sel, depth, visited), CostOf(fr, sel, visited);
            m.visited == c.visited && m.max <= depth + c.total
    decreases fr.Keys - visited, sel
  {
    match sel
    case Field(name, sub) => if !IsMeta(name) { DepthWithinCost(fr, sub, depth + 1, visited); }
    case InlineFragment(sub) => DepthWithinCost(fr, sub, depth, visited);
    case Spread(f) => if f !in visited && f in fr { DepthWithinCost(fr, fr[f], depth, visited + {f}); }
  }

  // ----- The fully inlined operation -----

  ghost predicate Acyclic(fr: Fragments) {
    forall f | f in fr :: !Reaches(fr, fr[f], f)
  }

  lemma ReachableShrinks(fr: Fragments, sels: seq<Selection>, f: string)
    requires Acyclic(fr) && f in fr && f in Spreads(sels)
    ensures Reachable(fr, fr[f]) < Reachable(fr, sels)
  {
    forall g | g in Reachable(fr, fr[f]) ensures g in Reachable(fr, sels) {
      ReachesThrough(fr, sels, f, g);
    }
    assert IsSpreadPath(fr, sels, [f]) && [f][0] == f;
    assert f in Reachable(fr, sels) && f !in Reachable(fr, fr[f]);
  }

  lemma ReachableWithin(fr: Fragments, narrow: seq<Selection>, wide: seq<Selection>)
    requires Spreads(narrow) <= Spreads(wide)
    ensures Reachable(fr, narrow) <= Reachable(fr, wide)
  {
    forall g | g in Reachable(fr, narrow) ensures g in Reachable(fr, wide) {
      ReachesWider(fr, narrow, wide, g);
    }
  }

  /** The operation with every spread replaced by the inlined body of its fragment;
      an undefined fragment leaves nothing, and meta-fields are not entered. */
  ghost function Inlined(fr: Fragments, sels: seq<Selection>): seq<Selection>
    requires Acyclic(fr)
    decreases Reachable(fr, sels), sels, 1
  {
    if sels == [] then []
    else
      ReachableWithin(fr, sels[1..], sels);
      [InlinedHead(fr, sels)] + Inlined(fr, sels[1..])
  }

  ghost function InlinedHead(fr: Fragments, sels: seq<Selection>): Selection
    requires Acyclic(fr) && sels != []
    decreases Reachable(fr, sels), sels, 0
  {
    match sels[0]
    case Field(name, sub) =>
      if IsMeta(name) then sels[0] else ReachableWithin(fr, sub, sels); Field(name, Inlined(fr, sub))
    case InlineFragment(sub) => ReachableWithin(fr, sub, sels); InlineFragment(Inlined(fr, sub))
    case Spread(f) =>
      if f in fr then ReachableShrinks(fr, sels, f); InlineFragment(Inlined(fr, fr[f]))
      else InlineFragment([])
  }

  /** The maximum nesting of selection sets below non-meta fields, spreads not followed. */
  function Nesting(sels: seq<Selection>): nat {
    if sels == [] then 0 else Max(NestingOf(sels[0]), Nesting(sels[1..]))
  }

  function NestingOf(sel: Selection): nat {
    match sel
    case Field(name, sub) => if "__" <= name then 0 else 1 + Nesting(sub)
    case InlineFragment(sub) => Nesting(sub)
    case Spread(_) => 0
  }

  ghost function InlinedDepth(fr: Fragments, sels: seq<Selection>): nat
    requires Acyclic(fr)
  {
    Nesting(Inlined(fr, sels))
  }

  lemma InlinedStep(fr: Fragments, sels: seq<Selection>)
    requires Acyclic(fr) && sels != []
    ensures InlinedDepth(fr, sels) == Max(NestingOf(InlinedHead(fr, sels)), InlinedDepth(fr, sels[1..]))
    ensures OwnWeight(Inlined(fr, sels))
         == OwnWeightOf(InlinedHead(fr, sels)) + OwnWeight(Inlined(fr, sels[1..]))
  {
    assert Inlined(fr, sels)[1..] == Inlined(fr, sels[1..]);
  }

  lemma {:induction false} InlinedHasNoSpreads(fr: Fragments, sels: seq<Selection>)
    requires Acyclic(fr)
    ensures Spreads(Inlined(fr, sels)) == {}
    decreases Reachable(fr, sels), sels
  {
    if sels != [] {
      ReachableWithin(fr, sels[1..], sels);
      InlinedHasNoSpreads(fr, sels[1..]);
      assert Inlined(fr, sels)[1..] == Inlined(fr, sels[1..]);
      match sels[0]
      case Field(name, sub) =>
        if !IsMeta(name) {
          ReachableWithin(fr, sub, sels);
          InlinedHasNoSpreads(fr, sub);
        }
      case InlineFragment(sub) =>
        ReachableWithin(fr, sub, sels);
        InlinedHasNoSpreads(fr, sub);
      case Spread(f) =>
        if f in fr {
          ReachableShrinks(fr, sels, f);
          InlinedHasNoSpreads(fr, fr[f]);
        }
    }
  }

  // ----- Measured depth against inlined depth -----

  /** Where the visited guard fires: each spread passed over, with the depth it stands at. */
  function Skipped(fr: Fragments, sels: seq<Selection>, depth: nat, visited: set<string>): set<(string, nat)>
    decreases fr.Keys - visited, sels
  {
    if sels == [] then {}
    else
      var head := SkippedOf(fr, sels[0], depth, visited);
      head + Skipped(fr, sels[1..], depth, CostOf(fr, sels[0], visited).visited)
  }

  function SkippedOf(fr: Fragments, sel: Selection, depth: nat, visited: set<string>): set<(string, nat)>
    decreases fr.Keys - visited, sel
  {
    match sel
    case Field(name, sub) => if IsMeta(name) then {} else Skipped(fr, sub, depth + 1, visited)
    case InlineFragment(sub) => Skipped(fr, sub, depth, visited)
    case Spread(f) =>
      if f !in fr then {}
      else if f in visited then {(f, depth)}
      else Skipped(fr, fr[f], depth, visited + {f})
  }

  /** `deep` is what the traversal measured or the deepest body behind a skipped spread,
      whichever is more. */
  ghost predicate IsMeasuredOrSkipped(fr: Fragments, deep: nat, measured: nat, skips: set<(string, nat)>)
    requires Acyclic(fr)
  {
    && measured <= deep
    && (forall s | s in skips && s.0 in fr :: s.1 + InlinedDepth(fr, fr[s.0]) <= deep)
    && (measured == deep || exists s | s in skips && s.0 in fr :: s.1 + InlinedDepth(fr, fr[s.0]) == deep)
  }

  lemma {:induction false} InlinedDepthIsMeasuredOrSkipped(fr: Fragments, sels: seq<Selection>, depth: nat,
                                                           visited: set<string>)
    requires Acyclic(fr)
    ensures IsMeasuredOrSkipped(fr, depth + InlinedDepth(fr, sels),
                                Measure(fr, sels, depth, visited).max, Skipped(fr, sels, depth, visited))
    decreases fr.Keys - visited, sels, 1
  {
    if sels != [] {
      var head := CostOf(fr, sels[0], visited);
      InlinedHeadIsMeasuredOrSkipped(fr, sels, depth, visited);
      InlinedDepthIsMeasuredOrSkipped(fr, sels[1..], depth, head.visited);
      DepthOfWithinCost(fr, sels[0], depth, visited);
      InlinedStep(fr, sels);
    }
  }

  lemma {:induction false} InlinedHeadIsMeasuredOrSkipped(fr: Fragments, sels: seq<Selection>, depth: nat,
                                                          visited: set<string>)
    requires Acyclic(fr) && sels != []
    ensures IsMeasuredOrSkipped(fr, depth + NestingOf(InlinedHead(fr, sels)),
                                MeasureOf(fr, sels[0], depth, visited).max, SkippedOf(fr, sels[0], depth, visited))
    decreases fr.Keys - visited, sels, 0
  {
    hide Measure, Skipped;
    match sels[0]
    case Field(name, sub) => if !IsMeta(name) { InlinedDepthIsMeasuredOrSkipped(fr, sub, depth + 1, visited); }
    case InlineFragment(sub) => InlinedDepthIsMeasuredOrSkipped(fr, sub, depth, visited);
    case Spread(f) =>
      if f !in visited && f in fr {
        InlinedDepthIsMeasuredOrSkipped(fr, fr[f], depth, visited + {f});
      } else if f in fr {
        assert (f, depth) in SkippedOf(fr, sels[0], depth, visited);
      }
  }

  /** The measured depth never exceeds the inlined depth, and equals it exactly when no spread
      that the visited guard passes over would have reached deeper. */
  lemma MeasuredDepthIsInlinedDepthIff(fr: Fragments, operation: seq<Selection>)
    requires Acyclic(fr)
    ensures var measured := Measure(fr, operation, 0, {}).max;
            && measured <= InlinedDepth(fr, operation)
            && (measured == InlinedDepth(fr, operation) <==>
                forall s | s in Skipped(fr, operation, 0, {}) && s.0 in fr ::
                  s.1 + InlinedDepth(fr, fr[s.0]) <= measured)
  {
    InlinedDepthIsMeasuredOrSkipped(fr, operation, 0, {});
  }

  lemma {:induction false} MeasureCoversNesting(fr: Fragments, sels: seq<Selection>, depth: nat, visited: set<string>)
    ensures var m := Measure(fr, sels, depth, visited);
            depth + Nesting(sels) <= m.max && forall f | f in m.visited - visited :: f in fr && Nesting(fr[f]) <= m.max
    decreases fr.Keys - visited, sels
  {
    if sels != [] {
      MeasureOfCoversNesting(fr, sels[0], depth, visited);
      MeasureCoversNesting(fr, sels[1..], depth, MeasureOf(fr, sels[0], depth, visited).visited);
    }
  }

  lemma {:induction false} MeasureOfCoversNesting(fr: Fragments, sel: Selection, depth: nat, visited: set<string>)
    ensures var m := MeasureOf(fr, sel, depth, visited);
            depth + NestingOf(sel) <= m.max && forall f | f in m.visited - visited :: f in fr && Nesting(fr[f]) <= m.max
    decreases fr.Keys - visited, sel
  {
    match sel
    case Field(name, sub) => if !IsMeta(name) { MeasureCoversNesting(fr, sub, depth + 1, visited); }
    case InlineFragment(sub) => MeasureCoversNesting(fr, sub, depth, visited);
    case Spread(f) => if f !in visited && f in fr { MeasureCoversNesting(fr, fr[f], depth, visited + {f}); }
  }

  lemma SubsetSize(a: set<string>, b: set<string>)
    requires a <= b
    ensures |a| <= |b| && (a != b ==> |a| < |b|)
  {
    assert b == a + (b - a);
    assert a != b ==> b - a != {};
  }

  lemma Scale(m: nat, a: nat, b: nat)
    requires a <= b
    ensures m * a <= m * b && m * (a + 1) == m * a + m
  {
  }

  /** No fragment body nests deeper than m: then each one on a chain of spreads adds at most m. */
  lemma {:induction false} InlinedDepthWithin(fr: Fragments, sels: seq<Selection>, m: nat)
    requires Acyclic(fr) && forall f | f in fr && f in Reachable(fr, sels) :: Nesting(fr[f]) <= m
    ensures InlinedDepth(fr, sels) <= Nesting(sels) + m * |Reachable(fr, sels)|
    decreases Reachable(fr, sels), sels, 1
  {
    if sels != [] {
      InlinedStep(fr, sels);
      InlinedHeadWithin(fr, sels, m);
      ReachableWithin(fr, sels[1..], sels);
      SubsetSize(Reachable(fr, sels[1..]), Reachable(fr, sels));
      Scale(m, |Reachable(fr, sels[1..])|, |Reachable(fr, sels)|);
      InlinedDepthWithin(fr, sels[1..], m);
    }
  }

  /** What inlining makes of the first selection, and how deep that nests. */
  lemma HeadShape(fr: Fragments, sels: seq<Selection>)
    requires Acyclic(fr) && sels != []
    ensures sels[0].Field? && !IsMeta(sels[0].name) ==>
              && NestingOf(InlinedHead(fr, sels)) == 1 + InlinedDepth(fr, sels[0].sub)
              && NestingOf(sels[0]) == 1 + Nesting(sels[0].sub) && Spreads(sels[0].sub) <= Spreads(sels)
    ensures sels[0].Field? && IsMeta(sels[0].name) ==> NestingOf(InlinedHead(fr, sels)) == 0
    ensures sels[0].InlineFragment? ==>
              && NestingOf(InlinedHead(fr, sels)) == InlinedDepth(fr, sels[0].sub)
              && NestingOf(sels[0]) == Nesting(sels[0].sub) && Spreads(sels[0].sub) <= Spreads(sels)
    ensures sels[0].Spread? ==>
              && sels[0].fragment in Spreads(sels)
              && NestingOf(InlinedHead(fr, sels)) ==
                 if sels[0].fragment in fr then InlinedDepth(fr, fr[sels[0].fragment]) else 0
  {
    hide Reachable, Inlined;
  }

  lemma {:induction false} InlinedHeadWithin(fr: Fragments, sels: seq<Selection>, m: nat)
    requires Acyclic(fr) && sels != [] && forall f | f in fr && f in Reachable(fr, sels) :: Nesting(fr[f]) <= m
    ensures NestingOf(InlinedHead(fr, sels)) <= NestingOf(sels[0]) + m * |Reachable(fr, sels)|
    decreases Reachable(fr, sels), sels, 0
  {
    hide Reachable, Inlined, Nesting, Spreads, Acyclic;
    HeadShape(fr, sels);
    match sels[0]
    case Field(name, sub) => if !IsMeta(name) { InnerWithin(fr, sels, sub, m); InlinedDepthWithin(fr, sub, m); }
    case InlineFragment(sub) => InnerWithin(fr, sels, sub, m); InlinedDepthWithin(fr, sub, m);
    case Spread(f) =>
      if f in fr {
        ReachableShrinks(fr, sels, f);
        SpreadReached(fr, sels, f);
        SubsetSize(Reachable(fr, fr[f]), Reachable(fr, sels));
        InlinedDepthWithin(fr, fr[f], m);
        OneMore(m, |Reachable(fr, fr[f])|, |Reachable(fr, sels)|, Nesting(fr[f]), InlinedDepth(fr, fr[f]));
      }
  }

  lemma OneMore(m: nat, a: nat, b: nat, nesting: nat, depth: nat)
    requires nesting <= m && depth <= nesting + m * a && a < b
    ensures depth <= m * b
  {
    Scale(m, a + 1, b);
    Scale(m, a, a);
  }

  lemma SpreadReached(fr: Fragments, sels: seq<Selection>, f: string)
    requires f in fr && f in Spreads(sels)
    ensures f in Reachable(fr, sels)
  {
    assert IsSpreadPath(fr, sels, [f]) && [f][0] == f;
  }

  lemma InnerWithin(fr: Fragments, sels: seq<Selection>, sub: seq<Selection>, m: nat)
    requires Spreads(sub) <= Spreads(sels)
    ensures Reachable(fr, sub) <= Reachable(fr, sels) && m * |Reachable(fr, sub)| <= m * |Reachable(fr, sels)|
  {
    ReachableWithin(fr, sub, sels);
    SubsetSize(Reachable(fr, sub), Reachable(fr, sels));
    Scale(m, |Reachable(fr, sub)|, |Reachable(fr, sels)|);
  }

  /** How far the depth rule can be off: the inlined depth is at most the measured one for the
      operation and once more for each reachable fragment. */
  lemma InlinedDepthBound(fr: Fragments, operation: seq<Selection>)
    requires Acyclic(fr)
    ensures InlinedDepth(fr, operation) <= Measure(fr, operation, 0, {}).max * (|Reachable(fr, operation)| + 1)
  {
    var m := Measure(fr, operation, 0, {});
    MeasureCoversNesting(fr, operation, 0, {});
    DepthWithinCost(fr, operation, 0, {});
    VisitedAreReachable(fr, operation);
    assert m.visited - {} == m.visited;
    hide Measure, Nesting, Cost, InlinedDepth, Acyclic;
    InlinedDepthWithin(fr, operation, m.max);
    Scale(m.max, |Reachable(fr, operation)|, |Reachable(fr, operation)|);
  }

  /** How often inlining expands each fragment. */
  ghost function Expansions(fr: Fragments, sels: seq<Selection>): multiset<string>
    requires Acyclic(fr)
    decreases Reachable(fr, sels), sels, 1
  {
    if sels == [] then multiset{}
    else
      ReachableWithin(fr, sels[1..], sels);
      HeadExpansions(fr, sels) + Expansions(fr, sels[1..])
  }

  ghost function HeadExpansions(fr: Fragments, sels: seq<Selection>): multiset<string>
    requires Acyclic(fr) && sels != []
    decreases Reachable(fr, sels), sels, 0
  {
    match sels[0]
    case Field(name, sub) =>
      if IsMeta(name) then multiset{} else ReachableWithin(fr, sub, sels); Expansions(fr, sub)
    case InlineFragment(sub) => ReachableWithin(fr, sub, sels); Expansions(fr, sub)
    case Spread(f) =>
      if f in fr then ReachableShrinks(fr, sels, f); multiset{f} + Expansions(fr, fr[f]) else multiset{}
  }

  ghost predicate NoneTwice(names: multiset<string>) {
    forall f | f in names :: names[f] == 1
  }

  lemma {:induction false} NothingSkipped(fr: Fragments, sels: seq<Selection>, depth: nat, visited: set<string>)
    requires Acyclic(fr) && NoneTwice(Expansions(fr, sels))
    requires forall f | f in visited :: f !in Expansions(fr, sels)
    ensures Skipped(fr, sels, depth, visited) == {}
    ensures forall f :: f in Cost(fr, sels, visited).visited <==> f in visited || f in Expansions(fr, sels)
    decreases fr.Keys - visited, sels, 1
  {
    if sels != [] {
      var here, later := HeadExpansions(fr, sels), Expansions(fr, sels[1..]);
      assert forall f :: Expansions(fr, sels)[f] == here[f] + later[f];
      NothingSkippedAtHead(fr, sels, depth, visited);
      NothingSkipped(fr, sels[1..], depth, CostOf(fr, sels[0], visited).visited);
    }
  }

  lemma {:induction false} NothingSkippedAtHead(fr: Fragments, sels: seq<Selection>, depth: nat, visited: set<string>)
    requires Acyclic(fr) && sels != [] && NoneTwice(HeadExpansions(fr, sels))
    requires forall f | f in visited :: f !in HeadExpansions(fr, sels)
    ensures SkippedOf(fr, sels[0], depth, visited) == {}
    ensures forall f :: f in CostOf(fr, sels[0], visited).visited <==> f in visited || f in HeadExpansions(fr, sels)
    decreases fr.Keys - visited, sels, 0
  {
    match sels[0]
    case Field(name, sub) => if !IsMeta(name) { NothingSkipped(fr, sub, depth + 1, visited); }
    case InlineFragment(sub) => NothingSkipped(fr, sub, depth, visited);
    case Spread(f) =>
      if f in fr {
        var inner := Expansions(fr, fr[f]);
        assert forall g :: HeadExpansions(fr, sels)[g] == multiset{f}[g] + inner[g];
        assert f in HeadExpansions(fr, sels);
        NothingSkipped(fr, fr[f], depth, visited + {f});
      }
  }

  /** When inlining expands no fragment twice, the depth rule measures the inlined depth. */
  lemma MeasuredDepthWithoutRepeats(fr: Fragments, operation: seq<Selection>)
    requires Acyclic(fr) && NoneTwice(Expansions(fr, operation))
    ensures Measure(fr, operation, 0, {}).max == InlinedDepth(fr, operation)
  {
    NothingSkipped(fr, operation, 0, {});
    MeasuredDepthIsInlinedDepthIff(fr, operation);
  }

  // ----- Fragments spread no deeper than where they are expanded -----

  /** A fragment, the depth at which it is expanded, and what had been visited by then. */
  type Expansion = (string, nat, set<string>)

  /** Each fragment the traversal expands. */
  function Expanded(fr: Fragments, sels: seq<Selection>, depth: nat, visited: set<string>): set<Expansion>
    decreases fr.Keys - visited, sels
  {
    if sels == [] then {}
    else
      ExpandedOf(fr, sels[0], depth, visited)
      + Expanded(fr, sels[1..], depth, CostOf(fr, sels[0], visited).visited)
  }

  function ExpandedOf(fr: Fragments, sel: Selection, depth: nat, visited: set<string>): set<Expansion>
    decreases fr.Keys - visited, sel
  {
    match sel
    case Field(name, sub) => if IsMeta(name) then {} else Expanded(fr, sub, depth + 1, visited)
    case InlineFragment(sub) => Expanded(fr, sub, depth, visited)
    case Spread(f) =>
      if f !in fr || f in visited then {}
      else {(f, depth, visited)} + Expanded(fr, fr[f], depth, visited + {f})
  }

  /** No spread stands deeper than where its fragment is expanded. */
  predicate NeverDeeper(fr: Fragments, operation: seq<Selection>) {
    forall s, x | s in Skipped(fr, operation, 0, {}) && x in Expanded(fr, operation, 0, {}) && s.0 == x.0 :: s.1 <= x.1
  }

  ghost predicate IsAmong(expanded: set<Expansion>, f: string) {
    exists x | x in expanded :: x.0 == f
  }

  /** What has been visited, and so what is passed over, has been expanded. */
  lemma {:induction false} VisitedIsExpanded(fr: Fragments, sels: seq<Selection>, depth: nat, visited: set<string>)
    ensures forall f | f in Cost(fr, sels, visited).visited ::
              f in visited || IsAmong(Expanded(fr, sels, depth, visited), f)
    ensures forall s | s in Skipped(fr, sels, depth, visited) ::
              s.0 in visited || IsAmong(Expanded(fr, sels, depth, visited), s.0)
    decreases fr.Keys - visited, sels, 1
  {
    if sels != [] {
      VisitedIsExpandedAtHead(fr, sels[0], depth, visited);
      VisitedIsExpanded(fr, sels[1..], depth, CostOf(fr, sels[0], visited).visited);
    }
  }

  lemma {:induction false} VisitedIsExpandedAtHead(fr: Fragments, sel: Selection, depth: nat, visited: set<string>)
    ensures forall f | f in CostOf(fr, sel, visited).visited ::
              f in visited || IsAmong(ExpandedOf(fr, sel, depth, visited), f)
    ensures forall s | s in SkippedOf(fr, sel, depth, visited) ::
              s.0 in visited || IsAmong(ExpandedOf(fr, sel, depth, visited), s.0)
    decreases fr.Keys - visited, sel, 0
  {
    match sel
    case Field(name, sub) => if !IsMeta(name) { VisitedIsExpanded(fr, sub, depth + 1, visited); }
    case InlineFragment(sub) => VisitedIsExpanded(fr, sub, depth, visited);
    case Spread(f) =>
      if f in fr && f !in visited {
        VisitedIsExpanded(fr, fr[f], depth, visited + {f});
        assert (f, depth, visited) in ExpandedOf(fr, sel, depth, visited);
      }
  }

  /** The traversal of an expanded body is part of the whole. */
  lemma {:induction false} ExpandedWithin(fr: Fragments, sels: seq<Selection>, depth: nat, visited: set<string>,
                                          x: Expansion)
    requires x in Expanded(fr, sels, depth, visited)
    ensures x.0 in fr && Measure(fr, fr[x.0], x.1, x.2 + {x.0}).max <= Measure(fr, sels, depth, visited).max
    ensures Skipped(fr, fr[x.0], x.1, x.2 + {x.0}) <= Skipped(fr, sels, depth, visited)
    decreases fr.Keys - visited, sels, 1
  {
    var head := CostOf(fr, sels[0], visited);
    DepthOfWithinCost(fr, sels[0], depth, visited);
    if x in ExpandedOf(fr, sels[0], depth, visited) {
      ExpandedWithinHead(fr, sels[0], depth, visited, x);
    } else {
      ExpandedWithin(fr, sels[1..], depth, head.visited, x);
    }
  }

  lemma {:induction false} ExpandedWithinHead(fr: Fragments, sel: Selection, depth: nat, visited: set<string>,
                                              x: Expansion)
    requires x in ExpandedOf(fr, sel, depth, visited)
    ensures x.0 in fr && Measure(fr, fr[x.0], x.1, x.2 + {x.0}).max <= MeasureOf(fr, sel, depth, visited).max
    ensures Skipped(fr, fr[x.0], x.1, x.2 + {x.0}) <= SkippedOf(fr, sel, depth, visited)
    decreases fr.Keys - visited, sel, 0
  {
    match sel
    case Field(_, sub) => ExpandedWithin(fr, sub, depth + 1, visited, x);
    case InlineFragment(sub) => ExpandedWithin(fr, sub, depth, visited, x);
    case Spread(f) =>
      if x != (f, depth, visited) {
        ExpandedWithin(fr, fr[f], depth, visited + {f}, x);
      }
  }

  /** From a fragment passed over less is reachable than from where it is passed over. */
  lemma {:induction false} SkippedShrinks(fr: Fragments, sels: seq<Selection>, depth: nat, visited: set<string>,
                                          s: (string, nat))
    requires Acyclic(fr) && s in Skipped(fr, sels, depth, visited)
    ensures s.0 in fr && Reachable(fr, fr[s.0]) < Reachable(fr, sels)
    decreases fr.Keys - visited, sels, 1
  {
    if s in SkippedOf(fr, sels[0], depth, visited) {
      match sels[0]
      case Field(_, sub) => SkippedShrinks(fr, sub, depth + 1, visited, s); ReachableWithin(fr, sub, sels);
      case InlineFragment(sub) => SkippedShrinks(fr, sub, depth, visited, s); ReachableWithin(fr, sub, sels);
      case Spread(f) =>
        ReachableShrinks(fr, sels, f);
        if f !in visited {
          SkippedShrinks(fr, fr[f], depth, visited + {f}, s);
        }
    } else {
      SkippedShrinks(fr, sels[1..], depth, CostOf(fr, sels[0], visited).visited, s);
      ReachableWithin(fr, sels[1..], sels);
    }
  }

  /** Then no expanded fragment reaches deeper, once inlined, than what is measured. */
  lemma {:induction false} ExpandedReaches(fr: Fragments, operation: seq<Selection>, x: Expansion)
    requires Acyclic(fr) && NeverDeeper(fr, operation) && x in Expanded(fr, operation, 0, {})
    ensures x.0 in fr && x.1 + InlinedDepth(fr, fr[x.0]) <= Measure(fr, operation, 0, {}).max
    decreases if x.0 in fr then Reachable(fr, fr[x.0]) else {}
  {
    hide Measure, Skipped, Expanded, InlinedDepth, Reachable, NeverDeeper;
    ExpandedWithin(fr, operation, 0, {}, x);
    var body, visited := fr[x.0], x.2 + {x.0};
    InlinedDepthIsMeasuredOrSkipped(fr, body, x.1, visited);
    if Measure(fr, body, x.1, visited).max != x.1 + InlinedDepth(fr, body) {
      var s :| s in Skipped(fr, body, x.1, visited) && s.0 in fr
               && s.1 + InlinedDepth(fr, fr[s.0]) == x.1 + InlinedDepth(fr, body);
      SkippedShrinks(fr, body, x.1, visited, s);
      var y := WhereExpanded(fr, operation, s);
      ExpandedReaches(fr, operation, y);
    }
  }

  lemma WhereExpanded(fr: Fragments, operation: seq<Selection>, s: (string, nat))
    returns (y: Expansion)
    requires NeverDeeper(fr, operation) && s in Skipped(fr, operation, 0, {})
    ensures y in Expanded(fr, operation, 0, {}) && y.0 == s.0 && s.1 <= y.1
  {
    hide Skipped, Expanded;
    VisitedIsExpanded(fr, operation, 0, {});
    y :| y in Expanded(fr, operation, 0, {}) && y.0 == s.0;
  }

  /** When no fragment is spread deeper than where it is first met, the depth rule measures the
      inlined depth, however often fragments are spread. */
  lemma MeasuredDepthNeverDeeper(fr: Fragments, operation: seq<Selection>)
    requires Acyclic(fr) && NeverDeeper(fr, operation)
    ensures Measure(fr, operation, 0, {}).max == InlinedDepth(fr, operation)
  {
    hide Measure, Skipped, Expanded, InlinedDepth, NeverDeeper;
    MeasuredDepthIsInlinedDepthIff(fr, operation);
    forall s | s in Skipped(fr, operation, 0, {}) && s.0 in fr
      ensures s.1 + InlinedDepth(fr, fr[s.0]) <= Measure(fr, operation, 0, {}).max
    {
      var y := WhereExpanded(fr, operation, s);
      ExpandedReaches(fr, operation, y);
    }
  }

  /** The cost never exceeds the weight of the inlined operation, and equals it when the
      visited guard passes over nothing. */
  lemma {:induction false} CostWithinInlined(fr: Fragments, sels: seq<Selection>, depth: nat, visited: set<string>)
    requires Acyclic(fr)
    ensures var cost, inlined := Cost(fr, sels, visited).total, OwnWeight(Inlined(fr, sels));
            && cost <= inlined
            && (Skipped(fr, sels, depth, visited) == {} ==> cost == inlined)
    decreases fr.Keys - visited, sels, 1
  {
    if sels != [] {
      CostWithinInlinedHead(fr, sels, depth, visited);
      CostWithinInlined(fr, sels[1..], depth, CostOf(fr, sels[0], visited).visited);
      InlinedStep(fr, sels);
    }
  }

  lemma {:induction false} CostWithinInlinedHead(fr: Fragments, sels: seq<Selection>, depth: nat, visited: set<string>)
    requires Acyclic(fr) && sels != []
    ensures var cost, inlined := CostOf(fr, sels[0], visited).total, OwnWeightOf(InlinedHead(fr, sels));
            && cost <= inlined
            && (SkippedOf(fr, sels[0], depth, visited) == {} ==> cost == inlined)
    decreases fr.Keys - visited, sels, 0
  {
    match sels[0]
    case Field(name, sub) => if !IsMeta(name) { CostWithinInlined(fr, sub, depth + 1, visited); }
    case InlineFragment(sub) => CostWithinInlined(fr, sub, depth, visited);
    case Spread(f) =>
      if f !in visited && f in fr {
        CostWithinInlined(fr, fr[f], depth, visited + {f});
      }
  }

  /** A fragment spread first at the top and again deeper is measured at the top only:
      the depth rule then reports less than the inlined depth. */
  lemma DepthUndercountsRepeatedSpread(fr: Fragments)
    requires fr == map["F" := [Field("a", [])]]
    ensures var operation := [Spread("F"), Field("b", [Spread("F")])];
            Acyclic(fr) && Measure(fr, operation, 0, {}).max == 1 < InlinedDepth(fr, operation)
  {
    var operation := [Spread("F"), Field("b", [Spread("F")])];
    OneLeafFragmentIsAcyclic(fr);
    assert operation[1..] == [Field("b", [Spread("F")])];
    MeasuredRepeatedSpread(fr);
    InlinedStep(fr, operation);
    InlinedRepeatedSpread(fr);
  }

  lemma OneLeafFragmentIsAcyclic(fr: Fragments)
    requires fr == map["F" := [Field("a", [])]]
    ensures Acyclic(fr)
  {
    assert Spreads(fr["F"]) == SpreadsOf(Field("a", [])) + Spreads([]);
  }

  lemma MeasuredRepeatedSpread(fr: Fragments)
    requires fr == map["F" := [Field("a", [])]]
    ensures MeasureOf(fr, Spread("F"), 0, {}) == Reading(1, {"F"})
    ensures Measure(fr, [Field("b", [Spread("F")])], 0, {"F"}).max == 1
  {
    SingletonReading(fr, Field("a", []), 0, {"F"});
    SingletonReading(fr, Spread("F"), 1, {"F"});
    SingletonReading(fr, Field("b", [Spread("F")]), 0, {"F"});
    assert {} + {"F"} == {"F"};
  }

  lemma InlinedRepeatedSpread(fr: Fragments)
    requires fr == map["F" := [Field("a", [])]] && Acyclic(fr)
    ensures InlinedDepth(fr, [Field("b", [Spread("F")])]) == 2
  {
    SingletonInlined(fr, Field("a", []));
    SingletonInlined(fr, Spread("F"));
    SingletonInlined(fr, Field("b", [Spread("F")]));
  }

  lemma SingletonReading(fr: Fragments, sel: Selection, depth: nat, visited: set<string>)
    ensures Measure(fr, [sel], depth, visited) == MeasureOf(fr, sel, depth, visited)
  {
    assert [sel][1..] == [];
    assert Measure(fr, [], depth, MeasureOf(fr, sel, depth, visited).visited).max == depth;
  }

  lemma SingletonInlined(fr: Fragments, sel: Selection)
    requires Acyclic(fr)
    ensures InlinedDepth(fr, [sel]) == NestingOf(InlinedHead(fr, [sel]))
  {
    InlinedStep(fr, [sel]);
    assert [sel][1..] == [];
  }

  // ----- The two rules -----

  /** Reports an operation deeper than `maxDepth`. */
  method DepthLimitRule(defs: seq<FragmentDefinition>, operation: seq<Selection>, maxDepth: nat)
    returns (reported: bool)
    ensures var fr := FragmentTable(defs);
            IsTableOf(fr, defs) && (reported <==> Measure(fr, operation, 0, {}).max > maxDepth)
  {
    TableHoldsDefinitions(defs);
    var traversal := new DepthTraversal(FragmentTable(defs));
    var depth := traversal.MeasureDepth(operation, 0);
    reported := depth > maxDepth;
  }

  /** Reports an operation whose reachable weight is at least `maxCost`. */
  method QueryCostRule(defs: seq<FragmentDefinition>, operation: seq<Selection>, maxCost: nat)
    returns (reported: bool)
    ensures var fr := FragmentTable(defs);
            && IsTableOf(fr, defs)
            && (reported <==> OwnWeight(operation) + FragmentWeight(fr, Reachable(fr, operation)) >= maxCost)
  {
    TableHoldsDefinitions(defs);
    CostIsReachableWeight(FragmentTable(defs), operation);
    var traversal := new CostTraversal(FragmentTable(defs));
    var cost := traversal.CalculateCost(operation);
    reported := cost >= maxCost;
  }

  function MilestoneAliases(n: nat): seq<Selection> {
    if n == 0 then []
    else [Field("milestones", [Field("milestoneId", []), Field("playerId", [])])] + MilestoneAliases(n - 1)
  }

  /** The documented boundary: nineteen aliased milestone blocks pass, twenty are rejected. */
  lemma AliasBoundary(fr: Fragments, n: nat)
    ensures Cost(fr, MilestoneAliases(n), {}).total == 7 * n
    ensures Cost(fr, MilestoneAliases(n), {}).total >= MAX_QUERY_COST <==> n >= 20
  {
    MilestoneAliasesWeigh(fr, n);
  }

  lemma {:induction false} MilestoneAliasesWeigh(fr: Fragments, n: nat)
    ensures Cost(fr, MilestoneAliases(n), {}) == Tally(7 * n, {})
  {
    if n > 0 {
      var block := Field("milestones", [Field("milestoneId", []), Field("playerId", [])]);
      var leaves := block.sub;
      assert "milestones"[0] != '_' && "milestoneId"[0] != '_' && "playerId"[0] != '_';
      assert leaves[1..] == [Field("playerId", [])] && leaves[1..][1..] == [];
      assert CostOf(fr, leaves[0], {}) == Tally(1, {});
      assert CostOf(fr, leaves[1], {}) == Tally(1, {});
      assert Cost(fr, leaves[1..], {}) == Tally(1, {});
      assert Cost(fr, leaves, {}) == Tally(2, {});
      assert CostOf(fr, block, {}) == Tally(7, {});
      assert MilestoneAliases(n)[1..] == MilestoneAliases(n - 1);
      MilestoneAliasesWeigh(fr, n - 1);
    }
  }
}
