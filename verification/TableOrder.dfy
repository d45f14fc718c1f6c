/** Parent-first ordering of tables by depth-first search
    (scripts/migrate-sqlite-to-postgres.ts, orderTables). */
module TableOrder {

  type Dependencies = map<string, seq<string>>

  datatype Outcome = Ordered(tables: seq<string>) | Cycle(involving: string)

  /** The parents of `name` that the search follows. */
  function Parents(deps: Dependencies, name: string): seq<string> {
    if name in deps then deps[name] else []
  }

  ghost predicate DependsOn(names: seq<string>, deps: Dependencies, child: string, parent: string) {
    child in names && parent in names && child in deps && parent in deps[child]
  }

  // ----- The search as a function of the ordered list and the visiting set -----

  function Visit(names: seq<string>, deps: Dependencies, name: string,
                 ordered: seq<string>, visiting: set<string>): Outcome
    requires name in names
    decreases (set n | n in names) - visiting, 1, 0
  {
    if name in ordered then Ordered(ordered)
    else if name in visiting then Cycle(name)
    else
      match VisitParents(names, deps, Parents(deps, name), ordered, visiting + {name})
      case Ordered(tables) => Ordered(tables + [name])
      case Cycle(t) => Cycle(t)
  }

  function VisitParents(names: seq<string>, deps: Dependencies, parents: seq<string>,
                        ordered: seq<string>, visiting: set<string>): Outcome
    decreases (set n | n in names) - visiting, 2, |parents|
  {
    if parents == [] then Ordered(ordered)
    else if parents[0] !in names then VisitParents(names, deps, parents[1..], ordered, visiting)
    else
      match Visit(names, deps, parents[0], ordered, visiting)
      case Ordered(tables) => VisitParents(names, deps, parents[1..], tables, visiting)
      case Cycle(t) => Cycle(t)
  }

  /** The top-level loop is the same walk over the names themselves. */
  function OrderOf(names: seq<string>, deps: Dependencies): Outcome {
    VisitParents(names, deps, names, [], {})
  }

  class Search {
    const names: seq<string>
    const deps: Dependencies
    var ordered: seq<string>
    var visiting: set<string>

    constructor (names: seq<string>, deps: Dependencies)
      ensures this.names == names && this.deps == deps && ordered == [] && visiting == {}
    {
      this.names, this.deps := names, deps;
      ordered, visiting := [], {};
    }

    /** A cycle is the source's exception: the fields are then left as they stand. */
    method VisitTable(name: string) returns (cycle: bool, involving: string)
      requires name in names
      modifies this
      ensures Visit(names, deps, name, old(ordered), old(visiting))
           == if cycle then Cycle(involving) else Ordered(ordered)
      ensures !cycle ==> visiting == old(visiting)
      decreases (set n | n in names) - visiting
    {
      cycle, involving := false, "";
      if name in ordered { return; }
      if name in visiting { return true, name; }
      visiting := visiting + {name};
      label entered:
      var parents := Parents(deps, name);
      for i := 0 to |parents|
        invariant visiting == old@entered(visiting)
        invariant VisitParents(names, deps, parents, old(ordered), visiting)
               == VisitParents(names, deps, parents[i..], ordered, visiting)
      {
        assert parents[i..][1..] == parents[i + 1..];
        if parents[i] in names {
          cycle, involving := VisitTable(parents[i]);
          if cycle { return; }
        }
      }
      visiting := visiting - {name};
      ordered := ordered + [name];
    }
  }

  method OrderTables(names: seq<string>, deps: Dependencies) returns (r: Outcome)
    ensures r == OrderOf(names, deps)
  {
    var search := new Search(names, deps);
    for i := 0 to |names|
      invariant search.names == names && search.deps == deps && search.visiting == {}
      invariant OrderOf(names, deps) == VisitParents(names, deps, names[i..], search.ordered, {})
    {
      assert names[i..][1..] == names[i + 1..];
      var cycle, involving := search.VisitTable(names[i]);
      if cycle { return Cycle(involving); }
    }
    r := Ordered(search.ordered);
  }

  // ----- Success: a parent-first permutation -----

  ghost predicate NoRepeats(tables: seq<string>) {
    forall i, j | 0 <= i < j < |tables| :: tables[i] != tables[j]
  }

  /** Every followed parent of a listed table stands before it. */
  ghost predicate ParentsFirst(names: seq<string>, deps: Dependencies, tables: seq<string>) {
    forall i, p | 0 <= i < |tables| && DependsOn(names, deps, tables[i], p) :: p in tables[..i]
  }

  ghost predicate Extends(names: seq<string>, deps: Dependencies, before: seq<string>, after: seq<string>,
                          visiting: set<string>) {
    && before <= after
    && NoRepeats(after)
    && ParentsFirst(names, deps, after)
    && (forall t | t in after :: t in names)
    && (forall t | t in after && t !in before :: t !in visiting)
  }

  lemma {:induction false} VisitExtends(names: seq<string>, deps: Dependencies, name: string,
                                        ordered: seq<string>, visiting: set<string>)
    requires name in names && Extends(names, deps, [], ordered, {})
    requires Visit(names, deps, name, ordered, visiting).Ordered?
    ensures var after := Visit(names, deps, name, ordered, visiting).tables;
            Extends(names, deps, ordered, after, visiting) && name in after
    decreases (set n | n in names) - visiting, 1, 0
  {
    if name !in ordered {
      var parents := Parents(deps, name);
      VisitParentsExtends(names, deps, parents, ordered, visiting + {name});
      var mid := VisitParents(names, deps, parents, ordered, visiting + {name}).tables;
      assert name !in mid;
      AppendExtends(names, deps, ordered, mid, visiting, name);
    }
  }

  lemma AppendExtends(names: seq<string>, deps: Dependencies, before: seq<string>, mid: seq<string>,
                      visiting: set<string>, name: string)
    requires name in names && name !in mid && name !in visiting
    requires Extends(names, deps, before, mid, visiting + {name})
    requires forall p | DependsOn(names, deps, name, p) :: p in mid
    ensures Extends(names, deps, before, mid + [name], visiting)
  {
    var after := mid + [name];
    forall i, p | 0 <= i < |after| && DependsOn(names, deps, after[i], p) ensures p in after[..i] {
      assert i < |mid| ==> after[..i] == mid[..i];
      assert i == |mid| ==> after[..i] == mid;
    }
  }

  lemma {:induction false} VisitParentsExtends(names: seq<string>, deps: Dependencies, parents: seq<string>,
                                               ordered: seq<string>, visiting: set<string>)
    requires Extends(names, deps, [], ordered, {})
    requires VisitParents(names, deps, parents, ordered, visiting).Ordered?
    ensures var after := VisitParents(names, deps, parents, ordered, visiting).tables;
            && Extends(names, deps, ordered, after, visiting)
            && (forall p | p in parents && p in names :: p in after)
    decreases (set n | n in names) - visiting, 2, |parents|
  {
    if parents != [] {
      if parents[0] in names {
        VisitExtends(names, deps, parents[0], ordered, visiting);
        var mid := Visit(names, deps, parents[0], ordered, visiting).tables;
        VisitParentsExtends(names, deps, parents[1..], mid, visiting);
      } else {
        VisitParentsExtends(names, deps, parents[1..], ordered, visiting);
      }
    }
  }

  // ----- Failure: a cycle -----

  /** A chain of dependencies among `names`; a cycle is one that returns to its start. */
  ghost predicate IsChain(names: seq<string>, deps: Dependencies, chain: seq<string>) {
    forall i | 0 <= i < |chain| - 1 :: DependsOn(names, deps, chain[i], chain[i + 1])
  }

  ghost predicate IsCycle(names: seq<string>, deps: Dependencies, chain: seq<string>) {
    |chain| >= 2 && chain[0] == chain[|chain| - 1] && IsChain(names, deps, chain)
  }

  ghost predicate OnCycle(names: seq<string>, deps: Dependencies, name: string) {
    exists chain :: IsCycle(names, deps, chain) && chain[0] == name
  }

  /** `stack` is the chain of open visits that ends at the table about to be visited. */
  lemma {:induction false} VisitFindsCycle(names: seq<string>, deps: Dependencies, name: string,
                                           ordered: seq<string>, stack: seq<string>)
    requires name in names && IsChain(names, deps, stack + [name])
    requires Visit(names, deps, name, ordered, set n | n in stack).Cycle?
    ensures OnCycle(names, deps, Visit(names, deps, name, ordered, set n | n in stack).involving)
    decreases (set n | n in names) - (set n | n in stack), 1, 0
  {
    var visiting := set n | n in stack;
    if name in visiting {
      var i :| 0 <= i < |stack| && stack[i] == name;
      assert IsCycle(names, deps, (stack + [name])[i..]);
    } else {
      assert (set n | n in stack + [name]) == visiting + {name};
      VisitParentsFindsCycle(names, deps, name, Parents(deps, name), ordered, stack);
    }
  }

  lemma {:induction false} VisitParentsFindsCycle(names: seq<string>, deps: Dependencies, name: string,
                                                  parents: seq<string>, ordered: seq<string>, stack: seq<string>)
    requires name in names && IsChain(names, deps, stack + [name])
    requires forall p | p in parents && p in names :: DependsOn(names, deps, name, p)
    requires VisitParents(names, deps, parents, ordered, set n | n in stack + [name]).Cycle?
    ensures OnCycle(names, deps, VisitParents(names, deps, parents, ordered, set n | n in stack + [name]).involving)
    decreases (set n | n in names) - (set n | n in stack + [name]), 2, |parents|
  {
    var visiting := set n | n in stack + [name];
    if parents[0] in names {
      var first := Visit(names, deps, parents[0], ordered, visiting);
      if first.Cycle? {
        VisitFindsCycle(names, deps, parents[0], ordered, stack + [name]);
      } else {
        VisitParentsFindsCycle(names, deps, name, parents[1..], first.tables, stack);
      }
    } else {
      VisitParentsFindsCycle(names, deps, name, parents[1..], ordered, stack);
    }
  }

  lemma {:induction false} TopLevelFindsCycle(names: seq<string>, deps: Dependencies, roots: seq<string>,
                                              ordered: seq<string>)
    requires VisitParents(names, deps, roots, ordered, {}).Cycle?
    ensures OnCycle(names, deps, VisitParents(names, deps, roots, ordered, {}).involving)
    decreases |roots|
  {
    if roots[0] in names {
      var first := Visit(names, deps, roots[0], ordered, {});
      var none: seq<string> := [];
      assert (set n | n in none) == {};
      assert [] + [roots[0]] == [roots[0]];
      if first.Cycle? {
        VisitFindsCycle(names, deps, roots[0], ordered, []);
      } else {
        TopLevelFindsCycle(names, deps, roots[1..], first.tables);
      }
    } else {
      TopLevelFindsCycle(names, deps, roots[1..], ordered);
    }
  }

  /** Along a chain inside a parent-first list, positions strictly decrease. */
  lemma {:induction false} ChainDescends(names: seq<string>, deps: Dependencies, tables: seq<string>,
                                         chain: seq<string>, at: nat)
    requires NoRepeats(tables) && ParentsFirst(names, deps, tables) && IsChain(names, deps, chain)
    requires |chain| >= 2 && at < |tables| && tables[at] == chain[0]
    ensures exists below :: 0 <= below < at && tables[below] == chain[|chain| - 1]
    decreases |chain|
  {
    assert DependsOn(names, deps, tables[at], chain[1]);
    var next :| 0 <= next < at && tables[next] == chain[1];
    if |chain| > 2 {
      assert IsChain(names, deps, chain[1..]) by {
        forall i | 0 <= i < |chain[1..]| - 1 ensures DependsOn(names, deps, chain[1..][i], chain[1..][i + 1]) {
          assert DependsOn(names, deps, chain[i + 1], chain[i + 2]);
        }
      }
      ChainDescends(names, deps, tables, chain[1..], next);
    }
  }

  /** The search fails exactly when the dependencies among `names` have a cycle (self-references
      included), and it names a table on one; otherwise it returns each name once, parents first. */
  lemma OrderTablesCorrect(names: seq<string>, deps: Dependencies)
    ensures OrderOf(names, deps).Cycle? <==> exists chain :: IsCycle(names, deps, chain)
    ensures match OrderOf(names, deps)
            case Cycle(involving) => OnCycle(names, deps, involving)
            case Ordered(tables) =>
              && NoRepeats(tables)
              && (forall t :: t in tables <==> t in names)
              && ParentsFirst(names, deps, tables)
  {
    match OrderOf(names, deps)
    case Cycle(involving) => TopLevelFindsCycle(names, deps, names, []);
    case Ordered(tables) =>
      VisitParentsExtends(names, deps, names, [], {});
      if chain :| IsCycle(names, deps, chain) {
        assert DependsOn(names, deps, chain[0], chain[1]);
        var at :| 0 <= at < |tables| && tables[at] == chain[0];
        ChainDescends(names, deps, tables, chain, at);
      }
  }
}
