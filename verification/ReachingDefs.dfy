/**
 `DFGBuilder`: a data-flow edge from each use to the latest visible definition strictly above it,
 visibility being decided by climbing the scope table.
 */
module ReachingDefs {
  import opened Base
  import opened Dicts
  import opened ScopeClimb
  import opened Sorting

  /** `isDef` says the node type is assignment, parameter or variable. */
  datatype GraphNode = GraphNode(id: string, isDef: bool, line: int, scope: Option<string>)

  /** `scopes` maps a scope to its `parent` entry, if it has one. */
  datatype Graph = Graph(nodes: seq<GraphNode>, symbolTable: Dict<string, seq<string>>, scopes: map<string,
                      Option<string>>)

  datatype DfgEdge = DfgEdge(from: string, to: string, variable: string)

  // ----- the nearest definition

  function NodeById(nodes: seq<GraphNode>, id: string): Option<GraphNode> {
    if nodes == [] then None
    else if nodes[0].id == id then Some(nodes[0])
    else NodeById(nodes[1..], id)
  }

  method FindNode(id: string, nodes: seq<GraphNode>) returns (node: Option<GraphNode>)
    ensures node == NodeById(nodes, id)
  {
    for i := 0 to |nodes|
      invariant NodeById(nodes, id) == NodeById(nodes[i..], id)
    {
      if nodes[i].id == id {
        return Some(nodes[i]);
      }
    }
    return None;
  }

  /** `defId` names a node strictly above the use whose scope the use can see. */
  ghost predicate Reaches(g: Graph, use: GraphNode, defId: string) {
    var d := NodeById(g.nodes, defId);
    d.Some? && d.value.line < use.line && Visible(g.scopes, d.value.scope, use.scope)
  }

  function LineOf(g: Graph, id: string): int {
    var d := NodeById(g.nodes, id);
    if d.Some? then d.value.line else 0
  }

  /** A candidate: a definition's id and its line. */
  type Candidate = (string, int)

  predicate Later(a: Candidate, b: Candidate) {
    a.1 > b.1
  }

  ghost function Candidates(g: Graph, use: GraphNode, defs: seq<string>): seq<Candidate> {
    if defs == [] then []
    else Candidates(g, use, defs[..|defs| - 1])
         + (if Reaches(g, use, Last(defs)) then [(Last(defs), LineOf(g, Last(defs)))] else [])
  }

  /** `defs[k]` is the latest definition that reaches the use, the first listed among equals. */
  ghost predicate IsNearest(g: Graph, use: GraphNode, defs: seq<string>, k: nat) {
    && k < |defs| && Reaches(g, use, defs[k])
    && (forall j :: 0 <= j < |defs| && Reaches(g, use, defs[j]) ==>
          LineOf(g, defs[j]) <= LineOf(g, defs[k]))
    && (forall j :: 0 <= j < k && Reaches(g, use, defs[j]) ==>
          LineOf(g, defs[j]) < LineOf(g, defs[k]))
  }

  ghost function Nearest(g: Graph, use: GraphNode, defs: seq<string>): Option<string> {
    var candidates := StableSort(Candidates(g, use, defs), Later);
    if candidates == [] then None else Some(candidates[0].0)
  }

  /** Where each candidate comes from: an order-preserving selection of the reaching definitions. */
  lemma {:induction false} CandidateOrigins(g: Graph, use: GraphNode, defs: seq<string>) returns (at: seq<nat>)
    ensures |at| == |Candidates(g, use, defs)|
    ensures forall i, j :: 0 <= i < j < |at| ==> at[i] < at[j]
    ensures forall i :: 0 <= i < |at| ==>
              at[i] < |defs| && Reaches(g, use, defs[at[i]]) &&
                Candidates(g, use, defs)[i] == (defs[at[i]], LineOf(g, defs[at[i]]))
    ensures forall k: nat :: k < |defs| && Reaches(g, use, defs[k]) ==> k in at
    decreases |defs|
  {
    at := [];
    if defs == [] {
    } else {
      var front := defs[..|defs| - 1];
      at := CandidateOrigins(g, use, front);
      hide Reaches;
      if Reaches(g, use, Last(defs)) {
        at := at + [|front|];
      }
    }
  }

  lemma LaterIsWeakOrder()
    ensures WeakOrder(Later)
  {
  }

  /** The sort-and-take-first choice is exactly the nearest reaching definition. */
  lemma NearestMeaning(g: Graph, use: GraphNode, defs: seq<string>)
    ensures Nearest(g, use, defs) == None <==> forall k :: 0 <= k < |defs| ==> !Reaches(g, use, defs[k])
    ensures forall k: nat :: IsNearest(g, use, defs, k) ==> Nearest(g, use, defs) == Some(defs[k])
    ensures Nearest(g, use, defs).Some? ==>
      exists k: nat :: IsNearest(g, use, defs, k) && defs[k] == Nearest(g, use, defs).value
  {
    hide Reaches, StableSort;
    var candidates := Candidates(g, use, defs);
    var at := CandidateOrigins(g, use, defs);
    LaterIsWeakOrder();
    if candidates != [] {
      var h := SortHead(candidates, Later);
      var k := at[h];
      assert Reaches(g, use, defs[k]);
      forall j: nat | j < |defs| && Reaches(g, use, defs[j])
        ensures LineOf(g, defs[j]) <= LineOf(g, defs[k])
        ensures j < k ==> LineOf(g, defs[j]) < LineOf(g, defs[k])
      {
        var i :| 0 <= i < |at| && at[i] == j;
        assert !Later(candidates[i], candidates[h]);
      }
      assert IsNearest(g, use, defs, k);
    }
  }

  // ----- the builder

  /** The listed ids whose node exists and is (or is not) a definition. */
  function Select(g: Graph, ids: seq<string>, isDef: bool): seq<string> {
    if ids == [] then []
    else
      var n := NodeById(g.nodes, Last(ids));
      Select(g, ids[..|ids| - 1], isDef) + (if n.Some? && n.value.isDef == isDef then [Last(ids)] else [])
  }

  /** One edge for each use occurrence that some definition reaches; a node with an empty id counts as no definition. */
  ghost function EdgesFor(g: Graph, variable: string, defs: seq<string>, uses: seq<string>): seq<DfgEdge> {
    if uses == [] then []
    else
      EdgesFor(g, variable, defs, uses[..|uses| - 1]) + EdgeFor(g, variable, defs, Last(uses))
  }

  ghost function EdgeFor(g: Graph, variable: string, defs: seq<string>, useId: string): seq<DfgEdge> {
    var use := NodeById(g.nodes, useId);
    if use.None? then []
    else
      var d := Nearest(g, use.value, defs);
      if Truthy(d) then [DfgEdge(d.value, useId, variable)] else []
  }

  function IdsOf(g: Graph, symbol: string): seq<string> {
    g.symbolTable.GetOr(symbol, [])
  }

  ghost function EdgesOfSymbol(g: Graph, s: string): seq<DfgEdge> {
    EdgesFor(g, s, Select(g, IdsOf(g, s), true), Select(g, IdsOf(g, s), false))
  }

  /** The edges of the symbols, in symbol-table order. */
  ghost function EdgesOf(g: Graph, symbols: seq<string>): seq<DfgEdge> {
    if symbols == [] then [] else EdgesOf(g, symbols[..|symbols| - 1]) + EdgesOfSymbol(g, Last(symbols))
  }

  lemma {:induction false} NoDefsNoEdges(g: Graph, variable: string, uses: seq<string>)
    ensures EdgesFor(g, variable, [], uses) == []
  {
    if uses == [] {
    } else {
      NoDefsNoEdges(g, variable, uses[..|uses| - 1]);
      var use := NodeById(g.nodes, Last(uses));
      if use.Some? {
        NearestMeaning(g, use.value, []);
      }
    }
  }

  /** The definitions (or uses) dictionary after the first `n` symbols. */
  ghost predicate Filled(g: Graph, d: Dict<string, seq<string>>, isDef: bool, n: nat)
    requires n <= |g.symbolTable.keys|
  {
    && d.Valid()
    && d.keys == NonEmpty(g, isDef, n)
    && forall s :: s in d.vals ==> d.vals[s] == Select(g, IdsOf(g, s), isDef)
  }

  /** The symbols with at least one definition (or use), in order. */
  ghost function NonEmpty(g: Graph, isDef: bool, n: nat): (r: seq<string>)
    requires n <= |g.symbolTable.keys|
  {
    if n == 0 then []
    else
      var s := g.symbolTable.keys[n - 1];
      NonEmpty(g, isDef, n - 1) + (if Select(g, IdsOf(g, s), isDef) != [] then [s] else [])
  }

  lemma {:induction false} NonEmptyMeaning(g: Graph, isDef: bool, n: nat)
    requires n <= |g.symbolTable.keys|
    ensures forall s :: s in NonEmpty(g, isDef, n) <==>
      s in g.symbolTable.keys[..n] && Select(g, IdsOf(g, s), isDef) != []
  {
    if n == 0 {
    } else {
      NonEmptyMeaning(g, isDef, n - 1);
      hide Select;
      assert g.symbolTable.keys[..n] == g.symbolTable.keys[..n - 1] + [g.symbolTable.keys[n - 1]];
    }
  }

  lemma EdgesAppend(g: Graph, symbols: seq<string>, s: string)
    ensures EdgesOf(g, symbols + [s]) == EdgesOf(g, symbols) + EdgesOfSymbol(g, s)
  {
    assert (symbols + [s])[..|symbols|] == symbols;
  }

  lemma NonEmptyStep(g: Graph, isDef: bool, n: nat)
    requires n < |g.symbolTable.keys|
    ensures var s := g.symbolTable.keys[n];
      NonEmpty(g, isDef, n + 1)
      == if Select(g, IdsOf(g, s), isDef) != [] then NonEmpty(g, isDef, n) + [s] else NonEmpty(g, isDef, n)
  {
    assert NonEmpty(g, isDef, n) + [] == NonEmpty(g, isDef, n);
  }

  /** Leaving out the symbols without a definition loses no edge. */
  lemma NothingNonEmpty(g: Graph)
    ensures NonEmpty(g, true, 0) == []
  {
  }

  lemma {:induction false} DefinedSymbolsSuffice(g: Graph, n: nat)
    requires n <= |g.symbolTable.keys|
    ensures EdgesOf(g, NonEmpty(g, true, n)) == EdgesOf(g, g.symbolTable.keys[..n])
  {
    hide NonEmpty, EdgesOf, Select, EdgesFor, IdsOf;
    if n == 0 {
      NothingNonEmpty(g);
      assert g.symbolTable.keys[..0] == [];
    } else {
      var m := n - 1;
      var s := g.symbolTable.keys[m];
      DefinedSymbolsSuffice(g, m);
      NonEmptyStep(g, true, m);
      var some, all := NonEmpty(g, true, m), g.symbolTable.keys[..m];
      assert g.symbolTable.keys[..n] == all + [s];
      EdgesAppend(g, all, s);
      EdgesAppend(g, some, s);
      NoDefsNoEdges(g, s, Select(g, IdsOf(g, s), false));
      assert EdgesOf(g, some) + [] == EdgesOf(g, some);
    }
  }

  /** What the two dictionaries say of a variable once every symbol is filed. */
  lemma FiledVariable(g: Graph, definitions: Dict<string, seq<string>>, uses: Dict<string, seq<string>>, i: nat)
    requires Filled(g, definitions, true, |g.symbolTable.keys|) && Filled(g, uses, false, |g.symbolTable.keys|)
    requires i < |definitions.keys|
    ensures var v := definitions.keys[i];
      && v in definitions.vals
      && definitions.vals[v] == Select(g, IdsOf(g, v), true)
      && Select(g, IdsOf(g, v), false) == (if v in uses.vals then uses.vals[v] else [])
  {
    var v := definitions.keys[i];
    var n := |g.symbolTable.keys|;
    assert v in definitions.keys;
    NonEmptyMeaning(g, true, n);
    NonEmptyMeaning(g, false, n);
    assert v in uses.keys <==> v in uses.vals;
    hide NonEmpty, Select;
  }

  lemma NoUsesNoEdges(g: Graph, variable: string, defs: seq<string>)
    ensures EdgesFor(g, variable, defs, []) == []
  {
  }

  /** Filing one symbol's ids. */
  lemma FileSymbol(g: Graph, before: Dict<string, seq<string>>, isDef: bool, n: nat)
    requires g.symbolTable.Valid() && n < |g.symbolTable.keys|
    requires Filled(g, before, isDef, n)
    ensures var s := g.symbolTable.keys[n]; Filled(g, Extended(before, s, Select(g, IdsOf(g, s), isDef)), isDef, n + 1)
  {
    hide NonEmpty, Select;
    FreshSymbol(g, before, isDef, n);
    NonEmptyStep(g, isDef, n);
  }

  ghost function Extended(d: Dict<string, seq<string>>, symbol: string, ids: seq<string>): Dict<string, seq<string>>
    requires d.Valid()
  {
    if ids == [] then d else d.Put(symbol, ids)
  }

  lemma ExtendOne(d: Dict<string, seq<string>>, symbol: string, ids: seq<string>, id: string)
    requires d.Valid() && symbol !in d.vals
    ensures var e := Extended(d, symbol, ids);
      e.Valid() && e.Put(symbol, e.GetOr(symbol, []) + [id]) == Extended(d, symbol, ids + [id])
  {
  }

  lemma SelectStep(g: Graph, ids: seq<string>, isDef: bool, m: nat)
    requires m < |ids|
    ensures var n := NodeById(g.nodes, ids[m]);
      Select(g, ids[..m + 1], isDef) ==
        if n.Some? && n.value.isDef == isDef then Select(g, ids[..m], isDef) + [ids[m]] else Select(g, ids[..m], isDef)
  {
    assert ids[..m + 1][..m] == ids[..m];
    assert Select(g, ids[..m], isDef) + [] == Select(g, ids[..m], isDef);
  }

  lemma FreshSymbol(g: Graph, d: Dict<string, seq<string>>, isDef: bool, n: nat)
    requires g.symbolTable.Valid() && n < |g.symbolTable.keys| && Filled(g, d, isDef, n)
    ensures d.Valid() && g.symbolTable.keys[n] !in d.vals
  {
    NonEmptyMeaning(g, isDef, n);
    assert g.symbolTable.keys[n] !in d.keys;
  }

  lemma NothingSelected(g: Graph, d: Dict<string, seq<string>>, symbol: string)
    requires d.Valid()
    ensures Extended(d, symbol, Select(g, [], true)) == d && Extended(d, symbol, Select(g, [], false)) == d
  {
  }

  lemma NothingFiled(g: Graph)
    requires g.symbolTable.Valid()
    ensures Filled(g, Empty(), true, 0) && Filled(g, Empty(), false, 0) && EdgesOf(g, []) == []
  {
  }

  lemma FiledKeys(g: Graph, definitions: Dict<string, seq<string>>, uses: Dict<string, seq<string>>)
    requires g.symbolTable.Valid() && Filled(g, definitions, true, |g.symbolTable.keys|)
    ensures definitions.keys == NonEmpty(g, true, |g.symbolTable.keys|)
  {
  }

  // ----- where the climbs end

  /** Every climb the search for this use's definition can make comes to an end. */
  ghost predicate ClimbsEnd(g: Graph, use: GraphNode, defs: seq<string>) {
    forall k :: 0 <= k < |defs| ==>
      var d := NodeById(g.nodes, defs[k]);
      d.Some? && d.value.line < use.line ==> ClimbEnds(g.scopes, d.value.scope, use.scope)
  }

  ghost predicate AllClimbsEnd(g: Graph, defs: seq<string>, useIds: seq<string>) {
    forall k :: 0 <= k < |useIds| ==>
      var use := NodeById(g.nodes, useIds[k]); use.Some? ==> ClimbsEnd(g, use.value, defs)
  }

  /** The build terminates: every climb its searches can make comes to an end. */
  ghost predicate Buildable(g: Graph) {
    && g.symbolTable.Valid()
    && forall s :: s in g.symbolTable.keys ==>
         AllClimbsEnd(g, Select(g, IdsOf(g, s), true), Select(g, IdsOf(g, s), false))
  }

  lemma AcyclicIsBuildable(g: Graph)
    requires g.symbolTable.Valid() && Acyclic(g.scopes)
    ensures Buildable(g)
  {
    hide Acyclic, Select, ClimbEnds, IdsOf;
    forall d, u ensures ClimbEnds(g.scopes, d, u) {
      AcyclicClimbEnds(g.scopes, d, u);
    }
  }

  /** The variable being processed is one of the table's symbols. */
  lemma VariableIsSymbol(g: Graph, definitions: Dict<string, seq<string>>, i: nat)
    requires g.symbolTable.Valid() && Filled(g, definitions, true, |g.symbolTable.keys|) && i < |definitions.keys|
    ensures definitions.keys[i] in g.symbolTable.keys
  {
    NonEmptyMeaning(g, true, |g.symbolTable.keys|);
    assert definitions.keys[i] in definitions.keys;
  }

  class Builder {
    var definitions: Dict<string, seq<string>>
    var uses: Dict<string, seq<string>>
    var defUseEdges: seq<DfgEdge>

    constructor ()
      ensures definitions == Empty() && uses == Empty() && defUseEdges == []
    {
      definitions, uses, defUseEdges := Empty(), Empty(), [];
    }

    /** `_find_reaching_definition`. */
    method FindReachingDefinition(g: Graph, use: GraphNode, defs: seq<string>) returns (found: Option<string>)
      requires ClimbsEnd(g, use, defs)
      ensures found == Nearest(g, use, defs)
    {
      var candidates: seq<Candidate> := [];
      for i := 0 to |defs|
        invariant candidates == Candidates(g, use, defs[..i])
      {
        assert defs[..i + 1][..i] == defs[..i];
        var node := FindNode(defs[i], g.nodes);
        if node.None? || node.value.line >= use.line {
          continue;
        }
        var visible := IsVisibleScope(node.value.scope, use.scope, g.scopes);
        if !visible {
          continue;
        }
        candidates := candidates + [(defs[i], node.value.line)];
      }
      assert defs[..|defs|] == defs;
      if candidates == [] {
        return None;
      }
      var sorted := StableSort(candidates, Later);
      return Some(sorted[0].0);
    }

    /** `build_dfg`. */
    method BuildDfg(g: Graph) returns (edges: seq<DfgEdge>)
      requires Buildable(g)
      modifies this
      ensures edges == defUseEdges == EdgesOf(g, g.symbolTable.keys)
    {
      hide Filled, NonEmpty, EdgesOf, EdgesFor, Select, IdsOf, AllClimbsEnd;
      definitions, uses, defUseEdges := Empty(), Empty(), [];
      NothingFiled(g);
      var symbols := g.symbolTable.keys;
      for n := 0 to |symbols|
        invariant Filled(g, definitions, true, n) && Filled(g, uses, false, n) && defUseEdges == []
      {
        assert symbols[n] in symbols;
        SplitSymbol(g, symbols[n], n);
      }
      assert symbols[..|symbols|] == symbols;
      DefinedSymbolsSuffice(g, |symbols|);
      FiledKeys(g, definitions, uses);
      edges := [];
      var variables := definitions.keys;
      ghost var defs0, uses0 := definitions, uses;
      for i := 0 to |variables|
        invariant definitions == defs0 && uses == uses0
        invariant defUseEdges == edges == EdgesOf(g, variables[..i])
      {
        FiledVariable(g, definitions, uses, i);
        VariableIsSymbol(g, definitions, i);
        NoUsesNoEdges(g, variables[i], definitions.vals[variables[i]]);
        assert variables[..i + 1] == variables[..i] + [variables[i]];
        EdgesAppend(g, variables[..i], variables[i]);
        if variables[i] !in uses.vals {
          continue;
        }
        var more := EdgesForVariable(g, variables[i], definitions.vals[variables[i]], uses.vals[variables[i]]);
        edges := edges + more;
        defUseEdges := defUseEdges + more;
      }
      assert variables[..|variables|] == variables;
    }

    /** Splits one symbol's nodes into definitions and uses. */
    method SplitSymbol(g: Graph, symbol: string, ghost n: nat)
      requires g.symbolTable.Valid() && n < |g.symbolTable.keys| && g.symbolTable.keys[n] == symbol
      requires Filled(g, definitions, true, n) && Filled(g, uses, false, n)
      modifies this`definitions, this`uses
      ensures Filled(g, definitions, true, n + 1) && Filled(g, uses, false, n + 1)
    {
      hide Filled, NonEmpty, Extended, Select;
      var ids := IdsOf(g, symbol);
      ghost var defs0, uses0 := definitions, uses;
      FreshSymbol(g, defs0, true, n);
      FreshSymbol(g, uses0, false, n);
      NothingSelected(g, defs0, symbol);
      NothingSelected(g, uses0, symbol);
      for m := 0 to |ids|
        invariant definitions == Extended(defs0, symbol, Select(g, ids[..m], true))
        invariant uses == Extended(uses0, symbol, Select(g, ids[..m], false))
      {
        SelectStep(g, ids, true, m);
        SelectStep(g, ids, false, m);
        ExtendOne(defs0, symbol, Select(g, ids[..m], true), ids[m]);
        ExtendOne(uses0, symbol, Select(g, ids[..m], false), ids[m]);
        var node := FindNode(ids[m], g.nodes);
        if node.None? {
          continue;
        }
        if node.value.isDef {
          definitions := definitions.Put(symbol, definitions.GetOr(symbol, []) + [ids[m]]);
        } else {
          uses := uses.Put(symbol, uses.GetOr(symbol, []) + [ids[m]]);
        }
      }
      assert ids[..|ids|] == ids;
      FileSymbol(g, defs0, true, n);
      FileSymbol(g, uses0, false, n);
    }

    /** The edges of one variable. */
    method EdgesForVariable(g: Graph, variable: string, defs: seq<string>, useIds: seq<string>)
      returns (edges: seq<DfgEdge>)
      requires AllClimbsEnd(g, defs, useIds)
      ensures edges == EdgesFor(g, variable, defs, useIds)
    {
      edges := [];
      for i := 0 to |useIds|
        invariant edges == EdgesFor(g, variable, defs, useIds[..i])
      {
        assert useIds[..i + 1][..i] == useIds[..i];
        var use := FindNode(useIds[i], g.nodes);
        if use.None? {
          continue;
        }
        var reachingDef := FindReachingDefinition(g, use.value, defs);
        if Truthy(reachingDef) {
          edges := edges + [DfgEdge(reachingDef.value, useIds[i], variable)];
        }
      }
      assert useIds[..|useIds|] == useIds;
    }
  }

  // ----- what the edges are

  /** The use occurrence has a reaching definition with a usable id. */
  ghost predicate HasDefinition(g: Graph, defs: seq<string>, useId: string) {
    var use := NodeById(g.nodes, useId);
    use.Some? && Truthy(Nearest(g, use.value, defs))
  }

  lemma EdgeForMeaning(g: Graph, variable: string, defs: seq<string>, useId: string)
    ensures HasDefinition(g, defs, useId) ==>
              |EdgeFor(g, variable, defs, useId)| == 1 && EdgeFor(g, variable, defs, useId)[0].to == useId
              && EdgeFor(g, variable, defs, useId)[0].variable == variable
    ensures !HasDefinition(g, defs, useId) ==> EdgeFor(g, variable, defs, useId) == []
  {
  }

  /** `at` lists, ascending, the uses that have a definition, and `edges` has one edge for each of them, in order. */
  ghost predicate EdgePerUse(g: Graph, variable: string, defs: seq<string>, uses: seq<string>,
                             edges: seq<DfgEdge>, at: seq<nat>) {
    && |at| == |edges|
    && (forall i, j :: 0 <= i < j < |at| ==> at[i] < at[j])
    && (forall k: nat :: k < |uses| && HasDefinition(g, defs, uses[k]) <==> k in at)
    && forall i :: 0 <= i < |at| ==>
         at[i] < |uses| && edges[i].to == uses[at[i]] && edges[i].variable == variable
  }

  lemma NextUse(g: Graph, variable: string, defs: seq<string>, front: seq<string>, u: string,
                edges: seq<DfgEdge>, at: seq<nat>)
    requires EdgePerUse(g, variable, defs, front, edges, at)
    ensures EdgePerUse(g, variable, defs, front + [u], edges + EdgeFor(g, variable, defs, u),
                       if HasDefinition(g, defs, u) then at + [|front|] else at)
  {
    hide EdgeFor, HasDefinition;
    EdgeForMeaning(g, variable, defs, u);
    var now := front + [u];
    assert forall k: nat :: k < |front| ==> now[k] == front[k];
    if HasDefinition(g, defs, u) {
      UseWithEdge(g, variable, defs, front, u, edges, at, EdgeFor(g, variable, defs, u)[0]);
      assert EdgeFor(g, variable, defs, u) == [EdgeFor(g, variable, defs, u)[0]];
    } else {
      assert edges + [] == edges;
    }
  }

  lemma UseWithEdge(g: Graph, variable: string, defs: seq<string>, front: seq<string>, u: string,
                    edges: seq<DfgEdge>, at: seq<nat>, e: DfgEdge)
    requires EdgePerUse(g, variable, defs, front, edges, at) && HasDefinition(g, defs, u)
    requires e.to == u && e.variable == variable
    ensures EdgePerUse(g, variable, defs, front + [u], edges + [e], at + [|front|])
  {
    hide HasDefinition;
    var now, all := front + [u], at + [|front|];
    assert forall i :: 0 <= i < |at| ==> at[i] in at;
    forall k: nat ensures k < |now| && HasDefinition(g, defs, now[k]) <==> k in all {
      assert k in all <==> k in at || k == |front|;
      if k < |front| {
        assert now[k] == front[k];
      }
    }
  }

  /** One edge per use occurrence that has a definition, in order, each from the nearest one. */
  lemma {:induction false} OneEdgePerUse(g: Graph, variable: string, defs: seq<string>, uses: seq<string>)
    returns (at: seq<nat>)
    ensures EdgePerUse(g, variable, defs, uses, EdgesFor(g, variable, defs, uses), at)
    decreases |uses|
  {
    hide EdgePerUse, EdgeFor, HasDefinition;
    if uses == [] {
      at := [];
      NoUseNoEdge(g, variable, defs);
    } else {
      var front, u := uses[..|uses| - 1], Last(uses);
      assert uses == front + [u];
      at := OneEdgePerUse(g, variable, defs, front);
      NextUse(g, variable, defs, front, u, EdgesFor(g, variable, defs, front), at);
      at := if HasDefinition(g, defs, u) then at + [|front|] else at;
    }
  }

  lemma NoUseNoEdge(g: Graph, variable: string, defs: seq<string>)
    ensures EdgePerUse(g, variable, defs, [], [], [])
  {
  }

  /** The definition `d` (with a usable id) flows to the use `u`: the latest visible one strictly above it. */
  ghost predicate Flows(g: Graph, defs: seq<string>, d: string, u: string) {
    var use := NodeById(g.nodes, u);
    && use.Some? && d != ""
    && exists k: nat :: IsNearest(g, use.value, defs, k) && defs[k] == d
  }

  /** Exactness: an edge is emitted iff its use occurs and its definition is the one that flows to it. */
  lemma {:induction false} EdgeIff(g: Graph, variable: string, defs: seq<string>, uses: seq<string>, e: DfgEdge)
    ensures e in EdgesFor(g, variable, defs, uses) <==>
      e.variable == variable && e.to in uses && Flows(g, defs, e.from, e.to)
    decreases |uses|
  {
    if uses == [] {
    } else {
      EdgeIff(g, variable, defs, uses[..|uses| - 1], e);
      assert uses == uses[..|uses| - 1] + [Last(uses)];
      var use := NodeById(g.nodes, Last(uses));
      if use.Some? {
        NearestMeaning(g, use.value, defs);
      }
      hide Nearest, IsNearest, NodeById;
    }
  }

  /** The whole graph: every edge belongs to one symbol's definitions and uses. */
  lemma {:induction false} EveryEdge(g: Graph, symbols: seq<string>, e: DfgEdge)
    ensures e in EdgesOf(g, symbols) <==>
            && e.variable in symbols
            && var ids := IdsOf(g, e.variable);
            e.to in Select(g, ids, false) && Flows(g, Select(g, ids, true), e.from, e.to)
    decreases |symbols|
  {
    if symbols == [] {
    } else {
      var front, s := symbols[..|symbols| - 1], Last(symbols);
      EveryEdge(g, front, e);
      assert symbols == front + [s];
      EdgeIff(g, s, Select(g, IdsOf(g, s), true), Select(g, IdsOf(g, s), false), e);
      hide Flows, EdgesFor, Select;
    }
  }

  // ----- what an edge says of the graph's own nodes

  /** `g.nodes[k]` is the first node with this id. */
  ghost predicate Names(g: Graph, id: string, k: nat) {
    k < |g.nodes| && g.nodes[k].id == id && forall j :: 0 <= j < k ==> g.nodes[j].id != id
  }

  lemma {:induction false} FoundIsFirst(nodes: seq<GraphNode>, id: string) returns (k: nat)
    ensures NodeById(nodes, id) == None <==> forall n :: n in nodes ==> n.id != id
    ensures NodeById(nodes, id).Some? ==>
              && k < |nodes| && nodes[k] == NodeById(nodes, id).value && nodes[k].id == id
              && forall j :: 0 <= j < k ==> nodes[j].id != id
  {
    if nodes == [] {
      k := 0;
    } else if nodes[0].id == id {
      k := 0;
    } else {
      k := FoundIsFirst(nodes[1..], id);
      assert forall n :: n in nodes <==> n == nodes[0] || n in nodes[1..];
      k := k + 1;
    }
  }

  lemma {:induction false} SelectMeaning(g: Graph, ids: seq<string>, isDef: bool, id: string)
    ensures id in Select(g, ids, isDef) <==>
              id in ids && NodeById(g.nodes, id).Some? && NodeById(g.nodes, id).value.isDef == isDef
  {
    if ids == [] {
    } else {
      SelectMeaning(g, ids[..|ids| - 1], isDef, id);
      assert ids == ids[..|ids| - 1] + [Last(ids)];
    }
  }

  /** An edge of a symbol leads from a definition of it down to a use of it on a later line that sees its scope. */
  lemma EdgeLeadsDown(g: Graph, symbols: seq<string>, e: DfgEdge) returns (d: nat, u: nat)
    requires e in EdgesOf(g, symbols)
    ensures e.variable in symbols && e.from in IdsOf(g, e.variable) && e.to in IdsOf(g, e.variable)
    ensures Names(g, e.from, d) && Names(g, e.to, u)
    ensures g.nodes[d].isDef && !g.nodes[u].isDef && g.nodes[d].line < g.nodes[u].line
    ensures Visible(g.scopes, g.nodes[d].scope, g.nodes[u].scope)
  {
    hide Visible, EdgesOf, Select;
    EveryEdge(g, symbols, e);
    var ids := IdsOf(g, e.variable);
    SelectMeaning(g, ids, false, e.to);
    SelectMeaning(g, ids, true, e.from);
    var k: nat :| IsNearest(g, NodeById(g.nodes, e.to).value, Select(g, ids, true), k)
                  && Select(g, ids, true)[k] == e.from;
    d := FoundIsFirst(g.nodes, e.from);
    u := FoundIsFirst(g.nodes, e.to);
  }

  /** And no definition of the symbol that the use sees lies between the two. */
  lemma NothingBetween(g: Graph, symbols: seq<string>, e: DfgEdge, d: nat, u: nat, o: nat)
    requires e in EdgesOf(g, symbols) && Names(g, e.from, d) && Names(g, e.to, u)
    requires o < |g.nodes| && Names(g, g.nodes[o].id, o) && g.nodes[o].isDef
    requires g.nodes[o].id in IdsOf(g, e.variable) && Visible(g.scopes, g.nodes[o].scope, g.nodes[u].scope)
    ensures !(g.nodes[d].line < g.nodes[o].line < g.nodes[u].line)
  {
    hide Visible, EdgesOf, Select;
    EveryEdge(g, symbols, e);
    var ids, other := IdsOf(g, e.variable), g.nodes[o].id;
    SelectMeaning(g, ids, true, other);
    var defs := Select(g, ids, true);
    var k: nat :| IsNearest(g, NodeById(g.nodes, e.to).value, defs, k) && defs[k] == e.from;
    var fd := FoundIsFirst(g.nodes, e.from);
    var fu := FoundIsFirst(g.nodes, e.to);
    var fo := FoundIsFirst(g.nodes, other);
    assert fd == d && fu == u && fo == o;
    var j :| 0 <= j < |defs| && defs[j] == other;
    assert Reaches(g, g.nodes[u], defs[j]) || g.nodes[o].line >= g.nodes[u].line;
  }
}
