/** Directed graphs as the engine sees them: an edge list turned into an adjacency dictionary. */
module Graphs {
  import opened Base
  import opened Dicts

  type Node = string
  type Adjacency = Dict<Node, seq<Node>>

  datatype Edge = Edge(from: Node, to: Node, kind: string)

  function Successors(adj: Adjacency, u: Node): seq<Node> {
    adj.GetOr(u, [])
  }

  ghost predicate HasEdge(adj: Adjacency, u: Node, v: Node) {
    v in Successors(adj, u)
  }

  /** A non-empty node sequence whose consecutive nodes are joined by edges. */
  ghost predicate Walk(adj: Adjacency, w: seq<Node>) {
    && w != []
    && forall i :: 0 <= i < |w| - 1 ==> HasEdge(adj, w[i], w[i + 1])
  }

  /** The last node of a path (paths are never empty). */
  function End(p: seq<Node>): Node {
    if p == [] then "" else p[|p| - 1]
  }

  /** A source-to-target search: follow `adj` from `start` until a target is met. */
  datatype Search = Search(adj: Adjacency, targets: set<Node>, start: Node)

  /** A walk from the start that meets no target before its last node. */
  ghost predicate CleanWalk(s: Search, w: seq<Node>) {
    && Walk(s.adj, w)
    && w[0] == s.start
    && forall i :: 0 <= i < |w| - 1 ==> w[i] !in s.targets
  }

  ghost predicate Returned(paths: seq<seq<Node>>, t: Node) {
    exists p :: p in paths && End(p) == t
  }

  ghost predicate Ascending(paths: seq<seq<Node>>) {
    forall i, j :: 0 <= i < j < |paths| ==> |paths[i]| <= |paths[j]|
  }

  /** `paths[k]` is the first returned path for its target. */
  ghost predicate FirstForItsTarget(paths: seq<seq<Node>>, k: int) {
    0 <= k < |paths| && forall j :: 0 <= j < k ==> End(paths[j]) != End(paths[k])
  }

  lemma ExtendWalk(s: Search, p: seq<Node>, v: Node)
    requires CleanWalk(s, p) && HasEdge(s.adj, End(p), v) && End(p) !in s.targets
    ensures CleanWalk(s, p + [v])
  {
    var r := p + [v];
    forall i | 0 <= i < |r| - 1 ensures HasEdge(s.adj, r[i], r[i + 1]) {
      if i < |p| - 1 {
        assert HasEdge(s.adj, p[i], p[i + 1]);
      }
    }
  }

  lemma ShortenWalk(s: Search, w: seq<Node>)
    requires CleanWalk(s, w) && |w| > 1
    ensures var front := w[..|w| - 1];
      CleanWalk(s, front) && End(front) !in s.targets && HasEdge(s.adj, End(front), End(w))
  {
    var front := w[..|w| - 1];
    forall i | 0 <= i < |front| - 1 ensures HasEdge(s.adj, front[i], front[i + 1]) {
      assert HasEdge(s.adj, w[i], w[i + 1]);
    }
    assert HasEdge(s.adj, w[|w| - 2], w[|w| - 1]);
  }

  predicate Kept(e: Edge, kinds: Option<set<string>>) {
    kinds.None? || e.kind in kinds.value
  }

  /** The adjacency dictionary of an edge list: every kept edge appends its target to its source's entry. */
  ghost function AdjacencyOf(edges: seq<Edge>, kinds: Option<set<string>>): (adj: Adjacency)
    ensures adj.Valid()
  {
    if edges == [] then Empty()
    else
      var adj := AdjacencyOf(edges[..|edges| - 1], kinds);
      var e := Last(edges);
      if Kept(e, kinds) then adj.Put(e.from, adj.GetOr(e.from, []) + [e.to]) else adj
  }

  /** The dictionary relates exactly the endpoints of kept edges. */
  lemma {:induction false} AdjacencyMeaning(edges: seq<Edge>, kinds: Option<set<string>>, u: Node, v: Node)
    ensures HasEdge(AdjacencyOf(edges, kinds), u, v) <==>
            exists e :: e in edges && e.from == u && e.to == v && Kept(e, kinds)
  {
    if edges == [] {
    } else {
      hide HasEdge;
      var front, e := edges[..|edges| - 1], Last(edges);
      AdjacencyMeaning(front, kinds, u, v);
      assert edges == front + [e];
      PutMeaning(AdjacencyOf(front, kinds), e.from, e.to, u, v);
    }
  }

  /** Without a filter, two nodes are adjacent exactly when some edge joins them: self-loops and all kinds included. */
  lemma EveryEdgeCounts(edges: seq<Edge>, u: Node, v: Node)
    ensures HasEdge(AdjacencyOf(edges, None), u, v) <==> exists e :: e in edges && e.from == u && e.to == v
  {
    AdjacencyMeaning(edges, None, u, v);
  }

  /** With one, exactly when some edge of a listed kind does. */
  lemma ListedKindsCount(edges: seq<Edge>, kinds: set<string>, u: Node, v: Node)
    ensures HasEdge(AdjacencyOf(edges, Some(kinds)), u, v) <==>
            exists e :: e in edges && e.from == u && e.to == v && e.kind in kinds
  {
    AdjacencyMeaning(edges, Some(kinds), u, v);
  }

  lemma PutMeaning(adj: Adjacency, from: Node, to: Node, u: Node, v: Node)
    requires adj.Valid()
    ensures HasEdge(adj.Put(from, adj.GetOr(from, []) + [to]), u, v) <==> HasEdge(adj, u, v) || (u == from && v == to)
  {
  }

  /** Total number of adjacency entries: `sum(len(v) for v in adj.values())`. */
  function TotalEntries(keys: seq<Node>, adj: map<Node, seq<Node>>, skip: set<Node>): nat
    requires forall k :: k in keys ==> k in adj
  {
    if keys == [] then 0
    else (if keys[0] in skip then 0 else |adj[keys[0]]|) + TotalEntries(keys[1..], adj, skip)
  }

  function Entries(adj: Adjacency): nat
    requires adj.Valid()
  {
    TotalEntries(adj.keys, adj.vals, {})
  }

  /** Skipping one more key removes exactly that key's entries from the total. */
  lemma SkipOne(keys: seq<Node>, adj: map<Node, seq<Node>>, skip: set<Node>, u: Node)
    requires Distinct(keys)
    requires forall k :: k in keys ==> k in adj
    requires u !in skip
    ensures TotalEntries(keys, adj, skip)
         == TotalEntries(keys, adj, skip + {u}) + if u in keys then |adj[u]| else 0
  {
    if keys == [] {
    } else {
      SkipOne(keys[1..], adj, skip, u);
    }
  }

  function KeptCount(edges: seq<Edge>, kinds: Option<set<string>>): nat {
    if edges == [] then 0
    else KeptCount(edges[..|edges| - 1], kinds) + if Kept(Last(edges), kinds) then 1 else 0
  }

  /** The dictionary has one entry per kept edge. */
  lemma {:induction false} EntriesAreKeptEdges(edges: seq<Edge>, kinds: Option<set<string>>)
    ensures var adj := AdjacencyOf(edges, kinds); TotalEntries(adj.keys, adj.vals, {}) == KeptCount(edges, kinds)
  {
    if edges == [] {
    } else {
      EntriesAreKeptEdges(edges[..|edges| - 1], kinds);
      var adj := AdjacencyOf(edges[..|edges| - 1], kinds);
      var e := Last(edges);
      if Kept(e, kinds) {
        PutAddsOne(adj, e.from, e.to);
      }
    }
  }

  lemma PutAddsOne(adj: Adjacency, u: Node, v: Node)
    requires adj.Valid()
    ensures var grown := adj.Put(u, adj.GetOr(u, []) + [v]);
      TotalEntries(grown.keys, grown.vals, {}) == TotalEntries(adj.keys, adj.vals, {}) + 1
  {
    var grown := adj.Put(u, adj.GetOr(u, []) + [v]);
    SkipOne(adj.keys, adj.vals, {}, u);
    SkipOne(grown.keys, grown.vals, {}, u);
    SameElsewhere(adj.keys, adj.vals, grown.vals, u);
    if u !in adj.vals {
      LastSkipped(adj.keys, grown.vals, u);
    }
  }

  lemma SameElsewhere(keys: seq<Node>, a: map<Node, seq<Node>>, b: map<Node, seq<Node>>, u: Node)
    requires forall k :: k in keys ==> k in a && k in b && (k != u ==> a[k] == b[k])
    ensures TotalEntries(keys, a, {} + {u}) == TotalEntries(keys, b, {} + {u})
  {
  }

  lemma LastSkipped(keys: seq<Node>, m: map<Node, seq<Node>>, u: Node)
    requires u in m && forall k :: k in keys ==> k in m
    ensures TotalEntries(keys + [u], m, {} + {u}) == TotalEntries(keys, m, {} + {u})
  {
    if keys == [] {
    } else {
      LastSkipped(keys[1..], m, u);
      assert (keys + [u])[1..] == keys[1..] + [u];
    }
  }

  /** `_build_adjacency_list`; `kinds` is the edge-type filter, absent in `_detect_cycles`. */
  method BuildAdjacency(edges: seq<Edge>, kinds: Option<set<string>>) returns (adj: Adjacency)
    ensures adj == AdjacencyOf(edges, kinds)
  {
    adj := Empty();
    for i := 0 to |edges|
      invariant adj == AdjacencyOf(edges[..i], kinds)
    {
      var e := edges[i];
      assert edges[..i + 1][..i] == edges[..i];
      if Kept(e, kinds) {
        adj := adj.Put(e.from, adj.GetOr(e.from, []) + [e.to]);
      }
    }
    assert edges[..|edges|] == edges;
  }
}
