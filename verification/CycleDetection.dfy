/**
 `_detect_cycles`: depth-first search with a recursion stack.
 The search answers True exactly when a directed cycle can be reached from a listed node.
 */
module CycleDetection {
  import opened Base
  import opened Graphs

  /** A walk that comes back to a node it has already passed through. */
  ghost predicate Closes(w: seq<Node>) {
    exists i :: 0 <= i < |w| - 1 && w[i] == w[|w| - 1]
  }

  /** A directed cycle: a closed walk of at least one edge; a self-loop is `[u, u]`. */
  ghost predicate Cycle(adj: Adjacency, c: seq<Node>) {
    Walk(adj, c) && |c| >= 2 && c[0] == Last(c)
  }

  ghost predicate WalkBetween(adj: Adjacency, w: seq<Node>, from: Node, to: Node) {
    Walk(adj, w) && w[0] == from && Last(w) == to
  }

  /** Some cycle can be reached along edges from one of the listed nodes. */
  ghost predicate CycleReachable(adj: Adjacency, listed: seq<Node>) {
    exists u, w, c :: u in listed && Cycle(adj, c) && WalkBetween(adj, w, u, c[0])
  }

  ghost predicate ClosingWalkFrom(adj: Adjacency, u: Node, w: seq<Node>) {
    Walk(adj, w) && w[0] == u && Closes(w)
  }

  /** A walk that revisits its own past splits into a lead-in and a cycle. */
  lemma ClosingWalkGivesCycle(adj: Adjacency, listed: seq<Node>, u: Node, w: seq<Node>)
    requires u in listed && ClosingWalkFrom(adj, u, w)
    ensures CycleReachable(adj, listed)
  {
    var i :| 0 <= i < |w| - 1 && w[i] == w[|w| - 1];
    assert Cycle(adj, w[i..]);
    assert WalkBetween(adj, w[..i + 1], u, w[i..][0]);
  }

  /** A lead-in followed by a cycle is one walk that revisits its own past. */
  lemma CycleGivesClosingWalk(adj: Adjacency, u: Node, w: seq<Node>, c: seq<Node>)
    requires Cycle(adj, c) && WalkBetween(adj, w, u, c[0])
    ensures ClosingWalkFrom(adj, u, w + c[1..])
  {
    var z := w + c[1..];
    forall i | 0 <= i < |z| - 1 ensures HasEdge(adj, z[i], z[i + 1]) {
      if i >= |w| - 1 {
        assert z[i] == c[i - |w| + 1] && z[i + 1] == c[i - |w| + 2];
      }
    }
    assert z[|w| - 1] == z[|z| - 1];
  }

  /** Every edge out of `order[i]` leads to an earlier entry: a topological order, reversed. */
  ghost predicate Finished(adj: Adjacency, order: seq<Node>) {
    forall i, v :: 0 <= i < |order| && HasEdge(adj, order[i], v) ==> v in order[..i]
  }

  /** Finished nodes reach no cycle: a walk through them only moves down the order. */
  lemma {:induction false} FinishedReachNoCycle(adj: Adjacency, order: seq<Node>, w: seq<Node>)
    requires Finished(adj, order) && Distinct(order)
    requires Walk(adj, w) && w[0] in order
    ensures !Closes(w)
    ensures Last(w) in order
  {
    var at := Descend(adj, order, w);
    forall i | 0 <= i < |w| - 1 ensures w[i] != w[|w| - 1] {
      assert at[i] > at[|w| - 1];
    }
  }

  /** The positions of a walk's nodes in the finishing order strictly decrease. */
  lemma {:induction false} Descend(adj: Adjacency, order: seq<Node>, w: seq<Node>) returns (at: seq<nat>)
    requires Finished(adj, order)
    requires Distinct(order)
    requires Walk(adj, w) && w[0] in order
    ensures |at| == |w|
    ensures forall i :: 0 <= i < |w| ==> at[i] < |order| && order[at[i]] == w[i]
    ensures forall i, j :: 0 <= i < j < |w| ==> at[i] > at[j]
    decreases |w|
  {
    if |w| == 1 {
      var k :| 0 <= k < |order| && order[k] == w[0];
      at := [k];
    } else {
      var front := w[..|w| - 1];
      assert Walk(adj, front) by {
        forall i | 0 <= i < |front| - 1 ensures HasEdge(adj, front[i], front[i + 1]) {
          assert HasEdge(adj, w[i], w[i + 1]);
        }
      }
      at := Descend(adj, order, front);
      var p := at[|front| - 1];
      assert HasEdge(adj, order[p], Last(w));
      var k :| 0 <= k < p && order[k] == Last(w);
      at := at + [k];
    }
  }

  /** The search state: grey nodes form the current path, black nodes are finished. */
  ghost predicate Searching(adj: Adjacency, visited: set<Node>, recStack: set<Node>, path: seq<Node>,
                            order: seq<Node>) {
    && visited == (set u | u in path) + (set u | u in order)
    && recStack == (set u | u in path)
    && Distinct(path) && Distinct(order)
    && (forall u :: u in path ==> u !in order)
    && (path != [] ==> Walk(adj, path))
    && Finished(adj, order)
  }

  lemma Enter(adj: Adjacency, visited: set<Node>, recStack: set<Node>, path: seq<Node>, order: seq<Node>, node: Node)
    requires Searching(adj, visited, recStack, path, order) && node !in visited
    requires path != [] ==> HasEdge(adj, Last(path), node)
    ensures Searching(adj, visited + {node}, recStack + {node}, path + [node], order)
  {
    var grown := path + [node];
    assert (set u | u in grown) == (set u | u in path) + {node};
    forall i | 0 <= i < |grown| - 1 ensures HasEdge(adj, grown[i], grown[i + 1]) {
      if i < |path| - 1 {
        assert HasEdge(adj, path[i], path[i + 1]);
      }
    }
  }

  lemma Leave(adj: Adjacency, visited: set<Node>, recStack: set<Node>, path: seq<Node>, order: seq<Node>, node: Node)
    requires Searching(adj, visited, recStack, path + [node], order)
    requires path != [] ==> Walk(adj, path)
    requires forall v :: HasEdge(adj, node, v) ==> v in order
    ensures Searching(adj, visited, recStack - {node}, path, order + [node])
  {
    var grown := path + [node];
    assert grown[|path|] == node;
    assert node !in path by {
      forall i | 0 <= i < |path| ensures path[i] != node {
        assert grown[i] != grown[|path|];
      }
    }
    assert (set u | u in grown) == (set u | u in path) + {node};
    var done := order + [node];
    assert (set u | u in done) == (set u | u in order) + {node};
    assert Distinct(path) by {
      forall i, j | 0 <= i < j < |path| ensures path[i] != path[j] {
        assert grown[i] != grown[j];
      }
    }
    assert node in grown && node !in order;
    forall i, v | 0 <= i < |done| && HasEdge(adj, done[i], v) ensures v in done[..i] {
      assert done[..i] == order[..i];
    }
    forall u | u in path ensures u !in done {
      assert u in grown;
    }
  }

  lemma MeetsItself(adj: Adjacency, path: seq<Node>, next: Node, at: nat)
    requires Walk(adj, path) && HasEdge(adj, Last(path), next)
    requires at < |path| && path[at] == next
    ensures ClosingWalkFrom(adj, path[0], path + [next])
  {
    var w := path + [next];
    assert w[at] == w[|w| - 1];
    forall i | 0 <= i < |w| - 1 ensures HasEdge(adj, w[i], w[i + 1]) {
      if i < |path| - 1 {
        assert HasEdge(adj, path[i], path[i + 1]);
      }
    }
  }

  class Detector {
    const adj: Adjacency
    var visited: set<Node>
    var recStack: set<Node>
    /** The nodes being explored, outermost first; `recStack` is its set. */
    ghost var path: seq<Node>
    /** The nodes whose exploration has returned, in the order it did. */
    ghost var order: seq<Node>

    ghost predicate Valid()
      reads this
    {
      Searching(adj, visited, recStack, path, order)
    }

    constructor (adj: Adjacency)
      ensures Valid() && this.adj == adj && path == [] && order == [] && visited == {}
    {
      this.adj := adj;
      visited, recStack := {}, {};
      path, order := [], [];
    }

    method HasCycle(node: Node, ghost universe: set<Node>) returns (found: bool)
      requires Valid() && node !in visited && node in universe
      requires forall u, v :: u in universe && HasEdge(adj, u, v) ==> v in universe
      requires path != [] ==> HasEdge(adj, Last(path), node)
      modifies this
      ensures !found ==>
                && Valid() && path == old(path) && node in order
                && old(order) <= order && old(visited) <= visited
      ensures found ==> exists w :: ClosingWalkFrom(adj, (old(path) + [node])[0], w)
      decreases universe - visited
    {
      Enter(adj, visited, recStack, path, order, node);
      visited := visited + {node};
      recStack := recStack + {node};
      path := path + [node];
      var neighbors := Successors(adj, node);
      for k := 0 to |neighbors|
        invariant Valid()
        invariant path == old(path) + [node] && node in recStack
        invariant old(order) <= order
        invariant old(visited) + {node} <= visited
        invariant forall j :: 0 <= j < k ==> neighbors[j] in order
      {
        var neighbor := neighbors[k];
        assert HasEdge(adj, node, neighbor);
        if neighbor !in visited {
          found := HasCycle(neighbor, universe);
          if found {
            return true;
          }
        } else if neighbor in recStack {
          ghost var at :| 0 <= at < |path| && path[at] == neighbor;
          MeetsItself(adj, path, neighbor, at);
          return true;
        }
      }
      Leave(adj, visited, recStack, old(path), order, node);
      recStack := recStack - {node};
      path := old(path);
      order := order + [node];
      found := false;
    }
  }

  /** `_detect_cycles`: exact over every edge list and every list of nodes. */
  method DetectCycles(nodes: seq<Node>, edges: seq<Edge>) returns (cyclic: bool)
    ensures cyclic <==> CycleReachable(AdjacencyOf(edges, None), nodes)
  {
    var adj := BuildAdjacency(edges, None);
    ghost var universe := (set u | u in nodes) + (set e | e in edges :: e.to);
    var d := new Detector(adj);
    forall u, v | u in universe && HasEdge(adj, u, v) ensures v in universe {
      AdjacencyMeaning(edges, None, u, v);
    }
    for i := 0 to |nodes|
      invariant d.adj == adj && d.Valid() && d.path == []
      invariant forall j :: 0 <= j < i ==> nodes[j] in d.order
    {
      if nodes[i] !in d.visited {
        var found := d.HasCycle(nodes[i], universe);
        if found {
          ghost var w :| ClosingWalkFrom(adj, nodes[i], w);
          ClosingWalkGivesCycle(adj, nodes, nodes[i], w);
          return true;
        }
      }
    }
    if CycleReachable(adj, nodes) {
      ghost var u, w, c :| u in nodes && Cycle(adj, c) && WalkBetween(adj, w, u, c[0]);
      CycleGivesClosingWalk(adj, u, w, c);
      FinishedReachNoCycle(adj, d.order, w + c[1..]);
    }
    cyclic := false;
  }
}
