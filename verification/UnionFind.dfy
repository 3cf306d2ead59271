/** The `parent` list of `_cluster_by_same_finding`, with `find` (path halving) and `union`. */
module UnionFind {

  /** A parent list, the representative every element climbs to, and a rank that grows along parent links. */
  ghost predicate ElementOk(parent: seq<nat>, root: seq<nat>, rank: seq<nat>, height: nat, i: nat)
    requires |parent| == |root| == |rank| && i < |parent|
  {
    && parent[i] < |parent| && root[i] < |parent|
    && root[parent[i]] == root[i]
    && rank[i] <= height
    && (parent[i] == i <==> root[i] == i)
    && (parent[i] != i ==> rank[i] < rank[parent[i]])
  }

  ghost predicate Rooted(parent: seq<nat>, root: seq<nat>, rank: seq<nat>, height: nat) {
    && |parent| == |root| == |rank|
    && forall i: nat :: i < |parent| ==> ElementOk(parent, root, rank, height, i)
  }

  /** `j` ends the climb from `i`: following parents leads to `j`, and `j` is its own parent. */
  ghost predicate ClimbsTo(parent: seq<nat>, i: nat, j: nat, steps: nat)
    decreases steps
  {
    && i < |parent|
    && if steps == 0 then i == j && parent[i] == i else parent[i] != i && ClimbsTo(parent, parent[i], j, steps - 1)
  }

  /** The recorded root is where following parents actually ends. */
  lemma {:induction false} RootIsReached(parent: seq<nat>, root: seq<nat>, rank: seq<nat>, height: nat, i: nat)
    returns (steps: nat)
    requires Rooted(parent, root, rank, height) && i < |parent|
    ensures ClimbsTo(parent, i, root[i], steps)
    decreases height - rank[i]
  {
    assert ElementOk(parent, root, rank, height, i);
    if parent[i] == i {
      steps := 0;
    } else {
      assert ElementOk(parent, root, rank, height, parent[i]);
      steps := RootIsReached(parent, root, rank, height, parent[i]);
      steps := steps + 1;
    }
  }

  /** Pointing an element at its grandparent moves no root. */
  lemma Halve(parent: seq<nat>, root: seq<nat>, rank: seq<nat>, height: nat, i: nat)
    requires Rooted(parent, root, rank, height) && i < |parent| && parent[i] != i
    ensures parent[i] < |parent|
    ensures Rooted(parent[i := parent[parent[i]]], root, rank, height)
    ensures var g := parent[parent[i]]; g < |parent| && rank[i] < rank[g] <= height && root[g] == root[i]
  {
    assert ElementOk(parent, root, rank, height, i);
    assert ElementOk(parent, root, rank, height, parent[i]);
    assert ElementOk(parent, root, rank, height, parent[parent[i]]);
    var halved := parent[i := parent[parent[i]]];
    forall k: nat | k < |halved| ensures ElementOk(halved, root, rank, height, k) {
      assert ElementOk(parent, root, rank, height, k);
    }
  }

  /** The labelling in which everything labelled `from` is relabelled `to`. */
  function Relabel(root: seq<nat>, from: nat, to: nat): (r: seq<nat>)
    ensures |r| == |root|
  {
    seq(|root|, k requires 0 <= k < |root| => if root[k] == from then to else root[k])
  }

  /** Hanging one root below another relabels the first root's class. */
  lemma Link(parent: seq<nat>, root: seq<nat>, rank: seq<nat>, height: nat, ri: nat, rj: nat) returns (rank': seq<nat>)
    requires Rooted(parent, root, rank, height) && ri < |parent| && rj < |parent|
    requires parent[ri] == ri && parent[rj] == rj && ri != rj
    ensures Rooted(parent[ri := rj], Relabel(root, ri, rj), rank', height + 1)
  {
    rank' := rank[rj := if rank[ri] < rank[rj] then rank[rj] else rank[ri] + 1];
    assert ElementOk(parent, root, rank, height, ri);
    assert ElementOk(parent, root, rank, height, rj);
    var linked, relabelled, height' := parent[ri := rj], Relabel(root, ri, rj), height + 1;
    forall k: nat | k < |linked| ensures ElementOk(linked, relabelled, rank', height', k) {
      assert ElementOk(parent, root, rank, height, k);
      assert ElementOk(parent, root, rank, height, parent[k]);
      if root[k] < |parent| {
        assert ElementOk(parent, root, rank, height, root[k]);
      }
    }
  }

  class Forest {
    const parent: array<nat>
    ghost var root: seq<nat>
    ghost var rank: seq<nat>
    ghost var height: nat

    ghost predicate Valid()
      reads this, parent
    {
      Rooted(parent[..], root, rank, height)
    }

    /** `parent = list(range(n))`. */
    constructor (n: nat)
      ensures Valid() && fresh(parent) && parent.Length == n && root == seq(n, i => i)
    {
      parent := new nat[n](i => i);
      root := seq(n, i => i);
      rank := seq(n, i => 0);
      height := 0;
    }

    /** `find`: returns the representative; path halving rewrites parents but moves no root. */
    method Find(start: nat) returns (r: nat)
      requires Valid() && start < parent.Length
      modifies parent
      ensures Valid() && r < parent.Length && r == root[start] && parent[r] == r
      ensures exists steps :: ClimbsTo(old(parent[..]), start, r, steps)
    {
      ghost var steps := RootIsReached(parent[..], root, rank, height, start);
      r := start;
      while parent[r] != r
        invariant Valid() && r < parent.Length && root[r] == root[start]
        decreases height - rank[r]
      {
        ghost var before := parent[..];
        Halve(before, root, rank, height, r);
        parent[r] := parent[parent[r]];
        assert parent[..] == before[r := before[before[r]]];
        r := parent[r];
      }
      assert ElementOk(parent[..], root, rank, height, r);
    }

    /** `union`: the first element's class takes the second one's root. */
    method Union(i: nat, j: nat)
      requires Valid() && i < parent.Length && j < parent.Length
      modifies this, parent
      ensures Valid()
      ensures root == Relabel(old(root), old(root)[i], old(root)[j])
    {
      var ri := Find(i);
      assert ElementOk(parent[..], root, rank, height, ri);
      var rj := Find(j);
      if ri != rj {
        ghost var before := parent[..];
        assert ElementOk(before, root, rank, height, ri);
        parent[ri] := rj;
        assert parent[..] == before[ri := rj];
        rank := Link(before, root, rank, height, ri, rj);
        root := Relabel(root, ri, rj);
        height := height + 1;
      }
    }
  }
}
