/**
 When the hop-budgeted search of `HopBfs` misses nothing. A visited state remembers how many file boundaries were
 crossed but not the last file, so nodes without a file can make the path that was kept dearer to extend than one that
 was dropped. The search is shown complete wherever that cannot happen, and the file maps on which it can
 are determined.
 */
module HopCompleteness {
  import opened Base
  import opened Graphs
  import opened HopBfs

  // ----- conditions

  /**
   On this graph the last file is settled by the node and the hop count, for every walk that can still be extended.
   */
  ghost predicate LastFileAgrees(q: Query) {
    forall w, x :: InBudget(q, w) && InBudget(q, x) && StateOf(q, w) == StateOf(q, x) && End(w) !in q.search.targets ==>
      LastFile(q.files, w) == LastFile(q.files, x)
  }

  ghost function Fileless(files: map<Node, string>, nodes: set<Node>): set<Node> {
    set n | n in nodes && FileOf(files, n).None?
  }

  ghost function KnownFiles(files: map<Node, string>, nodes: set<Node>): set<string> {
    set n | n in nodes && FileOf(files, n).Some? :: files[n]
  }

  /** No two nodes lie in one file. */
  ghost predicate OneNodePerFile(files: map<Node, string>, nodes: set<Node>) {
    forall m, n :: m in nodes && n in nodes && FileOf(files, m).Some? && FileOf(files, m) == FileOf(files, n) ==> m == n
  }

  /** File maps on which no graph can mislead the search. */
  ghost predicate Harmless(files: map<Node, string>, nodes: set<Node>) {
    || Fileless(files, nodes) == {}
    || |KnownFiles(files, nodes)| <= 1
    || (|Fileless(files, nodes)| <= 2 && OneNodePerFile(files, nodes))
    || (|Fileless(files, nodes)| == 1 && |KnownFiles(files, nodes)| == 2)
  }

  ghost predicate Trusty(q: Query, nodes: set<Node>) {
    LastFileAgrees(q) || (NodesOf(q.search) <= nodes && Harmless(q.files, nodes))
  }

  /** Enough for that: every node that can be reached within the budget and is no sink has a file. */
  lemma KnownFilesAgree(q: Query)
    requires forall w :: InBudget(q, w) && End(w) !in q.search.targets ==> FileOf(q.files, End(w)).Some?
    ensures LastFileAgrees(q)
  {
    forall w, x | InBudget(q, w) && InBudget(q, x) && StateOf(q, w) == StateOf(q, x) && End(w) !in q.search.targets
      ensures LastFile(q.files, w) == LastFile(q.files, x) {
      StateEnd(q, w);
      StateEnd(q, x);
    }
  }

  // ----- files along walks

  lemma {:induction false} LastFileFrom(files: map<Node, string>, w: seq<Node>)
    ensures LastFile(files, w).Some? ==> exists n :: n in w && FileOf(files, n) == LastFile(files, w)
    ensures LastFile(files, w).None? <==> forall n :: n in w ==> FileOf(files, n).None?
  {
    if w == [] {
    } else {
      var front := w[..|w| - 1];
      LastFileFrom(files, front);
      assert forall n :: n in w <==> n in front || n == Last(w);
    }
  }

  lemma {:induction false} NoFilesNoHops(files: map<Node, string>, w: seq<Node>)
    requires LastFile(files, w).None?
    ensures Hops(files, w) == 0
  {
    if |w| <= 1 {
    } else {
      NoFilesNoHops(files, w[..|w| - 1]);
    }
  }

  /** With two files only, the hop count's parity tells which one was met last. */
  lemma {:induction false} ParityTells(files: map<Node, string>, w: seq<Node>, a: string, b: string)
    requires w != [] && a != b && FileOf(files, w[0]) == Some(a)
    requires forall n :: n in w && FileOf(files, n).Some? ==> FileOf(files, n) == Some(a) || FileOf(files, n) == Some(b)
    ensures LastFile(files, w) == Some(if Hops(files, w) % 2 == 0 then a else b)
  {
    if |w| == 1 {
      assert w == [w[0]];
      assert LastFile(files, w[..0]) == None;
    } else {
      var front := w[..|w| - 1];
      assert forall n :: n in front ==> n in w;
      ParityTells(files, front, a, b);
      assert Last(w) in w;
    }
  }

  lemma {:induction false} WalkStays(q: Query, w: seq<Node>)
    requires CleanWalk(q.search, w)
    ensures forall n :: n in w ==> n in NodesOf(q.search)
    decreases |w|
  {
    if |w| == 1 {
    } else {
      ShortenWalk(q.search, w);
      var front := w[..|w| - 1];
      WalkStays(q, front);
      assert forall n :: n in w <==> n in front || n == End(w);
      assert End(front) in q.search.adj.vals && End(w) in q.search.adj.vals[End(front)];
    }
  }

  // ----- why the kept path is never dearer

  /**
   The kept path `p` and the walk `front` reach one state, but from `p` the next node costs a hop and from `front` none.
   */
  ghost predicate Misled(q: Query, p: seq<Node>, front: seq<Node>, v: Node) {
    && GoodPath(q, p) && InBudget(q, front) && StateOf(q, p) == StateOf(q, front)
    && End(front) !in q.search.targets && HasEdge(q.search.adj, End(front), v)
    && Crossing(LastFile(q.files, p), FileOf(q.files, v)) == 1
    && Crossing(LastFile(q.files, front), FileOf(q.files, v)) == 0
  }

  lemma MisledFacts(q: Query, p: seq<Node>, front: seq<Node>, v: Node)
    requires Misled(q, p, front, v)
    ensures LastFile(q.files, p).Some? && FileOf(q.files, v).Some? && LastFile(q.files, p) != FileOf(q.files, v)
    ensures LastFile(q.files, front).None? || LastFile(q.files, front) == FileOf(q.files, v)
    ensures p != [] && front != [] && End(p) == End(front) && FileOf(q.files, End(p)).None?
    ensures forall n :: n in p || n in front || n == v ==> n in NodesOf(q.search)
    ensures p[0] == q.search.start == front[0] && Distinct(p)
  {
    WalkStays(q, p);
    WalkStays(q, front);
    StateEnd(q, p);
    StateEnd(q, front);
    assert End(front) in q.search.adj.vals && v in q.search.adj.vals[End(front)];
  }

  /** Two distinct files among the nodes rule out the first two harmless cases. */
  lemma FewFilelessNodes(files: map<Node, string>, nodes: set<Node>, u: Node, a: Node, b: Node)
    requires Harmless(files, nodes) && u in nodes && a in nodes && b in nodes
    requires FileOf(files, u).None? && FileOf(files, a).Some? && FileOf(files, b).Some? &&
      FileOf(files, a) != FileOf(files, b)
    ensures (|Fileless(files, nodes)| <= 2 && OneNodePerFile(files, nodes))
         || (Fileless(files, nodes) == {u} && KnownFiles(files, nodes) == {files[a], files[b]})
  {
    var fileless, known := Fileless(files, nodes), KnownFiles(files, nodes);
    assert u in fileless && files[a] in known && files[b] in known;
    assert {files[a], files[b]} <= known && |{files[a], files[b]}| == 2;
    SubsetCardinality({files[a], files[b]}, known);
    if |fileless| == 1 && |known| == 2 {
      SameSize({u}, fileless);
      SameSize({files[a], files[b]}, known);
    }
  }

  lemma SameSize<T>(a: set<T>, b: set<T>)
    requires a <= b && |a| >= |b|
    ensures a == b
  {
    if x :| x in b && x !in a {
      SubsetCardinality(a, b - {x});
    }
  }

  /** A node the walk already passed lies in the same file as the one to come: they are one node. */
  lemma SameFileMeansRevisit(q: Query, nodes: set<Node>, p: seq<Node>, front: seq<Node>, v: Node)
    requires Misled(q, p, front, v) && NodesOf(q.search) <= nodes && Harmless(q.files, nodes)
    requires LastFile(q.files, front) == FileOf(q.files, v)
    ensures v in front
  {
    MisledFacts(q, p, front, v);
    hide NodesOf, Harmless, GoodPath, InBudget, Hops;
    LastFileFrom(q.files, front);
    LastFileFrom(q.files, p);
    var c :| c in front && FileOf(q.files, c) == FileOf(q.files, v);
    var b :| b in p && FileOf(q.files, b) == LastFile(q.files, p);
    FewFilelessNodes(q.files, nodes, End(p), b, v);
    if Fileless(q.files, nodes) == {End(p)} && KnownFiles(q.files, nodes) == {q.files[b], q.files[v]} {
      StartIsKnown(q, nodes, p, b);
      ParityAgrees(q, nodes, p, front, q.files[b], q.files[v]);
    }
  }

  lemma StartIsKnown(q: Query, nodes: set<Node>, p: seq<Node>, b: Node)
    requires p != [] && Distinct(p) && (forall n :: n in p ==> n in nodes)
    requires Fileless(q.files, nodes) == {End(p)}
    requires b in p && FileOf(q.files, b).Some?
    ensures FileOf(q.files, p[0]).Some?
  {
    assert p[0] in Fileless(q.files, nodes) ==> p[0] == p[|p| - 1];
  }

  /** Among two files, walks from one known start with equal hops end in one file. */
  lemma ParityAgrees(q: Query, nodes: set<Node>, p: seq<Node>, w: seq<Node>, a: string, b: string)
    requires KnownFiles(q.files, nodes) == {a, b} && a != b
    requires p != [] && w != [] && p[0] == w[0] && FileOf(q.files, p[0]).Some?
    requires forall n :: n in p || n in w ==> n in nodes
    requires Hops(q.files, p) == Hops(q.files, w)
    ensures LastFile(q.files, p) == LastFile(q.files, w)
  {
    forall n | n in p || n in w ensures FileOf(q.files, n).Some? ==>
      FileOf(q.files, n) == Some(a) || FileOf(q.files, n) == Some(b) {
      if FileOf(q.files, n).Some? {
        assert q.files[n] in KnownFiles(q.files, nodes);
      }
    }
    assert p[0] in p;
    if q.files[p[0]] == a {
      ParityTells(q.files, p, a, b);
      ParityTells(q.files, w, a, b);
    } else {
      ParityTells(q.files, p, b, a);
      ParityTells(q.files, w, b, a);
    }
  }

  /** A walk over nodes without files, of which there are at most two, leads along one edge. */
  lemma {:induction false} OneEdgeSuffices(q: Query, nodes: set<Node>, w: seq<Node>)
    requires CleanWalk(q.search, w) && NodesOf(q.search) <= nodes && |Fileless(q.files, nodes)| <= 2
    requires forall n :: n in w ==> FileOf(q.files, n).None?
    ensures End(w)
       == q.search.start || (HasEdge(q.search.adj, q.search.start, End(w)) && q.search.start !in q.search.targets)
    decreases |w|
  {
    if |w| == 1 {
    } else {
      ShortenWalk(q.search, w);
      var front, start := w[..|w| - 1], q.search.start;
      assert forall n :: n in front ==> n in w;
      OneEdgeSuffices(q, nodes, front);
      if End(front) != start && End(w) != start && End(w) != End(front) {
        WalkStays(q, w);
        assert w[0] in w && w[|w| - 1] in w && w[|w| - 2] in w;
        var three := {start, End(front), End(w)};
        assert three <= Fileless(q.files, nodes) && |three| == 3;
        SubsetCardinality(three, Fileless(q.files, nodes));
        assert false;
      }
    }
  }

  /**
   If nothing on the walk has a file, there is a way to its end over at most two nodes, so the kept path has none
   either.
   */
  lemma FilelessKept(q: Query, nodes: set<Node>, first: map<State, seq<Node>>, p: seq<Node>, front: seq<Node>)
    requires GoodPath(q, p) && InBudget(q, front) && StateOf(q, p) == StateOf(q, front) &&
      End(front) !in q.search.targets
    requires LastFile(q.files, front).None?
    requires NodesOf(q.search) <= nodes && |Fileless(q.files, nodes)| <= 2
    requires StateOf(q, p) in first && first[StateOf(q, p)] == p
    requires var x := [q.search.start, End(front)]; InBudget(q, x) ==> Dominated(first, End(x), Hops(q.files, x), 2)
    ensures LastFile(q.files, p).None?
  {
    LastFileFrom(q.files, front);
    LastFileFrom(q.files, p);
    NoFilesNoHops(q.files, front);
    StateEnd(q, p);
    StateEnd(q, front);
    OneEdgeSuffices(q, nodes, front);
    var start, u := q.search.start, End(front);
    assert start in front && u in front;
    if u == start {
      OneNodeOnly(p, start);
    } else {
      TwoNodeWalk(q, u);
      assert Dominated(first, u, 0, 2);
      assert |p| <= 2;
      assert forall n :: n in p ==> n == start || n == u;
    }
  }

  lemma OneNodeOnly(p: seq<Node>, n: Node)
    requires p != [] && Distinct(p) && p[0] == n == p[|p| - 1]
    ensures p == [n]
  {
  }

  lemma OnlyOneOrTwo(files: map<Node, string>, nodes: set<Node>, u: Node, a: Node, b: Node)
    requires (|Fileless(files, nodes)| <= 2 && OneNodePerFile(files, nodes)) || Fileless(files, nodes) == {u}
    ensures |Fileless(files, nodes)| <= 2
  {
  }

  lemma TwoNodeWalk(q: Query, u: Node)
    requires HasEdge(q.search.adj, q.search.start, u) && q.search.start !in q.search.targets
    requires FileOf(q.files, q.search.start).None?
    ensures var x := [q.search.start, u]; InBudget(q, x) && Hops(q.files, x) == 0
  {
    var s := q.search.start;
    assert [s, u][..1] == [s] && [s][..0] == [];
    assert LastFile(q.files, [s]) == None;
  }

  // ----- domination

  /** From an expanded state, a neighbour within the budget is dominated. */
  lemma ExpandedReaches(q: Query, r: Run, p: seq<Node>, v: Node, h: nat, n: int)
    requires ExpandedClosed(q, r) && p != [] && StateOf(q, p) in r.expanded && r.first[StateOf(q, p)] == p
    requires HasEdge(q.search.adj, End(p), v)
    requires Hops(q.files, p) + Crossing(LastFile(q.files, p), FileOf(q.files, v)) <= h <= q.maxHops && |p| + 1 <= n
    ensures Dominated(r.first, v, h, n)
  {
    HopsExtend(q.files, p, v);
    StateEnd(q, p);
    hide StateOf, Crossing, FileOf, Hops, LastFile;
    assert ScannedTo(q, r.first, p, v);
    var g: nat :| g <= Hops(q.files, p + [v]) && Reached(r.first, (v, g), |p| + 1);
    assert Reached(r.first, (v, g), n);
  }

  lemma DominatedWeakens(first: map<State, seq<Node>>, v: Node, h: nat, n: int, h': nat, n': int)
    requires Dominated(first, v, h, n) && h <= h' && n <= n'
    ensures Dominated(first, v, h', n')
  {
    var g: nat :| g <= h && Reached(first, (v, g), n);
    assert Reached(first, (v, g), n');
  }

  /** The first path of a state that cannot be waiting, too deep or a sink has been expanded. */
  lemma FirstExpanded(q: Query, r: Run, u: Node, g: nat, n: int) returns (p: seq<Node>)
    requires Inv(q, r) && Reached(r.first, (u, g), n) && n <= q.maxDepth && u !in q.search.targets
    requires forall i :: 0 <= i < |r.queue| ==> n < |r.queue[i].path|
    ensures p == r.first[(u, g)] && StateOf(q, p) == (u, g) && GoodPath(q, p) && p != [] && |p| <= n
    ensures End(p) == u && Hops(q.files, p) == g && (u, g) in r.expanded
  {
    hide AllRecorded, QueuedOnce, ExpandedClosed, Levelled, ReturnedGood, InBudget;
    p := r.first[(u, g)];
    GoodIsNonEmpty(q, p);
    assert Settled(q, r, (u, g));
  }

  ghost predicate NoneShorter(r: Run, n: int) {
    forall i :: 0 <= i < |r.queue| ==> n <= |r.queue[i].path|
  }

  /**
   Every walk within budget and depth that is no longer than anything queued is dominated: its end was visited at no
   higher a hop count and by no longer a path, whichever path got there first.
   */
  lemma {:induction false} WalksAreDominated(q: Query, nodes: set<Node>, r: Run, w: seq<Node>)
    requires Inv(q, r) && Trusty(q, nodes)
    requires InBudget(q, w) && |w| <= q.maxDepth && NoneShorter(r, |w|)
    ensures Dominated(r.first, End(w), Hops(q.files, w), |w|)
    decreases |w|
  {
    if |w| == 1 {
      assert Reached(r.first, (End(w), 0), 1);
    } else {
      hide Inv, InBudget, Trusty, Hops, Dominated;
      var front, x := w[..|w| - 1], [q.search.start, End(w[..|w| - 1])];
      FrontInBudget(q, w);
      WalksAreDominated(q, nodes, r, front);
      if End(w) in front {
        RevisitDominated(q, nodes, r, w);
      } else {
        if InBudget(q, x) && |front| > 1 {
          WalksAreDominated(q, nodes, r, x);
        }
        ExtensionDominated(q, nodes, r, w);
      }
    }
  }

  /** The step of that induction: the kept path to the front extends to the end at no higher cost. */
  lemma ExtensionDominated(q: Query, nodes: set<Node>, r: Run, w: seq<Node>)
    requires Inv(q, r) && Trusty(q, nodes) && InBudget(q, w) && 1 < |w| <= q.maxDepth && NoneShorter(r, |w|)
    requires var front := w[..|w| - 1];
      Dominated(r.first, End(front), Hops(q.files, front), |front|) && End(w) !in front
    requires var front := w[..|w| - 1];
      var x := [q.search.start, End(front)];
      InBudget(q, x) && |front| > 1 ==> Dominated(r.first, End(x), Hops(q.files, x), 2)
    ensures Dominated(r.first, End(w), Hops(q.files, w), |w|)
  {
    hide *;
    var front, v := w[..|w| - 1], End(w);
    FrontInBudget(q, w);
    var g, p := KeptPath(q, r, front, |w| - 1);
    EndIsLast(w);
    HopsExtend(q.files, front, v);
    NeverMisled(q, nodes, r, p, front, v);
    ExpandedFromInv(q, r, p, v, w);
  }

  lemma EndIsLast(w: seq<Node>)
    requires w != []
    ensures w[..|w| - 1] + [End(w)] == w
  {
  }

  lemma FrontInBudget(q: Query, w: seq<Node>)
    requires InBudget(q, w) && |w| > 1
    ensures var front := w[..|w| - 1];
      && InBudget(q, front) && End(front) !in q.search.targets && HasEdge(q.search.adj, End(front), End(w))
      && Hops(q.files, front) <= Hops(q.files, w) <= q.maxHops && front != []
  {
    ShortenWalk(q.search, w);
    HopsPrefix(q.files, w, |w| - 1);
  }

  /** The path kept for a state that dominates the walk. */
  lemma KeptPath(q: Query, r: Run, front: seq<Node>, n: int) returns (g: nat, p: seq<Node>)
    requires Inv(q, r) && Dominated(r.first, End(front), Hops(q.files, front), n) && End(front) !in q.search.targets
    requires n < q.maxDepth && NoneShorter(r, n + 1)
    ensures g <= Hops(q.files, front) && (End(front), g) in r.first && p == r.first[(End(front), g)]
    ensures StateOf(q, p) == (End(front), g) && GoodPath(q, p) && p != [] && |p| <= n
    ensures End(p) == End(front) && Hops(q.files, p) == g && (End(front), g) in r.expanded
  {
    g :| g <= Hops(q.files, front) && Reached(r.first, (End(front), g), n);
    hide Inv, Hops, StateOf, GoodPath;
    p := FirstExpanded(q, r, End(front), g, n);
  }

  lemma ExpandedFromInv(q: Query, r: Run, p: seq<Node>, v: Node, w: seq<Node>)
    requires Inv(q, r) && p != [] && StateOf(q, p) in r.expanded && StateOf(q, p) in r.first &&
      r.first[StateOf(q, p)] == p
    requires HasEdge(q.search.adj, End(p), v) && |p| + 1 <= |w| && Hops(q.files, w) <= q.maxHops
    requires Hops(q.files, p) + Crossing(LastFile(q.files, p), FileOf(q.files, v)) <= Hops(q.files, w)
    ensures Dominated(r.first, v, Hops(q.files, w), |w|)
  {
    hide StateOf, Hops, LastFile, Crossing, FileOf, Dominated, ExpandedClosed, QueuedOnce, Accounted, Levelled,
         AllRecorded;
    ExpandedReaches(q, r, p, v, Hops(q.files, w), |w|);
  }

  /** A walk that comes back to a node is dominated because its prefix up to that node is. */
  lemma {:induction false} RevisitDominated(q: Query, nodes: set<Node>, r: Run, w: seq<Node>)
    requires Inv(q, r) && Trusty(q, nodes) && InBudget(q, w) && |w| <= q.maxDepth && NoneShorter(r, |w|)
    requires |w| > 1 && End(w) in w[..|w| - 1]
    ensures Dominated(r.first, End(w), Hops(q.files, w), |w|)
    decreases |w|, 0
  {
    hide Inv, Trusty, Hops, NodesOf, Dominated;
    var front := w[..|w| - 1];
    var i :| 0 <= i < |front| && front[i] == End(w);
    var x := w[..i + 1];
    PrefixInBudget(q, w, i + 1);
    WalksAreDominated(q, nodes, r, x);
    DominatedWeakens(r.first, End(w), Hops(q.files, x), |x|, Hops(q.files, w), |w|);
  }

  lemma PrefixInBudget(q: Query, w: seq<Node>, n: nat)
    requires InBudget(q, w) && 0 < n <= |w|
    ensures InBudget(q, w[..n]) && Hops(q.files, w[..n]) <= Hops(q.files, w)
  {
    hide Hops, CleanWalk;
    HopsPrefix(q.files, w, n);
    CleanPrefix(q.search, w, n);
  }

  lemma CleanPrefix(s: Search, w: seq<Node>, n: nat)
    requires CleanWalk(s, w) && 0 < n <= |w|
    ensures CleanWalk(s, w[..n])
  {
    forall i | 0 <= i < n - 1 ensures HasEdge(s.adj, w[..n][i], w[..n][i + 1]) {
      assert HasEdge(s.adj, w[i], w[i + 1]);
    }
  }

  /** Where the search can be trusted, extending the kept path costs no more than extending the walk. */
  lemma NeverMisled(q: Query, nodes: set<Node>, r: Run, p: seq<Node>, front: seq<Node>, v: Node)
    requires Trusty(q, nodes) && GoodPath(q, p) && InBudget(q, front) && End(front) !in q.search.targets
    requires HasEdge(q.search.adj, End(front), v) && v !in front
    requires p != [] && front != [] && End(p) == End(front) && |p| <= |front| &&
      Hops(q.files, p) <= Hops(q.files, front)
    requires StateOf(q, p) == (End(p), Hops(q.files, p)) && StateOf(q, p) in r.first && r.first[StateOf(q, p)] == p
    requires var x := [q.search.start, End(front)];
      InBudget(q, x) && |front| > 1 ==> Dominated(r.first, End(x), Hops(q.files, x), 2)
    ensures Hops(q.files, p) + Crossing(LastFile(q.files, p), FileOf(q.files, v))
         <= Hops(q.files, front) + Crossing(LastFile(q.files, front), FileOf(q.files, v))
  {
    hide CleanWalk, Hops, LastFile, FileOf, Harmless, NodesOf, Dominated, HasEdge;
    if Misled(q, p, front, v) && !LastFileAgrees(q) {
      if LastFile(q.files, front) == FileOf(q.files, v) {
        SameFileMeansRevisit(q, nodes, p, front, v);
      } else {
        FewFilelessHere(q, nodes, p, front, v);
        if |front| > 1 {
          FilelessKept(q, nodes, r.first, p, front);
        }
      }
    }
  }

  /** If the walk has met no file yet, at most two nodes have none. */
  lemma FewFilelessHere(q: Query, nodes: set<Node>, p: seq<Node>, front: seq<Node>, v: Node)
    requires Misled(q, p, front, v) && NodesOf(q.search) <= nodes && Harmless(q.files, nodes)
    requires |p| <= |front|
    ensures |Fileless(q.files, nodes)| <= 2
    ensures LastFile(q.files, front) != FileOf(q.files, v) ==> LastFile(q.files, front).None?
    ensures |front| > 1
  {
    MisledFacts(q, p, front, v);
    hide Harmless, NodesOf, GoodPath, CleanWalk, Hops, StateOf, Crossing;
    LastFileFrom(q.files, p);
    var b :| b in p && FileOf(q.files, b) == LastFile(q.files, p);
    FewFilelessNodes(q.files, nodes, End(front), b, v);
    OnlyOneOrTwo(q.files, nodes, End(front), b, v);
  }

  // ----- completeness

  /** Wherever the search can be trusted, each sink's first path is a shortest one. */
  lemma {:induction false} FirstPathsAreShortest(q: Query, nodes: set<Node>, r: Run, ops: nat, max: int)
    requires Inv(q, r) && Trusty(q, nodes) && FirstIsShortest(q, r.paths)
    ensures FirstIsShortest(q, Continue(q, r, ops, max).paths)
    decreases MAX_BFS_OPS - ops
  {
    hide Inv, Trusty, FirstIsShortest, OfferAll;
    if r.queue == [] || |r.paths| >= max || ops >= MAX_BFS_OPS {
    } else {
      StepKeeps(q, r);
      StepKeepsShortest(q, nodes, r);
      FirstPathsAreShortest(q, nodes, Step(q, r), ops + 1, max);
    }
  }

  lemma StepKeepsShortest(q: Query, nodes: set<Node>, r: Run)
    requires Inv(q, r) && Trusty(q, nodes) && FirstIsShortest(q, r.paths) && r.queue != []
    ensures FirstIsShortest(q, Step(q, r).paths)
  {
    hide Inv, Trusty, FirstIsShortest, OfferAll, WithinBudget, InBudget;
    var e, rest := r.queue[0], r.(queue := r.queue[1..]);
    if |e.path| > q.maxDepth {
    } else if End(e.path) in q.search.targets {
      forall w | WithinBudget(q, w, End(e.path)) && |w| < |e.path| ensures Returned(r.paths, End(e.path)) {
        ShorterMeansReturned(q, nodes, r, w, End(e.path));
      }
      AppendKeepsShortest(q, r.paths, e.path);
    } else {
      assert [e] + rest.queue == r.queue && WithHead(e, rest) == r;
      OfferAllReturnsNone(q, e, rest, Successors(q.search.adj, End(e.path)));
    }
  }

  lemma ShorterMeansReturned(q: Query, nodes: set<Node>, r: Run, w: seq<Node>, t: Node)
    requires Inv(q, r) && Trusty(q, nodes) && r.queue != [] && |r.queue[0].path| <= q.maxDepth
    requires WithinBudget(q, w, t) && t in q.search.targets && |w| < |r.queue[0].path|
    ensures Returned(r.paths, t)
  {
    hide Trusty, InBudget, AllRecorded, QueuedOnce, ExpandedClosed, ReturnedGood, GoodPath, QueueLevelled, Hops,
         Dominated;
    QueueIsLong(r);
    WalksAreDominated(q, nodes, r, w);
    DominatedReturned(q, r, t, Hops(q.files, w), |w|);
  }

  lemma QueueIsLong(r: Run)
    requires Levelled(r) && r.queue != []
    ensures NoneShorter(r, |r.queue[0].path|)
  {
  }

  /** A visited sink whose first path is shorter than anything queued, and not too deep, has been returned. */
  lemma DominatedReturned(q: Query, r: Run, t: Node, h: nat, n: int)
    requires Inv(q, r) && Dominated(r.first, t, h, n) && t in q.search.targets && n <= q.maxDepth
    requires NoneShorter(r, n + 1)
    ensures Returned(r.paths, t)
  {
    hide AllRecorded, QueuedOnce, ExpandedClosed, Levelled, ReturnedGood, GoodPath;
    var g: nat :| g <= h && Reached(r.first, (t, g), n);
    assert Settled(q, r, (t, g));
    StateEnd(q, r.first[(t, g)]);
  }

  lemma AppendKeepsShortest(q: Query, paths: seq<seq<Node>>, path: seq<Node>)
    requires FirstIsShortest(q, paths)
    requires forall w :: WithinBudget(q, w, End(path)) && |w| < |path| ==> Returned(paths, End(path))
    ensures FirstIsShortest(q, paths + [path])
  {
    hide WithinBudget;
    var grown := paths + [path];
    forall k, w | FirstForItsTarget(grown, k) && WithinBudget(q, w, End(grown[k])) ensures |grown[k]| <= |w| {
      assert forall j :: 0 <= j < |paths| ==> paths[j] == grown[j];
      if k < |paths| {
        assert FirstForItsTarget(paths, k);
      }
    }
  }

  /** With the queue empty, the returned sinks are exactly those that can be reached within budget and depth. */
  lemma DrainedIsExact(q: Query, nodes: set<Node>, r: Run)
    requires Inv(q, r) && Trusty(q, nodes) && r.queue == []
    ensures Exact(q, r.paths)
  {
    forall t | t in q.search.targets ensures Returned(r.paths, t) <==> ReachableInBudget(q, t) {
      hide Trusty, Inv, InBudget, Dominated, Hops;
      if p :| p in r.paths && End(p) == t {
        ReturnedIsGood(q, r, p);
        assert WithinBudget(q, p, t);
      }
      if w :| WithinBudget(q, w, t) && |w| <= q.maxDepth {
        WalksAreDominated(q, nodes, r, w);
        DominatedReturned(q, r, t, Hops(q.files, w), |w|);
      }
    }
  }

  lemma ReturnedIsGood(q: Query, r: Run, p: seq<Node>)
    requires Inv(q, r) && p in r.paths
    ensures GoodPath(q, p) && InBudget(q, p) && End(p) in q.search.targets && |p| <= q.maxDepth
  {
  }

  /**
   What a call guarantees: sound paths in ascending length; complete and shortest where it can be trusted; no cap on
   small graphs.
   */
  lemma CallIsSound(q: Query, max: int)
    ensures ReturnedGood(q, RunOf(q, max).paths) && Ascending(RunOf(q, max).paths)
    ensures q.search.adj.Valid() && OpBound(q.search.adj, q.maxHops) < 5000 && |RunOf(q, max).paths| < max ==>
              RunOf(q, max).queue == []
  {
    hide AllRecorded, QueuedOnce, Accounted, ExpandedClosed, Continue, Pending, OpBound, ReturnedGood;
    Initially(q);
    ContinueKeeps(q, Start(q), 0, max);
    if q.search.adj.Valid() && OpBound(q.search.adj, q.maxHops) < 5000 {
      ContinueDrains(q, Start(q), 0, max);
    }
  }

  lemma CallIsComplete(q: Query, nodes: set<Node>, max: int)
    requires Trusty(q, nodes)
    ensures FirstIsShortest(q, RunOf(q, max).paths)
    ensures RunOf(q, max).queue == [] ==> Exact(q, RunOf(q, max).paths)
  {
    hide Inv, Trusty, Continue, Exact;
    Initially(q);
    ContinueKeeps(q, Start(q), 0, max);
    FirstPathsAreShortest(q, nodes, Start(q), 0, max);
    if RunOf(q, max).queue == [] {
      DrainedIsExact(q, nodes, RunOf(q, max));
    }
  }
}
