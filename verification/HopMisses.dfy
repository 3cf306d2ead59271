/**
 The graphs on which the hop-budgeted search does miss a sink, and with them the exact file maps on which it is complete
 for every graph.
 */
module HopMisses {
  import opened Base
  import opened Dicts
  import opened Graphs
  import opened HopBfs
  import opened HopCompleteness

  /** `s` leads to `x` through `p` and, later in its list, through `m`; `x` leads to the sink `t`. */
  function Diamond(s: Node, p: Node, m: Node, x: Node, t: Node): Adjacency {
    Dict([s, p, m, x], map[s := [p, m], p := [x], m := [x], x := [t]])
  }

  /** `x` has no file; through `p` and through `m` it costs the same, but from there `t` costs a hop only after `p`. */
  ghost predicate Spoils(files: map<Node, string>, s: Node, p: Node, m: Node, x: Node, t: Node) {
    && |{s, p, m, x, t}| == 5
    && FileOf(files, x) == None
    && var fs, ft := FileOf(files, s), FileOf(files, t);
    && Crossing(fs, FileOf(files, p)) == Crossing(fs, FileOf(files, m))
    && Crossing(NextFile(fs, FileOf(files, p)), ft) == 1
    && Crossing(NextFile(fs, FileOf(files, m)), ft) == 0
  }

  ghost function DiamondQuery(files: map<Node, string>, s: Node, p: Node, m: Node, x: Node, t: Node): Query {
    Query(Search(Diamond(s, p, m, x, t), {t}, s), files, Crossing(FileOf(files, s), FileOf(files, p)), 4)
  }

  lemma FiveDistinct(s: Node, p: Node, m: Node, x: Node, t: Node)
    ensures |{s, p, m, x, t}| == 5 <==>
      s != p && s != m && s != x && s != t && p != m && p != x && p != t && m != x && m != t && x != t
  {
    if s == p { assert {s, p, m, x, t} == {p, m, x, t}; }
    if s == m { assert {s, p, m, x, t} == {p, m, x, t}; }
    if s == x { assert {s, p, m, x, t} == {p, m, x, t}; }
    if s == t { assert {s, p, m, x, t} == {p, m, x, t}; }
    if p == m { assert {s, p, m, x, t} == {s, m, x, t}; }
    if p == x { assert {s, p, m, x, t} == {s, m, x, t}; }
    if p == t { assert {s, p, m, x, t} == {s, m, x, t}; }
    if m == x { assert {s, p, m, x, t} == {s, p, x, t}; }
    if m == t { assert {s, p, m, x, t} == {s, p, x, t}; }
    if x == t { assert {s, p, m, x, t} == {s, p, m, t}; }
  }

  /** Expanding one entry whose only neighbours are those listed. */
  lemma StepExpands(q: Query, r: Run, e: Entry, vs: seq<Node>)
    requires r.queue != [] && r.queue[0] == e && |e.path| <= q.maxDepth && End(e.path) !in q.search.targets
    requires Successors(q.search.adj, End(e.path)) == vs && 1 <= |vs| <= 2
    ensures var rest := r.(queue := r.queue[1..]);
      var scanned := if |vs| == 1 then Offer(q, e, rest, vs[0]) else Offer(q, e, Offer(q, e, rest, vs[0]), vs[1]);
      Step(q, r) == scanned.(expanded := scanned.expanded + {(End(e.path), e.hops)})
  {
    hide Offer;
    var rest := r.(queue := r.queue[1..]);
    if |vs| == 1 {
      assert OfferAll(q, e, rest, vs[..0]) == rest;
    } else {
      assert vs[..1][..0] == [] && vs[..1][0] == vs[0];
      assert OfferAll(q, e, rest, vs[..1][..0]) == rest;
      assert OfferAll(q, e, rest, vs[..1]) == Offer(q, e, rest, vs[0]);
    }
  }

  /** The run on the diamond: `x` is kept through `p`, so `t` is never queued. */
  lemma DiamondRun(files: map<Node, string>, s: Node, p: Node, m: Node, x: Node, t: Node, max: int)
    requires Spoils(files, s, p, m, x, t) && max >= 1
    ensures var r := RunOf(DiamondQuery(files, s, p, m, x, t), max); r.queue == [] && r.paths == []
  {
    FiveDistinct(s, p, m, x, t);
    var q := DiamondQuery(files, s, p, m, x, t);
    hide Step, Spoils;
    var r0 := Start(q);
    SplitsFirst(files, s, p, m, x, t);
    var r1 := Step(q, r0);
    KeepsFirst(files, s, p, m, x, t, r1);
    var r2 := Step(q, r1);
    SkipsSecond(files, s, p, m, x, t, r2);
    var r3 := Step(q, r2);
    SkipsSink(files, s, p, m, x, t, r3);
    ContinueUnfolds(q, r0, 0, max);
    ContinueUnfolds(q, r1, 1, max);
    ContinueUnfolds(q, r2, 2, max);
    ContinueUnfolds(q, r3, 3, max);
    ContinueUnfolds(q, Step(q, r3), 4, max);
  }

  /** What queueing a fresh neighbour does. */
  lemma OfferFresh(q: Query, e: Entry, r: Run, v: Node, hops: nat)
    requires hops == e.hops + Crossing(e.lastFile, FileOf(q.files, v)) <= q.maxHops
    requires v !in e.path && (v, hops) !in r.first
    ensures var o := Offer(q, e, r, v);
      && o.queue == r.queue + [Entry(e.path + [v], hops, NextFile(e.lastFile, FileOf(q.files, v)))]
      && o.first.Keys == r.first.Keys + {(v, hops)} && o.paths == r.paths
  {
  }

  lemma SpoilsSplit(files: map<Node, string>, s: Node, p: Node, m: Node, x: Node, t: Node)
    requires Spoils(files, s, p, m, x, t)
    ensures s != p && s != m && s != x && s != t && p != m && p != x && p != t && m != x && m != t && x != t
    ensures Crossing(FileOf(files, s), FileOf(files, p)) == Crossing(FileOf(files, s), FileOf(files, m))
  {
    FiveDistinct(s, p, m, x, t);
  }

  lemma SplitsFirst(files: map<Node, string>, s: Node, p: Node, m: Node, x: Node, t: Node)
    requires Spoils(files, s, p, m, x, t)
    ensures var q := DiamondQuery(files, s, p, m, x, t);
      var b, r := q.maxHops, Step(q, Start(q));
      && r.queue == [Entry([s, p], b, NextFile(FileOf(files, s), FileOf(files, p))),
                     Entry([s, m], b, NextFile(FileOf(files, s), FileOf(files, m)))]
      && r.first.Keys == {(s, 0), (p, b), (m, b)} && r.paths == []
  {
    FiveDistinct(s, p, m, x, t);
    var q := DiamondQuery(files, s, p, m, x, t);
    hide Offer, OfferAll, Step, FileOf, NextFile, Spoils;
    var r, b := Start(q), q.maxHops;
    SpoilsSplit(files, s, p, m, x, t);
    var e, rest := r.queue[0], r.(queue := []);
    assert r.queue[1..] == [];
    StepExpands(q, r, e, [p, m]);
    OfferFresh(q, e, rest, p, b);
    OfferFresh(q, e, Offer(q, e, rest, p), m, b);
    assert [s] + [p] == [s, p] && [s] + [m] == [s, m];
  }

  lemma KeepsFirst(files: map<Node, string>, s: Node, p: Node, m: Node, x: Node, t: Node, r: Run)
    requires Spoils(files, s, p, m, x, t)
    requires var q := DiamondQuery(files, s, p, m, x, t);
      var b := q.maxHops;
      && r.queue == [Entry([s, p], b, NextFile(FileOf(files, s), FileOf(files, p))),
                     Entry([s, m], b, NextFile(FileOf(files, s), FileOf(files, m)))]
      && r.first.Keys == {(s, 0), (p, b), (m, b)} && r.paths == []
    ensures var q := DiamondQuery(files, s, p, m, x, t);
      var b, next := q.maxHops, Step(q, r);
      && next.queue == [Entry([s, m], b, NextFile(FileOf(files, s), FileOf(files, m))),
                        Entry([s, p, x], b, NextFile(FileOf(files, s), FileOf(files, p)))]
      && next.first.Keys == {(s, 0), (p, b), (m, b), (x, b)} && next.paths == []
  {
    FiveDistinct(s, p, m, x, t);
    var q := DiamondQuery(files, s, p, m, x, t);
    StepExpands(q, r, r.queue[0], [x]);
    OfferFresh(q, r.queue[0], r.(queue := r.queue[1..]), x, q.maxHops);
    assert [s, p] + [x] == [s, p, x];
  }

  lemma SkipsSecond(files: map<Node, string>, s: Node, p: Node, m: Node, x: Node, t: Node, r: Run)
    requires Spoils(files, s, p, m, x, t)
    requires var q := DiamondQuery(files, s, p, m, x, t);
      var b := q.maxHops;
      && r.queue == [Entry([s, m], b, NextFile(FileOf(files, s), FileOf(files, m))),
                     Entry([s, p, x], b, NextFile(FileOf(files, s), FileOf(files, p)))]
      && r.first.Keys == {(s, 0), (p, b), (m, b), (x, b)} && r.paths == []
    ensures var q := DiamondQuery(files, s, p, m, x, t);
      var b, next := q.maxHops, Step(q, r);
      next.queue == [Entry([s, p, x], b, NextFile(FileOf(files, s), FileOf(files, p)))] && next.paths == []
  {
    FiveDistinct(s, p, m, x, t);
    var q := DiamondQuery(files, s, p, m, x, t);
    StepExpands(q, r, r.queue[0], [x]);
  }

  lemma SkipsSink(files: map<Node, string>, s: Node, p: Node, m: Node, x: Node, t: Node, r: Run)
    requires Spoils(files, s, p, m, x, t)
    requires var q := DiamondQuery(files, s, p, m, x, t);
      r.queue == [Entry([s, p, x], q.maxHops, NextFile(FileOf(files, s), FileOf(files, p)))] && r.paths == []
    ensures var q := DiamondQuery(files, s, p, m, x, t); Step(q, r).queue == [] && Step(q, r).paths == []
  {
    FiveDistinct(s, p, m, x, t);
    var q := DiamondQuery(files, s, p, m, x, t);
    StepExpands(q, r, r.queue[0], [t]);
  }

  /** Yet the walk through `m` reaches the sink within the budget. */
  lemma DiamondReaches(files: map<Node, string>, s: Node, p: Node, m: Node, x: Node, t: Node)
    requires Spoils(files, s, p, m, x, t)
    ensures ReachableInBudget(DiamondQuery(files, s, p, m, x, t), t)
  {
    FiveDistinct(s, p, m, x, t);
    var q, w := DiamondQuery(files, s, p, m, x, t), [s, m, x, t];
    FourNodes(files, s, m, x, t);
    assert HasEdge(q.search.adj, s, m) && HasEdge(q.search.adj, m, x) && HasEdge(q.search.adj, x, t);
    assert CleanWalk(q.search, w);
    assert WithinBudget(q, w, t);
  }

  lemma FourNodes(files: map<Node, string>, s: Node, m: Node, x: Node, t: Node)
    requires FileOf(files, x) == None
    requires Crossing(NextFile(FileOf(files, s), FileOf(files, m)), FileOf(files, t)) == 0
    ensures Hops(files, [s, m, x, t]) == Crossing(FileOf(files, s), FileOf(files, m))
  {
    assert [s, m, x, t] == [s, m, x] + [t] && [s, m, x] == [s, m] + [x] && [s, m] == [s] + [m];
    HopsExtend(files, [s], m);
    HopsExtend(files, [s, m], x);
    HopsExtend(files, [s, m, x], t);
    assert [s][..0] == [];
  }

  /** A complete run of the search that misses a sink it should return. */
  lemma DiamondMisses(files: map<Node, string>, s: Node, p: Node, m: Node, x: Node, t: Node, max: int)
    requires Spoils(files, s, p, m, x, t) && max >= 1
    ensures var q := DiamondQuery(files, s, p, m, x, t);
      && q.search.adj.Valid() && NodesOf(q.search) == {s, p, m, x, t}
      && RunOf(q, max).queue == [] && !Exact(q, RunOf(q, max).paths)
  {
    DiamondRun(files, s, p, m, x, t, max);
    DiamondReaches(files, s, p, m, x, t);
    FiveDistinct(s, p, m, x, t);
    DiamondNodes(files, s, p, m, x, t);
    var q := DiamondQuery(files, s, p, m, x, t);
    hide RunOf, ReachableInBudget;
    assert t in q.search.targets && !Returned([], t);
  }

  lemma DiamondNodes(files: map<Node, string>, s: Node, p: Node, m: Node, x: Node, t: Node)
    requires s != p && s != m && s != x && p != m && p != x && m != x
    ensures var q := DiamondQuery(files, s, p, m, x, t); q.search.adj.Valid() && NodesOf(q.search) == {s, p, m, x, t}
  {
    var q := DiamondQuery(files, s, p, m, x, t);
    var adj := q.search.adj;
    assert p in adj.vals[s] && m in adj.vals[s] && x in adj.vals[p] && t in adj.vals[x];
  }

  /**
   The input in plain sight: source in file a, ways through b and c, a node without a file, a sink in c, one hop
   allowed.
   */
  lemma MissedSink()
    ensures var q := DiamondQuery(map["S" := "a", "P" := "b", "Q" := "c", "T" := "c"], "S", "P", "Q", "X", "T");
      && q.maxHops == 1 && WithinBudget(q, ["S", "Q", "X", "T"], "T")
      && RunOf(q, 1).queue == [] && RunOf(q, 1).paths == []
  {
    var files := map["S" := "a", "P" := "b", "Q" := "c", "T" := "c"];
    FiveDistinct("S", "P", "Q", "X", "T");
    assert Spoils(files, "S", "P", "Q", "X", "T");
    DiamondRun(files, "S", "P", "Q", "X", "T", 1);
    var q := DiamondQuery(files, "S", "P", "Q", "X", "T");
    FourNodes(files, "S", "Q", "X", "T");
    assert HasEdge(q.search.adj, "S", "Q") && HasEdge(q.search.adj, "Q", "X") && HasEdge(q.search.adj, "X", "T");
    assert CleanWalk(q.search, ["S", "Q", "X", "T"]);
  }

  // ----- which file maps are harmful

  /** On every graph over `nodes`, whatever its sinks and limits, a drained search is exact and shortest first. */
  ghost predicate AlwaysComplete(files: map<Node, string>, nodes: set<Node>) {
    forall q: Query, max: int :: q.files == files && q.search.adj.Valid() && NodesOf(q.search) <= nodes ==>
      CompleteOn(q, max)
  }

  ghost predicate CompleteOn(q: Query, max: int) {
    FirstIsShortest(q, RunOf(q, max).paths) && (RunOf(q, max).queue == [] ==> Exact(q, RunOf(q, max).paths))
  }

  lemma AnotherOf<T>(s: set<T>, a: T) returns (x: T)
    requires |s| > 1
    ensures x in s && x != a
  {
    SubsetCardinality(s, (s - {a}) + {a});
    x := ElementOf(s - {a});
  }

  lemma ThirdOf<T>(s: set<T>, a: T, b: T) returns (x: T)
    requires |s| > 2
    ensures x in s && x != a && x != b
  {
    SubsetCardinality(s, (s - {a, b}) + {a, b});
    x := ElementOf(s - {a, b});
  }

  lemma NodeOfFile(files: map<Node, string>, nodes: set<Node>, f: string) returns (n: Node)
    requires f in KnownFiles(files, nodes)
    ensures n in nodes && FileOf(files, n) == Some(f)
  {
    n :| n in nodes && FileOf(files, n).Some? && files[n] == f;
  }

  /** Every file map that is not harmless has room for a diamond. */
  lemma HarmfulSpoils(files: map<Node, string>, nodes: set<Node>) returns (s: Node, p: Node, m: Node, x: Node, t: Node)
    requires !Harmless(files, nodes)
    ensures {s, p, m, x, t} <= nodes && Spoils(files, s, p, m, x, t)
  {
    var fileless, known := Fileless(files, nodes), KnownFiles(files, nodes);
    hide OneNodePerFile, Spoils;
    x := ElementOf(fileless);
    if OneNodePerFile(files, nodes) {
      s := AnotherOf(fileless, x);
      m := ThirdOf(fileless, x, s);
      var b := ElementOf(known);
      var c := AnotherOf(known, b);
      p := NodeOfFile(files, nodes, b);
      t := NodeOfFile(files, nodes, c);
    } else {
      m, t := SharedFile(files, nodes);
      var c := files[m];
      var b := AnotherOf(known, c);
      p := NodeOfFile(files, nodes, b);
      if |known| > 2 {
        var a := ThirdOf(known, b, c);
        s := NodeOfFile(files, nodes, a);
      } else {
        assert |fileless| != 1 by { assert c in known; AtLeastTwo(known, b, c); }
        s := AnotherOf(fileless, x);
      }
    }
    SpoilsHere(files, s, p, m, x, t);
  }

  lemma AtLeastTwo<T>(s: set<T>, a: T, b: T)
    requires a in s && b in s && a != b
    ensures |s| >= 2
  {
    SubsetCardinality({a, b}, s);
  }

  lemma SharedFile(files: map<Node, string>, nodes: set<Node>) returns (m: Node, t: Node)
    requires !OneNodePerFile(files, nodes)
    ensures m in nodes && t in nodes && m != t && FileOf(files, m).Some? && FileOf(files, m) == FileOf(files, t)
    ensures files[m] in KnownFiles(files, nodes)
  {
    m, t :| m in nodes && t in nodes && FileOf(files, m).Some? && FileOf(files, m) == FileOf(files, t) && m != t;
  }

  lemma SpoilsHere(files: map<Node, string>, s: Node, p: Node, m: Node, x: Node, t: Node)
    requires FileOf(files, x).None? && x != s && x != m && s != m && m != t
    requires FileOf(files, p).Some? && FileOf(files, t).Some? && FileOf(files, p) != FileOf(files, t)
    requires FileOf(files, m) == FileOf(files, t) || (FileOf(files, m).None? && FileOf(files, s).None?)
    requires FileOf(files, s) != FileOf(files, p) && FileOf(files, s) != FileOf(files, t)
    ensures Spoils(files, s, p, m, x, t)
  {
    FiveDistinct(s, p, m, x, t);
  }

  /**
   Exactly which file maps make the search complete on every graph: those that give every node a file, or name
   at most one file, or leave at most two nodes without one while no two nodes share a file, or leave one
   without among two files.
   */
  lemma CompleteIff(files: map<Node, string>, nodes: set<Node>)
    ensures AlwaysComplete(files, nodes) <==> Harmless(files, nodes)
  {
    hide Harmless, CompleteOn, NodesOf;
    if Harmless(files, nodes) {
      forall q: Query, max: int | q.files == files && q.search.adj.Valid() &&
        NodesOf(q.search) <= nodes ensures CompleteOn(q, max) {
        HarmlessCompletes(q, nodes, max);
      }
    } else {
      var s, p, m, x, t := HarmfulSpoils(files, nodes);
      DiamondMisses(files, s, p, m, x, t, 1);
      Incomplete(DiamondQuery(files, s, p, m, x, t), 1);
    }
  }

  lemma HarmlessCompletes(q: Query, nodes: set<Node>, max: int)
    requires Harmless(q.files, nodes) && NodesOf(q.search) <= nodes
    ensures CompleteOn(q, max)
  {
    hide Harmless, NodesOf, RunOf, FirstIsShortest, Exact;
    CallIsComplete(q, nodes, max);
  }

  lemma Incomplete(q: Query, max: int)
    requires RunOf(q, max).queue == [] && !Exact(q, RunOf(q, max).paths)
    ensures !CompleteOn(q, max)
  {
  }
}
