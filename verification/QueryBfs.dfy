/**
 The query executor's path finder (`QueryExecutor._bfs_paths`): breadth-first search with a
 visited set of nodes, a path-length limit, a path cap and an operation cap.
 */
module QueryBfs {
  import opened Base
  import opened Graphs

  /** What one call is asked: a search under `max_path_length`. */
  datatype Query = Query(search: Search, maxLen: int)

  /** What every queued and every returned path is: clean, simple and within the length limit. */
  ghost predicate GoodPath(q: Query, p: seq<Node>) {
    CleanWalk(q.search, p) && Distinct(p) && |p| <= q.maxLen
  }

  /** `t` can be reached by a walk of at most `maxLen` nodes that meets no target before it. */
  ghost predicate ReachableWithin(q: Query, t: Node) {
    exists w :: CleanWalk(q.search, w) && |w| <= q.maxLen && End(w) == t
  }

  /** The adaptive operation cap. */
  function MaxOps(adjTotal: nat): nat {
    if adjTotal < 1000 then 30000 else if adjTotal < 5000 then 15000 else 5000
  }

  /** The first path returned for a target is as short as any clean walk to it. */
  ghost predicate FirstIsShortest(q: Query, paths: seq<seq<Node>>) {
    forall k, w :: FirstForItsTarget(paths, k) && CleanWalk(q.search, w) && End(w) == End(paths[k]) ==>
      |paths[k]| <= |w|
  }

  // ----- invariants: `first` maps each visited node to the first path queued for it; `expanded` are the scanned nodes

  ghost predicate Recorded(q: Query, first: map<Node, seq<Node>>, p: seq<Node>) {
    GoodPath(q, p) && (forall x :: x in p ==> x in first) && |first[End(p)]| <= |p|
  }

  ghost predicate AllRecorded(q: Query, first: map<Node, seq<Node>>, ps: seq<seq<Node>>) {
    forall i :: 0 <= i < |ps| ==> Recorded(q, first, ps[i])
  }

  /** A node that is no target waits in the queue at most once, and only before it is expanded. */
  ghost predicate QueuedOnce(q: Query, first: map<Node, seq<Node>>, expanded: set<Node>, queue: seq<seq<Node>>) {
    && (forall i :: 0 <= i < |queue| && End(queue[i]) !in q.search.targets ==>
          End(queue[i]) in first && queue[i] == first[End(queue[i])] && End(queue[i]) !in expanded)
    && (forall i, j :: 0 <= i < j < |queue| && End(queue[i]) == End(queue[j]) ==> End(queue[i]) in q.search.targets)
  }

  /** Every visited node's first path is waiting, returned, or has been expanded. */
  ghost predicate Accounted(q: Query, first: map<Node, seq<Node>>, expanded: set<Node>, queue: seq<seq<Node>>,
                            paths: seq<seq<Node>>) {
    && q.search.start in first && |first[q.search.start]| == 1
    && forall v :: v in first ==>
         && End(first[v]) == v
         && (first[v] in queue || (if v in q.search.targets then first[v] in paths else v in expanded))
  }

  /** Expanding a node has queued each of its neighbours at most one step later. */
  ghost predicate ExpandedClosed(q: Query, first: map<Node, seq<Node>>, expanded: set<Node>) {
    && (forall u :: u in expanded ==> u in first && u !in q.search.targets)
    && (forall u, v :: u in expanded && |first[u]| < q.maxLen && HasEdge(q.search.adj, u, v) ==>
          v in first && |first[v]| <= |first[u]| + 1)
  }

  ghost predicate Inv(q: Query, first: map<Node, seq<Node>>, expanded: set<Node>, queue: seq<seq<Node>>,
                      paths: seq<seq<Node>>) {
    && AllRecorded(q, first, queue) && AllRecorded(q, first, paths)
    && (forall i :: 0 <= i < |paths| ==> End(paths[i]) in q.search.targets)
    && QueuedOnce(q, first, expanded, queue)
    && Accounted(q, first, expanded, queue, paths)
    && ExpandedClosed(q, first, expanded)
  }

  /** The queue holds path lengths in ascending order, spread over at most two consecutive values. */
  ghost predicate Levelled(queue: seq<seq<Node>>, level: int) {
    && Ascending(queue)
    && forall i :: 0 <= i < |queue| ==> level <= |queue[i]| <= level + 1
  }

  lemma Initially(q: Query)
    requires q.maxLen >= 1
    ensures Inv(q, map[q.search.start := [q.search.start]], {}, [[q.search.start]], [])
    ensures Levelled([[q.search.start]], 1) && FirstIsShortest(q, [])
  {
    assert GoodPath(q, [q.search.start]);
  }

  /**
   Every clean walk that is no longer than anything still queued ends at a visited node,
   and that node's first path is no longer than the walk.
   */
  lemma {:induction false} FirstPathsAreShortest(q: Query, first: map<Node, seq<Node>>, expanded: set<Node>,
                                                 queue: seq<seq<Node>>, paths: seq<seq<Node>>, w: seq<Node>)
    requires Inv(q, first, expanded, queue, paths)
    requires CleanWalk(q.search, w) && |w| <= q.maxLen
    requires forall i :: 0 <= i < |queue| ==> |w| <= |queue[i]|
    ensures End(w) in first && |first[End(w)]| <= |w|
    decreases |w|
  {
    if |w| <= 1 {
    } else {
      ShortenWalk(q.search, w);
      var front := w[..|w| - 1];
      FirstPathsAreShortest(q, first, expanded, queue, paths, front);
      assert first[End(front)] !in queue;
    }
  }

  /** Taking a target off the queue and returning its path. */
  lemma ReturnTarget(q: Query, first: map<Node, seq<Node>>, expanded: set<Node>, path: seq<Node>,
                     queue: seq<seq<Node>>, paths: seq<seq<Node>>)
    requires Inv(q, first, expanded, [path] + queue, paths)
    requires End(path) in q.search.targets
    ensures Inv(q, first, expanded, queue, paths + [path])
  {
    TailOfQueue(q, first, expanded, path, queue);
  }

  lemma TailOfQueue(q: Query, first: map<Node, seq<Node>>, expanded: set<Node>, path: seq<Node>, queue: seq<seq<Node>>)
    requires AllRecorded(q, first, [path] + queue) && QueuedOnce(q, first, expanded, [path] + queue)
    ensures path != [] && End(path) in first
    ensures Recorded(q, first, path) && AllRecorded(q, first, queue) && QueuedOnce(q, first, expanded, queue)
    ensures End(path) !in q.search.targets ==>
      path == first[End(path)] && QueuedOnce(q, first, expanded + {End(path)}, queue)
  {
    var all := [path] + queue;
    assert all[0] == path;
    assert forall i :: 0 <= i < |queue| ==> queue[i] == all[i + 1];
  }

  /** A returned path for a new target is shortest, because nothing still queued is shorter. */
  lemma ReturnKeepsShortest(q: Query, first: map<Node, seq<Node>>, expanded: set<Node>, path: seq<Node>,
                            queue: seq<seq<Node>>, paths: seq<seq<Node>>)
    requires Inv(q, first, expanded, [path] + queue, paths)
    requires End(path) in q.search.targets
    requires forall i :: 0 <= i < |queue| ==> |path| <= |queue[i]|
    requires FirstIsShortest(q, paths)
    ensures FirstIsShortest(q, paths + [path])
  {
    forall w | CleanWalk(q.search, w) && End(w) == End(path) && |w| < |path| ensures Returned(paths, End(path)) {
      NewTargetNotShorter(q, first, expanded, path, queue, paths, w);
    }
    AppendKeepsShortest(q, paths, path);
  }

  lemma AppendKeepsShortest(q: Query, paths: seq<seq<Node>>, path: seq<Node>)
    requires FirstIsShortest(q, paths)
    requires forall w :: CleanWalk(q.search, w) && End(w) == End(path) && |w| < |path| ==> Returned(paths, End(path))
    ensures FirstIsShortest(q, paths + [path])
  {
    var grown := paths + [path];
    forall k, w | FirstForItsTarget(grown, k) && CleanWalk(q.search, w) && End(w) == End(grown[k])
      ensures |grown[k]| <= |w|
    {
      assert forall j :: 0 <= j < |paths| ==> paths[j] == grown[j];
      if k < |paths| {
        assert FirstForItsTarget(paths, k);
      }
    }
  }

  lemma NewTargetNotShorter(q: Query, first: map<Node, seq<Node>>, expanded: set<Node>, path: seq<Node>,
                            queue: seq<seq<Node>>, paths: seq<seq<Node>>, w: seq<Node>)
    requires Inv(q, first, expanded, [path] + queue, paths)
    requires End(path) in q.search.targets
    requires forall i :: 0 <= i < |queue| ==> |path| <= |queue[i]|
    requires CleanWalk(q.search, w) && End(w) == End(path) && |w| < |path|
    ensures Returned(paths, End(path))
  {
    TailOfQueue(q, first, expanded, path, queue);
    FirstPathsAreShortest(q, first, expanded, [path] + queue, paths, w);
    var t := End(path);
    assert first[t] !in [path] + queue;
    assert first[t] in paths;
  }

  lemma PopFront(q: Query, first: map<Node, seq<Node>>, expanded: set<Node>, path: seq<Node>, queue: seq<seq<Node>>,
                 paths: seq<seq<Node>>, level: int)
    requires Inv(q, first, expanded, [path] + queue, paths)
    requires Levelled([path] + queue, level)
    ensures path != [] && (forall x :: x in path ==> x in first)
    ensures level <= |path| <= level + 1 && Levelled(queue, |path|)
    ensures End(path) in first
    ensures End(path) !in q.search.targets ==> End(path) !in expanded && first[End(path)] == path
    ensures forall i :: 0 <= i < |queue| ==> |path| <= |queue[i]|
  {
    var all := [path] + queue;
    assert all[0] == path;
    assert forall i :: 0 <= i < |queue| ==> queue[i] == all[i + 1];
  }

  lemma PushBack(queue: seq<seq<Node>>, path: seq<Node>)
    requires path != [] && Levelled(queue, |path| - 1)
    ensures Levelled(queue + [path], |path| - 1)
  {
  }

  lemma PathsAreGood(q: Query, first: map<Node, seq<Node>>, expanded: set<Node>, queue: seq<seq<Node>>,
                     paths: seq<seq<Node>>)
    requires Inv(q, first, expanded, queue, paths)
    ensures forall p :: p in paths ==> GoodPath(q, p) && End(p) in q.search.targets
  {
    forall p | p in paths ensures GoodPath(q, p) && End(p) in q.search.targets {
      var i :| 0 <= i < |paths| && paths[i] == p;
      assert Recorded(q, first, paths[i]);
    }
  }

  /** With nothing left in the queue, the returned targets are exactly those reachable within the limit. */
  lemma DrainedIsExact(q: Query, first: map<Node, seq<Node>>, expanded: set<Node>, paths: seq<seq<Node>>)
    requires Inv(q, first, expanded, [], paths)
    ensures forall t :: t in q.search.targets ==> (Returned(paths, t) <==> ReachableWithin(q, t))
  {
    forall t | t in q.search.targets ensures Returned(paths, t) <==> ReachableWithin(q, t) {
      if p :| p in paths && End(p) == t {
        var i :| 0 <= i < |paths| && paths[i] == p;
        assert Recorded(q, first, paths[i]);
      }
      if w :| CleanWalk(q.search, w) && |w| <= q.maxLen && End(w) == t {
        FirstPathsAreShortest(q, first, expanded, [], paths, w);
        assert first[t] in paths;
      }
    }
  }

  ghost predicate Grows(a: map<Node, seq<Node>>, b: map<Node, seq<Node>>) {
    forall v :: v in a ==> v in b && b[v] == a[v]
  }

  lemma RecordedGrows(q: Query, a: map<Node, seq<Node>>, b: map<Node, seq<Node>>, ps: seq<seq<Node>>)
    requires AllRecorded(q, a, ps) && Grows(a, b)
    ensures AllRecorded(q, b, ps)
  {
    hide GoodPath;
    forall i | 0 <= i < |ps| ensures Recorded(q, b, ps[i]) {
      assert Recorded(q, a, ps[i]);
      if ps[i] != [] {
        assert End(ps[i]) in ps[i];
      } else {
        NotEmpty(q, ps[i]);
      }
    }
  }

  lemma NotEmpty(q: Query, p: seq<Node>)
    requires GoodPath(q, p)
    ensures p != []
  {
  }

  lemma NextRecorded(q: Query, first: map<Node, seq<Node>>, path: seq<Node>, v: Node)
    requires Recorded(q, first, path) && path != []
    requires End(path) !in q.search.targets && |path| < q.maxLen && HasEdge(q.search.adj, End(path), v) && v !in path
    requires v in first ==> |first[v]| <= |path| + 1
    ensures var first' := if v in first then first else first[v := path + [v]]; Recorded(q, first', path + [v])
  {
    ExtendWalk(q.search, path, v);
  }

  lemma EnqueueOnce(q: Query, first: map<Node, seq<Node>>, expanded: set<Node>, queue: seq<seq<Node>>, path: seq<Node>)
    requires QueuedOnce(q, first, expanded, queue) && path != []
    requires End(path) in first ==> End(path) in q.search.targets
    requires forall i :: 0 <= i < |queue| ==> End(queue[i]) in first
    requires forall u :: u in expanded ==> u in first
    ensures var first' := if End(path) in first then first else first[End(path) := path];
      QueuedOnce(q, first', expanded, queue + [path])
  {
    hide End;
    var all := queue + [path];
    forall i, j | 0 <= i < j < |all| && End(all[i]) == End(all[j]) ensures End(all[i]) in q.search.targets {
      assert all[i] == queue[i];
      if j < |queue| {
        assert all[j] == queue[j];
      }
    }
  }

  lemma EnqueueAccounted(q: Query, first: map<Node, seq<Node>>, expanded: set<Node>, queue: seq<seq<Node>>,
                         paths: seq<seq<Node>>, path: seq<Node>)
    requires Accounted(q, first, expanded, queue, paths) && path != []
    ensures var first' := if End(path) in first then first else first[End(path) := path];
      Accounted(q, first', expanded, queue + [path], paths)
  {
    assert path in queue + [path];
    assert forall p :: p in queue ==> p in queue + [path];
  }

  lemma EnqueueClosed(q: Query, first: map<Node, seq<Node>>, first': map<Node, seq<Node>>, expanded: set<Node>)
    requires ExpandedClosed(q, first, expanded) && Grows(first, first')
    ensures ExpandedClosed(q, first', expanded)
  {
  }

  lemma QueuedVisited(q: Query, first: map<Node, seq<Node>>, ps: seq<seq<Node>>)
    requires AllRecorded(q, first, ps)
    ensures forall i :: 0 <= i < |ps| ==> End(ps[i]) in first
  {
    forall i | 0 <= i < |ps| ensures End(ps[i]) in first {
      assert Recorded(q, first, ps[i]);
      assert End(ps[i]) in ps[i];
    }
  }

  /** One neighbour of the node being scanned is queued. */
  lemma Enqueue(q: Query, first: map<Node, seq<Node>>, expanded: set<Node>, path: seq<Node>, queue: seq<seq<Node>>,
                paths: seq<seq<Node>>, v: Node) returns (first': map<Node, seq<Node>>)
    requires Inv(q, first, expanded, [path] + queue, paths)
    requires End(path) !in q.search.targets && |path| < q.maxLen
    requires HasEdge(q.search.adj, End(path), v) && v !in path && (v !in first || v in q.search.targets)
    requires v in first ==> |first[v]| <= |path| + 1
    ensures first' == if v in first then first else first[v := path + [v]]
    ensures Inv(q, first', expanded, [path] + (queue + [path + [v]]), paths)
  {
    first' := if v in first then first else first[v := path + [v]];
    var before, next := [path] + queue, path + [v];
    TailOfQueue(q, first, expanded, path, queue);
    NextRecorded(q, first, path, v);
    hide Recorded, QueuedOnce, Accounted;
    QueuedVisited(q, first, before);
    RecordedGrows(q, first, first', before);
    RecordedGrows(q, first, first', paths);
    EnqueueOnce(q, first, expanded, before, next);
    EnqueueAccounted(q, first, expanded, before, paths, next);
    EnqueueClosed(q, first, first', expanded);
    assert [path] + (queue + [next]) == before + [next];
  }

  /** All neighbours scanned (or the length limit reached): the node counts as expanded. */
  lemma FinishScan(q: Query, first: map<Node, seq<Node>>, expanded: set<Node>, path: seq<Node>, queue: seq<seq<Node>>,
                   paths: seq<seq<Node>>)
    requires Inv(q, first, expanded, [path] + queue, paths)
    requires End(path) !in q.search.targets
    requires |path| < q.maxLen ==>
               forall v :: HasEdge(q.search.adj, End(path), v) ==> v in first && |first[v]| <= |path| + 1
    ensures Inv(q, first, expanded + {End(path)}, queue, paths)
  {
    TailOfQueue(q, first, expanded, path, queue);
    var u := End(path);
    forall v | v in first && first[v] in [path] + queue && first[v] !in queue ensures v == u {
      assert first[v] == path;
    }
  }

  // ----- every way into a target

  /** The node before the last. */
  function LastStep(p: seq<Node>): Node
    requires |p| >= 2
  {
    p[|p| - 2]
  }

  ghost predicate HasRoute(paths: seq<seq<Node>>, u: Node, t: Node) {
    exists p :: p in paths && |p| >= 2 && LastStep(p) == u && End(p) == t
  }

  /**
   Each edge into a target, from a node that is no target and is reached short of the limit, is the last step of some
   returned path.
   */
  ghost predicate EveryRoute(q: Query, paths: seq<seq<Node>>) {
    forall w, t :: CleanWalk(q.search, w) && |w| < q.maxLen && End(w) !in q.search.targets
                   && t in q.search.targets && HasEdge(q.search.adj, End(w), t) ==>
      HasRoute(paths, End(w), t)
  }

  /** Each returned path takes a shortest way to its last step. */
  ghost predicate RoutesAreShortest(q: Query, paths: seq<seq<Node>>) {
    forall p, w :: p in paths && |p| >= 2 && CleanWalk(q.search, w) && End(w) == LastStep(p) ==> |p| - 1 <= |w|
  }

  /** From every expanded node, the way on to each target next to it waits or was returned. */
  ghost predicate RoutesKept(q: Query, first: map<Node, seq<Node>>, expanded: set<Node>, queue: seq<seq<Node>>,
                             paths: seq<seq<Node>>) {
    && (forall u :: u in expanded ==> u in first && first[u] != [])
    && forall u, t :: u in expanded && |first[u]| < q.maxLen && t in q.search.targets && HasEdge(q.search.adj, u, t) ==>
         first[u] + [t] in queue || first[u] + [t] in paths
  }

  /** Whatever is queued was reached along the first path to its last step. */
  ghost predicate Onward(first: map<Node, seq<Node>>, ps: seq<seq<Node>>) {
    forall i :: 0 <= i < |ps| && |ps[i]| >= 2 ==> LastStep(ps[i]) in first && |ps[i]| == |first[LastStep(ps[i])]| + 1
  }

  lemma RoutesReturn(q: Query, first: map<Node, seq<Node>>, expanded: set<Node>, path: seq<Node>,
                     queue: seq<seq<Node>>, paths: seq<seq<Node>>)
    requires RoutesKept(q, first, expanded, [path] + queue, paths)
    ensures RoutesKept(q, first, expanded, queue, paths + [path])
  {
  }

  /** A path that ends at no target is nobody's route. */
  lemma RoutesPop(q: Query, first: map<Node, seq<Node>>, expanded: set<Node>, path: seq<Node>,
                  queue: seq<seq<Node>>, paths: seq<seq<Node>>)
    requires RoutesKept(q, first, expanded, [path] + queue, paths) && End(path) !in q.search.targets
    ensures RoutesKept(q, first, expanded, queue, paths)
  {
    forall u, t | u in expanded && t in q.search.targets && HasEdge(q.search.adj, u, t)
      ensures End(first[u] + [t]) == t && first[u] + [t] != path {
    }
  }

  lemma RoutesGrow(q: Query, a: map<Node, seq<Node>>, b: map<Node, seq<Node>>, expanded: set<Node>,
                   queue: seq<seq<Node>>, paths: seq<seq<Node>>, next: seq<Node>)
    requires RoutesKept(q, a, expanded, queue, paths) && Grows(a, b)
    ensures RoutesKept(q, b, expanded, queue + [next], paths)
  {
  }

  lemma RoutesFinish(q: Query, first: map<Node, seq<Node>>, expanded: set<Node>, path: seq<Node>,
                     queue: seq<seq<Node>>, paths: seq<seq<Node>>)
    requires RoutesKept(q, first, expanded, queue, paths) && path != []
    requires End(path) in first && first[End(path)] == path
    requires |path| < q.maxLen ==> forall t :: t in q.search.targets && HasEdge(q.search.adj, End(path), t) ==>
               path + [t] in queue
    ensures RoutesKept(q, first, expanded + {End(path)}, queue, paths)
  {
  }

  /** A path that may still be extended has passed no target. */
  lemma NoTargetOn(q: Query, path: seq<Node>, t: Node)
    requires CleanWalk(q.search, path) && End(path) !in q.search.targets && t in q.search.targets
    ensures t !in path
  {
  }

  lemma NoRoutesYet(q: Query, first: map<Node, seq<Node>>, queue: seq<seq<Node>>)
    requires forall i :: 0 <= i < |queue| ==> |queue[i]| == 1
    ensures RoutesKept(q, first, {}, queue, []) && Onward(first, queue) && RoutesAreShortest(q, [])
  {
  }

  /** With nothing left in the queue, every route has been returned. */
  lemma DrainedHasRoutes(q: Query, first: map<Node, seq<Node>>, expanded: set<Node>, paths: seq<seq<Node>>)
    requires Inv(q, first, expanded, [], paths) && RoutesKept(q, first, expanded, [], paths)
    ensures EveryRoute(q, paths)
  {
    hide AllRecorded, QueuedOnce;
    forall w, t | CleanWalk(q.search, w) && |w| < q.maxLen && End(w) !in q.search.targets
                  && t in q.search.targets && HasEdge(q.search.adj, End(w), t)
      ensures HasRoute(paths, End(w), t) {
      FirstPathsAreShortest(q, first, expanded, [], paths, w);
      var p := first[End(w)] + [t];
      assert End(w) in expanded && p in paths;
      assert End(first[End(w)]) == End(w);
      assert LastStep(p) == End(w) && End(p) == t;
    }
  }

  lemma OnwardGrows(a: map<Node, seq<Node>>, b: map<Node, seq<Node>>, ps: seq<seq<Node>>, path: seq<Node>, v: Node)
    requires Onward(a, ps) && Grows(a, b) && path != [] && End(path) in a && a[End(path)] == path
    ensures Onward(b, ps + [path + [v]])
  {
    var next := path + [v];
    assert LastStep(next) == End(path);
  }

  lemma OnwardTail(first: map<Node, seq<Node>>, path: seq<Node>, queue: seq<seq<Node>>)
    requires Onward(first, [path] + queue)
    ensures Onward(first, queue) && (|path| >= 2 ==> LastStep(path) in first && |path| == |first[LastStep(path)]| + 1)
  {
    var all := [path] + queue;
    assert all[0] == path && forall i :: 0 <= i < |queue| ==> queue[i] == all[i + 1];
  }

  /** A returned path's last step was reached by a shortest way, because nothing shorter is queued. */
  lemma ReturnTakesShortestWay(q: Query, first: map<Node, seq<Node>>, expanded: set<Node>, path: seq<Node>,
                               queue: seq<seq<Node>>, paths: seq<seq<Node>>)
    requires Inv(q, first, expanded, [path] + queue, paths) && RoutesAreShortest(q, paths)
    requires forall i :: 0 <= i < |queue| ==> |path| <= |queue[i]|
    requires |path| >= 2 ==> LastStep(path) in first && |path| == |first[LastStep(path)]| + 1
    ensures RoutesAreShortest(q, paths + [path])
  {
    TailOfQueue(q, first, expanded, path, queue);
    hide Inv;
    forall w | |path| >= 2 && CleanWalk(q.search, w) && End(w) == LastStep(path) ensures |path| - 1 <= |w| {
      if |w| < |path| - 1 {
        FirstPathsAreShortest(q, first, expanded, [path] + queue, paths, w);
      }
    }
  }

  // ----- the loops

  /** Between two iterations, with everything returned no longer than `level`. */
  ghost predicate Between(q: Query, first: map<Node, seq<Node>>, expanded: set<Node>, queue: seq<seq<Node>>,
                          paths: seq<seq<Node>>, level: int) {
    && Inv(q, first, expanded, queue, paths) && Levelled(queue, level)
    && (forall v :: v in first ==> |first[v]| <= level + 1)
    && Ascending(paths) && (forall i :: 0 <= i < |paths| ==> |paths[i]| <= level)
    && FirstIsShortest(q, paths) && RoutesAreShortest(q, paths)
    && RoutesKept(q, first, expanded, queue, paths) && Onward(first, queue)
  }

  /** While the neighbours of the path taken off the queue, which ends at no target, are scanned. */
  ghost predicate Scanning(q: Query, first: map<Node, seq<Node>>, expanded: set<Node>, path: seq<Node>,
                           queue: seq<seq<Node>>, paths: seq<seq<Node>>) {
    && path != [] && End(path) !in q.search.targets && End(path) !in expanded
    && End(path) in first && first[End(path)] == path
    && Inv(q, first, expanded, [path] + queue, paths) && Levelled(queue, |path|)
    && (forall v :: v in first ==> |first[v]| <= |path| + 1)
    && RoutesKept(q, first, expanded, queue, paths) && Onward(first, queue)
  }

  lemma Begins(q: Query)
    requires q.maxLen >= 1
    ensures Between(q, map[q.search.start := [q.search.start]], {}, [[q.search.start]], [], 1)
  {
    hide Inv;
    Initially(q);
    NoRoutesYet(q, map[q.search.start := [q.search.start]], [[q.search.start]]);
  }

  /** The path taken off the queue ends at a target and is returned. */
  lemma ReturnsIt(q: Query, first: map<Node, seq<Node>>, expanded: set<Node>, path: seq<Node>,
                  queue: seq<seq<Node>>, paths: seq<seq<Node>>, level: int)
    requires Between(q, first, expanded, [path] + queue, paths, level) && End(path) in q.search.targets
    ensures Between(q, first, expanded, queue, paths + [path], |path|)
  {
    hide Inv, Levelled, FirstIsShortest, RoutesKept, Onward, RoutesAreShortest;
    PopFront(q, first, expanded, path, queue, paths, level);
    OnwardTail(first, path, queue);
    ReturnTarget(q, first, expanded, path, queue, paths);
    ReturnKeepsShortest(q, first, expanded, path, queue, paths);
    ReturnTakesShortestWay(q, first, expanded, path, queue, paths);
    RoutesReturn(q, first, expanded, path, queue, paths);
  }

  lemma BeginsScan(q: Query, first: map<Node, seq<Node>>, expanded: set<Node>, path: seq<Node>,
                   queue: seq<seq<Node>>, paths: seq<seq<Node>>, level: int)
    requires Between(q, first, expanded, [path] + queue, paths, level) && path != [] && End(path) !in q.search.targets
    ensures Scanning(q, first, expanded, path, queue, paths) && level <= |path|
    ensures forall x :: x in path ==> x in first
  {
    hide Inv, Levelled, FirstIsShortest, RoutesKept, Onward, RoutesAreShortest;
    PopFront(q, first, expanded, path, queue, paths, level);
    OnwardTail(first, path, queue);
    RoutesPop(q, first, expanded, path, queue, paths);
  }

  lemma EndsScan(q: Query, first: map<Node, seq<Node>>, expanded: set<Node>, path: seq<Node>,
                 queue: seq<seq<Node>>, paths: seq<seq<Node>>)
    requires Scanning(q, first, expanded, path, queue, paths)
    requires Ascending(paths) && (forall i :: 0 <= i < |paths| ==> |paths[i]| <= |path|)
    requires FirstIsShortest(q, paths) && RoutesAreShortest(q, paths)
    requires |path| < q.maxLen ==> forall v :: HasEdge(q.search.adj, End(path), v) ==>
               v in first && (v in q.search.targets ==> path + [v] in queue)
    ensures Between(q, first, expanded + {End(path)}, queue, paths, |path|)
  {
    hide Inv, Levelled, FirstIsShortest, RoutesKept, Onward, RoutesAreShortest, End;
    FinishScan(q, first, expanded, path, queue, paths);
    RoutesFinish(q, first, expanded, path, queue, paths);
  }

  lemma ScansOne(q: Query, first: map<Node, seq<Node>>, expanded: set<Node>, path: seq<Node>,
                 queue: seq<seq<Node>>, paths: seq<seq<Node>>, v: Node) returns (first': map<Node, seq<Node>>)
    requires Scanning(q, first, expanded, path, queue, paths) && |path| < q.maxLen
    requires HasEdge(q.search.adj, End(path), v) && v !in path && (v !in first || v in q.search.targets)
    ensures first'.Keys == first.Keys + {v} && Grows(first, first')
    ensures Scanning(q, first', expanded, path, queue + [path + [v]], paths)
  {
    hide Inv, Levelled, RoutesKept, Onward, HasEdge;
    PushBack(queue, path + [v]);
    first' := Enqueue(q, first, expanded, path, queue, paths, v);
    assert Grows(first, first');
    OnwardGrows(first, first', queue, path, v);
    RoutesGrow(q, first, first', expanded, queue, paths, path + [v]);
  }

  lemma QueuedNotEmpty(q: Query, first: map<Node, seq<Node>>, expanded: set<Node>, path: seq<Node>,
                       queue: seq<seq<Node>>, paths: seq<seq<Node>>, level: int)
    requires Between(q, first, expanded, [path] + queue, paths, level)
    ensures path != [] && End(path) == path[|path| - 1]
    ensures Ascending(paths) && (forall i :: 0 <= i < |paths| ==> |paths[i]| <= |path|)
    ensures FirstIsShortest(q, paths) && RoutesAreShortest(q, paths)
  {
    hide Inv, Levelled, FirstIsShortest, RoutesKept, Onward, RoutesAreShortest;
    PopFront(q, first, expanded, path, queue, paths, level);
  }

  lemma NotExpandedYet(q: Query, first: map<Node, seq<Node>>, expanded: set<Node>, path: seq<Node>,
                       queue: seq<seq<Node>>, paths: seq<seq<Node>>)
    requires Scanning(q, first, expanded, path, queue, paths)
    ensures End(path) !in expanded && path != []
  {
  }

  lemma GoodIsShort(q: Query, maxPathLength: int)
    requires q.maxLen == if maxPathLength < 1 then 1 else maxPathLength
    ensures forall p :: GoodPath(q, p) ==> |p| == 1 || |p| <= maxPathLength
  {
  }

  /** What the invariants come to at the end. */
  lemma Finishes(q: Query, first: map<Node, seq<Node>>, expanded: set<Node>, queue: seq<seq<Node>>,
                 paths: seq<seq<Node>>, level: int)
    requires Between(q, first, expanded, queue, paths, level)
    ensures forall p :: p in paths ==> GoodPath(q, p) && End(p) in q.search.targets
    ensures Ascending(paths) && FirstIsShortest(q, paths) && RoutesAreShortest(q, paths)
    ensures queue == [] ==>
      && (forall t :: t in q.search.targets ==> (Returned(paths, t) <==> ReachableWithin(q, t)))
      && EveryRoute(q, paths)
  {
    hide Inv, Levelled, FirstIsShortest, RoutesKept, Onward, RoutesAreShortest, GoodPath, Returned, ReachableWithin,
         EveryRoute;
    PathsAreGood(q, first, expanded, queue, paths);
    if queue == [] {
      DrainedIsExact(q, first, expanded, paths);
      DrainedHasRoutes(q, first, expanded, paths);
    }
  }

  lemma PathIsClear(q: Query, first: map<Node, seq<Node>>, expanded: set<Node>, path: seq<Node>,
                    queue: seq<seq<Node>>, paths: seq<seq<Node>>, v: Node)
    requires Scanning(q, first, expanded, path, queue, paths) && v in path
    ensures v !in q.search.targets
  {
    hide QueuedOnce, Accounted, ExpandedClosed, RoutesKept, Onward, Levelled;
    assert ([path] + queue)[0] == path;
    assert Recorded(q, first, path);
    if v in q.search.targets {
      NoTargetOn(q, path, v);
    }
  }

  /** The loop over the neighbours of the path taken off the queue. */
  method ScanNeighbours(adj: Adjacency, targets: set<Node>, path: seq<Node>, start: seq<seq<Node>>, seen: set<Node>,
                        ghost q: Query, ghost before: map<Node, seq<Node>>, ghost expanded: set<Node>,
                        ghost paths: seq<seq<Node>>)
    returns (queue: seq<seq<Node>>, visited: set<Node>, ghost first: map<Node, seq<Node>>)
    requires q.search.adj == adj && q.search.targets == targets && seen == before.Keys && |path| < q.maxLen
    requires Scanning(q, before, expanded, path, start, paths) && forall x :: x in path ==> x in before
    ensures visited == first.Keys && Scanning(q, first, expanded, path, queue, paths)
    ensures forall v :: v in Successors(adj, End(path)) ==> v in first && (v in targets ==> path + [v] in queue)
    ensures |queue| <= |start| + |Successors(adj, End(path))|
  {
    hide Scanning, End;
    var neighbors := Successors(adj, End(path));
    queue, visited, first := start, seen, before;
    for k := 0 to |neighbors|
      invariant visited == first.Keys && Scanning(q, first, expanded, path, queue, paths)
      invariant forall x :: x in path || x in neighbors[..k] ==> x in first
      invariant forall t :: t in targets && t in neighbors[..k] ==> path + [t] in queue
      invariant |queue| <= |start| + k
    {
      var neighbor := neighbors[k];
      assert neighbors[..k + 1] == neighbors[..k] + [neighbor];
      if neighbor in path {
        PathIsClear(q, first, expanded, path, queue, paths, neighbor);
        continue;
      }
      if neighbor !in visited || neighbor in targets {
        first := ScansOne(q, first, expanded, path, queue, paths, neighbor);
        visited := visited + {neighbor};
        queue := queue + [path + [neighbor]];
      }
    }
    assert neighbors == neighbors[..|neighbors|];
  }

  /**
   `_bfs_paths`. `drained` and `taken` are not part of the original's result: they report whether the loop
   ended because the queue was empty rather than at the path cap or the operation cap, and how many paths it took off
   the queue. A limit below one node works like one: the source is looked at before its path is measured.
   */
  method BfsPaths(start: Node, targets: set<Node>, adj: Adjacency, maxPathLength: int, maxPathsPerRule: int)
    returns (paths: seq<seq<Node>>, drained: bool, taken: nat)
    requires adj.Valid()
    ensures var q := Query(Search(adj, targets, start), if maxPathLength < 1 then 1 else maxPathLength);
      && (forall p :: p in paths ==> GoodPath(q, p) && End(p) in targets)
      && Ascending(paths)
      && FirstIsShortest(q, paths) && RoutesAreShortest(q, paths)
      && (drained ==> forall t :: t in targets ==> (Returned(paths, t) <==> ReachableWithin(q, t)))
      && (drained ==> EveryRoute(q, paths))
    ensures |paths| < maxPathsPerRule && Entries(adj) < 5000 ==> drained
    ensures |paths| <= maxPathsPerRule || paths == []
    ensures forall p :: p in paths ==> |p| == 1 || |p| <= maxPathLength
    ensures var cap := if Entries(adj) < 1000 then 30000 else if Entries(adj) < 5000 then 15000 else 5000;
      taken <= cap && (!drained && |paths| < maxPathsPerRule ==> taken == cap)
  {
    ghost var q := Query(Search(adj, targets, start), if maxPathLength < 1 then 1 else maxPathLength);
    hide Between, Scanning, FirstIsShortest, GoodPath, Returned, ReachableWithin, TotalEntries, RoutesAreShortest,
         EveryRoute;
    var maxOps := MaxOps(TotalEntries(adj.keys, adj.vals, {}));
    paths, taken := [], 0;
    var queue := [[start]];
    var visited := {start};
    var bfsOps := 0;
    ghost var first, expanded: set<Node> := map[start := [start]], {};
    ghost var level := 1;
    Begins(q);
    while queue != [] && |paths| < maxPathsPerRule
      invariant first.Keys == visited && Between(q, first, expanded, queue, paths, level)
      invariant bfsOps + |queue| + TotalEntries(adj.keys, adj.vals, expanded) <= 1 + Entries(adj)
      invariant 0 <= bfsOps == taken <= maxOps && (|paths| <= maxPathsPerRule || paths == [])
      decreases 1 + Entries(adj) - bfsOps
    {
      bfsOps := bfsOps + 1;
      if bfsOps > maxOps {
        break;
      }
      var path := queue[0];
      assert queue == [path] + queue[1..];
      queue, taken := queue[1..], taken + 1;
      QueuedNotEmpty(q, first, expanded, path, queue, paths, level);
      var current := path[|path| - 1];
      if current in targets {
        ReturnsIt(q, first, expanded, path, queue, paths, level);
        level := |path|;
        paths := paths + [path];
        continue;
      }
      BeginsScan(q, first, expanded, path, queue, paths, level);
      NotExpandedYet(q, first, expanded, path, queue, paths);
      SkipOne(adj.keys, adj.vals, expanded, current);
      level := |path|;
      if |path| < maxPathLength {
        queue, visited, first := ScanNeighbours(adj, targets, path, queue, visited, q, first, expanded, paths);
      }
      EndsScan(q, first, expanded, path, queue, paths);
      expanded := expanded + {current};
    }
    drained := queue == [];
    GoodIsShort(q, maxPathLength);
    Finishes(q, first, expanded, queue, paths, level);
  }
}
