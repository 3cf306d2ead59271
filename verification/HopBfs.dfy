/**
 Path discovery's path finder (`PathDiscovery._bfs_paths`): breadth-first search whose state is a
 node together with the number of file boundaries crossed so far, bounded by a hop budget, a depth
 limit, a path cap and a fixed operation cap.
 */
module HopBfs {
  import opened Base
  import opened Graphs

  const MAX_BFS_OPS := 5000

  /** One call: the search, each known node's file, and the limits. */
  datatype Query = Query(search: Search, files: map<Node, string>, maxHops: nat, maxDepth: int)

  type State = (Node, nat)

  datatype Entry = Entry(path: seq<Node>, hops: nat, lastFile: Option<string>)

  /** The node's file; a node that is not in the graph, or has an empty file name, has none. */
  function FileOf(files: map<Node, string>, n: Node): Option<string> {
    if n in files && files[n] != "" then Some(files[n]) else None
  }

  function Crossing(last: Option<string>, next: Option<string>): nat {
    if last.Some? && next.Some? && last != next then 1 else 0
  }

  function NextFile(last: Option<string>, next: Option<string>): Option<string> {
    if next.Some? then next else last
  }

  /** The last known file along a walk. */
  ghost function LastFile(files: map<Node, string>, w: seq<Node>): Option<string> {
    if w == [] then None
    else NextFile(LastFile(files, w[..|w| - 1]), FileOf(files, Last(w)))
  }

  /** The number of file changes along a walk, nodes without a file not counting as a change. */
  ghost function Hops(files: map<Node, string>, w: seq<Node>): nat {
    if |w| <= 1 then 0
    else Hops(files, w[..|w| - 1]) + Crossing(LastFile(files, w[..|w| - 1]), FileOf(files, Last(w)))
  }

  /** A step costs a hop exactly when both nodes are known with a file name and the names differ. */
  lemma StepCosts(files: map<Node, string>, u: Node, v: Node)
    ensures var known := u in files && files[u] != "" && v in files && files[v] != "";
      Hops(files, [u, v]) == if known && files[u] != files[v] then 1 else 0
  {
    assert [u, v][..1] == [u] && [u][..0] == [];
    assert LastFile(files, [u]) == FileOf(files, u);
  }

  lemma HopsExtend(files: map<Node, string>, p: seq<Node>, v: Node)
    requires p != []
    ensures LastFile(files, p + [v]) == NextFile(LastFile(files, p), FileOf(files, v))
    ensures Hops(files, p + [v]) == Hops(files, p) + Crossing(LastFile(files, p), FileOf(files, v))
  {
    assert (p + [v])[..|p|] == p;
  }

  lemma {:induction false} HopsPrefix(files: map<Node, string>, p: seq<Node>, i: nat)
    requires i <= |p|
    ensures Hops(files, p[..i]) <= Hops(files, p)
    decreases |p|
  {
    if i == |p| {
      assert p[..i] == p;
    } else {
      var front := p[..|p| - 1];
      HopsPrefix(files, front, i);
      assert front[..i] == p[..i];
    }
  }

  // ----- what a search is for

  /** A walk from the source that meets no sink before its end and stays within the hop budget. */
  ghost predicate InBudget(q: Query, w: seq<Node>) {
    CleanWalk(q.search, w) && Hops(q.files, w) <= q.maxHops
  }

  /** What every queued and every returned path is. */
  ghost predicate GoodPath(q: Query, p: seq<Node>) {
    InBudget(q, p) && Distinct(p)
  }

  ghost predicate WithinBudget(q: Query, w: seq<Node>, t: Node) {
    InBudget(q, w) && End(w) == t
  }

  /** `t` can be reached within the hop budget and the depth limit by a walk that meets no sink before it. */
  ghost predicate ReachableInBudget(q: Query, t: Node) {
    exists w :: WithinBudget(q, w, t) && |w| <= q.maxDepth
  }

  /** The sinks with a returned path are exactly those that can be reached. */
  ghost predicate Exact(q: Query, paths: seq<seq<Node>>) {
    forall t :: t in q.search.targets ==> (Returned(paths, t) <==> ReachableInBudget(q, t))
  }

  /** The first path returned for a sink is as short as any walk that reaches it within the budget. */
  ghost predicate FirstIsShortest(q: Query, paths: seq<seq<Node>>) {
    forall k, w :: FirstForItsTarget(paths, k) && WithinBudget(q, w, End(paths[k])) ==> |paths[k]| <= |w|
  }

  /** Every node the search can touch. */
  ghost function NodesOf(s: Search): set<Node> {
    {s.start} + set u, v | u in s.adj.vals && v in s.adj.vals[u] :: v
  }

  // ----- the search, one queue entry at a time

  /**
   The loop's variables between two iterations. The visited states are the keys of `first`, which also remembers the
   first path queued for each; `expanded` are the states whose neighbours have been scanned.
   */
  datatype Run = Run(queue: seq<Entry>, first: map<State, seq<Node>>, expanded: set<State>, paths: seq<seq<Node>>)

  ghost function Start(q: Query): Run {
    var s := q.search.start;
    Run([Entry([s], 0, FileOf(q.files, s))], map[(s, 0) := [s]], {}, [])
  }

  /** One neighbour of the entry being expanded. */
  ghost function Offer(q: Query, e: Entry, r: Run, v: Node): Run {
    var hops := e.hops + Crossing(e.lastFile, FileOf(q.files, v));
    if v in e.path || hops > q.maxHops || ((v, hops) in r.first && v !in q.search.targets) then r
    else
      var path := e.path + [v];
      r.(queue := r.queue + [Entry(path, hops, NextFile(e.lastFile, FileOf(q.files, v)))],
         first := if (v, hops) in r.first then r.first else r.first[(v, hops) := path])
  }

  ghost function OfferAll(q: Query, e: Entry, r: Run, vs: seq<Node>): Run {
    if vs == [] then r else Offer(q, e, OfferAll(q, e, r, vs[..|vs| - 1]), Last(vs))
  }

  ghost function Step(q: Query, r: Run): Run
    requires r.queue != []
  {
    var e, rest := r.queue[0], r.(queue := r.queue[1..]);
    if |e.path| > q.maxDepth then rest
    else if End(e.path) in q.search.targets then rest.(paths := rest.paths + [e.path])
    else
      var scanned := OfferAll(q, e, rest, Successors(q.search.adj, End(e.path)));
      scanned.(expanded := scanned.expanded + {(End(e.path), e.hops)})
  }

  /** The rest of a run that has made `ops` operations, under the path cap `max`. */
  ghost function Continue(q: Query, r: Run, ops: nat, max: int): Run
    decreases MAX_BFS_OPS - ops
  {
    if r.queue == [] || |r.paths| >= max || ops >= MAX_BFS_OPS then r else Continue(q, Step(q, r), ops + 1, max)
  }

  /** How a whole call ends. */
  ghost function RunOf(q: Query, max: int): Run {
    Continue(q, Start(q), 0, max)
  }

  /**
   `_bfs_paths`. `drained` is not part of the original's result: it reports whether the loop
   ended because the queue was empty rather than at the path cap or the operation cap.
   */
  method BfsPaths(source: Node, sinks: set<Node>, adj: Adjacency, files: map<Node, string>,
                  maxCrossFileHops: int, maxDepth: int, maxCandidates: int)
    returns (paths: seq<seq<Node>>, drained: bool)
    ensures maxCrossFileHops >= 0 ==>
      var run := RunOf(Query(Search(adj, sinks, source), files, maxCrossFileHops, maxDepth), maxCandidates);
      paths == run.paths && (drained <==> run.queue == [])
    ensures maxCrossFileHops < 0 ==>
      && paths == (if maxCandidates > 0 && source in sinks && maxDepth >= 1 then [[source]] else [])
      && (drained <==> maxCandidates > 0)
  {
    hide Offer, OfferAll, Continue;
    var search := Search(adj, sinks, source);
    ghost var q := Query(search, files, if maxCrossFileHops < 0 then 0 else maxCrossFileHops, maxDepth);
    paths := [];
    var queue := [Entry([source], 0, FileOf(files, source))];
    var visited: set<State> := {(source, 0)};
    var bfsOps := 0;
    ghost var run := Start(q);
    while queue != [] && |paths| < maxCandidates
      invariant 0 <= bfsOps <= MAX_BFS_OPS
      invariant maxCrossFileHops >= 0 ==>
        && queue == run.queue && visited == run.first.Keys && paths == run.paths
        && Continue(q, run, bfsOps, maxCandidates) == RunOf(q, maxCandidates)
      invariant maxCrossFileHops < 0 ==>
        || (bfsOps == 0 && queue == [Entry([source], 0, FileOf(files, source))] && paths == [])
        || (maxCandidates > 0 && queue == [] && paths == if source in sinks && maxDepth >= 1 then [[source]] else [])
      decreases MAX_BFS_OPS - bfsOps
    {
      ContinueUnfolds(q, run, bfsOps, maxCandidates);
      bfsOps := bfsOps + 1;
      if bfsOps > MAX_BFS_OPS {
        break;
      }
      var entry := queue[0];
      queue := queue[1..];
      if |entry.path| <= maxDepth {
        if End(entry.path) in sinks {
          paths := paths + [entry.path];
        } else {
          queue, visited := ScanNeighbours(search, files, maxCrossFileHops, entry, queue, visited, q,
                                           if maxCrossFileHops < 0 then run else run.(queue := run.queue[1..]));
        }
      }
      if maxCrossFileHops >= 0 {
        run := Step(q, run);
      }
    }
    ContinueUnfolds(q, run, if bfsOps > MAX_BFS_OPS then MAX_BFS_OPS else bfsOps, maxCandidates);
    drained := queue == [];
  }

  lemma ContinueUnfolds(q: Query, r: Run, ops: nat, max: int)
    ensures Continue(q, r, ops, max)
         == if r.queue == [] || |r.paths| >= max || ops >= MAX_BFS_OPS then r else Continue(q, Step(q, r), ops + 1, max)
  {
  }

  /** The loop over the neighbours of the entry taken off the queue. */
  method ScanNeighbours(search: Search, files: map<Node, string>, maxHops: int, entry: Entry, start: seq<Entry>,
                        seen: set<State>, ghost q: Query, ghost r: Run)
    returns (queue: seq<Entry>, visited: set<State>)
    requires maxHops >= 0 ==>
      && q.search == search && q.files == files && q.maxHops == maxHops
      && start == r.queue && seen == r.first.Keys
    ensures maxHops >= 0 ==>
      var s := OfferAll(q, entry, r, Successors(search.adj, End(entry.path)));
      queue == s.queue && visited == s.first.Keys && s.paths == r.paths
    ensures maxHops < 0 ==> queue == start && visited == seen
  {
    var neighbors := Successors(search.adj, End(entry.path));
    queue, visited := start, seen;
    for k := 0 to |neighbors|
      invariant maxHops >= 0 ==>
        var s := OfferAll(q, entry, r, neighbors[..k]);
        queue == s.queue && visited == s.first.Keys && s.paths == r.paths
      invariant maxHops < 0 ==> queue == start && visited == seen
    {
      var neighbor := neighbors[k];
      assert neighbors[..k + 1][..k] == neighbors[..k];
      if neighbor in entry.path {
        continue;
      }
      var neighborFile := FileOf(files, neighbor);
      var newHops := entry.hops + Crossing(entry.lastFile, neighborFile);
      if newHops > maxHops {
        continue;
      }
      var state := (neighbor, newHops);
      if state !in visited || neighbor in search.targets {
        visited := visited + {state};
        queue := queue + [Entry(entry.path + [neighbor], newHops, NextFile(entry.lastFile, neighborFile))];
      }
    }
    assert neighbors[..|neighbors|] == neighbors;
  }

  // ----- how many operations a run can take

  /** Each adjacency entry is scanned at most once per hop level. */
  ghost function OpBound(adj: Adjacency, maxHops: nat): nat
    requires adj.Valid()
  {
    (maxHops + 1) * Entries(adj)
  }

  ghost function AtLevel(expanded: set<State>, h: nat): set<Node> {
    set s | s in expanded && s.1 == h :: s.0
  }

  /** Adjacency entries not yet scanned, summed over the hop levels up to `h`. */
  ghost function Pending(adj: Adjacency, expanded: set<State>, h: nat): nat
    requires adj.Valid()
  {
    TotalEntries(adj.keys, adj.vals, AtLevel(expanded, h)) + if h == 0 then 0 else Pending(adj, expanded, h - 1)
  }

  lemma {:induction false} PendingInitially(adj: Adjacency, h: nat)
    requires adj.Valid()
    ensures Pending(adj, {}, h) == OpBound(adj, h)
  {
    assert AtLevel({}, h) == {};
    if h == 0 {
    } else {
      PendingInitially(adj, h - 1);
    }
  }

  lemma {:induction false} PendingExpand(adj: Adjacency, expanded: set<State>, s: State, h: nat)
    requires adj.Valid() && s !in expanded
    ensures Pending(adj, expanded, h)
         == Pending(adj, expanded + {s}, h) + if s.1 <= h then |Successors(adj, s.0)| else 0
  {
    if s.1 == h {
      assert AtLevel(expanded + {s}, h) == AtLevel(expanded, h) + {s.0};
      assert s.0 !in AtLevel(expanded, h);
      SkipOne(adj.keys, adj.vals, AtLevel(expanded, h), s.0);
    } else {
      assert AtLevel(expanded + {s}, h) == AtLevel(expanded, h);
    }
    if h == 0 {
    } else {
      PendingExpand(adj, expanded, s, h - 1);
    }
  }

  // ----- what holds between any two iterations

  ghost function StateOf(q: Query, p: seq<Node>): State {
    (End(p), Hops(q.files, p))
  }

  /**
   A queued entry: a good path with its bookkeeping right, all of whose prefixes were visited no later than it got
   there.
   */
  ghost predicate Recorded(q: Query, first: map<State, seq<Node>>, e: Entry) {
    && GoodPath(q, e.path)
    && e.hops == Hops(q.files, e.path) && e.lastFile == LastFile(q.files, e.path)
    && forall i :: 0 < i <= |e.path| ==> Reached(first, StateOf(q, e.path[..i]), i)
  }

  /** The state was visited, by a path of at most `n` nodes. */
  ghost predicate Reached(first: map<State, seq<Node>>, s: State, n: int) {
    s in first && |first[s]| <= n
  }

  ghost predicate AllRecorded(q: Query, first: map<State, seq<Node>>, queue: seq<Entry>) {
    forall i :: 0 <= i < |queue| ==> Recorded(q, first, queue[i])
  }

  /** A state whose node is no sink waits in the queue at most once, and only before it is expanded. */
  ghost predicate QueuedOnce(q: Query, r: Run) {
    && (forall i :: 0 <= i < |r.queue| && End(r.queue[i].path) !in q.search.targets ==>
          var s := StateOf(q, r.queue[i].path); s in r.first && r.first[s] == r.queue[i].path && s !in r.expanded)
    && (forall i, j :: 0 <= i < j < |r.queue| && StateOf(q, r.queue[i].path) == StateOf(q, r.queue[j].path) ==>
          End(r.queue[i].path) in q.search.targets)
  }

  ghost predicate Waiting(queue: seq<Entry>, p: seq<Node>) {
    exists i :: 0 <= i < |queue| && queue[i].path == p
  }

  /** Every visited state's first path is good, and waits, lies too deep, was returned, or had its state expanded. */
  ghost predicate Accounted(q: Query, r: Run) {
    forall s :: s in r.first ==> GoodPath(q, r.first[s]) && StateOf(q, r.first[s]) == s && Settled(q, r, s)
  }

  ghost predicate Settled(q: Query, r: Run, s: State)
    requires s in r.first
  {
    || Waiting(r.queue, r.first[s])
    || |r.first[s]| > q.maxDepth
    || (if s.0 in q.search.targets then r.first[s] in r.paths else s in r.expanded)
  }

  /** The node has been visited at no higher a hop count, by a path of at most `n` nodes. */
  ghost predicate Dominated(first: map<State, seq<Node>>, v: Node, h: nat, n: int) {
    exists g: nat :: g <= h && Reached(first, (v, g), n)
  }

  ghost predicate ScannedTo(q: Query, first: map<State, seq<Node>>, p: seq<Node>, v: Node) {
    Hops(q.files, p + [v]) <= q.maxHops ==> Dominated(first, v, Hops(q.files, p + [v]), |p| + 1)
  }

  ghost predicate ExpandedClosed(q: Query, r: Run) {
    && (forall s :: s in r.expanded ==> s in r.first)
    && (forall s, v :: s in r.expanded && HasEdge(q.search.adj, s.0, v) ==> ScannedTo(q, r.first, r.first[s], v))
  }

  ghost predicate QueueLevelled(queue: seq<Entry>) {
    && (forall i, j :: 0 <= i < j < |queue| ==> |queue[i].path| <= |queue[j].path|)
    && (forall i :: 0 <= i < |queue| ==> |queue[i].path| <= |queue[0].path| + 1)
  }

  /** Path lengths ascend along the queue, by at most one, after everything returned and up to everything visited. */
  ghost predicate Levelled(r: Run) {
    && QueueLevelled(r.queue)
    && (r.queue != [] ==> forall s :: s in r.first ==> |r.first[s]| <= |r.queue[0].path| + 1)
    && Ascending(r.paths)
    && (r.queue != [] ==> forall i :: 0 <= i < |r.paths| ==> |r.paths[i]| <= |r.queue[0].path|)
  }

  ghost predicate ReturnedGood(q: Query, paths: seq<seq<Node>>) {
    forall p :: p in paths ==> GoodPath(q, p) && End(p) in q.search.targets && |p| <= q.maxDepth
  }

  ghost predicate Inv(q: Query, r: Run) {
    && Reached(r.first, (q.search.start, 0), 1)
    && AllRecorded(q, r.first, r.queue)
    && QueuedOnce(q, r)
    && Accounted(q, r)
    && ExpandedClosed(q, r)
    && Levelled(r)
    && ReturnedGood(q, r.paths)
  }

  /** The operation count so far leaves room for what is queued and for every entry not yet scanned. */
  ghost predicate WithinOps(q: Query, r: Run, ops: nat)
    requires q.search.adj.Valid()
  {
    ops + |r.queue| + Pending(q.search.adj, r.expanded, q.maxHops) <= 1 + OpBound(q.search.adj, q.maxHops)
  }

  lemma Initially(q: Query)
    ensures Inv(q, Start(q))
    ensures q.search.adj.Valid() ==> WithinOps(q, Start(q), 0)
  {
    var r, start := Start(q), q.search.start;
    assert [start][..0] == [] && [start][..1] == [start];
    assert LastFile(q.files, [start]) == r.queue[0].lastFile;
    assert StateOf(q, [start]) == (start, 0);
    assert r.queue[0].path == [start];
    if q.search.adj.Valid() {
      PendingInitially(q.search.adj, q.maxHops);
    }
  }

  /** The run with the entry being expanded back at the head of its queue. */
  ghost function WithHead(e: Entry, r: Run): Run {
    r.(queue := [e] + r.queue)
  }

  lemma Shift(e: Entry, queue: seq<Entry>)
    ensures ([e] + queue)[0] == e && forall i :: 0 <= i < |queue| ==> ([e] + queue)[i + 1] == queue[i]
  {
  }

  /** What is known of the entry at the head, and of what is queued behind it. */
  lemma HeadRecorded(q: Query, e: Entry, r: Run)
    requires Inv(q, WithHead(e, r))
    ensures Recorded(q, r.first, e) && GoodPath(q, e.path) && e.path != [] && AllRecorded(q, r.first, r.queue)
  {
    hide Reached, QueuedOnce, Accounted, ExpandedClosed, Levelled;
    Shift(e, r.queue);
    assert AllRecorded(q, r.first, [e] + r.queue);
    forall i | 0 <= i < |r.queue| ensures Recorded(q, r.first, r.queue[i]) {
      assert Recorded(q, r.first, ([e] + r.queue)[i + 1]);
    }
  }

  lemma TailLevels(e: Entry, queue: seq<Entry>)
    requires QueueLevelled([e] + queue)
    ensures QueueLevelled(queue)
    ensures forall i :: 0 <= i < |queue| ==> |e.path| <= |queue[i].path| <= |e.path| + 1
  {
    var all := [e] + queue;
    forall i | 0 <= i < |queue| ensures |e.path| <= |queue[i].path| <= |e.path| + 1 {
      assert |all[0].path| <= |all[i + 1].path| <= |all[0].path| + 1;
    }
    forall i, j | 0 <= i < j < |queue| ensures |queue[i].path| <= |queue[j].path| {
      assert |all[i + 1].path| <= |all[j + 1].path|;
    }
  }

  lemma HeadLevels(e: Entry, r: Run)
    requires Levelled(WithHead(e, r))
    ensures Levelled(r)
    ensures forall s :: s in r.first ==> |r.first[s]| <= |e.path| + 1
    ensures forall i :: 0 <= i < |r.queue| ==> |e.path| <= |r.queue[i].path| <= |e.path| + 1
    ensures forall i :: 0 <= i < |r.paths| ==> |r.paths[i]| <= |e.path|
  {
    hide QueueLevelled, Ascending;
    assert ([e] + r.queue)[0] == e;
    TailLevels(e, r.queue);
  }

  lemma HeadOnce(q: Query, e: Entry, r: Run)
    requires QueuedOnce(q, WithHead(e, r))
    ensures QueuedOnce(q, r)
    ensures End(e.path) !in q.search.targets ==>
              var s := StateOf(q, e.path);
              && s in r.first && r.first[s] == e.path && s !in r.expanded
              && QueuedOnce(q, r.(expanded := r.expanded + {s}))
  {
    hide StateOf;
    Shift(e, r.queue);
    var all := [e] + r.queue;
    forall i, j | 0 <= i < j < |r.queue| && StateOf(q, r.queue[i].path) == StateOf(q, r.queue[j].path)
      ensures End(r.queue[i].path) in q.search.targets {
      assert StateOf(q, all[i + 1].path) == StateOf(q, all[j + 1].path);
    }
    forall i | 0 <= i < |r.queue| && End(r.queue[i].path) !in q.search.targets
      ensures var s := StateOf(q, r.queue[i].path);
        && s in r.first && r.first[s] == r.queue[i].path && s !in r.expanded
        && s != StateOf(q, e.path)
    {
      assert all[i + 1] == r.queue[i];
      SameStateSameEnd(q, e.path, r.queue[i].path);
    }
  }

  lemma StateEnd(q: Query, p: seq<Node>)
    ensures StateOf(q, p).0 == End(p)
  {
  }

  lemma SameStateSameEnd(q: Query, a: seq<Node>, b: seq<Node>)
    ensures StateOf(q, a) == StateOf(q, b) ==> End(a) == End(b)
  {
  }

  lemma WaitingTail(e: Entry, queue: seq<Entry>, p: seq<Node>)
    ensures Waiting([e] + queue, p) <==> e.path == p || Waiting(queue, p)
  {
    var all := [e] + queue;
    assert all[0] == e;
    assert forall i :: 0 <= i < |queue| ==> queue[i] == all[i + 1];
  }

  /** Taking the head off: dropped too deep, or returned. */
  lemma DropDeep(q: Query, e: Entry, r: Run)
    requires Inv(q, WithHead(e, r)) && |e.path| > q.maxDepth
    ensures Inv(q, r)
  {
    hide Recorded, GoodPath, StateOf, Levelled, QueuedOnce, ScannedTo, Waiting, Reached;
    HeadRecorded(q, e, r);
    HeadLevels(e, r);
    HeadOnce(q, e, r);
    forall s | s in r.first ensures Settled(q, r, s) {
      assert Settled(q, WithHead(e, r), s);
      WaitingTail(e, r.queue, r.first[s]);
    }
  }

  lemma ReturnSink(q: Query, e: Entry, r: Run)
    requires Inv(q, WithHead(e, r)) && |e.path| <= q.maxDepth && End(e.path) in q.search.targets
    ensures Inv(q, r.(paths := r.paths + [e.path]))
  {
    hide Recorded, GoodPath, StateOf, QueuedOnce, ScannedTo, Waiting, Reached, Levelled;
    HeadRecorded(q, e, r);
    HeadLevels(e, r);
    HeadOnce(q, e, r);
    var next := r.(paths := r.paths + [e.path]);
    forall s | s in r.first ensures Settled(q, next, s) {
      assert Settled(q, WithHead(e, r), s);
      WaitingTail(e, r.queue, r.first[s]);
      StateEnd(q, e.path);
    }
    ReturnedKeeps(q, e, r);
  }

  lemma ReturnedKeeps(q: Query, e: Entry, r: Run)
    requires QueuedOnce(q, r) && ExpandedClosed(q, r) && Levelled(r)
    requires forall i :: 0 <= i < |r.queue| ==> |e.path| <= |r.queue[i].path|
    requires forall i :: 0 <= i < |r.paths| ==> |r.paths[i]| <= |e.path|
    ensures var next := r.(paths := r.paths + [e.path]);
      QueuedOnce(q, next) && ExpandedClosed(q, next) && Levelled(next)
  {
    hide ScannedTo, StateOf;
  }

  // ----- offering a neighbour

  ghost predicate Grows(a: map<State, seq<Node>>, b: map<State, seq<Node>>) {
    forall s :: s in a ==> s in b && b[s] == a[s]
  }

  lemma RecordedGrows(q: Query, a: map<State, seq<Node>>, b: map<State, seq<Node>>, e: Entry)
    requires Recorded(q, a, e) && Grows(a, b)
    ensures Recorded(q, b, e)
  {
    hide GoodPath, StateOf;
  }

  lemma ScannedGrows(q: Query, a: map<State, seq<Node>>, b: map<State, seq<Node>>, p: seq<Node>, v: Node)
    requires ScannedTo(q, a, p, v) && Grows(a, b)
    ensures ScannedTo(q, b, p, v)
  {
    hide Hops;
    if Hops(q.files, p + [v]) <= q.maxHops {
      var g: nat :| g <= Hops(q.files, p + [v]) && Reached(a, (v, g), |p| + 1);
      assert Reached(b, (v, g), |p| + 1);
    }
  }

  /** A neighbour already on the path was visited at the path's own, no higher, hop count. */
  lemma OnPathScanned(q: Query, first: map<State, seq<Node>>, e: Entry, v: Node)
    requires Recorded(q, first, e) && v in e.path
    ensures ScannedTo(q, first, e.path, v)
  {
    hide GoodPath;
    var i :| 0 <= i < |e.path| && e.path[i] == v;
    HopsPrefix(q.files, e.path, i + 1);
    HopsExtend(q.files, e.path, v);
    assert Reached(first, StateOf(q, e.path[..i + 1]), i + 1);
    assert End(e.path[..i + 1]) == v;
    assert Reached(first, (v, Hops(q.files, e.path[..i + 1])), |e.path| + 1);
  }

  lemma VisitedScanned(q: Query, first: map<State, seq<Node>>, p: seq<Node>, v: Node, h: nat)
    requires h == Hops(q.files, p + [v]) && (v, h) in first && |first[(v, h)]| <= |p| + 1
    ensures ScannedTo(q, first, p, v)
  {
    assert Reached(first, (v, h), |p| + 1);
  }

  /** The run after `next` has been queued for state `s`. */
  ghost function Enqueued(r: Run, next: Entry, s: State): Run {
    r.(queue := r.queue + [next], first := if s in r.first then r.first else r.first[s := next.path])
  }

  lemma NextRecorded(q: Query, r: Run, e: Entry, v: Node, next: Entry)
    requires Recorded(q, r.first, e) && |e.path| > 0
    requires End(e.path) !in q.search.targets && HasEdge(q.search.adj, End(e.path), v) && v !in e.path
    requires next
       == Entry(e.path + [v], e.hops + Crossing(e.lastFile, FileOf(q.files, v)),
                 NextFile(e.lastFile, FileOf(q.files, v)))
    requires next.hops <= q.maxHops
    requires (v, next.hops) in r.first ==> |r.first[(v, next.hops)]| <= |next.path|
    ensures StateOf(q, next.path) == (v, next.hops) && GoodPath(q, next.path)
    ensures Recorded(q, Enqueued(r, next, (v, next.hops)).first, next)
  {
    var first := Enqueued(r, next, (v, next.hops)).first;
    HopsExtend(q.files, e.path, v);
    ExtendWalk(q.search, e.path, v);
    forall i | 0 < i <= |next.path| ensures Reached(first, StateOf(q, next.path[..i]), i) {
      if i <= |e.path| {
        assert next.path[..i] == e.path[..i];
        assert Reached(r.first, StateOf(q, e.path[..i]), i);
      } else {
        assert next.path[..i] == next.path;
      }
    }
  }

  lemma EnqueueOnce(q: Query, r: Run, next: Entry)
    requires QueuedOnce(q, r) && r.queue != []
    requires StateOf(q, next.path) in r.first ==> End(next.path) in q.search.targets
    requires forall i :: 0 <= i < |r.queue| ==> StateOf(q, r.queue[i].path) in r.first
    requires forall s :: s in r.expanded ==> s in r.first
    ensures QueuedOnce(q, Enqueued(r, next, StateOf(q, next.path)))
  {
    hide StateOf;
    var o := Enqueued(r, next, StateOf(q, next.path));
    forall i | 0 <= i < |o.queue| && End(o.queue[i].path) !in q.search.targets
      ensures var s := StateOf(q, o.queue[i].path); s in o.first && o.first[s] == o.queue[i].path && s !in o.expanded {
      if i < |r.queue| {
        assert o.queue[i] == r.queue[i];
      }
    }
    forall i, j | 0 <= i < j < |o.queue| && StateOf(q, o.queue[i].path) == StateOf(q, o.queue[j].path)
      ensures End(o.queue[i].path) in q.search.targets {
      assert o.queue[i] == r.queue[i];
      if j < |r.queue| {
        assert o.queue[j] == r.queue[j];
      } else {
        SameStateSameEnd(q, o.queue[i].path, next.path);
      }
    }
  }

  lemma EnqueueAccounted(q: Query, r: Run, next: Entry)
    requires Accounted(q, r) && GoodPath(q, next.path)
    ensures Accounted(q, Enqueued(r, next, StateOf(q, next.path)))
  {
    hide GoodPath, StateOf;
    var o := Enqueued(r, next, StateOf(q, next.path));
    assert o.queue[|r.queue|] == next;
    assert forall i :: 0 <= i < |r.queue| ==> o.queue[i] == r.queue[i];
    forall s | s in o.first ensures GoodPath(q, o.first[s]) && StateOf(q, o.first[s]) == s && Settled(q, o, s) {
      if s in r.first {
        assert Settled(q, r, s);
      }
    }
  }

  lemma EnqueueClosed(q: Query, r: Run, next: Entry, s: State)
    requires ExpandedClosed(q, r)
    ensures ExpandedClosed(q, Enqueued(r, next, s))
  {
    hide ScannedTo;
    var o := Enqueued(r, next, s);
    forall x, v | x in o.expanded && HasEdge(q.search.adj, x.0, v) ensures ScannedTo(q, o.first, o.first[x], v) {
      ScannedGrows(q, r.first, o.first, r.first[x], v);
    }
  }

  lemma EnqueueLevels(r: Run, next: Entry, s: State)
    requires Levelled(r) && r.queue != [] && |next.path| == |r.queue[0].path| + 1
    ensures Levelled(Enqueued(r, next, s))
  {
    var o := Enqueued(r, next, s);
    forall i, j | 0 <= i < j < |o.queue| ensures |o.queue[i].path| <= |o.queue[j].path| {
      assert o.queue[i] == r.queue[i];
    }
    assert o.queue[0] == r.queue[0];
  }

  lemma EnqueueRecorded(q: Query, r: Run, next: Entry, s: State)
    requires AllRecorded(q, r.first, r.queue) && Recorded(q, Enqueued(r, next, s).first, next)
    ensures var o := Enqueued(r, next, s); AllRecorded(q, o.first, o.queue)
  {
    hide Recorded;
    var o := Enqueued(r, next, s);
    forall i | 0 <= i < |o.queue| ensures Recorded(q, o.first, o.queue[i]) {
      if i < |r.queue| {
        RecordedGrows(q, r.first, o.first, r.queue[i]);
      }
    }
  }

  lemma RecordedStates(q: Query, r: Run)
    requires AllRecorded(q, r.first, r.queue)
    ensures forall i :: 0 <= i < |r.queue| ==> StateOf(q, r.queue[i].path) in r.first
  {
    hide StateOf, GoodPath;
    forall i | 0 <= i < |r.queue| ensures StateOf(q, r.queue[i].path) in r.first {
      var p := r.queue[i].path;
      assert Recorded(q, r.first, r.queue[i]);
      GoodIsNonEmpty(q, p);
      assert p[..|p|] == p;
      assert Reached(r.first, StateOf(q, p[..|p|]), |p|);
    }
  }

  lemma GoodIsNonEmpty(q: Query, p: seq<Node>)
    requires GoodPath(q, p)
    ensures p != []
  {
  }

  /** Queueing the next entry behind a head that is being expanded keeps every invariant. */
  lemma EnqueueKeeps(q: Query, r: Run, e: Entry, v: Node, next: Entry)
    requires Inv(q, r) && r.queue != [] && r.queue[0] == e
    requires End(e.path) !in q.search.targets && HasEdge(q.search.adj, End(e.path), v) && v !in e.path
    requires next
       == Entry(e.path + [v], e.hops + Crossing(e.lastFile, FileOf(q.files, v)),
                 NextFile(e.lastFile, FileOf(q.files, v)))
    requires next.hops <= q.maxHops && ((v, next.hops) in r.first ==> v in q.search.targets)
    ensures Inv(q, Enqueued(r, next, (v, next.hops)))
  {
    hide Recorded, GoodPath, StateOf, QueuedOnce, Accounted, ExpandedClosed, AllRecorded, Levelled;
    HeadIsRecorded(q, r);
    GoodIsNonEmpty(q, e.path);
    FirstIsLow(r, (v, next.hops));
    NextRecorded(q, r, e, v, next);
    RecordedStates(q, r);
    ExpandedVisited(q, r);
    StateEnd(q, next.path);
    EnqueueOnce(q, r, next);
    EnqueueAccounted(q, r, next);
    EnqueueClosed(q, r, next, (v, next.hops));
    EnqueueLevels(r, next, (v, next.hops));
    EnqueueRecorded(q, r, next, (v, next.hops));
  }

  lemma HeadIsRecorded(q: Query, r: Run)
    requires AllRecorded(q, r.first, r.queue) && r.queue != []
    ensures Recorded(q, r.first, r.queue[0]) && GoodPath(q, r.queue[0].path)
  {
  }

  lemma FirstIsLow(r: Run, s: State)
    requires Levelled(r) && r.queue != []
    ensures s in r.first ==> |r.first[s]| <= |r.queue[0].path| + 1
  {
  }

  lemma ExpandedVisited(q: Query, r: Run)
    requires ExpandedClosed(q, r)
    ensures forall s :: s in r.expanded ==> s in r.first
  {
  }

  lemma OfferKeeps(q: Query, e: Entry, r: Run, v: Node)
    requires Inv(q, WithHead(e, r))
    requires End(e.path) !in q.search.targets && HasEdge(q.search.adj, End(e.path), v)
    ensures var o := Offer(q, e, r, v);
      && Inv(q, WithHead(e, o)) && ScannedTo(q, o.first, e.path, v) && Grows(r.first, o.first)
      && o.expanded == r.expanded && |o.queue| <= |r.queue| + 1
  {
    hide Inv, Recorded, ScannedTo, GoodPath, StateOf, FileOf, Crossing, NextFile;
    var file, o := FileOf(q.files, v), Offer(q, e, r, v);
    var hops := e.hops + Crossing(e.lastFile, file);
    HeadRecorded(q, e, r);
    HopsOfNext(q, r.first, e, v);
    LowFirst(q, e, r, (v, hops));
    if v in e.path {
      OnPathScanned(q, r.first, e, v);
    } else if hops > q.maxHops {
      TooFarScanned(q, r.first, e.path, v);
    } else if (v, hops) in r.first && v !in q.search.targets {
      VisitedScanned(q, r.first, e.path, v, hops);
    } else {
      var next := Entry(e.path + [v], hops, NextFile(e.lastFile, file));
      EnqueueKeeps(q, WithHead(e, r), e, v, next);
      assert [e] + (r.queue + [next]) == [e] + r.queue + [next];
      assert WithHead(e, o) == Enqueued(WithHead(e, r), next, (v, hops));
      VisitedScanned(q, o.first, e.path, v, hops);
    }
  }

  lemma LowFirst(q: Query, e: Entry, r: Run, s: State)
    requires Inv(q, WithHead(e, r))
    ensures s in r.first ==> |r.first[s]| <= |e.path| + 1
  {
    hide AllRecorded, QueuedOnce, Accounted, ExpandedClosed, ReturnedGood;
    FirstIsLow(WithHead(e, r), s);
  }

  lemma HopsOfNext(q: Query, first: map<State, seq<Node>>, e: Entry, v: Node)
    requires Recorded(q, first, e) && e.path != []
    ensures e.hops + Crossing(e.lastFile, FileOf(q.files, v)) == Hops(q.files, e.path + [v])
  {
    hide GoodPath;
    HopsExtend(q.files, e.path, v);
  }

  lemma TooFarScanned(q: Query, first: map<State, seq<Node>>, p: seq<Node>, v: Node)
    requires Hops(q.files, p + [v]) > q.maxHops
    ensures ScannedTo(q, first, p, v)
  {
  }

  lemma {:induction false} OfferAllKeeps(q: Query, e: Entry, r: Run, vs: seq<Node>)
    requires Inv(q, WithHead(e, r)) && End(e.path) !in q.search.targets
    requires forall v :: v in vs ==> HasEdge(q.search.adj, End(e.path), v)
    ensures var o := OfferAll(q, e, r, vs);
      && Inv(q, WithHead(e, o)) && (forall v :: v in vs ==> ScannedTo(q, o.first, e.path, v))
      && o.expanded == r.expanded && |o.queue| <= |r.queue| + |vs|
  {
    hide Inv, Offer, ScannedTo, HasEdge, WithHead;
    if vs == [] {
    } else {
      var front, v := vs[..|vs| - 1], Last(vs);
      OfferAllKeeps(q, e, r, front);
      var before := OfferAll(q, e, r, front);
      OfferKeeps(q, e, before, v);
      var o := OfferAll(q, e, r, vs);
      forall x | x in vs ensures ScannedTo(q, o.first, e.path, x) {
        if x in front {
          ScannedGrows(q, before.first, o.first, e.path, x);
        }
      }
    }
  }

  /** All neighbours scanned: the head's state counts as expanded. */
  lemma FinishScan(q: Query, e: Entry, r: Run)
    requires Inv(q, WithHead(e, r)) && End(e.path) !in q.search.targets
    requires forall v :: HasEdge(q.search.adj, End(e.path), v) ==> ScannedTo(q, r.first, e.path, v)
    ensures Inv(q, r.(expanded := r.expanded + {StateOf(q, e.path)}))
    ensures StateOf(q, e.path) == (End(e.path), e.hops) && StateOf(q, e.path) !in r.expanded && e.hops <= q.maxHops
  {
    hide GoodPath, ScannedTo, Waiting, Reached, Levelled, StateOf, QueuedOnce, Recorded, Hops;
    HeadRecorded(q, e, r);
    HeadLevels(e, r);
    HeadOnce(q, e, r);
    HeadState(q, r.first, e);
    var s := StateOf(q, e.path);
    var next := r.(expanded := r.expanded + {s});
    forall x | x in r.first ensures Settled(q, next, x) {
      assert Settled(q, WithHead(e, r), x);
      WaitingTail(e, r.queue, r.first[x]);
    }
    assert Levelled(next) by {
      SameLevels(r, next);
    }
  }

  lemma SameLevels(r: Run, next: Run)
    requires Levelled(r) && next == r.(expanded := next.expanded)
    ensures Levelled(next)
  {
  }

  lemma HeadState(q: Query, first: map<State, seq<Node>>, e: Entry)
    requires Recorded(q, first, e)
    ensures StateOf(q, e.path) == (End(e.path), e.hops) && e.hops <= q.maxHops
  {
  }

  /** One iteration of the loop keeps every invariant. */
  lemma StepKeeps(q: Query, r: Run)
    requires Inv(q, r) && r.queue != []
    ensures Inv(q, Step(q, r))
  {
    hide Inv, OfferAll, StateOf, ScannedTo;
    var e, rest := r.queue[0], r.(queue := r.queue[1..]);
    assert [e] + rest.queue == r.queue;
    assert WithHead(e, rest) == r;
    if |e.path| > q.maxDepth {
      DropDeep(q, e, rest);
    } else if End(e.path) in q.search.targets {
      ReturnSink(q, e, rest);
    } else {
      var vs := Successors(q.search.adj, End(e.path));
      OfferAllKeeps(q, e, rest, vs);
      FinishScan(q, e, OfferAll(q, e, rest, vs));
    }
  }

  /** Nor can it use more operations than there are entries left to scan. */
  lemma StepWithinOps(q: Query, r: Run, ops: nat)
    requires q.search.adj.Valid() && Inv(q, r) && r.queue != [] && WithinOps(q, r, ops)
    ensures WithinOps(q, Step(q, r), ops + 1)
  {
    hide Inv, OfferAll, StateOf, ScannedTo, Pending, OpBound;
    var e, rest := r.queue[0], r.(queue := r.queue[1..]);
    assert [e] + rest.queue == r.queue;
    assert WithHead(e, rest) == r;
    if |e.path| <= q.maxDepth && End(e.path) !in q.search.targets {
      var vs := Successors(q.search.adj, End(e.path));
      OfferAllKeeps(q, e, rest, vs);
      FinishScan(q, e, OfferAll(q, e, rest, vs));
      PendingExpand(q.search.adj, r.expanded, (End(e.path), e.hops), q.maxHops);
    }
  }

  lemma {:induction false} ContinueKeeps(q: Query, r: Run, ops: nat, max: int)
    requires Inv(q, r)
    ensures Inv(q, Continue(q, r, ops, max))
    decreases MAX_BFS_OPS - ops
  {
    hide Inv, Step;
    if r.queue == [] || |r.paths| >= max || ops >= MAX_BFS_OPS {
    } else {
      StepKeeps(q, r);
      ContinueKeeps(q, Step(q, r), ops + 1, max);
    }
  }

  lemma {:induction false} ContinueDrains(q: Query, r: Run, ops: nat, max: int)
    requires q.search.adj.Valid() && Inv(q, r) && WithinOps(q, r, ops)
    requires OpBound(q.search.adj, q.maxHops) < MAX_BFS_OPS
    ensures |Continue(q, r, ops, max).paths| < max ==> Continue(q, r, ops, max).queue == []
    decreases MAX_BFS_OPS - ops
  {
    hide Inv, Step, OpBound, Pending;
    if r.queue == [] || |r.paths| >= max || ops >= MAX_BFS_OPS {
    } else {
      StepKeeps(q, r);
      StepWithinOps(q, r, ops);
      ContinueDrains(q, Step(q, r), ops + 1, max);
    }
  }

  // ----- the two caps

  /** The run after `n` more iterations, or after fewer if the queue runs out. */
  ghost function Steps(q: Query, r: Run, n: nat): Run
    decreases n
  {
    if n == 0 || r.queue == [] then r else Steps(q, Step(q, r), n - 1)
  }

  lemma {:induction false} OfferAllReturnsNone(q: Query, e: Entry, r: Run, vs: seq<Node>)
    ensures OfferAll(q, e, r, vs).paths == r.paths
  {
    if vs == [] {
    } else {
      OfferAllReturnsNone(q, e, r, vs[..|vs| - 1]);
    }
  }

  lemma StepReturnsOne(q: Query, r: Run)
    requires r.queue != []
    ensures |r.paths| <= |Step(q, r).paths| <= |r.paths| + 1
  {
    hide OfferAll;
    var e := r.queue[0];
    OfferAllReturnsNone(q, e, r.(queue := r.queue[1..]), Successors(q.search.adj, End(e.path)));
  }

  lemma {:induction false} ContinueCaps(q: Query, r: Run, ops: nat, max: int) returns (n: nat)
    requires ops <= 5000 && (|r.paths| <= max || r.paths == [])
    ensures n <= 5000 - ops && Continue(q, r, ops, max) == Steps(q, r, n)
    ensures Continue(q, r, ops, max).queue != [] && |Continue(q, r, ops, max).paths| < max ==> n == 5000 - ops
    ensures |Continue(q, r, ops, max).paths| <= max || Continue(q, r, ops, max).paths == []
    decreases 5000 - ops
  {
    hide Step;
    if r.queue == [] || |r.paths| >= max || ops >= 5000 {
      n := 0;
    } else {
      StepReturnsOne(q, r);
      n := ContinueCaps(q, Step(q, r), ops + 1, max);
      n := n + 1;
    }
  }

  /**
   A call returns at most `max` paths and takes at most 5000 entries off the queue; it takes exactly 5000 when it stops
   with entries queued and paths to spare.
   */
  lemma CallCaps(q: Query, max: int) returns (n: nat)
    ensures n <= 5000 && RunOf(q, max) == Steps(q, Start(q), n)
    ensures RunOf(q, max).queue != [] && |RunOf(q, max).paths| < max ==> n == 5000
    ensures |RunOf(q, max).paths| <= max || RunOf(q, max).paths == []
  {
    hide Continue, Steps;
    n := ContinueCaps(q, Start(q), 0, max);
  }
}
