/**
 Which ways into a sink the hop-budgeted search of `HopBfs` returns: one for every edge into it from a state that was
 expanded, although a visited state is queued only once.
 */
module HopRoutes {
  import opened Base
  import opened Graphs
  import opened HopBfs
  import opened HopCompleteness

  /** The way on from `p` to the sink `t` waits, lies too deep, or was returned. */
  ghost predicate Onward(q: Query, r: Run, p: seq<Node>, t: Node) {
    Waiting(r.queue, p + [t]) || |p| + 1 > q.maxDepth || p + [t] in r.paths
  }

  /** From every expanded state, the way on along each edge into a sink within the budget is kept. */
  ghost predicate RoutesKept(q: Query, r: Run) {
    forall s, t :: s in r.expanded && t in q.search.targets && HasEdge(q.search.adj, s.0, t) ==>
      s in r.first && (Hops(q.files, r.first[s] + [t]) <= q.maxHops ==> Onward(q, r, r.first[s], t))
  }

  /** Entries are only ever added, behind the others, and only for states' first paths. */
  ghost predicate Extends(r: Run, o: Run) {
    && Grows(r.first, o.first) && o.paths == r.paths && o.expanded == r.expanded
    && forall p :: Waiting(r.queue, p) ==> Waiting(o.queue, p)
  }

  lemma QueueGrows(queue: seq<Entry>, next: Entry)
    ensures Waiting(queue + [next], next.path) && forall p :: Waiting(queue, p) ==> Waiting(queue + [next], p)
  {
    var all := queue + [next];
    assert all[|queue|] == next && forall i :: 0 <= i < |queue| ==> all[i] == queue[i];
  }

  /** A neighbour that is a sink within the budget is queued, visited or not. */
  lemma OfferRoute(q: Query, e: Entry, r: Run, v: Node)
    requires Recorded(q, r.first, e) && e.path != [] && End(e.path) !in q.search.targets
    ensures var o := Offer(q, e, r, v);
      && Extends(r, o)
      && (v in q.search.targets && Hops(q.files, e.path + [v]) <= q.maxHops ==> Waiting(o.queue, e.path + [v]))
  {
    hide Recorded, Waiting, FileOf, Crossing, NextFile, Hops;
    HopsOfNext(q, r.first, e, v);
    CleanOf(q, r.first, e);
    QueueGrows(r.queue, Entry(e.path + [v], e.hops + Crossing(e.lastFile, FileOf(q.files, v)),
                              NextFile(e.lastFile, FileOf(q.files, v))));
  }

  /** A path that ends at no sink has passed none. */
  lemma CleanOf(q: Query, first: map<State, seq<Node>>, e: Entry)
    requires Recorded(q, first, e) && End(e.path) !in q.search.targets
    ensures forall v :: v in e.path ==> v !in q.search.targets
  {
  }

  lemma {:induction false} OfferAllRoutes(q: Query, e: Entry, r: Run, vs: seq<Node>)
    requires Inv(q, WithHead(e, r)) && End(e.path) !in q.search.targets
    requires forall v :: v in vs ==> HasEdge(q.search.adj, End(e.path), v)
    ensures var o := OfferAll(q, e, r, vs);
      && Extends(r, o)
      && forall v :: v in vs && v in q.search.targets && Hops(q.files, e.path + [v]) <= q.maxHops ==>
           Waiting(o.queue, e.path + [v])
  {
    hide Inv, Offer, HasEdge, WithHead, Hops, Waiting;
    if vs == [] {
    } else {
      var front, v := vs[..|vs| - 1], Last(vs);
      OfferAllRoutes(q, e, r, front);
      OfferAllKeeps(q, e, r, front);
      var before := OfferAll(q, e, r, front);
      HeadRecorded(q, e, before);
      OfferRoute(q, e, before, v);
      assert vs == front + [v];
    }
  }

  lemma OnwardLater(q: Query, r: Run, o: Run, p: seq<Node>, t: Node)
    requires Onward(q, r, p, t) && (forall x :: Waiting(r.queue, x) ==> Waiting(o.queue, x))
    requires forall x :: x in r.paths ==> x in o.paths
    ensures Onward(q, o, p, t)
  {
  }

  lemma Unwait(e: Entry, r: Run, q: Query, p: seq<Node>, t: Node)
    requires Onward(q, WithHead(e, r), p, t)
    ensures e.path == p + [t] || Onward(q, r, p, t)
  {
    hide Waiting;
    WaitingTail(e, r.queue, p + [t]);
  }

  lemma RoutesPop(q: Query, e: Entry, r: Run)
    requires RoutesKept(q, WithHead(e, r)) && End(e.path) !in q.search.targets
    ensures RoutesKept(q, r)
  {
    hide Onward, Hops;
    forall s, t | s in r.expanded && t in q.search.targets && HasEdge(q.search.adj, s.0, t)
      ensures s in r.first && (Hops(q.files, r.first[s] + [t]) <= q.maxHops ==> Onward(q, r, r.first[s], t))
    {
      if Hops(q.files, r.first[s] + [t]) <= q.maxHops {
        Unwait(e, r, q, r.first[s], t);
        assert End(r.first[s] + [t]) == t;
      }
    }
  }

  lemma RoutesDrop(q: Query, e: Entry, r: Run)
    requires RoutesKept(q, WithHead(e, r)) && |e.path| > q.maxDepth
    ensures RoutesKept(q, r)
  {
    hide Hops, Waiting;
    forall s, t | s in r.expanded && t in q.search.targets && HasEdge(q.search.adj, s.0, t)
      ensures s in r.first && (Hops(q.files, r.first[s] + [t]) <= q.maxHops ==> Onward(q, r, r.first[s], t))
    {
      if Hops(q.files, r.first[s] + [t]) <= q.maxHops {
        Unwait(e, r, q, r.first[s], t);
      }
    }
  }

  lemma RoutesReturn(q: Query, e: Entry, r: Run)
    requires RoutesKept(q, WithHead(e, r))
    ensures RoutesKept(q, r.(paths := r.paths + [e.path]))
  {
    hide Hops, Waiting;
    var o := r.(paths := r.paths + [e.path]);
    forall s, t | s in o.expanded && t in q.search.targets && HasEdge(q.search.adj, s.0, t)
      ensures s in o.first && (Hops(q.files, o.first[s] + [t]) <= q.maxHops ==> Onward(q, o, o.first[s], t))
    {
      if Hops(q.files, r.first[s] + [t]) <= q.maxHops {
        Unwait(e, r, q, r.first[s], t);
      }
    }
  }

  lemma RoutesExtend(q: Query, r: Run, o: Run)
    requires RoutesKept(q, r) && Extends(r, o)
    ensures RoutesKept(q, o)
  {
    hide Hops, Onward;
    forall s, t | s in o.expanded && t in q.search.targets && HasEdge(q.search.adj, s.0, t)
      ensures s in o.first && (Hops(q.files, o.first[s] + [t]) <= q.maxHops ==> Onward(q, o, o.first[s], t))
    {
      if Hops(q.files, r.first[s] + [t]) <= q.maxHops {
        OnwardLater(q, r, o, r.first[s], t);
      }
    }
  }

  lemma RoutesFinish(q: Query, r: Run, s: State, p: seq<Node>)
    requires RoutesKept(q, r) && s in r.first && r.first[s] == p
    requires forall t ::
      t in q.search.targets && HasEdge(q.search.adj, s.0, t) && Hops(q.files, p + [t]) <= q.maxHops ==>
        Waiting(r.queue, p + [t])
    ensures RoutesKept(q, r.(expanded := r.expanded + {s}))
  {
    hide Hops, Waiting;
  }

  /** One iteration keeps every route. */
  lemma StepKeepsRoutes(q: Query, r: Run)
    requires Inv(q, r) && r.queue != [] && RoutesKept(q, r)
    ensures RoutesKept(q, Step(q, r))
  {
    hide Inv, OfferAll, StateOf, RoutesKept, Hops, Waiting;
    var e, rest := r.queue[0], r.(queue := r.queue[1..]);
    assert [e] + rest.queue == r.queue;
    assert WithHead(e, rest) == r;
    if |e.path| > q.maxDepth {
      RoutesDrop(q, e, rest);
    } else if End(e.path) in q.search.targets {
      RoutesReturn(q, e, rest);
    } else {
      var vs := Successors(q.search.adj, End(e.path));
      var o := OfferAll(q, e, rest, vs);
      RoutesPop(q, e, rest);
      OfferAllKeeps(q, e, rest, vs);
      OfferAllRoutes(q, e, rest, vs);
      RoutesExtend(q, rest, o);
      FirstOfHead(q, e, rest);
      RoutesFinish(q, o, (End(e.path), e.hops), e.path);
    }
  }

  lemma FirstOfHead(q: Query, e: Entry, r: Run)
    requires Inv(q, WithHead(e, r)) && End(e.path) !in q.search.targets
    ensures (End(e.path), e.hops) in r.first && r.first[(End(e.path), e.hops)] == e.path
  {
    hide AllRecorded, QueuedOnce, Accounted, ExpandedClosed, Levelled, StateOf, Hops, GoodPath;
    HeadRecorded(q, e, r);
    HeadOnce(q, e, r);
    HeadState(q, r.first, e);
  }

  lemma {:induction false} ContinueKeepsRoutes(q: Query, r: Run, ops: nat, max: int)
    requires Inv(q, r) && RoutesKept(q, r)
    ensures RoutesKept(q, Continue(q, r, ops, max))
    decreases MAX_BFS_OPS - ops
  {
    hide Inv, Step, RoutesKept;
    if r.queue == [] || |r.paths| >= max || ops >= MAX_BFS_OPS {
    } else {
      StepKeeps(q, r);
      StepKeepsRoutes(q, r);
      ContinueKeepsRoutes(q, Step(q, r), ops + 1, max);
    }
  }

  /** A call keeps every route; once it has drained, each one not too deep has been returned. */
  lemma CallKeepsRoutes(q: Query, max: int)
    ensures RoutesKept(q, RunOf(q, max)) && Inv(q, RunOf(q, max))
  {
    hide Inv, Continue;
    Initially(q);
    ContinueKeeps(q, Start(q), 0, max);
    ContinueKeepsRoutes(q, Start(q), 0, max);
  }

  ghost predicate HasRoute(paths: seq<seq<Node>>, u: Node, t: Node) {
    exists p :: p in paths && |p| >= 2 && p[|p| - 2] == u && End(p) == t
  }

  /**
   Each edge into a sink, at the end of a walk within budget and depth that meets no sink before, is the last step of
   some returned path.
   */
  ghost predicate EveryRoute(q: Query, paths: seq<seq<Node>>) {
    forall w, t :: InBudget(q, w + [t]) && w != [] && |w| < q.maxDepth && t in q.search.targets ==>
      HasRoute(paths, End(w), t)
  }

  /** Wherever the search can be trusted, a drained call returns every route. */
  lemma DrainedHasRoutes(q: Query, nodes: set<Node>, max: int)
    requires Trusty(q, nodes) && RunOf(q, max).queue == []
    ensures EveryRoute(q, RunOf(q, max).paths)
  {
    hide Inv, Trusty, InBudget, RoutesKept, RunOf, HasRoute;
    CallKeepsRoutes(q, max);
    forall w, t | InBudget(q, w + [t]) && w != [] && |w| < q.maxDepth && t in q.search.targets
      ensures HasRoute(RunOf(q, max).paths, End(w), t) {
      RouteReturned(q, nodes, RunOf(q, max), w, t);
    }
  }

  lemma RouteReturned(q: Query, nodes: set<Node>, r: Run, w: seq<Node>, t: Node)
    requires Inv(q, r) && RoutesKept(q, r) && r.queue == [] && Trusty(q, nodes)
    requires InBudget(q, w + [t]) && w != [] && |w| < q.maxDepth && t in q.search.targets
    ensures HasRoute(r.paths, End(w), t)
  {
    hide *;
    RouteEdge(q, w, t);
    assert NoneShorter(r, |w|) && NoneShorter(r, |w| + 1) && NoneShorter(r, 2) by { NothingShorter(r); }
    WalksAreDominated(q, nodes, r, w);
    var g, p := KeptPath(q, r, w, |w|);
    var x := [q.search.start, End(w)];
    if InBudget(q, x) && |w| > 1 {
      PairEnd(q.search.start, End(w));
      WalksAreDominated(q, nodes, r, x);
    }
    NeverMisled(q, nodes, r, p, w, t);
    HopsExtend(q.files, p, t);
    RouteIsThere(q, r, p, t);
  }

  lemma NothingShorter(r: Run)
    requires r.queue == []
    ensures forall n :: NoneShorter(r, n)
  {
  }

  lemma PairEnd(a: Node, b: Node)
    ensures |[a, b]| == 2 && End([a, b]) == b
  {
  }

  lemma RouteEdge(q: Query, w: seq<Node>, t: Node)
    requires InBudget(q, w + [t]) && w != [] && t in q.search.targets
    ensures InBudget(q, w) && End(w) !in q.search.targets && HasEdge(q.search.adj, End(w), t) && t !in w
    ensures Hops(q.files, w) + Crossing(LastFile(q.files, w), FileOf(q.files, t)) <= q.maxHops
  {
    var z := w + [t];
    assert z[..|z| - 1] == w && End(z) == t;
    FrontInBudget(q, z);
    HopsExtend(q.files, w, t);
    forall i | 0 <= i < |w| ensures w[i] != t {
      assert z[i] == w[i];
    }
  }

  lemma RouteIsThere(q: Query, r: Run, p: seq<Node>, t: Node)
    requires RoutesKept(q, r) && r.queue == [] && p != [] && |p| + 1 <= q.maxDepth
    requires StateOf(q, p) in r.expanded && StateOf(q, p) in r.first && r.first[StateOf(q, p)] == p
    requires t in q.search.targets && HasEdge(q.search.adj, End(p), t) && Hops(q.files, p + [t]) <= q.maxHops
    ensures HasRoute(r.paths, End(p), t)
  {
    hide Hops;
    assert Onward(q, r, p, t);
    var z := p + [t];
    assert z in r.paths && z[|z| - 2] == End(p) && End(z) == t;
  }
}
