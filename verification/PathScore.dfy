/**
 `_score_path` and `_severity_from_score`: the heuristic score of a discovered path, over exact reals,
 and the bounds that decide which severities a discovered finding can ever have.
 */
module PathScore {
  import opened Base
  import opened Sorting

  /** The parts of a graph node the boundary count reads. */
  datatype NodeInfo = NodeInfo(file: string, scope: Option<string>)

  // ----- boundary crossings

  /** The path's nodes that are in the graph, in order. */
  function Known(nodes: map<string, NodeInfo>, path: seq<string>): (r: seq<NodeInfo>)
    ensures |r| <= |path|
  {
    if path == [] then []
    else (if path[0] in nodes then [nodes[path[0]]] else []) + Known(nodes, path[1..])
  }

  function Files(infos: seq<NodeInfo>): set<string> {
    set i | 0 <= i < |infos| :: infos[i].file
  }

  function Scopes(infos: seq<NodeInfo>): set<string> {
    set i | 0 <= i < |infos| && Truthy(infos[i].scope) :: infos[i].scope.value
  }

  function AtLeastZero(n: int): nat {
    if n < 0 then 0 else n
  }

  /** `_boundary_crossings`: distinct files less one, plus distinct scopes less one. */
  function BoundaryCrossings(nodes: map<string, NodeInfo>, path: seq<string>): nat {
    var infos := Known(nodes, path);
    if infos == [] then 0
    else AtLeastZero(|Files(infos)| - 1) + AtLeastZero(|Scopes(infos)| - 1)
  }

  /**
   A step crosses a boundary for a change of file and one for a change of scope; a scope without a name is none, and a
   node the graph does not know is passed over.
   */
  lemma StepCrossings(nodes: map<string, NodeInfo>, u: string, v: string)
    ensures u in nodes && v in nodes ==>
              var a, b := nodes[u], nodes[v];
              var named := a.scope.Some? && a.scope.value != "" && b.scope.Some? && b.scope.value != "";
              BoundaryCrossings(nodes, [u, v])
                == (if a.file != b.file then 1 else 0) + (if named && a.scope != b.scope then 1 else 0)
    ensures u !in nodes || v !in nodes ==> BoundaryCrossings(nodes, [u, v]) == 0
  {
    KnownPair(nodes, u, v);
    hide Known;
    var infos := Known(nodes, [u, v]);
    if u in nodes && v in nodes {
      assert infos == [] + [nodes[u]] + [nodes[v]];
      FilesGrow([nodes[u]], nodes[v]);
      ScopesGrow([nodes[u]], nodes[v]);
      FilesGrow([], nodes[u]);
      ScopesGrow([], nodes[u]);
      assert [] + [nodes[u]] == [nodes[u]];
      assert Files([]) == {} && Scopes([]) == {};
    } else {
      assert |infos| <= 1;
      DistinctBounds(infos);
    }
  }

  lemma KnownPair(nodes: map<string, NodeInfo>, u: string, v: string)
    ensures Known(nodes, [u, v])
         == (if u in nodes then [nodes[u]] else []) + (if v in nodes then [nodes[v]] else [])
  {
    var pair, one := [u, v], [v];
    assert pair[1..] == one && one[1..] == [];
    assert Known(nodes, one) == if v in nodes then [nodes[v]] else [];
  }

  lemma FilesGrow(infos: seq<NodeInfo>, last: NodeInfo)
    ensures Files(infos + [last]) == Files(infos) + {last.file}
  {
    var all := infos + [last];
    assert all[|infos|] == last && forall i :: 0 <= i < |infos| ==> all[i] == infos[i];
  }

  lemma ScopesGrow(infos: seq<NodeInfo>, last: NodeInfo)
    ensures Scopes(infos + [last]) == Scopes(infos) + if Truthy(last.scope) then {last.scope.value} else {}
  {
    var all := infos + [last];
    assert all[|infos|] == last && forall i :: 0 <= i < |infos| ==> all[i] == infos[i];
  }

  lemma {:induction false} DistinctBounds(infos: seq<NodeInfo>)
    ensures |Files(infos)| <= |infos| && |Scopes(infos)| <= |infos|
  {
    if infos == [] {
    } else {
      hide Files, Scopes;
      var front, last := infos[..|infos| - 1], Last(infos);
      assert infos == front + [last];
      DistinctBounds(front);
      FilesGrow(front, last);
      ScopesGrow(front, last);
    }
  }

  /** A path of `L` nodes crosses at most `2(L - 1)` boundaries. */
  lemma CrossingsBound(nodes: map<string, NodeInfo>, path: seq<string>)
    requires path != []
    ensures BoundaryCrossings(nodes, path) <= 2 * (|path| - 1)
  {
    DistinctBounds(Known(nodes, path));
  }

  // ----- the score

  /** What `_score_path` derives from a path: its length, crossings, sanitizer hits, and what the auth gap looks at. */
  datatype Features = Features(length: nat, crossings: nat, explicitHits: nat, heuristicHits: nat,
                               authCoverageEdges: nat, sinkIsHttp: bool, sinkRole: bool)

  /** `_auth_gap`. */
  function AuthGap(f: Features): (gap: real)
    ensures 0.2 <= gap <= 0.7
  {
    if f.authCoverageEdges != 0 then 0.2
    else if f.sinkIsHttp then 0.7
    else if f.sinkRole then 0.7
    else 0.5
  }

  function Ambiguity(explicitHits: nat, heuristicHits: nat): real {
    if explicitHits != 0 then 0.0 else if heuristicHits != 0 then 0.4 else 1.0
  }

  function Capped(crossings: nat): real {
    var scaled := crossings as real * 0.2;
    if 1.0 < scaled then 1.0 else scaled
  }

  function Damping(explicitHits: nat, heuristicHits: nat): real {
    var d := 1.0 - 0.15 * explicitHits as real - 0.05 * heuristicHits as real;
    if 0.3 < d then d else 0.3
  }

  /** The part of the score that depends on the length alone. */
  function LengthTerm(length: nat): real
    requires length >= 1
  {
    0.35 * (1.0 / (1.0 + length as real)) + 0.25 * (1.0 / length as real)
  }

  function BaseScore(f: Features): real {
    LengthTerm(if f.length < 1 then 1 else f.length)
    + 0.2 * Capped(f.crossings)
    + 0.1 * Ambiguity(f.explicitHits, f.heuristicHits)
    + 0.1 * AuthGap(f)
  }

  function Score(f: Features): real {
    if f.explicitHits != 0 || f.heuristicHits != 0
    then BaseScore(f) * Damping(f.explicitHits, f.heuristicHits)
    else BaseScore(f)
  }

  datatype Severity = Critical | High | Medium | Low

  function SeverityFromScore(score: real): Severity {
    if score >= 0.75 then Critical else if score >= 0.6 then High else if score >= 0.45 then Medium else Low
  }

  /** The features of a path through a graph. */
  ghost predicate FeaturesOf(nodes: map<string, NodeInfo>, path: seq<string>, f: Features) {
    f.length == |path| && f.crossings == BoundaryCrossings(nodes, path)
  }

  /** What the path's length and proximity, crossings, clarity and the sink's exposure add up to. */
  ghost function Merit(f: Features): real {
    var length := if f.length == 0 then 1.0 else f.length as real;
    var hits := f.explicitHits + f.heuristicHits;
    var crossings := if f.crossings <= 5 then f.crossings as real * 0.04 else 0.2;
    var clarity := if hits == 0 then 0.1 else if f.explicitHits == 0 then 0.04 else 0.0;
    var exposure := if f.authCoverageEdges > 0 then 0.02 else if f.sinkIsHttp || f.sinkRole then 0.07 else 0.05;
    0.35 / (1.0 + length) + 0.25 / length + crossings + clarity + exposure
  }

  /** What sanitizers leave of it: a twentieth less for each hit, three for an explicit one, down to three tenths. */
  ghost function Left(f: Features): real {
    var taken := (3 * f.explicitHits + f.heuristicHits) as real / 20.0;
    if taken <= 0.7 then 1.0 - taken else 0.3
  }

  /** The score in closed form. */
  lemma ScoreFormula(f: Features)
    ensures Score(f) == Merit(f) * Left(f)
  {
    BaseFormula(f);
    DampingFormula(f);
    hide BaseScore, Damping, Merit, Left;
    Same(BaseScore(f), Merit(f), Damping(f.explicitHits, f.heuristicHits), Left(f));
    if f.explicitHits + f.heuristicHits == 0 {
      assert Left(f) == 1.0;
    }
  }

  lemma Same(a: real, b: real, c: real, d: real)
    requires a == b && c == d
    ensures a * c == b * d && a * 1.0 == a && b * 1.0 == b
  {
  }

  lemma DampingFormula(f: Features)
    ensures Damping(f.explicitHits, f.heuristicHits) == Left(f)
    ensures f.explicitHits + f.heuristicHits == 0 ==> Left(f) == 1.0
  {
  }

  lemma BaseFormula(f: Features)
    ensures BaseScore(f) == Merit(f)
  {
    LengthFormula(if f.length < 1 then 1 else f.length);
    hide LengthTerm;
  }

  lemma LengthFormula(length: nat)
    requires length >= 1
    ensures LengthTerm(length) == 0.35 / (1.0 + length as real) + 0.25 / length as real
  {
    ScaledReciprocal(0.35, 1.0 + length as real);
    ScaledReciprocal(0.25, length as real);
  }

  lemma ScaledReciprocal(a: real, x: real)
    requires x > 0.0
    ensures a * (1.0 / x) == a / x
  {
    var r := 1.0 / x;
    assert r * x == 1.0;
    assert (a * r) * x == a * (r * x);
  }

  /** Which severity a discovered path gets: medium from 0.45 on, low below. */
  lemma DiscoveredSeverity(nodes: map<string, NodeInfo>, path: seq<string>, f: Features)
    requires |path| >= 2 && FeaturesOf(nodes, path, f)
    ensures SeverityFromScore(Score(f)) == if Score(f) >= 0.45 then Medium else Low
  {
    ScoreBound(nodes, path, f);
  }

  /** On any score at all, the four severities lie between the three thresholds. */
  lemma SeverityBands(score: real)
    ensures SeverityFromScore(score) == Critical <==> 0.75 <= score
    ensures SeverityFromScore(score) == High <==> 0.6 <= score < 0.75
    ensures SeverityFromScore(score) == Medium <==> 0.45 <= score < 0.6
  {
  }

  // ----- bounds

  lemma ReciprocalAtMost(n: real, m: real)
    requires 0.0 < m <= n
    ensures 1.0 / n <= 1.0 / m
  {
  }

  lemma LengthTermShrinks(length: nat, least: nat)
    requires 1 <= least <= length
    ensures LengthTerm(length) <= LengthTerm(least)
  {
    ReciprocalAtMost(1.0 + length as real, 1.0 + least as real);
    ReciprocalAtMost(length as real, least as real);
  }

  /** Damping never raises a score. */
  lemma ScoreAtMostBase(f: Features)
    requires f.length >= 1
    ensures Score(f) <= BaseScore(f)
  {
    BaseIsPositive(f);
    DampingAtMostOne(f.explicitHits, f.heuristicHits);
    hide BaseScore, Damping;
    ScaleDown(BaseScore(f), Damping(f.explicitHits, f.heuristicHits), 1.0);
  }

  lemma BaseIsPositive(f: Features)
    ensures BaseScore(f) >= 0.0
  {
    var n := if f.length < 1 then 1 else f.length;
    assert 1.0 / (1.0 + n as real) > 0.0 && 1.0 / n as real > 0.0;
  }

  lemma DampingAtMostOne(explicitHits: nat, heuristicHits: nat)
    ensures 0.3 <= Damping(explicitHits, heuristicHits) <= 1.0
    ensures explicitHits != 0 || heuristicHits != 0 ==> Damping(explicitHits, heuristicHits) <= 0.95
  {
  }

  lemma ScaleDown(base: real, d: real, most: real)
    requires 0.0 <= base && d <= most
    ensures base * d <= base * most
  {
  }

  /** The highest score any path of two or more nodes can reach. */
  const HIGHEST := 0.5025

  lemma BaseAtMostHighest(f: Features)
    requires f.length >= 2 && f.crossings <= 2 * (f.length - 1)
    ensures BaseScore(f) <= HIGHEST
  {
    if f.length >= 5 {
      LengthTermShrinks(f.length, 5);
    }
  }

  /** Over every graph: a discovered path scores at most 0.5025, so it is never high or critical. */
  lemma ScoreBound(nodes: map<string, NodeInfo>, path: seq<string>, f: Features)
    requires |path| >= 2 && FeaturesOf(nodes, path, f)
    ensures Score(f) <= HIGHEST < 0.6
    ensures SeverityFromScore(Score(f)) == Medium || SeverityFromScore(Score(f)) == Low
  {
    CrossingsBound(nodes, path);
    BaseAtMostHighest(f);
    ScoreAtMostBase(f);
  }

  /** Four nodes in four files and four scopes. */
  function Spread(): map<string, NodeInfo> {
    map["1" := NodeInfo("a", Some("p")), "2" := NodeInfo("b", Some("q")),
        "3" := NodeInfo("c", Some("r")), "4" := NodeInfo("d", Some("s"))]
  }

  lemma SpreadKnown()
    ensures Known(Spread(), ["1", "2", "3", "4"]) == [Spread()["1"], Spread()["2"], Spread()["3"], Spread()["4"]]
  {
    assert ["4"][1..] == [] && ["3", "4"][1..] == ["4"] && ["2", "3", "4"][1..] == ["3", "4"];
    assert ["1", "2", "3", "4"][1..] == ["2", "3", "4"];
    assert Known(Spread(), ["4"]) == [Spread()["4"]];
    assert Known(Spread(), ["3", "4"]) == [Spread()["3"], Spread()["4"]];
    assert Known(Spread(), ["2", "3", "4"]) == [Spread()["2"], Spread()["3"], Spread()["4"]];
  }

  lemma SpreadCrossings()
    ensures BoundaryCrossings(Spread(), ["1", "2", "3", "4"]) == 6
  {
    SpreadKnown();
    var infos := [Spread()["1"], Spread()["2"], Spread()["3"], Spread()["4"]];
    hide Known;
    assert infos[0].file == "a" && infos[1].file == "b" && infos[2].file == "c" && infos[3].file == "d";
    assert infos[0].scope == Some("p") && infos[1].scope == Some("q") && infos[2].scope == Some("r") &&
      infos[3].scope == Some("s");
    assert Files(infos) == {"a", "b", "c", "d"};
    assert Scopes(infos) == {"p", "q", "r", "s"};
    FourDistinct(Files(infos), "a", "b", "c", "d");
    FourDistinct(Scopes(infos), "p", "q", "r", "s");
  }

  lemma FourDistinct(s: set<string>, a: string, b: string, c: string, d: string)
    requires |a| == |b| == |c| == |d| == 1 && a[0] != b[0] && a[0] != c[0] && a[0] != d[0]
    requires b[0] != c[0] && b[0] != d[0] && c[0] != d[0]
    ensures s == {a, b, c, d} ==> |s| == 4
  {
    if s == {a, b, c, d} {
      assert s == {a} + {b} + {c} + {d};
    }
  }

  /** The bound is reached by a path through a concrete graph, with no sanitizer and an exposed sink. */
  lemma HighestIsReached()
    ensures exists nodes, path, f :: |path| == 4 && FeaturesOf(nodes, path, f) && Score(f) == HIGHEST
  {
    SpreadCrossings();
    hide BoundaryCrossings, Spread;
    var path, f := ["1", "2", "3", "4"], Features(4, 6, 0, 0, 0, true, true);
    assert FeaturesOf(Spread(), path, f) && Score(f) == HIGHEST;
  }

  /**
   At the default threshold a path that crosses nothing is kept exactly when it is a bare source-sink pair with no
   sanitizer.
   */
  lemma LocalPathKeptIff(f: Features)
    requires f.length >= 2 && f.crossings == 0
    ensures Score(f) >= 0.35 <==> f.length == 2 && f.explicitHits == 0 && f.heuristicHits == 0
  {
    if f.length >= 3 {
      LengthTermShrinks(f.length, 3);
      ScoreAtMostBase(f);
    } else if f.explicitHits != 0 || f.heuristicHits != 0 {
      SanitizedPairDropped(f);
    }
  }

  lemma SanitizedPairDropped(f: Features)
    requires f.length == 2 && f.crossings == 0
    requires f.explicitHits != 0 || f.heuristicHits != 0
    ensures Score(f) < 0.35
  {
    BaseIsPositive(f);
    DampingAtMostOne(f.explicitHits, f.heuristicHits);
    assert LengthTerm(2) == 0.35 / 3.0 + 0.125;
    assert BaseScore(f) <= 0.352;
    hide BaseScore, Damping, LengthTerm;
    ScaleDown(BaseScore(f), Damping(f.explicitHits, f.heuristicHits), 0.95);
  }

  // ----- the cut

  datatype Candidate = Candidate(score: real, path: seq<string>)

  predicate HigherScore(a: Candidate, b: Candidate) {
    a.score > b.score
  }

  /** `candidates.sort(key=score, reverse=True)` and the `max_candidates` cut; a negative maximum drops that many. */
  function TopCandidates(candidates: seq<Candidate>, max: int): (kept: seq<Candidate>)
    ensures max >= 0 ==> |kept| <= max
  {
    var sorted := StableSort(candidates, HigherScore);
    sorted[..SliceEnd(max, |sorted|)]
  }

  /** The cut keeps as many as it may, and what it drops never outscores what it keeps. */
  lemma CutKeepsBest(candidates: seq<Candidate>, max: int) returns (dropped: seq<Candidate>)
    ensures multiset(TopCandidates(candidates, max)) + multiset(dropped) == multiset(candidates)
    ensures max >= 0 && dropped != [] ==> |TopCandidates(candidates, max)| == max
    ensures max < 0 && TopCandidates(candidates, max) != [] ==> |dropped| == -max
    ensures forall k, d :: k in TopCandidates(candidates, max) && d in dropped ==> d.score <= k.score
  {
    hide StableSort, SortedBy;
    var sorted := StableSort(candidates, HigherScore);
    SortPermutes(candidates, HigherScore);
    ScoreIsWeakOrder();
    SortSorts(candidates, HigherScore);
    var cut := SliceEnd(max, |sorted|);
    dropped := sorted[cut..];
    assert sorted == sorted[..cut] + dropped && TopCandidates(candidates, max) == sorted[..cut];
    CutIsByScore(sorted, cut);
  }

  lemma CutIsByScore(sorted: seq<Candidate>, cut: nat)
    requires SortedBy(sorted, HigherScore) && cut <= |sorted|
    ensures forall k, d :: k in sorted[..cut] && d in sorted[cut..] ==> d.score <= k.score
  {
    forall k, d | k in sorted[..cut] && d in sorted[cut..] ensures d.score <= k.score {
      var i :| 0 <= i < cut && sorted[i] == k;
      var j :| cut <= j < |sorted| && sorted[j] == d;
      assert !HigherScore(sorted[j], sorted[i]);
    }
  }

  lemma ScoreIsWeakOrder()
    ensures WeakOrder(HigherScore)
  {
  }
}
