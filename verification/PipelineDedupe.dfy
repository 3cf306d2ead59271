/**
 `_dedupe_vulnerabilities` of the pipeline: one survivor per cluster of the same finding, carrying
 every merged rule, and the control union `_format_vulnerability` builds from it.
 */
module PipelineDedupe {
  import opened Base
  import opened Strings
  import opened Clustering

  /** The tuple `rank` computes; Python compares tuples lexicographically. */
  datatype Rank = Rank(strength: int, hasSnippet: int, confidence: real, severity: int, minusPathLen: int)

  /** Severity labels are taken as already lower-cased. */
  function RankOf(v: Finding): Rank {
    Rank(
      if v.classification == "VULNERABLE" then 2 else if v.classification == "LIKELY_VULNERABLE" then 1 else 0,
      if v.hasSnippet then 1 else 0,
      v.finalConfidence,
      match v.finalSeverity
      case "critical" => 4
      case "high" => 3
      case "medium" => 2
      case "low" => 1
      case _ => 0,
      -|v.pathNodes|)
  }

  predicate Below(a: Rank, b: Rank) {
    || a.strength < b.strength
    || (a.strength == b.strength &&
        (|| a.hasSnippet < b.hasSnippet
         || (a.hasSnippet == b.hasSnippet &&
             (|| a.confidence < b.confidence
              || (a.confidence == b.confidence &&
                  (|| a.severity < b.severity
                   || (a.severity == b.severity && a.minusPathLen < b.minusPathLen)))))))
  }

  /** The position `max(cluster, key=rank)` picks: the first of the highest-ranked. */
  function Best(cluster: seq<Finding>): (b: nat)
    requires cluster != []
    ensures b < |cluster|
    ensures forall k :: 0 <= k < |cluster| ==> !Below(RankOf(cluster[b]), RankOf(cluster[k]))
    ensures forall k :: 0 <= k < b ==> Below(RankOf(cluster[k]), RankOf(cluster[b]))
  {
    if |cluster| == 1 then 0
    else
      var front := cluster[..|cluster| - 1];
      var b := Best(front);
      assert forall k :: 0 <= k < |front| ==> front[k] == cluster[k];
      if Below(RankOf(front[b]), RankOf(Last(cluster))) then |cluster| - 1 else b
  }

  function RuleIds(vs: seq<Finding>): set<string> {
    set v | v in vs :: v.ruleId
  }

  /** The rules a finding speaks for: its own and those merged into it. */
  ghost function Identities(v: Finding): set<string> {
    {v.ruleId} + set r | r in v.contributingRuleIds
  }

  /** What one cluster becomes. */
  function Merge(cluster: seq<Finding>): (v: Finding)
    requires cluster != []
  {
    var primary := cluster[Best(cluster)];
    var others := RuleIds(cluster) - {primary.ruleId};
    if others == {} then primary
    else primary.(contributingRuleIds := SortedSet((set r | r in primary.contributingRuleIds) + others))
  }

  /** The output is one merged finding per connected component, in component order. */
  ghost predicate Deduped(norm: Normalizer, input: seq<Finding>, groups: seq<seq<nat>>, output: seq<Finding>) {
    && Components(norm, input, groups)
    && |output| == |groups|
    && forall k :: 0 <= k < |groups| ==>
         && (forall x :: 0 <= x < |groups[k]| ==> groups[k][x] < |input|)
         && groups[k] != []
         && output[k] == Merge(Pick(input, groups[k]))
  }

  method DedupeVulnerabilities(norm: Normalizer, vulnerabilities: seq<Finding>)
    returns (merged: seq<Finding>, groups: seq<seq<nat>>)
    ensures Deduped(norm, vulnerabilities, groups, merged)
  {
    var clusters;
    clusters, groups := ClusterBySameFinding(norm, vulnerabilities);
    merged := [];
    for k := 0 to |clusters|
      invariant |merged| == k
      invariant forall i :: 0 <= i < k ==> groups[i] != [] && merged[i] == Merge(clusters[i])
    {
      merged := merged + [Merge(clusters[k])];
    }
  }

  lemma RankIgnoresContributions(v: Finding, ids: seq<string>)
    ensures RankOf(v.(contributingRuleIds := ids)) == RankOf(v)
  {
  }

  /** The survivor is a member of its cluster in everything but the merged rules, and no member outranks it. */
  lemma MergeKeepsBest(cluster: seq<Finding>)
    requires cluster != []
    ensures var v := Merge(cluster);
      && v.(contributingRuleIds := cluster[Best(cluster)].contributingRuleIds) == cluster[Best(cluster)]
      && RankOf(v) == RankOf(cluster[Best(cluster)])
      && forall m :: m in cluster ==> !Below(RankOf(v), RankOf(m))
  {
    RankIgnoresContributions(cluster[Best(cluster)], Merge(cluster).contributingRuleIds);
    hide RankOf, Below;
    forall m | m in cluster ensures !Below(RankOf(Merge(cluster)), RankOf(m)) {
      var k :| 0 <= k < |cluster| && cluster[k] == m;
    }
  }

  /** The survivor is judged as surely vulnerable as any member. */
  lemma SurvivorIsSurest(cluster: seq<Finding>, m: Finding)
    requires m in cluster
    ensures m.classification == "VULNERABLE" ==> Merge(cluster).classification == "VULNERABLE"
    ensures m.classification == "LIKELY_VULNERABLE" ==>
              Merge(cluster).classification == "VULNERABLE" || Merge(cluster).classification == "LIKELY_VULNERABLE"
  {
    MergeKeepsBest(cluster);
  }

  /**
   Among members judged alike it has a snippet if any has; then no lower confidence; then no lower severity; then no
   longer path.
   */
  lemma SurvivorAmongAlike(cluster: seq<Finding>, m: Finding)
    requires m in cluster && m.classification == Merge(cluster).classification
    ensures var v := Merge(cluster);
      var order := ["critical", "high", "medium", "low"];
      && (m.hasSnippet ==> v.hasSnippet)
      && (m.hasSnippet == v.hasSnippet ==>
            && m.finalConfidence <= v.finalConfidence
            && (m.finalConfidence == v.finalConfidence ==>
                  && PlaceIn(order, v.finalSeverity) <= PlaceIn(order, m.finalSeverity)
                  && (m.finalSeverity == v.finalSeverity ==> |v.pathNodes| <= |m.pathNodes|)))
  {
    MergeKeepsBest(cluster);
    FourPlaces(Merge(cluster).finalSeverity);
    FourPlaces(m.finalSeverity);
    hide Merge, Below;
    BelowMeaning(RankOf(Merge(cluster)), RankOf(m));
  }

  lemma BelowMeaning(a: Rank, b: Rank)
    requires !Below(a, b) && a.strength == b.strength
    ensures a.hasSnippet >= b.hasSnippet
    ensures a.hasSnippet == b.hasSnippet ==> a.confidence >= b.confidence
    ensures a.hasSnippet == b.hasSnippet && a.confidence == b.confidence ==> a.severity >= b.severity
    ensures a.hasSnippet == b.hasSnippet && a.confidence == b.confidence && a.severity == b.severity ==>
              a.minusPathLen >= b.minusPathLen
  {
  }

  /** Exactly which rules a survivor speaks for: every member's own rule, and what the primary already carried. */
  lemma MergeIdentities(cluster: seq<Finding>)
    requires cluster != []
    ensures Identities(Merge(cluster)) == RuleIds(cluster) + Identities(cluster[Best(cluster)])
  {
    var primary := cluster[Best(cluster)];
    assert primary in cluster;
    var others := RuleIds(cluster) - {primary.ruleId};
    var carried := set r | r in primary.contributingRuleIds;
    if others != {} {
      assert (set r | r in SortedSet(carried + others)) == carried + others;
    }
    assert RuleIds(cluster) == others + {primary.ruleId};
  }

  /** No rule is lost: every input finding's rule survives, as primary or contributing, on its component's survivor. */
  lemma EveryRuleSurvives(norm: Normalizer, input: seq<Finding>, groups: seq<seq<nat>>, output: seq<Finding>, i: nat)
    returns (k: nat)
    requires Deduped(norm, input, groups, output) && i < |input|
    ensures k < |output| && i in groups[k] && input[i].ruleId in Identities(output[k])
    ensures !Below(RankOf(output[k]), RankOf(input[i]))
  {
    assert Together(groups, i, i);
    k :| 0 <= k < |groups| && i in groups[k];
    var cluster := Pick(input, groups[k]);
    var x :| 0 <= x < |groups[k]| && groups[k][x] == i;
    assert cluster[x] == input[i] && input[i] in cluster;
    MergeIdentities(cluster);
    MergeKeepsBest(cluster);
  }

  /** Conversely a survivor speaks for nothing it was not given. */
  lemma NoRuleInvented(norm: Normalizer, input: seq<Finding>, groups: seq<seq<nat>>, output: seq<Finding>, k: nat,
                       r: string)
    returns (i: nat)
    requires Deduped(norm, input, groups, output) && k < |output| && r in Identities(output[k])
    ensures i < |input| && i in groups[k] && r in Identities(input[i])
  {
    var cluster := Pick(input, groups[k]);
    MergeIdentities(cluster);
    var b := Best(cluster);
    if r in Identities(cluster[b]) {
      i := groups[k][b];
    } else {
      var m :| m in cluster && m.ruleId == r;
      var x :| 0 <= x < |cluster| && cluster[x] == m;
      i := groups[k][x];
    }
  }

  /** Two survivors are never the same finding. */
  lemma SurvivorsDiffer(norm: Normalizer, input: seq<Finding>, groups: seq<seq<nat>>, output: seq<Finding>, k: nat,
                        l: nat)
    requires Deduped(norm, input, groups, output) && k < l < |output|
    ensures !SameFinding(norm, output[k], output[l]) && !SameFinding(norm, output[l], output[k])
  {
    var i := groups[k][Best(Pick(input, groups[k]))];
    var j := groups[l][Best(Pick(input, groups[l]))];
    MergeKeepsBest(Pick(input, groups[k]));
    MergeKeepsBest(Pick(input, groups[l]));
    assert i in groups[k] && j in groups[l];
    assert !Together(groups, i, j);
    if SameFinding(norm, input[i], input[j]) {
      LinkedPair(norm, input, i, j);
    }
  }

  /** In a list without two same findings every chain stays where it starts. */
  lemma {:induction false} ChainStays(norm: Normalizer, items: seq<Finding>, p: seq<nat>)
    requires forall k: nat, l: nat :: k < |items| && l < |items| && k != l ==> !SameFinding(norm, items[k], items[l])
    requires Chain(norm, items, p)
    ensures p[0] == Last(p)
    decreases |p|
  {
    if |p| == 1 {
    } else {
      ChainTail(norm, items, p);
      ChainStays(norm, items, p[1..]);
    }
  }

  /** Groups that are all singletons, in order of their members, are `[[0], [1], ...]`. */
  lemma {:induction false} SingletonGroups(groups: seq<seq<nat>>, n: nat, k: nat)
    requires Partition(groups, n) && forall l :: 0 <= l < |groups| ==> |groups[l]| == 1
    requires k <= |groups|
    ensures forall l :: 0 <= l < k ==> groups[l] == [l]
    ensures k == |groups| ==> |groups| == n
  {
    if k == 0 {
    } else {
      SingletonGroups(groups, n, k - 1);
      var m := k - 1;
      assert groups[m][0] in groups[m];
      assert groups[m][0] >= m by {
        if m > 0 {
          assert groups[m - 1][0] < groups[m][0];
        }
      }
      assert Together(groups, m, m);
      var l :| 0 <= l < |groups| && m in groups[l];
      assert groups[l] == [m];
      assert l >= m;
    }
    if k == |groups| {
      assert k < n ==> Together(groups, k, k);
      assert forall l :: 0 <= l < k ==> groups[l][0] in groups[l];
    }
  }

  /** Deduplicating the output again changes nothing. */
  lemma DedupeIsIdempotent(norm: Normalizer, input: seq<Finding>, groups: seq<seq<nat>>, output: seq<Finding>,
                           again: seq<seq<nat>>, output': seq<Finding>)
    requires Deduped(norm, input, groups, output) && Deduped(norm, output, again, output')
    ensures output' == output
  {
    forall k: nat, l: nat | k < |output| && l < |output| && k != l ensures !SameFinding(norm, output[k], output[l]) {
      SurvivorsDiffer(norm, input, groups, output, if k < l then k else l, if k < l then l else k);
    }
    forall k | 0 <= k < |again| ensures |again[k]| == 1 {
      if |again[k]| > 1 {
        var i, j := again[k][0], again[k][1];
        assert i in again[k] && j in again[k];
        assert Together(again, i, j);
        var p: seq<nat> :| Chain(norm, output, p) && p[0] == i && Last(p) == j;
        ChainStays(norm, output, p);
        assert false;
      }
    }
    SingletonGroups(again, |output|, |again|);
    forall k | 0 <= k < |output| ensures output'[k] == output[k] {
      assert Pick(output, again[k]) == [output[k]];
      MergeAlone(output[k]);
    }
  }

  lemma MergeAlone(v: Finding)
    ensures Merge([v]) == v
  {
    assert RuleIds([v]) == {v.ruleId};
  }

  // ----- formatting

  datatype Rule = Rule(ruleId: string, asvsControls: seq<string>)

  ghost function ControlsOf(store: map<string, Rule>, ids: set<string>): set<string> {
    set r, c | r in ids && r in store && c in store[r].asvsControls :: c
  }

  /** The rules `query_store.get_query` resolves, in order: the primary rule, then the contributing ones. */
  function Resolve(store: map<string, Rule>, ids: seq<string>): (rules: seq<Rule>)
    ensures forall r :: r in rules <==> exists id :: id in ids && id in store && store[id] == r
  {
    if ids == [] then []
    else (if ids[0] in store then [store[ids[0]]] else []) + Resolve(store, ids[1..])
  }

  /** The `asvs_controls` of a formatted finding. */
  method FormatControls(store: map<string, Rule>, v: Finding) returns (controls: seq<string>)
    ensures Distinct(controls)
    ensures (set c | c in controls) == ControlsOf(store, Identities(v))
  {
    var ids := [v.ruleId] + v.contributingRuleIds;
    var rules := Resolve(store, ids);
    controls := [];
    for i := 0 to |rules|
      invariant Distinct(controls)
      invariant forall c :: c in controls <==> exists k :: 0 <= k < i && c in rules[k].asvsControls
    {
      var more := rules[i].asvsControls;
      for j := 0 to |more|
        invariant Distinct(controls)
        invariant forall c :: c in controls <==>
          (exists k :: 0 <= k < i && c in rules[k].asvsControls) || c in more[..j]
      {
        if more[j] !in controls {
          controls := controls + [more[j]];
        }
      }
    }
    forall c ensures c in controls <==> c in ControlsOf(store, Identities(v)) {
      if c in controls {
        var k :| 0 <= k < |rules| && c in rules[k].asvsControls;
        assert rules[k] in rules;
      }
      if c in ControlsOf(store, Identities(v)) {
        var r :| r in Identities(v) && r in store && c in store[r].asvsControls;
        assert r in ids;
        assert store[r] in rules;
      }
    }
  }

  /** Coverage end to end: each control of each input finding's rule is a control of its component's survivor. */
  lemma EveryControlSurvives(norm: Normalizer, input: seq<Finding>, groups: seq<seq<nat>>, output: seq<Finding>,
                             store: map<string, Rule>, i: nat, c: string) returns (k: nat)
    requires Deduped(norm, input, groups, output) && i < |input|
    requires input[i].ruleId in store && c in store[input[i].ruleId].asvsControls
    ensures k < |output| && i in groups[k] && c in ControlsOf(store, Identities(output[k]))
  {
    k := EveryRuleSurvives(norm, input, groups, output, i);
  }

  // ----- rules already merged into the input

  /**
   Each rule a member already carries is some member's own rule, or is carried by the member that becomes the primary.
   */
  ghost predicate CarriedOn(cluster: seq<Finding>)
    requires cluster != []
  {
    forall m, r :: m in cluster && r in m.contributingRuleIds ==>
      r in RuleIds(cluster) || r in cluster[Best(cluster)].contributingRuleIds
  }

  /** A cluster's survivor speaks for everything its members spoke for exactly when that holds. */
  lemma ClusterKeepsAllIff(cluster: seq<Finding>)
    requires cluster != []
    ensures (forall m :: m in cluster ==> Identities(m) <= Identities(Merge(cluster))) <==> CarriedOn(cluster)
  {
    hide Merge, Best;
    MergeIdentities(cluster);
    var primary := cluster[Best(cluster)];
    assert primary in cluster;
    if forall m :: m in cluster ==> Identities(m) <= Identities(Merge(cluster)) {
      forall m, r | m in cluster &&
        r in m.contributingRuleIds ensures r in RuleIds(cluster) || r in primary.contributingRuleIds {
        assert r in Identities(m);
      }
    }
  }

  /** Over a whole run: no finding loses a rule it spoke for exactly when every component carries its rules on. */
  lemma RulesSurviveIff(norm: Normalizer, input: seq<Finding>, groups: seq<seq<nat>>, output: seq<Finding>)
    requires Deduped(norm, input, groups, output)
    ensures (forall k, i: nat :: 0 <= k < |groups| && i in groups[k] ==> Identities(input[i]) <= Identities(output[k]))
       <==> (forall k :: 0 <= k < |groups| ==> CarriedOn(Pick(input, groups[k])))
  {
    hide Components, Merge, Identities, CarriedOn;
    forall k | 0 <= k < |groups|
      ensures (forall i: nat :: i in groups[k] ==> Identities(input[i]) <= Identities(output[k]))
         <==> CarriedOn(Pick(input, groups[k]))
    {
      var cluster := Pick(input, groups[k]);
      ClusterKeepsAllIff(cluster);
      forall i: nat | i in groups[k] ensures input[i] in cluster {
        var x :| 0 <= x < |groups[k]| && groups[k][x] == i;
        assert cluster[x] == input[i];
      }
      forall m | m in cluster ensures exists i: nat :: i in groups[k] && input[i] == m {
        var x :| 0 <= x < |cluster| && cluster[x] == m;
        assert groups[k][x] in groups[k] && input[groups[k][x]] == m;
      }
    }
  }

  /** A finding that carries a merged rule, and the same finding confirmed by another route, which carries none. */
  function Confirmed(v: Finding): Finding {
    v.(classification := "VULNERABLE", contributingRuleIds := [])
  }

  /** An input on which every run loses a rule: two reports of one finding, of which the weaker carries "EVAL". */
  lemma RuleIsLost(norm: Normalizer, v: Finding, groups: seq<seq<nat>>, output: seq<Finding>)
    requires v.classification != "VULNERABLE" && v.ruleId == "XSS" && v.contributingRuleIds == ["EVAL"]
    requires StartLine(v) <= EndLine(v)
    requires Deduped(norm, [v, Confirmed(v)], groups, output)
    ensures "EVAL" in Identities(v) && forall k :: 0 <= k < |output| ==> "EVAL" !in Identities(output[k])
  {
    hide Merge, Partition, Linked;
    TwoReportsTogether(norm, v, groups);
    var g :| 0 <= g < |groups| && 0 in groups[g] && 1 in groups[g];
    LoserIsDropped(v);
    forall k | 0 <= k < |output| ensures "EVAL" !in Identities(output[k]) {
      OneGroup(groups, k, g);
      assert Pick([v, Confirmed(v)], groups[k]) == [v, Confirmed(v)];
    }
  }

  lemma TwoReportsTogether(norm: Normalizer, v: Finding, groups: seq<seq<nat>>)
    requires StartLine(v) <= EndLine(v) && Components(norm, [v, Confirmed(v)], groups)
    ensures Together(groups, 0, 1)
  {
    var input := [v, Confirmed(v)];
    assert SameFinding(norm, input[0], input[1]);
    LinkedPair(norm, input, 0, 1);
  }

  lemma OneGroup(groups: seq<seq<nat>>, k: nat, g: nat)
    requires Partition(groups, 2) && k < |groups| && g < |groups| && 0 in groups[g] && 1 in groups[g]
    ensures groups[k] == [0, 1]
  {
    assert groups[k][0] in groups[k] && groups[k][0] < 2;
    assert k == g;
    var s := groups[g];
    forall x | 0 <= x < |s| ensures s[x] < 2 {
      assert s[x] in s;
    }
    ThirdIsAtLeastTwo(s);
    assert |s| == 2 && s[0] < s[1];
  }

  lemma ThirdIsAtLeastTwo(s: seq<nat>)
    requires Increasing(s)
    ensures |s| > 2 ==> s[2] >= 2
  {
    assert |s| > 2 ==> s[0] < s[1] && s[1] < s[2];
  }

  lemma LoserIsDropped(v: Finding)
    requires v.classification != "VULNERABLE" && v.ruleId == "XSS" && v.contributingRuleIds == ["EVAL"]
    ensures "EVAL" !in Identities(Merge([v, Confirmed(v)]))
  {
    var cluster := [v, Confirmed(v)];
    assert cluster[1] == Confirmed(v);
    MergeIdentities(cluster);
    assert RuleIds(cluster) == {"XSS"};
  }
}
