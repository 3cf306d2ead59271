/**
 What `ScanService` adds up and annotates once both engines have run: severity totals, and the marks that
 live results leave on the static findings.
 */
module ScanTotals {
  import opened Base
  import opened Dicts
  import opened Rounding
  import opened Tallies

  /** A verdict name; an enumeration member, so never the empty string. */
  type Verdict = s: string | s != "" witness "pass"

  /** What the verdict module fixes: which verdicts fail, how they rank, and the name of a clean pass. */
  datatype Policy = Policy(failing: set<Verdict>, rank: map<Verdict, int>, pass: Verdict) {
    function RankOr(v: Verdict, default: int): int {
      if v in rank then rank[v] else default
    }
  }

  /** The value under "confidence": absent, a number, or something `float` refuses. */
  datatype Confidence = Missing | Number(n: real) | Unreadable

  /** A static finding: what the pipeline produced, then the marks. */
  datatype Vuln = Vuln(
    id: Option<string>, compliant: bool, severity: Option<string>, controls: seq<string>, confidence: Confidence,
    dynamicConfirmed: bool, bridgeConfirmed: bool, bridgeVerdict: Option<Verdict>, contradicted: bool)
  {
    predicate Unmarked() {
      !dynamicConfirmed && !bridgeConfirmed && bridgeVerdict == None && !contradicted
    }
  }

  /** A live finding; `bridgeId` names the static finding it re-tested, if any. */
  datatype Live = Live(controlId: string, verdict: Verdict, severity: string, bridgeId: Option<string>,
                      corroborates: bool)

  datatype Probe = Probe(verdict: Verdict, severity: Option<string>)

  // ----- severity totals

  const SEVERITIES := ["critical", "high", "medium", "low"]

  /** The severities of the static findings that count, in order; compliant evidence is not a finding. */
  function StaticSeverities(vulns: seq<Vuln>): seq<string> {
    if vulns == [] then []
    else
      var v := Last(vulns);
      StaticSeverities(vulns[..|vulns| - 1]) + if v.compliant then [] else [v.severity.GetOr("low")]
  }

  function LiveSeverities(p: Policy, live: seq<Live>): seq<string> {
    if live == [] then []
    else
      var f := Last(live);
      LiveSeverities(p, live[..|live| - 1]) + if f.verdict in p.failing then [f.severity] else []
  }

  function ProbeSeverities(probes: seq<Probe>): seq<string> {
    if probes == [] then []
    else
      var f := Last(probes);
      ProbeSeverities(probes[..|probes| - 1]) + if f.verdict == "fail" then [f.severity.GetOr("medium")] else []
  }

  /** A compliant finding counts in no total: dropping them all changes nothing. */
  lemma {:induction false} CompliantNeverCounts(vulns: seq<Vuln>, rest: seq<Vuln>)
    requires rest == Findings(vulns)
    ensures StaticSeverities(vulns) == StaticSeverities(rest) && |StaticSeverities(vulns)| == |rest|
  {
    if vulns == [] {
    } else {
      var front, v := vulns[..|vulns| - 1], Last(vulns);
      CompliantNeverCounts(front, Findings(front));
      if !v.compliant {
        assert rest[..|rest| - 1] == Findings(front);
        assert Last(rest) == v;
      } else {
        assert rest == Findings(front);
      }
    }
  }

  /** The findings that are not compliant evidence. */
  function Findings(vulns: seq<Vuln>): seq<Vuln> {
    if vulns == [] then []
    else Findings(vulns[..|vulns| - 1]) + if Last(vulns).compliant then [] else [Last(vulns)]
  }

  // ----- each severity's entry, counted on the findings themselves

  /** The positions whose element satisfies `keep`. */
  ghost function Places<T(!new)>(s: seq<T>, keep: T -> bool): set<int> {
    set i | 0 <= i < |s| && keep(s[i])
  }

  lemma PlacesGrow<T(!new)>(s: seq<T>, keep: T -> bool)
    requires s != []
    ensures |Places(s, keep)| == |Places(s[..|s| - 1], keep)| + if keep(Last(s)) then 1 else 0
  {
    var n := |s| - 1;
    if keep(Last(s)) {
      assert Places(s, keep) == Places(s[..n], keep) + {n};
    } else {
      assert Places(s, keep) == Places(s[..n], keep);
    }
  }

  ghost function StaticOf(severity: string): Vuln -> bool {
    (v: Vuln) => !v.compliant && (if v.severity.Some? then v.severity.value else "low") == severity
  }

  ghost function LiveOf(p: Policy, severity: string): Live -> bool {
    (f: Live) => f.verdict in p.failing && f.severity == severity
  }

  ghost function ProbeOf(severity: string): Probe -> bool {
    (f: Probe) => f.verdict == "fail" && (if f.severity.Some? then f.severity.value else "medium") == severity
  }

  lemma {:induction false} StaticCount(vulns: seq<Vuln>, severity: string)
    ensures multiset(StaticSeverities(vulns))[severity] == |Places(vulns, StaticOf(severity))|
  {
    if vulns == [] {
      assert Places(vulns, StaticOf(severity)) == {};
    } else {
      StaticCount(vulns[..|vulns| - 1], severity);
      PlacesGrow(vulns, StaticOf(severity));
    }
  }

  lemma {:induction false} LiveCount(p: Policy, live: seq<Live>, severity: string)
    ensures multiset(LiveSeverities(p, live))[severity] == |Places(live, LiveOf(p, severity))|
  {
    if live == [] {
      assert Places(live, LiveOf(p, severity)) == {};
    } else {
      LiveCount(p, live[..|live| - 1], severity);
      PlacesGrow(live, LiveOf(p, severity));
    }
  }

  lemma {:induction false} ProbeCount(probes: seq<Probe>, severity: string)
    ensures multiset(ProbeSeverities(probes))[severity] == |Places(probes, ProbeOf(severity))|
  {
    if probes == [] {
      assert Places(probes, ProbeOf(severity)) == {};
    } else {
      ProbeCount(probes[..|probes| - 1], severity);
      PlacesGrow(probes, ProbeOf(severity));
    }
  }

  /**
   In a repository scan's totals each severity's entry is its number of non-compliant static findings, failing probes
   and failing live findings; the four severities have an entry even when it is 0, any other only when it is not.
   */
  lemma EntryCounts(p: Policy, vulns: seq<Vuln>, live: seq<Live>, probes: seq<Probe>, bySeverity: Dict<string, int>,
                    severity: string)
    requires Tallied(bySeverity, SEVERITIES,
                     StaticSeverities(vulns) + ProbeSeverities(probes) + LiveSeverities(p, live))
    ensures var n := |Places(vulns, StaticOf(severity))| + |Places(probes, ProbeOf(severity))|
                     + |Places(live, LiveOf(p, severity))|;
      && (severity in bySeverity.vals <==> n > 0 || severity in ["critical", "high", "medium", "low"])
      && (severity in bySeverity.vals ==> bySeverity.vals[severity] == n)
  {
    StaticCount(vulns, severity);
    LiveCount(p, live, severity);
    ProbeCount(probes, severity);
    hide StaticSeverities, LiveSeverities, ProbeSeverities, Places;
    var counted := StaticSeverities(vulns) + ProbeSeverities(probes) + LiveSeverities(p, live);
    assert multiset(counted)[severity] == multiset(StaticSeverities(vulns))[severity]
         + multiset(ProbeSeverities(probes))[severity] + multiset(LiveSeverities(p, live))[severity];
    assert severity in counted <==> severity in multiset(counted);
  }

  /** The same for a live scan, whose totals have no static part. */
  lemma LiveEntryCounts(p: Policy, live: seq<Live>, probes: seq<Probe>, bySeverity: Dict<string, int>, severity: string)
    requires Tallied(bySeverity, SEVERITIES, LiveSeverities(p, live) + ProbeSeverities(probes))
    ensures var n := |Places(probes, ProbeOf(severity))| + |Places(live, LiveOf(p, severity))|;
      && (severity in bySeverity.vals <==> n > 0 || severity in ["critical", "high", "medium", "low"])
      && (severity in bySeverity.vals ==> bySeverity.vals[severity] == n)
  {
    LiveCount(p, live, severity);
    ProbeCount(probes, severity);
    hide LiveSeverities, ProbeSeverities, Places;
    var counted := LiveSeverities(p, live) + ProbeSeverities(probes);
    assert multiset(counted)[severity]
        == multiset(LiveSeverities(p, live))[severity] + multiset(ProbeSeverities(probes))[severity];
    assert severity in counted <==> severity in multiset(counted);
  }

  /** Live findings that do not fail change no count. */
  lemma {:induction false} PassingNeverCounts(p: Policy, live: seq<Live>)
    requires forall f :: f in live ==> f.verdict !in p.failing
    ensures LiveSeverities(p, live) == []
  {
    if live == [] {
    } else {
      assert Last(live) in live;
      PassingNeverCounts(p, live[..|live| - 1]);
    }
  }

  lemma StaticStep(vulns: seq<Vuln>, i: nat)
    requires i <= |vulns|
    ensures StaticSeverities(vulns[..0]) == []
    ensures i < |vulns| ==>
      StaticSeverities(vulns[..i + 1])
      == StaticSeverities(vulns[..i]) + if vulns[i].compliant then [] else [vulns[i].severity.GetOr("low")]
  {
    if i < |vulns| {
      assert vulns[..i + 1][..i] == vulns[..i];
    }
  }

  /** `_summarize_static_findings`. */
  method SummarizeStaticFindings(vulns: seq<Vuln>) returns (found: nat, bySeverity: Dict<string, int>)
    ensures Tallied(bySeverity, SEVERITIES, StaticSeverities(vulns))
    ensures found == |Findings(vulns)| == Total(bySeverity)
  {
    hide *;
    bySeverity, found := Zeroes(SEVERITIES), 0;
    ZeroesTally(SEVERITIES);
    StaticStep(vulns, 0);
    for i := 0 to |vulns|
      invariant Tallied(bySeverity, SEVERITIES, StaticSeverities(vulns[..i]))
      invariant found == |StaticSeverities(vulns[..i])|
    {
      StaticStep(vulns, i);
      assert StaticSeverities(vulns[..i]) + [] == StaticSeverities(vulns[..i]);
      if !vulns[i].compliant {
        found := found + 1;
        var severity := vulns[i].severity.GetOr("low");
        BumpTallies(bySeverity, SEVERITIES, StaticSeverities(vulns[..i]), severity);
        bySeverity := Bump(bySeverity, severity);
      }
    }
    assert vulns[..|vulns|] == vulns;
    CompliantNeverCounts(vulns, Findings(vulns));
    TalliedTotal(bySeverity, SEVERITIES, StaticSeverities(vulns));
  }

  /** The loop that folds failing live findings into a running total. */
  method AddLive(p: Policy, live: seq<Live>, start: Dict<string, int>, ghost counted: seq<string>)
    returns (bySeverity: Dict<string, int>, failing: nat)
    requires Tallied(start, SEVERITIES, counted)
    ensures Tallied(bySeverity, SEVERITIES, counted + LiveSeverities(p, live))
    ensures failing == |LiveSeverities(p, live)|
  {
    hide Tallied, Bump;
    bySeverity, failing := start, 0;
    assert counted + [] == counted;
    for i := 0 to |live|
      invariant Tallied(bySeverity, SEVERITIES, counted + LiveSeverities(p, live[..i]))
      invariant failing == |LiveSeverities(p, live[..i])|
    {
      assert live[..i + 1][..i] == live[..i];
      if live[i].verdict in p.failing {
        ghost var before := LiveSeverities(p, live[..i]);
        BumpTallies(bySeverity, SEVERITIES, counted + before, live[i].severity);
        assert counted + before + [live[i].severity] == counted + (before + [live[i].severity]);
        failing := failing + 1;
        bySeverity := Bump(bySeverity, live[i].severity);
      } else {
        assert LiveSeverities(p, live[..i]) + [] == LiveSeverities(p, live[..i]);
      }
    }
    assert live[..|live|] == live;
  }

  /** The loop that folds failing probe results into a running total. */
  method AddProbes(probes: seq<Probe>, start: Dict<string, int>, ghost counted: seq<string>)
    returns (bySeverity: Dict<string, int>, failing: nat)
    requires Tallied(start, SEVERITIES, counted)
    ensures Tallied(bySeverity, SEVERITIES, counted + ProbeSeverities(probes))
    ensures failing == |ProbeSeverities(probes)|
  {
    hide Tallied, Bump;
    bySeverity, failing := start, 0;
    assert counted + [] == counted;
    for i := 0 to |probes|
      invariant Tallied(bySeverity, SEVERITIES, counted + ProbeSeverities(probes[..i]))
      invariant failing == |ProbeSeverities(probes[..i])|
    {
      assert probes[..i + 1][..i] == probes[..i];
      if probes[i].verdict == "fail" {
        ghost var before := ProbeSeverities(probes[..i]);
        var severity := probes[i].severity.GetOr("medium");
        BumpTallies(bySeverity, SEVERITIES, counted + before, severity);
        assert counted + before + [severity] == counted + (before + [severity]);
        failing := failing + 1;
        bySeverity := Bump(bySeverity, severity);
      } else {
        assert ProbeSeverities(probes[..i]) + [] == ProbeSeverities(probes[..i]);
      }
    }
    assert probes[..|probes|] == probes;
  }

  /** The totals of a live scan. */
  method DynamicTotals(p: Policy, live: seq<Live>, probes: seq<Probe>)
    returns (found: nat, bySeverity: Dict<string, int>)
    ensures Tallied(bySeverity, SEVERITIES, LiveSeverities(p, live) + ProbeSeverities(probes))
    ensures found == |LiveSeverities(p, live)| + |ProbeSeverities(probes)| == Total(bySeverity)
  {
    hide *;
    ghost var none: seq<string> := [];
    ZeroesTally(SEVERITIES);
    var failing, failingProbes;
    bySeverity, failing := AddLive(p, live, Zeroes(SEVERITIES), none);
    assert none + LiveSeverities(p, live) == LiveSeverities(p, live);
    bySeverity, failingProbes := AddProbes(probes, bySeverity, LiveSeverities(p, live));
    found := failing + failingProbes;
    TalliedTotal(bySeverity, SEVERITIES, LiveSeverities(p, live) + ProbeSeverities(probes));
  }

  /**
   The totals of a repository scan, with or without the live engines: static findings, then probes, then live findings.
   */
  method RepositoryTotals(p: Policy, vulns: seq<Vuln>, live: seq<Live>, probes: seq<Probe>)
    returns (found: nat, bySeverity: Dict<string, int>)
    ensures Tallied(bySeverity, SEVERITIES, StaticSeverities(vulns) + ProbeSeverities(probes) + LiveSeverities(p, live))
    ensures found == |Findings(vulns)| + |LiveSeverities(p, live)| + |ProbeSeverities(probes)| == Total(bySeverity)
  {
    hide *;
    var failing, failingProbes;
    found, bySeverity := SummarizeStaticFindings(vulns);
    TalliedTotal(bySeverity, SEVERITIES, StaticSeverities(vulns));
    bySeverity, failingProbes := AddProbes(probes, bySeverity, StaticSeverities(vulns));
    bySeverity, failing := AddLive(p, live, bySeverity, StaticSeverities(vulns) + ProbeSeverities(probes));
    found := found + failing + failingProbes;
    TalliedTotal(bySeverity, SEVERITIES, StaticSeverities(vulns) + ProbeSeverities(probes) + LiveSeverities(p, live));
  }

  // ----- what the live results say about one static finding

  /** `f` re-tested the static finding `id`; an empty id links nothing. */
  predicate Retests(f: Live, id: Option<string>) {
    id.Some? && id.value != "" && f.bridgeId == id
  }

  predicate FailsFor(p: Policy, f: Live, id: Option<string>) {
    Retests(f, id) && f.verdict in p.failing
  }

  /** Some failing re-test of `id` carries a rank that is not negative; unranked verdicts rank 0. */
  ghost predicate Bridged(p: Policy, live: seq<Live>, id: Option<string>) {
    exists f :: f in live && FailsFor(p, f, id) && p.RankOr(f.verdict, 0) >= 0
  }

  /** `v` is the verdict of a failing re-test of `id`, and no failing re-test of `id` ranks higher. */
  ghost predicate TopVerdict(p: Policy, live: seq<Live>, id: Option<string>, v: Verdict) {
    && (exists f :: f in live && FailsFor(p, f, id) && f.verdict == v)
    && forall f :: f in live && FailsFor(p, f, id) ==> p.RankOr(f.verdict, 0) <= p.RankOr(v, 0)
  }

  ghost predicate Passed(p: Policy, live: seq<Live>, id: Option<string>) {
    exists f :: f in live && Retests(f, id) && f.verdict == p.pass
  }

  ghost predicate SharesFailingControl(p: Policy, live: seq<Live>, v: Vuln) {
    exists f :: f in live && f.verdict in p.failing && f.controlId in v.controls
  }

  /** `after` is `before` with exactly the marks the live results call for. */
  ghost predicate Marked(p: Policy, live: seq<Live>, before: Vuln, after: Vuln) {
    var bridged := Bridged(p, live, before.id);
    var contradicted := Passed(p, live, before.id) && !bridged;
    && after == before.(
         dynamicConfirmed := before.dynamicConfirmed || SharesFailingControl(p, live, before) || bridged,
         bridgeConfirmed := before.bridgeConfirmed || bridged,
         bridgeVerdict := after.bridgeVerdict,
         contradicted := before.contradicted || contradicted,
         confidence := if contradicted then Number(Lowered(before.confidence)) else before.confidence)
    && (if bridged then after.bridgeVerdict.Some? && TopVerdict(p, live, before.id, after.bridgeVerdict.value)
        else after.bridgeVerdict == before.bridgeVerdict)
  }

  const CONTRADICTION_FACTOR := 0.5

  /** `round(confidence * factor, 3)`, an unusable confidence counting as 0.6. */
  function Lowered(c: Confidence): (r: real)
    ensures c.Number? && c.n > 0.0 ==> 0.0 <= r < c.n
  {
    var n := if c.Number? then c.n else 0.6;
    Round(n * CONTRADICTION_FACTOR * 1000.0) as real / 1000.0
  }

  /** A contradiction halves a confidence, to the nearest thousandth; one that cannot be read counts as 0.6. */
  lemma LoweredMeaning(c: Confidence) returns (k: int)
    ensures Lowered(c) == k as real / 1000.0
    ensures c.Number? ==> -0.0005 <= Lowered(c) - c.n / 2.0 <= 0.0005
    ensures !c.Number? ==> Lowered(c) == 0.3
  {
    var n := if c.Number? then c.n else 0.6;
    k := Round(n * 500.0);
    assert n * CONTRADICTION_FACTOR * 1000.0 == n * 500.0;
    assert Lowered(c) == k as real / 1000.0;
    if !c.Number? {
      RoundUnique(300.0, 300);
    }
  }

  // ----- marking in place

  /** The loop over live findings that keeps, for each static id, its strongest failing verdict. */
  method BridgeVerdicts(p: Policy, live: seq<Live>) returns (strongest: map<string, Verdict>)
    ensures forall id :: id in strongest <==> Bridged(p, live, Some(id))
    ensures forall id :: id in strongest ==> TopVerdict(p, live, Some(id), strongest[id])
  {
    strongest := map[];
    for i := 0 to |live|
      invariant forall id :: id in strongest <==> Bridged(p, live[..i], Some(id))
      invariant forall id :: id in strongest ==> TopVerdict(p, live[..i], Some(id), strongest[id])
    {
      var f := live[i];
      assert live[..i + 1] == live[..i] + [f];
      ghost var before := strongest;
      if f.bridgeId.Some? && f.bridgeId.value != "" && f.verdict in p.failing {
        var id := f.bridgeId.value;
        var incumbent := if id in strongest then p.RankOr(strongest[id], -1) else -1;
        if p.RankOr(f.verdict, 0) > incumbent {
          strongest := strongest[id := f.verdict];
        }
      }
      forall id
        ensures id in strongest <==> Bridged(p, live[..i + 1], Some(id))
        ensures id in strongest ==> TopVerdict(p, live[..i + 1], Some(id), strongest[id])
      {
        StrongestStep(p, live[..i], f, before, strongest, id);
      }
    }
    assert live[..|live|] == live;
  }

  /** One step of that loop, for one id. */
  lemma StrongestStep(p: Policy, seen: seq<Live>, f: Live, before: map<string, Verdict>, after: map<string, Verdict>,
                      id: string)
    requires id in before <==> Bridged(p, seen, Some(id))
    requires id in before ==> TopVerdict(p, seen, Some(id), before[id])
    requires var incumbent := if id in before then p.RankOr(before[id], -1) else -1;
      if FailsFor(p, f, Some(id)) && p.RankOr(f.verdict, 0) > incumbent then id in after && after[id] == f.verdict
      else (id in after <==> id in before) && (id in before ==> after[id] == before[id])
    ensures id in after <==> Bridged(p, seen + [f], Some(id))
    ensures id in after ==> TopVerdict(p, seen + [f], Some(id), after[id])
  {
    var now := seen + [f];
    assert forall g :: g in now <==> g in seen || g == f;
    if id in before {
      var g :| g in seen && FailsFor(p, g, Some(id)) && p.RankOr(g.verdict, 0) >= 0;
      assert g in now;
      var h :| h in seen && FailsFor(p, h, Some(id)) && h.verdict == before[id];
      assert h in now;
    }
    if FailsFor(p, f, Some(id)) {
      assert f in now;
    }
  }

  /** `{finding["bridge_static_finding_id"] for finding in live if it passed}`. */
  method BridgePasses(p: Policy, live: seq<Live>) returns (ids: set<string>)
    ensures forall id :: id in ids <==> Passed(p, live, Some(id))
  {
    ids := {};
    for i := 0 to |live|
      invariant forall id :: id in ids <==> Passed(p, live[..i], Some(id))
    {
      var f := live[i];
      assert live[..i + 1] == live[..i] + [f];
      ghost var before := ids;
      if f.bridgeId.Some? && f.bridgeId.value != "" && f.verdict == p.pass {
        ids := ids + {f.bridgeId.value};
      }
      forall id ensures id in ids <==> Passed(p, live[..i + 1], Some(id)) {
        assert id in before <==> Passed(p, live[..i], Some(id));
        assert f in live[..i + 1];
      }
    }
    assert live[..|live|] == live;
  }

  /** `{f["control_id"] for f in live if it failed}`. */
  function FailingControls(p: Policy, live: seq<Live>): set<string> {
    set f | f in live && f.verdict in p.failing :: f.controlId
  }

  function StaticControls(vulns: seq<Vuln>): set<string> {
    set v, c | v in vulns && c in v.controls :: c
  }

  function ByControl(failControls: set<string>, v: Vuln): Vuln {
    if exists c :: c in v.controls && c in failControls then v.(dynamicConfirmed := true) else v
  }

  function ByBridge(strongest: map<string, Verdict>, v: Vuln): Vuln {
    if v.id.Some? && v.id.value in strongest
    then v.(dynamicConfirmed := true, bridgeConfirmed := true, bridgeVerdict := Some(strongest[v.id.value]))
    else v
  }

  function ByPass(strongest: map<string, Verdict>, passed: set<string>, v: Vuln): Vuln {
    if v.id.Some? && v.id.value in passed && v.id.value !in strongest
    then v.(contradicted := true, confidence := Number(Lowered(v.confidence)))
    else v
  }

  /** The three loop bodies, one after the other, leave exactly the marks called for. */
  lemma LoopsMark(p: Policy, live: seq<Live>, strongest: map<string, Verdict>, passed: set<string>, v: Vuln)
    requires forall id :: id in strongest <==> Bridged(p, live, Some(id))
    requires forall id :: id in strongest ==> TopVerdict(p, live, Some(id), strongest[id])
    requires forall id :: id in passed <==> Passed(p, live, Some(id))
    ensures Marked(p, live, v, ByPass(strongest, passed, ByBridge(strongest, ByControl(FailingControls(p, live), v))))
  {
    hide TopVerdict, Lowered;
  }

  /** Each of `a` is in `b`, up to its corroboration flag. */
  ghost predicate Within(a: seq<Live>, b: seq<Live>) {
    forall f :: f in a ==> f.(corroborates := true) in b || f.(corroborates := false) in b
  }

  lemma FlagsOnly(a: seq<Live>, b: seq<Live>)
    requires |a| == |b| && forall i :: 0 <= i < |a| ==> b[i] == a[i].(corroborates := b[i].corroborates)
    ensures Within(a, b) && Within(b, a)
  {
    forall f | f in a ensures f.(corroborates := true) in b || f.(corroborates := false) in b {
      var i :| 0 <= i < |a| && a[i] == f;
      assert b[i] == f.(corroborates := b[i].corroborates);
    }
    forall f | f in b ensures f.(corroborates := true) in a || f.(corroborates := false) in a {
      var i :| 0 <= i < |b| && b[i] == f;
      assert a[i] == f.(corroborates := a[i].corroborates);
    }
  }

  lemma SameVerdicts(p: Policy, a: seq<Live>, b: seq<Live>, v: Vuln)
    requires Within(a, b)
    ensures Bridged(p, a, v.id) ==> Bridged(p, b, v.id)
    ensures Passed(p, a, v.id) ==> Passed(p, b, v.id)
    ensures SharesFailingControl(p, a, v) ==> SharesFailingControl(p, b, v)
  {
  }

  /** Flagging live findings as corroborating changes nothing the marks depend on. */
  lemma CorroborationIsSilent(p: Policy, a: seq<Live>, b: seq<Live>, v: Vuln, r: Vuln)
    requires Within(a, b) && Within(b, a) && Marked(p, b, v, r)
    ensures Marked(p, a, v, r)
  {
    SameVerdicts(p, a, b, v);
    SameVerdicts(p, b, a, v);
  }

  /** Live findings whose control some static finding carries, flagged in place. */
  method Corroborate(vulns: seq<Vuln>, live: array<Live>)
    modifies live
    ensures forall i :: 0 <= i < live.Length ==> live[i] == old(live[i]).(corroborates :=
              old(live[i]).corroborates || old(live[i]).controlId in StaticControls(vulns))
    ensures Within(old(live[..]), live[..]) && Within(live[..], old(live[..]))
  {
    hide StaticControls;
    var staticControls := StaticControls(vulns);
    for i := 0 to live.Length
      invariant forall j :: i <= j < live.Length ==> live[j] == old(live[j])
      invariant forall j :: 0 <= j < i ==> live[j] == old(live[j]).(corroborates :=
                  old(live[j]).corroborates || old(live[j]).controlId in staticControls)
    {
      if live[i].controlId in staticControls {
        live[i] := live[i].(corroborates := true);
      }
    }
    FlagsOnly(old(live[..]), live[..]);
  }

  /** Static findings marked in place from the live ones. */
  method MarkStatic(p: Policy, live: seq<Live>, vulns: array<Vuln>)
    modifies vulns
    ensures forall i :: 0 <= i < vulns.Length ==> Marked(p, live, old(vulns[i]), vulns[i])
  {
    hide *;
    ghost var was := vulns[..];
    var failControls := FailingControls(p, live);
    for i := 0 to vulns.Length
      invariant forall j :: i <= j < vulns.Length ==> vulns[j] == was[j]
      invariant forall j :: 0 <= j < i ==> vulns[j] == ByControl(failControls, was[j])
    {
      vulns[i] := ByControl(failControls, vulns[i]);
    }
    var strongest := BridgeVerdicts(p, live);
    for i := 0 to vulns.Length
      invariant forall j :: i <= j < vulns.Length ==> vulns[j] == ByControl(failControls, was[j])
      invariant forall j :: 0 <= j < i ==> vulns[j] == ByBridge(strongest, ByControl(failControls, was[j]))
    {
      vulns[i] := ByBridge(strongest, vulns[i]);
    }
    var passed := BridgePasses(p, live);
    for i := 0 to vulns.Length
      invariant forall j :: i <= j < vulns.Length ==> vulns[j] == ByBridge(strongest, ByControl(failControls, was[j]))
      invariant forall j :: 0 <= j < i ==> Marked(p, live, was[j], vulns[j])
    {
      vulns[i] := ByPass(strongest, passed, vulns[i]);
      LoopsMark(p, live, strongest, passed, was[i]);
    }
  }

  /** The correlation block of a hybrid scan: live findings flagged, then every static finding marked. */
  method MarkFindings(p: Policy, vulns: array<Vuln>, live: array<Live>)
    modifies vulns, live
    ensures forall i :: 0 <= i < vulns.Length ==> Marked(p, old(live[..]), old(vulns[i]), vulns[i])
    ensures forall i :: 0 <= i < live.Length ==> live[i] == old(live[i]).(corroborates :=
              old(live[i]).corroborates || old(live[i]).controlId in StaticControls(old(vulns[..])))
  {
    hide *;
    Corroborate(vulns[..], live);
    ghost var flagged := live[..];
    MarkStatic(p, live[..], vulns);
    forall i | 0 <= i < vulns.Length ensures Marked(p, old(live[..]), old(vulns[i]), vulns[i]) {
      CorroborationIsSilent(p, old(live[..]), flagged, old(vulns[i]), vulns[i]);
    }
  }

  // ----- what the marks mean

  /** No finding ends up both reproduced and contradicted, and a bridge confirmation is always a live confirmation. */
  lemma MarksAgree(p: Policy, live: seq<Live>, before: Vuln, after: Vuln)
    requires before.Unmarked() && Marked(p, live, before, after)
    ensures !(after.bridgeConfirmed && after.contradicted)
    ensures after.bridgeConfirmed ==> after.dynamicConfirmed
    ensures after.bridgeConfirmed <==> after.bridgeVerdict.Some?
  {
  }

  /** No live result is ever linked to a finding without an id, or with an empty one. */
  lemma EmptyIdIsUnlinked(p: Policy, live: seq<Live>, before: Vuln, after: Vuln)
    requires Marked(p, live, before, after) && (before.id == None || before.id == Some(""))
    ensures after == before.(dynamicConfirmed := after.dynamicConfirmed)
    ensures after.dynamicConfirmed <==>
              || before.dynamicConfirmed
              || exists f :: f in live && f.verdict in p.failing && f.controlId in before.controls
  {
  }

  /** A finding with an id is linked to the live findings that name it, by failing or by passing. */
  lemma LinkedById(p: Policy, live: seq<Live>, before: Vuln, after: Vuln, id: string)
    requires before.Unmarked() && Marked(p, live, before, after) && before.id == Some(id) && id != ""
    ensures after.bridgeConfirmed <==>
              exists f :: f in live && f.bridgeId == Some(id) && f.verdict in p.failing && p.RankOr(f.verdict, 0) >= 0
    ensures after.contradicted <==>
              && !after.bridgeConfirmed
              && exists f :: f in live && f.bridgeId == Some(id) && f.verdict == p.pass
  {
  }

  /** Every failing re-test confirms its static finding exactly when no failing verdict is given a negative rank. */
  lemma FailuresConfirmIff(p: Policy)
    ensures (forall live, f, id :: f in live && FailsFor(p, f, id) ==> Bridged(p, live, id))
       <==> (forall v :: v in p.failing && v in p.rank ==> p.rank[v] >= 0)
  {
    if v :| v in p.failing && v in p.rank && p.rank[v] < 0 {
      var id := Some("a");
      var f := Live("", v, "", id, false);
      var live := [f];
      assert f in live && FailsFor(p, f, id) && !Bridged(p, live, id);
    }
  }
}
