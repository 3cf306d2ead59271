/**
 The ASVS verdict functions of `AsvsService`: each merges a human attestation and automated findings
 into one verdict. Free-text fields of the results are left out; the verdict and its two bases are kept.
 */
module EvidenceMerge {
  import opened Base

  datatype Verdict = NotTested | Pass | ManualReview | Fail | NotApplicable

  datatype Basis = Confirmed | Unconfirmed | NoFindings

  datatype Result = Result(verdict: Verdict, passBasis: Option<Basis>, failBasis: Option<Basis>)

  /** A rule-catalog match: the controls it is tagged with and what confirmed it. */
  datatype Vuln = Vuln(controls: seq<string>, compliant: bool, llmConfirmed: bool, bridgeConfirmed: bool)

  /** A configuration, probe, live or capability finding for one control. */
  datatype Finding = Finding(controlId: string, verdict: Verdict, confirmed: bool)

  /** A known-vulnerability record; `dtlsRace` says its text names both a DTLS handshake and a race. */
  datatype Dependency = Dependency(vulnId: string, dtlsRace: bool)

  /** What a scan recorded; `present` is the truth of the summary itself. */
  datatype Summary = Summary(
    present: bool,
    totalFiles: nat,
    vulnerabilities: seq<Vuln>,
    capabilityFindings: seq<Finding>,
    configFindings: seq<Finding>,
    probeFindings: seq<Finding>,
    dynamicFindings: seq<Finding>,
    dependencyFindings: seq<Dependency>,
    dependencyResult: Option<Verdict>)

  datatype Strategy = ManualAttestation | StaticCode | ConfigInspection | DependencyScan | DynamicProbe | NoStrategy

  /** Which automated evidence a manually attested control also listens to. */
  datatype Hybrid = ByVulnerability | ByLiveFinding | ByCapability | ByDependency | AttestationOnly

  /** A rule's polarity, for the rules tagged with a control. */
  datatype Rule = Rule(compliant: bool)

  const UNTESTED := Result(NotTested, None, None)

  function Failed(basis: Basis): Result { Result(Fail, None, Some(basis)) }

  /** The two bases the findings' own verdicts call for. */
  function Direct(v: Verdict): Result {
    Result(v, if v == Pass then Some(Confirmed) else None,
           if v == Fail || v == ManualReview then Some(Confirmed) else None)
  }

  // ----- which findings are decisive

  predicate VulnerableHit(control: string, v: Vuln) {
    control in v.controls && !v.compliant
  }

  predicate ConfirmedHit(control: string, v: Vuln) {
    VulnerableHit(control, v) && (v.llmConfirmed || v.bridgeConfirmed)
  }

  predicate AnyConfirmed(control: string, vs: seq<Vuln>) {
    exists v :: v in vs && ConfirmedHit(control, v)
  }

  predicate AnyVulnerable(control: string, vs: seq<Vuln>) {
    exists v :: v in vs && VulnerableHit(control, v)
  }

  predicate AnyMatch(control: string, vs: seq<Vuln>) {
    exists v :: v in vs && control in v.controls
  }

  predicate AnyVerdict(control: string, fs: seq<Finding>, v: Verdict) {
    exists f :: f in fs && f.controlId == control && f.verdict == v
  }

  predicate AnyFor(control: string, fs: seq<Finding>) {
    exists f :: f in fs && f.controlId == control
  }

  /** `next(f for f in findings if f.control_id == control)`. */
  function FirstFor(control: string, fs: seq<Finding>): (r: Option<Finding>)
    ensures r == None <==> !AnyFor(control, fs)
    ensures r.Some? ==> r.value in fs && r.value.controlId == control
  {
    if fs == [] then None
    else if fs[0].controlId == control then Some(fs[0])
    else
      assert forall f :: f in fs <==> f == fs[0] || f in fs[1..];
      FirstFor(control, fs[1..])
  }

  // ----- the merge functions

  /** `_merge_attestation`; the argument is the stored answer. */
  function MergeAttestation(answer: Option<Verdict>): Result {
    if answer.None? then UNTESTED else Direct(answer.value)
  }

  /** `_merge_attestation_or_vulnerable_static`. */
  function MergeAttestationOrVulnerableStatic(control: string, s: Summary, answer: Option<Verdict>): Result {
    var hits := Filter(s.vulnerabilities, (v: Vuln) => VulnerableHit(control, v));
    var confirmed := Filter(hits, (v: Vuln) => v.llmConfirmed || v.bridgeConfirmed);
    if hits != [] && confirmed != [] then Failed(Confirmed) else MergeAttestation(answer)
  }

  /** `_merge_attestation_or_dynamic_finding`. */
  function MergeAttestationOrDynamicFinding(control: string, s: Summary, answer: Option<Verdict>): Result {
    var hits := Filter(s.dynamicFindings, (f: Finding) => f.controlId == control);
    if Filter(hits, (f: Finding) => f.verdict == Fail || f.confirmed) != [] then Failed(Confirmed)
    else MergeAttestation(answer)
  }

  /** `_merge_attestation_or_capability_finding`. */
  function MergeAttestationOrCapabilityFinding(control: string, s: Summary, answer: Option<Verdict>): Result {
    var hits := Filter(s.capabilityFindings, (f: Finding) => f.controlId == control);
    if Filter(hits, (f: Finding) => f.verdict == Fail || f.verdict == ManualReview) != [] then Failed(Confirmed)
    else MergeAttestation(answer)
  }

  /** `_merge_attestation_or_dependency_finding`. */
  function MergeAttestationOrDependencyFinding(s: Summary, answer: Option<Verdict>): Result {
    if Filter(s.dependencyFindings, (d: Dependency) => d.dtlsRace) != [] then Failed(Confirmed)
    else MergeAttestation(answer)
  }

  /** The choice `_compute_result` makes among them. */
  function MergeManual(control: string, s: Summary, h: Hybrid, answer: Option<Verdict>): Result {
    match h
    case ByVulnerability => MergeAttestationOrVulnerableStatic(control, s, answer)
    case ByLiveFinding => MergeAttestationOrDynamicFinding(control, s, answer)
    case ByCapability => MergeAttestationOrCapabilityFinding(control, s, answer)
    case ByDependency => MergeAttestationOrDependencyFinding(s, answer)
    case AttestationOnly => MergeAttestation(answer)
  }

  /** What overrules an attestation: never a clean result, only a decisive finding. */
  predicate Overruled(control: string, s: Summary, h: Hybrid) {
    match h
    case ByVulnerability => AnyConfirmed(control, s.vulnerabilities)
    case ByLiveFinding =>
      exists f :: f in s.dynamicFindings && f.controlId == control && (f.verdict == Fail || f.confirmed)
    case ByCapability =>
      AnyVerdict(control, s.capabilityFindings, Fail) || AnyVerdict(control, s.capabilityFindings, ManualReview)
    case ByDependency => exists d :: d in s.dependencyFindings && d.dtlsRace
    case AttestationOnly => false
  }

  lemma FilterFinds<T(!new)>(s: seq<T>, keep: T -> bool)
    ensures Filter(s, keep) != [] <==> exists x :: x in s && keep(x)
  {
    FilterMembers(s, keep);
    if Filter(s, keep) != [] {
      assert Filter(s, keep)[0] in Filter(s, keep);
    }
  }

  /**
   The five attestation merges in one line: a decisive finding fails the control, otherwise the stored answer stands.
   */
  lemma ManualMeaning(control: string, s: Summary, h: Hybrid, answer: Option<Verdict>)
    ensures MergeManual(control, s, h, answer)
       == if Overruled(control, s, h) then Failed(Confirmed) else MergeAttestation(answer)
  {
    hide Filter;
    match h
    case ByVulnerability =>
      var hits := Filter(s.vulnerabilities, (v: Vuln) => VulnerableHit(control, v));
      FilterMembers(s.vulnerabilities, (v: Vuln) => VulnerableHit(control, v));
      FilterFinds(hits, (v: Vuln) => v.llmConfirmed || v.bridgeConfirmed);
      assert forall v :: v in hits ==> hits != [];
    case ByLiveFinding =>
      FilterMembers(s.dynamicFindings, (f: Finding) => f.controlId == control);
      FilterFinds(Filter(s.dynamicFindings, (f: Finding) => f.controlId == control),
                  (f: Finding) => f.verdict == Fail || f.confirmed);
    case ByCapability =>
      FilterMembers(s.capabilityFindings, (f: Finding) => f.controlId == control);
      FilterFinds(Filter(s.capabilityFindings, (f: Finding) => f.controlId == control),
                  (f: Finding) => f.verdict == Fail || f.verdict == ManualReview);
    case ByDependency =>
      FilterFinds(s.dependencyFindings, (d: Dependency) => d.dtlsRace);
    case AttestationOnly =>
  }

  function MergeStatic(control: string, s: Summary, rules: seq<Rule>): Result {
    var cap := FirstFor(control, s.capabilityFindings);
    if cap.Some? then Direct(cap.value.verdict)
    else if AnyMatch(control, s.vulnerabilities) then
      if AnyVulnerable(control, s.vulnerabilities) then
        if AnyConfirmed(control, s.vulnerabilities) then Failed(Confirmed)
        else Result(ManualReview, None, Some(Unconfirmed))
      else Result(Pass, Some(Confirmed), None)
    else if !s.present then UNTESTED
    else if s.totalFiles == 0 then UNTESTED
    else if forall r :: r in rules ==> r.compliant then UNTESTED
    else Result(Pass, Some(NoFindings), None)
  }

  function MergeConfig(control: string, s: Summary): Result {
    if !AnyFor(control, s.configFindings) then UNTESTED
    else Direct(if AnyVerdict(control, s.configFindings, Fail) then Fail
                else if AnyVerdict(control, s.configFindings, Pass) then Pass else NotTested)
  }

  function MergeConfigOrDynamic(control: string, s: Summary): Result {
    if AnyVerdict(control, s.configFindings, Fail) || AnyVerdict(control, s.probeFindings, Fail) then Failed(Confirmed)
    else if AnyVerdict(control, s.configFindings, Pass) || AnyVerdict(control, s.probeFindings, Pass) then Direct(Pass)
    else UNTESTED
  }

  function MergeConfigOrCompliantStatic(control: string, s: Summary): Result {
    if AnyVerdict(control, s.configFindings, Pass)
       || (exists v :: v in s.vulnerabilities && control in v.controls && v.compliant)
    then Direct(Pass)
    else if AnyVerdict(control, s.configFindings, Fail) then Failed(Confirmed)
    else UNTESTED
  }

  function MergeDependency(control: string, s: Summary): Result {
    if control != "V15.2.1" || s.dependencyResult.None? then UNTESTED
    else
      var v := s.dependencyResult.value;
      if v == Pass then Result(Pass, Some(if s.dependencyFindings != [] then Confirmed else NoFindings), None)
      else Direct(v)
  }

  function MergeDynamic(control: string, s: Summary): Result {
    var f := FirstFor(control, s.probeFindings);
    if f.None? then UNTESTED else Direct(f.value.verdict)
  }

  /** `_compute_result`. */
  function ComputeResult(control: string, strategy: Strategy, h: Hybrid, s: Summary, answer: Option<Verdict>,
                         rules: seq<Rule>): Result {
    match strategy
    case ManualAttestation => MergeManual(control, s, h, answer)
    case StaticCode => MergeStatic(control, s, rules)
    case ConfigInspection =>
      if control == "V3.5.8" then MergeConfigOrCompliantStatic(control, s)
      else if control == "V3.4.1" || control == "V13.4.6" then MergeConfigOrDynamic(control, s)
      else MergeConfig(control, s)
    case DependencyScan => MergeDependency(control, s)
    case DynamicProbe => MergeDynamic(control, s)
    case NoStrategy => UNTESTED
  }

  // ----- properties

  /**
   Whatever the strategy and the evidence: a pass basis exactly with a pass, a fail basis exactly with a fail or a
   review.
   */
  lemma BasisAgrees(control: string, strategy: Strategy, h: Hybrid, s: Summary, answer: Option<Verdict>,
                    rules: seq<Rule>)
    ensures var r := ComputeResult(control, strategy, h, s, answer, rules);
      && (r.passBasis.Some? <==> r.verdict == Pass)
      && (r.failBasis.Some? <==> r.verdict == Fail || r.verdict == ManualReview)
  {
    hide MergeManual;
    ManualMeaning(control, s, h, answer);
  }

  // ----- when each verdict is given, in terms of the findings themselves

  /** `fs[k]` is the first finding for the control. */
  ghost predicate IsFirstFor(control: string, fs: seq<Finding>, k: int) {
    0 <= k < |fs| && fs[k].controlId == control && forall j :: 0 <= j < k ==> fs[j].controlId != control
  }

  lemma {:induction false} FirstForMeaning(control: string, fs: seq<Finding>, k: int)
    requires IsFirstFor(control, fs, k)
    ensures FirstFor(control, fs) == Some(fs[k])
    decreases k
  {
    if k == 0 {
    } else {
      assert fs[0].controlId != control;
      FirstForMeaning(control, fs[1..], k - 1);
    }
  }

  /**
   A static control without a capability finding fails exactly on a vulnerable match that the model or a live re-test
   confirmed, goes to review on vulnerable matches none of which is, and passes on compliant matches alone or, by
   absence, when code was swept with a rule that looks for violations.
   */
  lemma StaticMeaning(control: string, h: Hybrid, s: Summary, answer: Option<Verdict>, rules: seq<Rule>)
    requires forall f :: f in s.capabilityFindings ==> f.controlId != control
    ensures var r := ComputeResult(control, StaticCode, h, s, answer, rules);
      && (r == Result(Fail, None, Some(Confirmed)) <==>
            exists v :: v in s.vulnerabilities && control in v.controls && !v.compliant
                        && (v.llmConfirmed || v.bridgeConfirmed))
      && (r == Result(ManualReview, None, Some(Unconfirmed)) <==>
            && (exists v :: v in s.vulnerabilities && control in v.controls && !v.compliant)
            && forall v :: v in s.vulnerabilities && control in v.controls && !v.compliant ==>
                 !v.llmConfirmed && !v.bridgeConfirmed)
      && (r == Result(Pass, Some(Confirmed), None) <==>
            && (exists v :: v in s.vulnerabilities && control in v.controls)
            && forall v :: v in s.vulnerabilities && control in v.controls ==> v.compliant)
      && (r == Result(Pass, Some(NoFindings), None) <==>
            && (forall v :: v in s.vulnerabilities ==> control !in v.controls)
            && s.present && s.totalFiles > 0 && exists rule :: rule in rules && !rule.compliant)
      && (r == Result(NotTested, None, None) <==>
            && (forall v :: v in s.vulnerabilities ==> control !in v.controls)
            && (!s.present || s.totalFiles == 0 || forall rule :: rule in rules ==> rule.compliant))
  {
    assert FirstFor(control, s.capabilityFindings) == None;
  }

  /** The first capability finding for a static control, and the first probe result for a probed one, is the verdict. */
  lemma FirstDecides(control: string, strategy: Strategy, h: Hybrid, s: Summary, answer: Option<Verdict>,
                     rules: seq<Rule>, k: int)
    requires strategy == StaticCode || strategy == DynamicProbe
    requires IsFirstFor(control, if strategy == StaticCode then s.capabilityFindings else s.probeFindings, k)
    ensures ComputeResult(control, strategy, h, s, answer, rules).verdict
         == (if strategy == StaticCode then s.capabilityFindings else s.probeFindings)[k].verdict
  {
    FirstForMeaning(control, if strategy == StaticCode then s.capabilityFindings else s.probeFindings, k);
  }

  lemma UnprobedIsUntested(control: string, h: Hybrid, s: Summary, answer: Option<Verdict>, rules: seq<Rule>)
    requires forall f :: f in s.probeFindings ==> f.controlId != control
    ensures ComputeResult(control, DynamicProbe, h, s, answer, rules) == Result(NotTested, None, None)
  {
    assert FirstFor(control, s.probeFindings) == None;
  }

  /** Some finding of the list gives this control this verdict. */
  ghost predicate Says(control: string, fs: seq<Finding>, v: Verdict) {
    exists f :: f in fs && f.controlId == control && f.verdict == v
  }

  /**
   A configuration control fails on a failing finding and passes on passing ones alone; V3.4.1 and V13.4.6 listen to
   the probes as well; V3.5.8 passes on any passing finding or compliant match, whatever fails.
   */
  lemma ConfigMeaning(control: string, h: Hybrid, s: Summary, answer: Option<Verdict>, rules: seq<Rule>)
    ensures var r := ComputeResult(control, ConfigInspection, h, s, answer, rules);
      var probed := control == "V3.4.1" || control == "V13.4.6";
      var fails := Says(control, s.configFindings, Fail) || (probed && Says(control, s.probeFindings, Fail));
      var passes := || Says(control, s.configFindings, Pass) || (probed && Says(control, s.probeFindings, Pass))
                    || (control == "V3.5.8"
                        && exists v :: v in s.vulnerabilities && control in v.controls && v.compliant);
      && (r == Result(Fail, None, Some(Confirmed)) <==> fails && (control == "V3.5.8" ==> !passes))
      && (r == Result(Pass, Some(Confirmed), None) <==> passes && (control != "V3.5.8" ==> !fails))
      && (r == Result(NotTested, None, None) <==> !fails && !passes)
  {
  }

  /** V15.2.1 takes over the dependency scan's own verdict; no other control is decided by it. */
  lemma DependencyMeaning(control: string, h: Hybrid, s: Summary, answer: Option<Verdict>, rules: seq<Rule>)
    ensures var r := ComputeResult(control, DependencyScan, h, s, answer, rules);
      && (control != "V15.2.1" || s.dependencyResult == None ==> r == Result(NotTested, None, None))
      && (control == "V15.2.1" && s.dependencyResult.Some? ==>
            && r.verdict == s.dependencyResult.value
            && (r.passBasis == Some(NoFindings) <==> r.verdict == Pass && |s.dependencyFindings| == 0)
            && r.failBasis != Some(Unconfirmed))
  {
  }

  /**
   A manually attested control fails with a confirmed basis exactly when somebody answered so or the evidence it
   listens to holds a decisive finding.
   */
  lemma ManualFailsIff(control: string, h: Hybrid, s: Summary, answer: Option<Verdict>, rules: seq<Rule>)
    ensures ComputeResult(control, ManualAttestation, h, s, answer, rules) == Result(Fail, None, Some(Confirmed)) <==>
      || answer == Some(Fail)
      || (h == ByVulnerability && exists v :: v in s.vulnerabilities && control in v.controls && !v.compliant
                                              && (v.llmConfirmed || v.bridgeConfirmed))
      || (h == ByLiveFinding && exists f :: f in s.dynamicFindings && f.controlId == control
                                            && (f.verdict == Fail || f.confirmed))
      || (h == ByCapability && exists f :: f in s.capabilityFindings && f.controlId == control
                                           && (f.verdict == Fail || f.verdict == ManualReview))
      || (h == ByDependency && exists d :: d in s.dependencyFindings && d.dtlsRace)
  {
    hide MergeManual;
    ManualMeaning(control, s, h, answer);
  }

  /** Any other outcome is the stored answer, or not tested without one. */
  lemma ManualOtherwise(control: string, h: Hybrid, s: Summary, answer: Option<Verdict>, rules: seq<Rule>)
    requires ComputeResult(control, ManualAttestation, h, s, answer, rules) != Result(Fail, None, Some(Confirmed))
    ensures ComputeResult(control, ManualAttestation, h, s, answer, rules).verdict
         == if answer.Some? then answer.value else NotTested
  {
    hide MergeManual;
    ManualMeaning(control, s, h, answer);
  }

  function Rank(v: Verdict): int {
    match v
    case NotTested => 0
    case Pass => 1
    case ManualReview => 2
    case Fail => 3
    case NotApplicable => 1
  }

  /** Every finding of `s` is among those of `t`; nothing is said about order or repetition. */
  ghost predicate FewerFindings(s: Summary, t: Summary) {
    && s.present == t.present && s.totalFiles == t.totalFiles && s.dependencyResult == t.dependencyResult
    && (forall v :: v in s.vulnerabilities ==> v in t.vulnerabilities)
    && (forall f :: f in s.capabilityFindings ==> f in t.capabilityFindings)
    && (forall f :: f in s.configFindings ==> f in t.configFindings)
    && (forall f :: f in s.probeFindings ==> f in t.probeFindings)
    && (forall f :: f in s.dynamicFindings ==> f in t.dynamicFindings)
    && (forall d :: d in s.dependencyFindings ==> d in t.dependencyFindings)
  }

  /**
   The strategies whose verdict only ever rises with more findings; a capability finding replaces the static verdict.
   */
  ghost predicate Monotone(control: string, strategy: Strategy, t: Summary) {
    && (strategy == StaticCode ==> !AnyFor(control, t.capabilityFindings))
    && (strategy == ConfigInspection ==> control != "V3.5.8")
    && strategy != DynamicProbe
  }

  /** More findings never lower the verdict in the order not tested, pass, manual review, fail. */
  lemma MoreFindingsRaise(control: string, strategy: Strategy, h: Hybrid, s: Summary, t: Summary,
                          answer: Option<Verdict>, rules: seq<Rule>)
    requires FewerFindings(s, t) && Monotone(control, strategy, t)
    ensures Rank(ComputeResult(control, strategy, h, s, answer, rules).verdict)
         <= Rank(ComputeResult(control, strategy, h, t, answer, rules).verdict)
  {
    hide MergeManual;
    ManualMeaning(control, s, h, answer);
    ManualMeaning(control, t, h, answer);
  }

  /** No added findings whatever can lower the verdict `s` gives. */
  ghost predicate NeverLowered(control: string, strategy: Strategy, h: Hybrid, s: Summary, answer: Option<Verdict>,
                               rules: seq<Rule>) {
    forall t :: FewerFindings(s, t) ==>
      Rank(ComputeResult(control, strategy, h, s, answer, rules).verdict)
      <= Rank(ComputeResult(control, strategy, h, t, answer, rules).verdict)
  }

  /**
   Where the first finding in a list decides, or a configuration pass outranks a failure, some addition lowers the
   verdict.
   */
  lemma Lowering(control: string, strategy: Strategy, h: Hybrid, s: Summary, answer: Option<Verdict>, rules: seq<Rule>)
    returns (t: Summary)
    requires var v := ComputeResult(control, strategy, h, s, answer, rules).verdict;
      || ((strategy == StaticCode || strategy == DynamicProbe) && v != NotTested)
      || (strategy == ConfigInspection && control == "V3.5.8" && v == Fail)
    ensures FewerFindings(s, t)
    ensures Rank(ComputeResult(control, strategy, h, t, answer, rules).verdict)
          < Rank(ComputeResult(control, strategy, h, s, answer, rules).verdict)
  {
    var skipped, passing := Finding(control, NotTested, false), Finding(control, Pass, false);
    if strategy == StaticCode {
      t := s.(capabilityFindings := [skipped] + s.capabilityFindings);
      assert FirstFor(control, t.capabilityFindings) == Some(skipped);
    } else if strategy == DynamicProbe {
      t := s.(probeFindings := [skipped] + s.probeFindings);
      assert FirstFor(control, t.probeFindings) == Some(skipped);
    } else {
      t := s.(configFindings := [passing] + s.configFindings);
      assert passing in t.configFindings;
    }
  }

  /**
   The static verdict stands on nothing: the first capability finding says so, or nothing matched and nothing was swept.
   */
  predicate StaticSilent(control: string, s: Summary, rules: seq<Rule>) {
    var cap := FirstFor(control, s.capabilityFindings);
    if cap.Some? then cap.value.verdict == NotTested
    else
      && !AnyMatch(control, s.vulnerabilities)
      && (!s.present || s.totalFiles == 0 || forall r :: r in rules ==> r.compliant)
  }

  predicate ProbeSilent(control: string, s: Summary) {
    var f := FirstFor(control, s.probeFindings);
    f.None? || f.value.verdict == NotTested
  }

  /** Something passes V3.5.8: a configuration finding, or a compliant match. */
  predicate PassEvidence(control: string, s: Summary) {
    || AnyVerdict(control, s.configFindings, Pass)
    || exists v :: v in s.vulnerabilities && control in v.controls && v.compliant
  }

  /**
   Which summaries are safe from having their verdict lowered, whatever is added: all of them, except that
   where the first finding in a list decides only a silent one is, and where a pass outranks a failure only
   one that has its pass already, or has nothing failing.
   */
  lemma NeverLoweredIff(control: string, strategy: Strategy, h: Hybrid, s: Summary, answer: Option<Verdict>,
                        rules: seq<Rule>)
    ensures NeverLowered(control, strategy, h, s, answer, rules) <==>
      && (strategy == StaticCode ==> StaticSilent(control, s, rules))
      && (strategy == DynamicProbe ==> ProbeSilent(control, s))
      && (strategy == ConfigInspection && control == "V3.5.8" ==>
            PassEvidence(control, s) || !AnyVerdict(control, s.configFindings, Fail))
  {
    SilentMeans(control, strategy, h, s, answer, rules);
    hide ComputeResult, StaticSilent, ProbeSilent, PassEvidence, AnyVerdict;
    var v := ComputeResult(control, strategy, h, s, answer, rules).verdict;
    if (strategy == StaticCode || strategy == DynamicProbe ==> v == NotTested)
       && (strategy == ConfigInspection && control == "V3.5.8" ==> v != Fail) {
      forall t | FewerFindings(s, t)
        ensures Rank(v) <= Rank(ComputeResult(control, strategy, h, t, answer, rules).verdict) {
        if strategy == ConfigInspection && control == "V3.5.8" {
          PassOutranksFail(control, h, s, t, answer, rules);
        } else if strategy != StaticCode && strategy != DynamicProbe {
          MoreFindingsRaise(control, strategy, h, s, t, answer, rules);
        }
      }
    } else {
      var t := Lowering(control, strategy, h, s, answer, rules);
    }
  }

  /** The guards in terms of the verdict they lead to. */
  lemma SilentMeans(control: string, strategy: Strategy, h: Hybrid, s: Summary, answer: Option<Verdict>,
                    rules: seq<Rule>)
    ensures var v := ComputeResult(control, strategy, h, s, answer, rules).verdict;
      && (strategy == StaticCode ==> (v == NotTested <==> StaticSilent(control, s, rules)))
      && (strategy == DynamicProbe ==> (v == NotTested <==> ProbeSilent(control, s)))
      && (strategy == ConfigInspection && control == "V3.5.8" ==>
            (v == Fail <==> !PassEvidence(control, s) && AnyVerdict(control, s.configFindings, Fail)))
  {
  }

  /** Exactly which additions lower V3.5.8: the first pass, on top of a failure. */
  lemma CompliantLowersIff(h: Hybrid, s: Summary, t: Summary, answer: Option<Verdict>, rules: seq<Rule>)
    requires FewerFindings(s, t)
    ensures Rank(ComputeResult("V3.5.8", ConfigInspection, h, t, answer, rules).verdict)
          < Rank(ComputeResult("V3.5.8", ConfigInspection, h, s, answer, rules).verdict)
       <==> AnyVerdict("V3.5.8", s.configFindings, Fail) && !PassEvidence("V3.5.8", s) && PassEvidence("V3.5.8", t)
  {
  }

  /**
   Exactly which additions lower a static verdict: those whose first capability finding ranks below what the code said.
   */
  lemma CapabilityLowersIff(control: string, h: Hybrid, s: Summary, t: Summary, answer: Option<Verdict>,
                            rules: seq<Rule>)
    requires FewerFindings(s, t)
    ensures Rank(ComputeResult(control, StaticCode, h, t, answer, rules).verdict)
          < Rank(ComputeResult(control, StaticCode, h, s, answer, rules).verdict)
       <==> var cap := FirstFor(control, t.capabilityFindings);
            cap.Some? && Rank(cap.value.verdict) < Rank(ComputeResult(control, StaticCode, h, s, answer, rules).verdict)
  {
    if FirstFor(control, t.capabilityFindings).None? {
      MoreFindingsRaise(control, StaticCode, h, s, t, answer, rules);
    }
  }

  lemma PassOutranksFail(control: string, h: Hybrid, s: Summary, t: Summary, answer: Option<Verdict>, rules: seq<Rule>)
    requires FewerFindings(s, t) && control == "V3.5.8"
    requires ComputeResult(control, ConfigInspection, h, s, answer, rules).verdict != Fail
    ensures Rank(ComputeResult(control, ConfigInspection, h, s, answer, rules).verdict)
         <= Rank(ComputeResult(control, ConfigInspection, h, t, answer, rules).verdict)
  {
  }

  /** The findings of one control all carry one verdict. */
  ghost predicate Agree(control: string, fs: seq<Finding>) {
    forall f, g :: f in fs && g in fs && f.controlId == control && g.controlId == control ==> f.verdict == g.verdict
  }

  /** Rearranging or repeating findings never changes the result. */
  ghost predicate OnlyTheSetMatters(control: string, strategy: Strategy, h: Hybrid, s: Summary,
                                    answer: Option<Verdict>, rules: seq<Rule>) {
    forall t :: FewerFindings(s, t) && FewerFindings(t, s) ==>
      ComputeResult(control, strategy, h, s, answer, rules) == ComputeResult(control, strategy, h, t, answer, rules)
  }

  /** What has to agree for order not to matter: the findings whose first one decides. */
  ghost predicate FirstIsTypical(control: string, strategy: Strategy, s: Summary) {
    && (strategy == StaticCode ==> Agree(control, s.capabilityFindings))
    && (strategy == DynamicProbe ==> Agree(control, s.probeFindings))
  }

  lemma SameFirst(control: string, a: seq<Finding>, b: seq<Finding>)
    requires Agree(control, a) && forall f :: f in a <==> f in b
    ensures FirstFor(control, a).Some? <==> FirstFor(control, b).Some?
    ensures FirstFor(control, a).Some? ==> FirstFor(control, a).value.verdict == FirstFor(control, b).value.verdict
  {
  }

  lemma SameSetSameResult(control: string, strategy: Strategy, h: Hybrid, s: Summary, t: Summary,
                          answer: Option<Verdict>, rules: seq<Rule>)
    requires FewerFindings(s, t) && FewerFindings(t, s) && FirstIsTypical(control, strategy, s)
    ensures ComputeResult(control, strategy, h, s, answer, rules)
       == ComputeResult(control, strategy, h, t, answer, rules)
  {
    hide Agree, FirstFor, MergeManual;
    if strategy == ManualAttestation {
      ManualMeaning(control, s, h, answer);
      ManualMeaning(control, t, h, answer);
    } else if strategy == StaticCode {
      SameFirst(control, s.capabilityFindings, t.capabilityFindings);
    } else if strategy == DynamicProbe {
      SameFirst(control, s.probeFindings, t.probeFindings);
    } else {
      assert |s.dependencyFindings| > 0 ==> s.dependencyFindings[0] in t.dependencyFindings;
      assert |t.dependencyFindings| > 0 ==> t.dependencyFindings[0] in s.dependencyFindings;
    }
  }

  /** Moving a dissenting finding to the front changes the result. */
  lemma Reordering(control: string, strategy: Strategy, h: Hybrid, s: Summary, answer: Option<Verdict>,
                   rules: seq<Rule>)
    returns (t: Summary)
    requires !FirstIsTypical(control, strategy, s)
    ensures FewerFindings(s, t) && FewerFindings(t, s)
    ensures ComputeResult(control, strategy, h, s, answer, rules)
         != ComputeResult(control, strategy, h, t, answer, rules)
  {
    var v := ComputeResult(control, strategy, h, s, answer, rules).verdict;
    if strategy == StaticCode {
      var f := Dissenter(control, s.capabilityFindings, v);
      t := s.(capabilityFindings := [f] + s.capabilityFindings);
      assert FirstFor(control, t.capabilityFindings) == Some(f);
    } else {
      var f := Dissenter(control, s.probeFindings, v);
      t := s.(probeFindings := [f] + s.probeFindings);
      assert FirstFor(control, t.probeFindings) == Some(f);
    }
  }

  /**
   Order matters exactly where the first finding decides and the findings do not agree: capability findings and probes.
   */
  lemma OnlyTheSetMattersIff(control: string, strategy: Strategy, h: Hybrid, s: Summary, answer: Option<Verdict>,
                             rules: seq<Rule>)
    ensures OnlyTheSetMatters(control, strategy, h, s, answer, rules) <==> FirstIsTypical(control, strategy, s)
  {
    hide ComputeResult, FirstIsTypical;
    if FirstIsTypical(control, strategy, s) {
      forall t | FewerFindings(s, t) && FewerFindings(t, s)
        ensures ComputeResult(control, strategy, h, s, answer, rules)
           == ComputeResult(control, strategy, h, t, answer, rules) {
        SameSetSameResult(control, strategy, h, s, t, answer, rules);
      }
    } else {
      var t := Reordering(control, strategy, h, s, answer, rules);
    }
  }

  lemma Dissenter(control: string, fs: seq<Finding>, v: Verdict) returns (f: Finding)
    requires !Agree(control, fs)
    ensures f in fs && f.controlId == control && f.verdict != v
  {
    var a, b :| a in fs && b in fs && a.controlId == control && b.controlId == control && a.verdict != b.verdict;
    f := if a.verdict != v then a else b;
  }

  /** A manually attested control passes exactly when a human said pass and nothing overrules it. */
  lemma ManualPassIff(control: string, h: Hybrid, s: Summary, answer: Option<Verdict>, rules: seq<Rule>)
    ensures ComputeResult(control, ManualAttestation, h, s, answer, rules).verdict == Pass
            <==> answer == Some(Pass) && !Overruled(control, s, h)
  {
    ManualMeaning(control, s, h, answer);
  }

  /** Added findings leave a manually attested control alone or fail it. */
  lemma FindingsOnlyFailManual(control: string, h: Hybrid, s: Summary, t: Summary, answer: Option<Verdict>,
                               rules: seq<Rule>)
    requires FewerFindings(s, t)
    ensures var before, after := ComputeResult(control, ManualAttestation, h, s, answer, rules),
                                 ComputeResult(control, ManualAttestation, h, t, answer, rules);
      after == before || after == Failed(Confirmed)
  {
    hide MergeManual;
    ManualMeaning(control, s, h, answer);
    ManualMeaning(control, t, h, answer);
  }
}
