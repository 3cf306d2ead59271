/** The slices a classification handles, and the ledger of what became of each. */
module ClassifierLedger {
  import opened Base
  import opened Sorting

  /** `confidence` is already lower-cased; `presenceRegex` says it is a REGEX slice of a presence rule. */
  datatype Slice = Slice(id: string, confidence: string, presenceRegex: bool)

  datatype Vulnerability = Vulnerability(sliceId: string, severity: string, confidence: real)

  datatype Route = Static | Worker | Fallback | OverBudget

  /** One classification: which slice, by which route, and what came of it (nothing when judged safe). */
  datatype Done = Done(slice: Slice, route: Route, result: Option<Vulnerability>)

  function ConfidenceRank(s: Slice): int {
    match s.confidence
    case "critical" => 4
    case "high" => 3
    case "medium" => 2
    case "low" => 1
    case _ => 0
  }

  function SeverityRank(severity: string): int {
    match severity
    case "critical" => 0
    case "high" => 1
    case "medium" => 2
    case "low" => 3
    case "info" => 4
    case _ => 5
  }

  /** `sorted(..., key=confidence rank, reverse=True)`. */
  predicate MoreConfident(a: Slice, b: Slice) {
    ConfidenceRank(a) > ConfidenceRank(b)
  }

  /** The final sort key: severity rank, then descending confidence. */
  predicate MoreSevere(a: Vulnerability, b: Vulnerability) {
    || SeverityRank(a.severity) < SeverityRank(b.severity)
    || (SeverityRank(a.severity) == SeverityRank(b.severity) && a.confidence > b.confidence)
  }

  predicate NeedsLlm(s: Slice) {
    !s.presenceRegex
  }

  ghost function SlicesOf(ledger: seq<Done>): seq<Slice> {
    seq(|ledger|, i requires 0 <= i < |ledger| => ledger[i].slice)
  }

  function ResultsOf(ledger: seq<Done>): seq<Vulnerability> {
    if ledger == [] then []
    else ResultsOf(ledger[..|ledger| - 1]) + (if Last(ledger).result.Some? then [Last(ledger).result.value] else [])
  }

  ghost function RouteCount(ledger: seq<Done>, route: Route): nat {
    if ledger == [] then 0
    else RouteCount(ledger[..|ledger| - 1], route) + if Last(ledger).route == route then 1 else 0
  }

  function Keep(slices: seq<Slice>, llm: bool): seq<Slice> {
    if slices == [] then []
    else Keep(slices[..|slices| - 1], llm) + (if NeedsLlm(Last(slices)) == llm then [Last(slices)] else [])
  }

  // ----- ledgers

  lemma AddDone(ledger: seq<Done>, d: Done)
    ensures SlicesOf(ledger + [d]) == SlicesOf(ledger) + [d.slice]
    ensures ResultsOf(ledger + [d]) == ResultsOf(ledger) + (if d.result.Some? then [d.result.value] else [])
    ensures forall r :: RouteCount(ledger + [d], r) == RouteCount(ledger, r) + if d.route == r then 1 else 0
  {
    assert (ledger + [d])[..|ledger|] == ledger;
  }

  lemma {:induction false} Joined(a: seq<Done>, b: seq<Done>)
    ensures SlicesOf(a + b) == SlicesOf(a) + SlicesOf(b)
    ensures ResultsOf(a + b) == ResultsOf(a) + ResultsOf(b)
    ensures forall r :: RouteCount(a + b, r) == RouteCount(a, r) + RouteCount(b, r)
  {
    if b == [] {
      assert a + b == a;
    } else {
      var front := b[..|b| - 1];
      Joined(a, front);
      AddDone(a + front, Last(b));
      AddDone(front, Last(b));
      assert a + b == a + front + [Last(b)] && b == front + [Last(b)];
    }
  }

  lemma {:induction false} KeepSplits(slices: seq<Slice>)
    ensures multiset(Keep(slices, true)) + multiset(Keep(slices, false)) == multiset(slices)
  {
    if slices == [] {
    } else {
      KeepSplits(slices[..|slices| - 1]);
      assert slices == slices[..|slices| - 1] + [Last(slices)];
    }
  }

  lemma {:induction false} KeepSorted(slices: seq<Slice>, llm: bool)
    requires SortedBy(slices, MoreConfident)
    ensures SortedBy(Keep(slices, llm), MoreConfident)
    ensures forall s :: s in Keep(slices, llm) ==> s in slices && (NeedsLlm(s) <==> llm)
  {
    if slices == [] {
    } else {
      var front := slices[..|slices| - 1];
      KeepSorted(front, llm);
      assert slices == front + [Last(slices)];
      forall s | s in Keep(front, llm) ensures !MoreConfident(Last(slices), s) {
        var i :| 0 <= i < |front| && front[i] == s;
        assert slices[i] == s;
      }
    }
  }

  /** Confidence falls along this list; any other label comes last. */
  lemma ConfidenceOrder(a: Slice, b: Slice)
    ensures var order := ["critical", "high", "medium", "low"];
      MoreConfident(a, b) <==> PlaceIn(order, a.confidence) < PlaceIn(order, b.confidence)
  {
    FourPlaces(a.confidence);
    FourPlaces(b.confidence);
  }

  /** Severity falls along this list; any other label comes last, and equal severities go by confidence. */
  lemma SeverityOrder(a: Vulnerability, b: Vulnerability)
    ensures var order := ["critical", "high", "medium", "low", "info"];
      var p, q := PlaceIn(order, a.severity), PlaceIn(order, b.severity);
      MoreSevere(a, b) <==> p < q || (p == q && a.confidence > b.confidence)
  {
    FivePlaces(a.severity);
    FivePlaces(b.severity);
  }

  lemma FivePlaces(x: string)
    ensures PlaceIn(["critical", "high", "medium", "low", "info"], x) == SeverityRank(x)
  {
    var order := ["critical", "high", "medium", "low", "info"];
    assert order[1..] == ["high", "medium", "low", "info"] && order[1..][1..] == ["medium", "low", "info"];
    assert ["medium", "low", "info"][1..] == ["low", "info"] && ["low", "info"][1..] == ["info"];
    assert ["info"][1..] == [];
  }

  lemma ConfidenceIsWeakOrder()
    ensures WeakOrder(MoreConfident) && WeakOrder(MoreSevere)
  {
  }
}
