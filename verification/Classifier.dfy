/**
 `SliceClassifier.classify_slices`: a budget split, the concurrent workers, a fallback drain, and a final sort.
 */
module Classifier {
  import opened Base
  import opened ClassifierLedger
  import opened Sorting
  import opened WorkerQueue

  type Judge = Slice -> Option<Vulnerability>

  /** The slices beyond the budget are the least confident ones. */
  lemma CutIsByConfidence(llm: seq<Slice>, k: nat, a: Slice, b: Slice)
    requires SortedBy(llm, MoreConfident) && k <= |llm|
    requires a in llm[k..] && b in llm[..k]
    ensures ConfidenceRank(a) <= ConfidenceRank(b)
  {
    var i :| 0 <= i < |llm[k..]| && llm[k..][i] == a;
    var j :| 0 <= j < |llm[..k]| && llm[..k][j] == b;
    assert !MoreConfident(llm[k + i], llm[j]);
  }

  /** What every outcome of a classification satisfies. */
  ghost predicate Conserves(slices: seq<Slice>, ledger: seq<Done>, classified: seq<Vulnerability>) {
    && multiset(SlicesOf(ledger)) == multiset(slices)
    && multiset(classified) == multiset(ResultsOf(ledger))
    && SortedBy(classified, MoreSevere)
  }

  ghost predicate RespectsConfidence(ledger: seq<Done>) {
    forall a, b :: a in ledger && b in ledger && a.route == OverBudget && (b.route == Worker || b.route == Fallback) ==>
      ConfidenceRank(a.slice) <= ConfidenceRank(b.slice)
  }

  /** How many slices the budget leaves to the static fallback. */
  ghost function OverBudgetCount(slices: seq<Slice>, maxLlmCalls: int): nat {
    var llm := |Keep(slices, true)|;
    llm - SliceEnd(maxLlmCalls, llm)
  }

  lemma {:induction false} KeepCounts(slices: seq<Slice>, llm: bool, s: Slice)
    ensures multiset(Keep(slices, llm))[s] == if NeedsLlm(s) == llm then multiset(slices)[s] else 0
  {
    if slices == [] {
    } else {
      KeepCounts(slices[..|slices| - 1], llm, s);
      assert slices == slices[..|slices| - 1] + [Last(slices)];
    }
  }

  lemma KeepPermutes(a: seq<Slice>, b: seq<Slice>)
    requires multiset(a) == multiset(b)
    ensures |Keep(a, true)| == |Keep(b, true)|
  {
    forall s ensures multiset(Keep(a, true))[s] == multiset(Keep(b, true))[s] {
      KeepCounts(a, true, s);
      KeepCounts(b, true, s);
    }
    assert multiset(Keep(a, true)) == multiset(Keep(b, true));
    assert |Keep(a, true)| == |multiset(Keep(a, true))|;
    assert |Keep(b, true)| == |multiset(Keep(b, true))|;
  }

  // ----- sequential routes

  /** Every slice judged in turn by one fixed judge. */
  method JudgeAll(slices: seq<Slice>, route: Route, judge: Judge) returns (ledger: seq<Done>)
    ensures |ledger| == |slices|
    ensures forall i :: 0 <= i < |ledger| ==> ledger[i] == Done(slices[i], route, judge(slices[i]))
  {
    ledger := [];
    for i := 0 to |slices|
      invariant |ledger| == i
      invariant forall k :: 0 <= k < i ==> ledger[k] == Done(slices[k], route, judge(slices[k]))
    {
      ledger := ledger + [Done(slices[i], route, judge(slices[i]))];
    }
  }

  lemma {:induction false} UniformRoute(ledger: seq<Done>, slices: seq<Slice>, route: Route)
    requires |ledger| == |slices|
    requires forall i :: 0 <= i < |ledger| ==> ledger[i].slice == slices[i] && ledger[i].route == route
    ensures SlicesOf(ledger) == slices
    ensures forall r :: RouteCount(ledger, r) == if r == route then |ledger| else 0
  {
    if ledger == [] {
    } else {
      UniformRoute(ledger[..|ledger| - 1], slices[..|slices| - 1], route);
    }
  }

  /** Who judged each slice: presence-rule slices statically, the rest by a worker or by the fallback. */
  ghost predicate JudgedBy(ledger: seq<Done>, enableLlm: bool, judgeStatic: Judge, judge: Judge) {
    forall d :: d in ledger ==>
      if !enableLlm then d == Done(d.slice, Fallback, judge(d.slice))
      else if d.route == Static then d.slice.presenceRegex && d.result == judgeStatic(d.slice)
      else !d.slice.presenceRegex && (d.route != Worker ==> d.result == judge(d.slice))
  }

  /** What the workers put in the ledger is what they were answered. */
  ghost predicate AnsweredBy(ledger: seq<Done>, n: nat, answers: WorkerAnswers) {
    forall d :: d in ledger && d.route == Worker ==> exists i: nat :: i < n && d.result == answers(i, d.slice)
  }

  lemma OthersUnanswered(staticDone: seq<Done>, workerDone: seq<Done>, drained: seq<Done>, overDone: seq<Done>,
                         n: nat, answers: WorkerAnswers)
    requires forall d :: d in workerDone ==> exists i: nat :: i < n && d.result == answers(i, d.slice)
    requires forall d :: d in staticDone || d in drained || d in overDone ==> d.route != Worker
    ensures AnsweredBy(staticDone + ((workerDone + drained) + overDone), n, answers)
  {
    forall d | d in staticDone + ((workerDone + drained) + overDone) && d.route == Worker
      ensures exists i: nat :: i < n && d.result == answers(i, d.slice) {
      assert d in workerDone;
    }
  }

  lemma NoneAnswered(ledger: seq<Done>, n: nat, answers: WorkerAnswers)
    requires forall i :: 0 <= i < |ledger| ==> ledger[i].route != Worker
    ensures AnsweredBy(ledger, n, answers)
  {
  }

  lemma DisabledJudged(ledger: seq<Done>, judgeStatic: Judge, judge: Judge)
    requires forall i :: 0 <= i < |ledger| ==> ledger[i] == Done(ledger[i].slice, Fallback, judge(ledger[i].slice))
    ensures JudgedBy(ledger, false, judgeStatic, judge)
  {
  }

  lemma RoutesJudged(llm: seq<Slice>, rest: seq<Slice>, k: nat, queue: seq<Slice>, staticDone: seq<Done>,
                     workerDone: seq<Done>, drained: seq<Done>, overDone: seq<Done>, judgeStatic: Judge, judge: Judge)
    requires k <= |llm| && (forall s :: s in llm ==> NeedsLlm(s)) && (forall s :: s in rest ==> !NeedsLlm(s))
    requires forall s :: s in queue ==> s in llm[..k]
    requires |staticDone| == |rest| && forall i :: 0 <= i < |rest| ==>
      staticDone[i] == Done(rest[i], Static, judgeStatic(rest[i]))
    requires forall i :: 0 <= i < |workerDone| ==> workerDone[i].slice in llm[..k] && workerDone[i].route == Worker
    requires |drained| == |queue| && forall i :: 0 <= i < |queue| ==>
      drained[i] == Done(queue[i], Fallback, judge(queue[i]))
    requires |overDone| == |llm[k..]| && forall i :: 0 <= i < |overDone| ==>
      overDone[i] == Done(llm[k..][i], OverBudget, judge(llm[k..][i]))
    ensures JudgedBy(staticDone + ((workerDone + drained) + overDone), true, judgeStatic, judge)
  {
    var ledger := staticDone + ((workerDone + drained) + overDone);
    assert forall s :: s in llm[..k] || s in llm[k..] ==> s in llm;
    assert forall i :: 0 <= i < |rest| ==> rest[i] in rest;
    assert forall i :: 0 <= i < |queue| ==> queue[i] in queue;
    assert forall i :: 0 <= i < |overDone| ==> llm[k..][i] in llm[k..];
    forall d | d in ledger
      ensures if d.route == Static then d.slice.presenceRegex && d.result == judgeStatic(d.slice)
              else !d.slice.presenceRegex && (d.route != Worker ==> d.result == judge(d.slice))
    {
      assert d in staticDone || d in workerDone || d in drained || d in overDone;
    }
  }

  ghost predicate AllByRoute(done: seq<Done>, slices: seq<Slice>, route: Route) {
    |done| == |slices| && forall i :: 0 <= i < |done| ==> done[i].slice == slices[i] && done[i].route == route
  }

  /** The four routes together classify every slice once. */
  lemma AllRoutes(llm: seq<Slice>, rest: seq<Slice>, k: nat, queue: seq<Slice>,
                  staticDone: seq<Done>, workerDone: seq<Done>, drained: seq<Done>, overDone: seq<Done>)
    requires k <= |llm|
    requires AllByRoute(staticDone, rest, Static) && AllByRoute(drained, queue, Fallback) &&
      AllByRoute(overDone, llm[k..], OverBudget)
    requires forall i :: 0 <= i < |workerDone| ==> workerDone[i].route == Worker
    requires multiset(SlicesOf(workerDone)) + multiset(queue) == multiset(llm[..k])
    ensures var ledger := staticDone + ((workerDone + drained) + overDone);
      && multiset(SlicesOf(ledger)) == multiset(llm) + multiset(rest)
      && RouteCount(ledger, Worker) == |workerDone|
      && RouteCount(ledger, OverBudget) == |llm| - k
  {
    hide ResultsOf, RouteCount, SlicesOf;
    UniformRoute(staticDone, rest, Static);
    UniformRoute(drained, queue, Fallback);
    UniformRoute(overDone, llm[k..], OverBudget);
    WorkerSlices(workerDone);
    Joined(workerDone, drained);
    Joined(workerDone + drained, overDone);
    Joined(staticDone, (workerDone + drained) + overDone);
    assert llm == llm[..k] + llm[k..];
  }

  lemma {:induction false} WorkerSlices(workerDone: seq<Done>)
    requires forall i :: 0 <= i < |workerDone| ==> workerDone[i].route == Worker
    ensures forall r :: RouteCount(workerDone, r) == if r == Worker then |workerDone| else 0
  {
    UniformRoute(workerDone, SlicesOf(workerDone), Worker);
  }

  /** Nothing over budget outranks anything that was queued. */
  lemma BudgetFirst(llm: seq<Slice>, k: nat, queue: seq<Slice>,
                    staticDone: seq<Done>, workerDone: seq<Done>, drained: seq<Done>, overDone: seq<Done>)
    requires SortedBy(llm, MoreConfident) && k <= |llm|
    requires forall i :: 0 <= i < |staticDone| ==> staticDone[i].route == Static
    requires forall i :: 0 <= i < |workerDone| ==> workerDone[i].slice in llm[..k] && workerDone[i].route == Worker
    requires AllByRoute(drained, queue, Fallback) && (forall s :: s in queue ==> s in llm[..k])
    requires AllByRoute(overDone, llm[k..], OverBudget)
    ensures RespectsConfidence(staticDone + ((workerDone + drained) + overDone))
  {
    hide SortedBy, ConfidenceRank;
    var ledger := staticDone + ((workerDone + drained) + overDone);
    forall a, b | a in ledger && b in ledger && a.route == OverBudget && (b.route == Worker || b.route == Fallback)
      ensures ConfidenceRank(a.slice) <= ConfidenceRank(b.slice)
    {
      assert a in overDone;
      assert b in workerDone || b in drained;
      CutIsByConfidence(llm, k, a.slice, b.slice);
    }
  }

  /** The phases of a classification with the model on, over the slices sorted by confidence. */
  method ClassifyWithLlm(sortedSlices: seq<Slice>, maxLlmCalls: int, nWorkers: int,
                         judgeStatic: Judge, judge: Judge, deaths: Deaths, answers: WorkerAnswers)
    returns (ledger: seq<Done>, attempted: nat, workers: seq<WorkerState>)
    requires SortedBy(sortedSlices, MoreConfident)
    ensures multiset(SlicesOf(ledger)) == multiset(sortedSlices)
    ensures RouteCount(ledger, Worker) == attempted
    ensures maxLlmCalls >= 0 ==> attempted <= maxLlmCalls
    ensures RespectsConfidence(ledger) && RouteCount(ledger, OverBudget) == OverBudgetCount(sortedSlices, maxLlmCalls)
    ensures JudgedBy(ledger, true, judgeStatic, judge) && AnsweredBy(ledger, |workers|, answers)
    ensures |workers| == if nWorkers < 0 then 0 else if nWorkers < |Keep(sortedSlices, true)| then nWorkers
                         else |Keep(sortedSlices, true)|
    ensures forall i :: 0 <= i < |workers| ==> workers[i].Stopped?
    ensures attempted + OverBudgetCount(sortedSlices, maxLlmCalls) <= |Keep(sortedSlices, true)|
    ensures attempted + OverBudgetCount(sortedSlices, maxLlmCalls) < |Keep(sortedSlices, true)| ==>
              forall i :: 0 <= i < |workers| ==> workers[i] == Stopped(true)
    ensures forall i: nat :: i < |workers| && workers[i] == Stopped(true) ==> exists k: nat :: deaths(i, k)
  {
    hide StableSort, Keep, ResultsOf, RouteCount, SortedBy, SlicesOf, RespectsConfidence, ConfidenceRank, JudgedBy,
         WeakOrder, NeedsLlm, AnsweredBy;
    var llmSlices, staticSlices := Keep(sortedSlices, true), Keep(sortedSlices, false);
    KeepSplits(sortedSlices);
    KeepSorted(sortedSlices, true);
    KeepSorted(sortedSlices, false);
    var staticDone := JudgeAll(staticSlices, Static, judgeStatic);
    var k := SliceEnd(maxLlmCalls, |llmSlices|);
    var actualWorkers: nat := if nWorkers < 0 then 0 else if nWorkers < |llmSlices| then nWorkers else |llmSlices|;
    var queue, workerDone;
    queue, workerDone, attempted, workers := RunWorkers(llmSlices[..k], actualWorkers, deaths, answers);
    var drained := JudgeAll(queue, Fallback, judge);
    var overDone := JudgeAll(llmSlices[k..], OverBudget, judge);
    ledger := staticDone + ((workerDone + drained) + overDone);
    AllRoutes(llmSlices, staticSlices, k, queue, staticDone, workerDone, drained, overDone);
    BudgetFirst(llmSlices, k, queue, staticDone, workerDone, drained, overDone);
    RoutesJudged(llmSlices, staticSlices, k, queue, staticDone, workerDone, drained, overDone, judgeStatic, judge);
    OthersUnanswered(staticDone, workerDone, drained, overDone, actualWorkers, answers);
  }

  /**
   The classification: `judge` is `_fallback_classify`, `judgeStatic` is `classify_slice` on a presence-rule slice,
   `answers` are what the workers' models say and `deaths` when their pools die.
   */
  method ClassifySlices(slices: seq<Slice>, enableLlm: bool, maxLlmCalls: int, nWorkers: int,
                        judgeStatic: Judge, judge: Judge, deaths: Deaths, answers: WorkerAnswers)
    returns (classified: seq<Vulnerability>, ledger: seq<Done>, attempted: nat, workers: seq<WorkerState>)
    ensures Conserves(slices, ledger, classified)
    ensures RouteCount(ledger, Worker) == attempted
    ensures maxLlmCalls >= 0 ==> attempted <= maxLlmCalls
    ensures enableLlm ==> RespectsConfidence(ledger)
    ensures enableLlm ==> RouteCount(ledger, OverBudget) == OverBudgetCount(slices, maxLlmCalls)
    ensures JudgedBy(ledger, enableLlm, judgeStatic, judge)
    ensures enableLlm && Stopped(false) in workers ==>
      attempted + OverBudgetCount(slices, maxLlmCalls) == |Keep(slices, true)|
    ensures enableLlm && nWorkers >= 1 && Keep(slices, true) != [] ==> workers != []
    ensures enableLlm && nWorkers >= 1 && attempted + OverBudgetCount(slices, maxLlmCalls) < |Keep(slices, true)| ==>
      workers != [] && forall i :: 0 <= i < |workers| ==> workers[i] == Stopped(true)
    ensures workers != [] ==> enableLlm && |workers| <= nWorkers && |workers| <= |Keep(slices, true)|
    ensures enableLlm && 0 <= nWorkers <= |Keep(slices, true)| ==> |workers| == nWorkers
    ensures AnsweredBy(ledger, |workers|, answers)
    ensures forall i: nat :: i < |workers| && workers[i] == Stopped(true) ==> exists k: nat :: deaths(i, k)
    ensures enableLlm && nWorkers >= 1 && (forall i: nat, k: nat :: !deaths(i, k)) ==>
      attempted + OverBudgetCount(slices, maxLlmCalls) == |Keep(slices, true)|
  {
    hide StableSort, Keep, ResultsOf, RouteCount, SortedBy, SlicesOf, RespectsConfidence, ConfidenceRank, JudgedBy,
         WeakOrder, NeedsLlm, AnsweredBy;
    var sortedSlices := StableSort(slices, MoreConfident);
    ConfidenceIsWeakOrder();
    SortPermutes(slices, MoreConfident);
    SortSorts(slices, MoreConfident);
    if !enableLlm {
      ledger := JudgeAll(sortedSlices, Fallback, judge);
      UniformRoute(ledger, sortedSlices, Fallback);
      DisabledJudged(ledger, judgeStatic, judge);
      attempted, workers := 0, [];
      NoneAnswered(ledger, 0, answers);
    } else {
      ledger, attempted, workers :=
        ClassifyWithLlm(sortedSlices, maxLlmCalls, nWorkers, judgeStatic, judge, deaths, answers);
      KeepPermutes(slices, sortedSlices);
      assert workers != [] && workers[0] == Stopped(true) ==> exists k: nat :: deaths(0, k);
    }
    classified := StableSort(ResultsOf(ledger), MoreSevere);
    SortPermutes(ResultsOf(ledger), MoreSevere);
    SortSorts(ResultsOf(ledger), MoreSevere);
  }
}
