/**
 The concurrent phase of `classify_slices`: workers that pull from a shared queue until it is empty or their
 provider pool dies. Which worker moves next is nondeterministic, so the contract covers every interleaving; when pools
 die and what the model answers are inputs.
 */
module WorkerQueue {
  import opened Base
  import opened ClassifierLedger

  /** A worker is between slices, classifying one, or gone: because its pool died, or because it saw an empty queue. */
  datatype WorkerState = Idle | Busy(slice: Slice) | Stopped(poolDied: bool)

  /** Whether worker `i` finds its pool dead when it looks after `k` slices have been pulled in all. */
  type Deaths = (nat, nat) -> bool

  /** What worker `i` gets for a slice: a finding, or nothing. */
  type WorkerAnswers = (nat, Slice) -> Option<Vulnerability>

  ghost function Load(w: WorkerState): multiset<Slice> {
    if w.Busy? then multiset{w.slice} else multiset{}
  }

  ghost function Weight(w: WorkerState): nat {
    match w case Idle => 1 case Busy(_) => 2 case Stopped(_) => 0
  }

  ghost function InFlight(workers: seq<WorkerState>): multiset<Slice> {
    if workers == [] then multiset{} else InFlight(workers[..|workers| - 1]) + Load(Last(workers))
  }

  ghost function Activity(workers: seq<WorkerState>): nat {
    if workers == [] then 0 else Activity(workers[..|workers| - 1]) + Weight(Last(workers))
  }

  /** What one worker's move does to the work in flight and to the remaining activity. */
  lemma {:induction false} WorkerMoves(workers: seq<WorkerState>, i: nat, w: WorkerState)
    requires i < |workers|
    ensures InFlight(workers[i := w]) + Load(workers[i]) == InFlight(workers) + Load(w)
    ensures Activity(workers[i := w]) + Weight(workers[i]) == Activity(workers) + Weight(w)
    decreases |workers|
  {
    hide Load, Weight;
    var n := |workers| - 1;
    var next := workers[i := w];
    if i < n {
      WorkerMoves(workers[..n], i, w);
      assert next[..n] == workers[..n][i := w] && Last(next) == Last(workers);
      Swap(InFlight(next[..n]), Load(workers[i]), InFlight(workers[..n]), Load(w), Load(Last(workers)));
    } else {
      assert next[..n] == workers[..n];
      Commute(InFlight(workers[..n]), Load(w), Load(workers[i]));
    }
  }

  lemma Swap(a: multiset<Slice>, x: multiset<Slice>, b: multiset<Slice>, y: multiset<Slice>, c: multiset<Slice>)
    requires a + x == b + y
    ensures (a + c) + x == (b + c) + y
  {
    assert (a + c) + x == (a + x) + c;
    assert (b + c) + y == (b + y) + c;
  }

  lemma Commute(a: multiset<Slice>, x: multiset<Slice>, y: multiset<Slice>)
    ensures (a + x) + y == (a + y) + x
  {
  }

  lemma BusySliceInFlight(workers: seq<WorkerState>, i: nat)
    requires i < |workers| && workers[i].Busy?
    ensures InFlight(workers) == InFlight(workers[i := Idle]) + multiset{workers[i].slice}
  {
    hide InFlight, Activity;
    WorkerMoves(workers, i, Idle);
    assert InFlight(workers) + multiset{} == InFlight(workers);
  }

  lemma TakenSliceInFlight(workers: seq<WorkerState>, i: nat, slice: Slice)
    requires i < |workers| && workers[i] == Idle
    ensures InFlight(workers[i := Busy(slice)]) == InFlight(workers) + multiset{slice}
  {
    hide InFlight, Activity;
    WorkerMoves(workers, i, Busy(slice));
    assert InFlight(workers[i := Busy(slice)]) + multiset{} == InFlight(workers[i := Busy(slice)]);
  }

  lemma LeavingTakesNothing(workers: seq<WorkerState>, i: nat, died: bool)
    requires i < |workers| && workers[i] == Idle
    ensures InFlight(workers[i := Stopped(died)]) == InFlight(workers)
  {
    hide InFlight, Activity;
    WorkerMoves(workers, i, Stopped(died));
    assert InFlight(workers) + multiset{} == InFlight(workers);
    assert InFlight(workers[i := Stopped(died)]) + multiset{} == InFlight(workers[i := Stopped(died)]);
  }

  lemma ActivityMoves(workers: seq<WorkerState>, i: nat, w: WorkerState)
    requires i < |workers|
    ensures Activity(workers[i := w]) + Weight(workers[i]) == Activity(workers) + Weight(w)
  {
    WorkerMoves(workers, i, w);
  }

  lemma {:induction false} AllStopped(workers: seq<WorkerState>)
    requires forall i :: 0 <= i < |workers| ==> workers[i].Stopped?
    ensures InFlight(workers) == multiset{}
  {
    if workers == [] {
    } else {
      AllStopped(workers[..|workers| - 1]);
    }
  }

  /** `n` workers, none of them started. */
  function IdleWorkers(n: nat): (workers: seq<WorkerState>)
    ensures |workers| == n && forall i :: 0 <= i < n ==> workers[i] == Idle
  {
    if n == 0 then [] else IdleWorkers(n - 1) + [Idle]
  }

  lemma {:induction false} AllIdle(n: nat)
    ensures InFlight(IdleWorkers(n)) == multiset{}
  {
    if n == 0 {
    } else {
      AllIdle(n - 1);
      assert IdleWorkers(n)[..n - 1] == IdleWorkers(n - 1);
    }
  }

  /** The concurrent phase: what is queued, what each worker holds, what has been classified. */
  datatype Phase = Phase(queue: seq<Slice>, workers: seq<WorkerState>, ledger: seq<Done>, attempted: nat)

  /**
   What every reachable phase satisfies: each slice is queued, in flight or classified, exactly once, and only a dead
   pool leaves slices behind.
   */
  ghost predicate Reachable(initial: seq<Slice>, p: Phase) {
    && p.attempted <= |initial| && p.queue == initial[p.attempted..]
    && multiset(SlicesOf(p.ledger)) + InFlight(p.workers) + multiset(p.queue) == multiset(initial)
    && |p.ledger| + |InFlight(p.workers)| == p.attempted
    && (forall i :: 0 <= i < |p.ledger| ==> p.ledger[i].route == Worker && p.ledger[i].slice in initial)
    && (p.queue != [] ==> forall i :: 0 <= i < |p.workers| ==> p.workers[i] != Stopped(false))
  }

  /** Every classification is some worker's answer, and every worker that gave up had found its pool dead. */
  ghost predicate Explained(p: Phase, deaths: Deaths, answers: WorkerAnswers) {
    && (forall d :: d in p.ledger ==> exists i: nat :: i < |p.workers| && d.result == answers(i, d.slice))
    && forall i: nat :: i < |p.workers| && p.workers[i] == Stopped(true) ==> exists k: nat :: deaths(i, k)
  }

  ghost function Remaining(p: Phase): nat {
    3 * |p.queue| + Activity(p.workers)
  }

  function Finish(p: Phase, i: nat, answer: Option<Vulnerability>): Phase
    requires i < |p.workers| && p.workers[i].Busy?
  {
    p.(workers := p.workers[i := Idle], ledger := p.ledger + [Done(p.workers[i].slice, Worker, answer)])
  }

  function Quit(p: Phase, i: nat, died: bool): Phase
    requires i < |p.workers|
  {
    p.(workers := p.workers[i := Stopped(died)])
  }

  function Take(p: Phase, i: nat): Phase
    requires i < |p.workers| && p.queue != []
  {
    p.(workers := p.workers[i := Busy(p.queue[0])], attempted := p.attempted + 1, queue := p.queue[1..])
  }

  lemma FinishKeeps(initial: seq<Slice>, p: Phase, i: nat, answer: Option<Vulnerability>)
    requires Reachable(initial, p) && i < |p.workers| && p.workers[i].Busy?
    ensures Reachable(initial, Finish(p, i, answer)) && Remaining(Finish(p, i, answer)) < Remaining(p)
  {
    hide InFlight, Activity;
    var d := Done(p.workers[i].slice, Worker, answer);
    BusySliceInFlight(p.workers, i);
    ActivityMoves(p.workers, i, Idle);
    AddDone(p.ledger, d);
    assert d.slice in multiset(initial);
  }

  lemma QuitKeeps(initial: seq<Slice>, p: Phase, i: nat, died: bool)
    requires Reachable(initial, p) && i < |p.workers| && p.workers[i] == Idle && (died || p.queue == [])
    ensures Reachable(initial, Quit(p, i, died)) && Remaining(Quit(p, i, died)) < Remaining(p)
  {
    hide InFlight, Activity;
    LeavingTakesNothing(p.workers, i, died);
    ActivityMoves(p.workers, i, Stopped(died));
  }

  lemma TakeKeeps(initial: seq<Slice>, p: Phase, i: nat)
    requires Reachable(initial, p) && i < |p.workers| && p.workers[i] == Idle && p.queue != []
    ensures Reachable(initial, Take(p, i)) && Remaining(Take(p, i)) < Remaining(p)
  {
    hide InFlight, Activity;
    TakenSliceInFlight(p.workers, i, p.queue[0]);
    ActivityMoves(p.workers, i, Busy(p.queue[0]));
    assert p.queue == [p.queue[0]] + p.queue[1..];
  }

  lemma MovesExplained(p: Phase, i: nat, deaths: Deaths, answers: WorkerAnswers)
    requires Explained(p, deaths, answers) && i < |p.workers|
    ensures p.workers[i].Busy? ==> Explained(Finish(p, i, answers(i, p.workers[i].slice)), deaths, answers)
    ensures p.queue != [] ==> Explained(Take(p, i), deaths, answers)
    ensures Explained(Quit(p, i, false), deaths, answers)
    ensures deaths(i, p.attempted) ==> Explained(Quit(p, i, true), deaths, answers)
  {
  }

  lemma StoppedPhase(initial: seq<Slice>, p: Phase)
    requires Reachable(initial, p) && forall i :: 0 <= i < |p.workers| ==> p.workers[i].Stopped?
    ensures multiset(SlicesOf(p.ledger)) + multiset(p.queue) == multiset(initial) && |p.ledger| == p.attempted
    ensures p.queue != [] ==> forall i :: 0 <= i < |p.workers| ==> p.workers[i] == Stopped(true)
  {
    AllStopped(p.workers);
  }

  lemma FirstPhase(initial: seq<Slice>, n: nat)
    ensures Reachable(initial, Phase(initial, IdleWorkers(n), [], 0))
  {
    AllIdle(n);
  }

  /** Every interleaving of `n` workers over the shared queue, until all of them have stopped. */
  method RunWorkers(initial: seq<Slice>, n: nat, deaths: Deaths, answers: WorkerAnswers)
    returns (queue: seq<Slice>, ledger: seq<Done>, attempted: nat, workers: seq<WorkerState>)
    ensures attempted <= |initial| && queue == initial[attempted..]
    ensures multiset(SlicesOf(ledger)) + multiset(queue) == multiset(initial)
    ensures forall i :: 0 <= i < |ledger| ==> ledger[i].route == Worker && ledger[i].slice in initial
    ensures |ledger| == attempted
    ensures |workers| == n && forall i :: 0 <= i < n ==> workers[i].Stopped?
    ensures queue != [] ==> forall i :: 0 <= i < n ==> workers[i] == Stopped(true)
    ensures forall d :: d in ledger ==> exists i: nat :: i < n && d.result == answers(i, d.slice)
    ensures forall i: nat :: i < n && workers[i] == Stopped(true) ==> exists k: nat :: deaths(i, k)
  {
    hide InFlight, Activity, Remaining, Load, Weight;
    var p := Phase(initial, IdleWorkers(n), [], 0);
    FirstPhase(initial, n);
    while exists i :: 0 <= i < |p.workers| && !p.workers[i].Stopped?
      invariant Reachable(initial, p) && |p.workers| == n && Explained(p, deaths, answers)
      decreases Remaining(p)
    {
      var i: nat :| i < |p.workers| && !p.workers[i].Stopped?;
      MovesExplained(p, i, deaths, answers);
      if p.workers[i].Busy? {
        var answer := answers(i, p.workers[i].slice);
        FinishKeeps(initial, p, i, answer);
        p := Finish(p, i, answer);
      } else {
        // The pool is checked before an item is pulled, with nothing in between.
        var available := !deaths(i, p.attempted);
        if !available || p.queue == [] {
          QuitKeeps(initial, p, i, !available);
          p := Quit(p, i, !available);
        } else {
          TakeKeeps(initial, p, i);
          p := Take(p, i);
        }
      }
    }
    StoppedPhase(initial, p);
    queue, ledger, attempted, workers := p.queue, p.ledger, p.attempted, p.workers;
  }
}
