/**
 Several calls on one `RoleAwareLLMPool` at a time: each call suspends while an entry is being tried, and the others go
 on. What is stated here holds over every interleaving.
 */
module PoolInterleaving {
  import opened Base
  import opened ProviderPool

  /** A call waits for the first entry of `order`, with the rest still to come, or is over. */
  datatype Flight = Waiting(critical: bool, order: seq<nat>) | Over(reply: Option<string>)

  datatype System = System(pool: State, flights: seq<Flight>)

  /** What happens next: a call begins, the entry a call waits for answers, or soft exhaustion is reset. */
  datatype Move = Begin(critical: bool) | Answer(flight: nat, outcome: Outcome) | ResetSoft

  ghost predicate InRange(providers: seq<Entry>, order: seq<nat>) {
    forall k :: 0 <= k < |order| ==> order[k] < |providers|
  }

  ghost predicate FlightInRange(providers: seq<Entry>, f: Flight) {
    f.Waiting? ==> f.order != [] && InRange(providers, f.order)
  }

  ghost predicate InBounds(providers: seq<Entry>, sys: System) {
    && (sys.pool.sticky.Some? ==> sys.pool.sticky.value < |providers|)
    && forall k :: 0 <= k < |sys.flights| ==> FlightInRange(providers, sys.flights[k])
  }

  /** On to the first entry that is not exhausted by now; without one the call gives up. */
  function Advance(providers: seq<Entry>, exhausted: set<string>, critical: bool, order: seq<nat>): Flight
    requires InRange(providers, order)
  {
    if order == [] then Over(None)
    else if providers[order[0]].Id() in exhausted then Advance(providers, exhausted, critical, order[1..])
    else Waiting(critical, order)
  }

  predicate Waits(sys: System, k: nat) {
    k < |sys.flights| && sys.flights[k].Waiting?
  }

  /** The stretch of code between two suspensions. */
  function Next(providers: seq<Entry>, sys: System, move: Move): System
    requires InBounds(providers, sys)
  {
    match move
    case Begin(critical) =>
      var order := Ordered(providers, sys.pool, critical);
      sys.(flights := sys.flights + [Advance(providers, sys.pool.exhausted, critical, order)])
    case ResetSoft => sys.(pool := Reset(providers, sys.pool))
    case Answer(k, outcome) =>
      if !Waits(sys, k) then sys
      else
        var f := sys.flights[k];
        if outcome.Reply? then
          System(sys.pool.(sticky := Some(f.order[0])), sys.flights[k := Over(Some(outcome.text))])
        else
          var pool := AfterError(providers, sys.pool, f.order[0], outcome);
          System(pool, sys.flights[k := Advance(providers, pool.exhausted, f.critical, f.order[1..])])
  }

  // ----- what every move keeps

  lemma {:induction false} AdvanceEnds(providers: seq<Entry>, exhausted: set<string>, critical: bool, order: seq<nat>)
    requires InRange(providers, order)
    ensures var f := Advance(providers, exhausted, critical, order);
      && FlightInRange(providers, f)
      && (f == Over(None) <==> forall k :: 0 <= k < |order| ==> providers[order[k]].Id() in exhausted)
      && (f.Over? ==> f == Over(None))
    decreases |order|
  {
    if order == [] {
    } else {
      AdvanceEnds(providers, exhausted, critical, order[1..]);
      assert forall k :: 1 <= k < |order| ==> order[1..][k - 1] == order[k];
    }
  }

  /** An error forgets no exhaustion and hardens only for a daily quota; the sticky entry may be dropped. */
  lemma ErrorKeepsBalance(providers: seq<Entry>, s: State, i: nat, e: Outcome)
    requires s.exhausted == s.soft + s.hard && i < |providers| && e.Error?
    ensures var t := AfterError(providers, s, i, e);
      && t.exhausted == t.soft + t.hard && s.exhausted <= t.exhausted && providers[i].Id() in t.exhausted
      && t.hard == s.hard + (if IsHard(e) then {providers[i].Id()} else {})
      && (t.sticky == None || t.sticky == s.sticky)
  {
  }

  lemma NextInBounds(providers: seq<Entry>, sys: System, move: Move)
    requires InBounds(providers, sys)
    ensures InBounds(providers, Next(providers, sys, move))
  {
    hide AfterError, Advance, Ordered, Reset;
    match move {
      case Begin(critical) =>
        AdvanceEnds(providers, sys.pool.exhausted, critical, Ordered(providers, sys.pool, critical));
      case ResetSoft =>
        ResetKeepsSticky(providers, sys.pool);
      case Answer(k, outcome) =>
        if Waits(sys, k) && outcome.Error? {
          var f := sys.flights[k];
          var pool := AfterError(providers, sys.pool, f.order[0], outcome);
          ErrorKeepsSticky(providers, sys.pool, f.order[0], outcome);
          AdvanceEnds(providers, pool.exhausted, f.critical, f.order[1..]);
        }
    }
  }

  lemma ResetKeepsSticky(providers: seq<Entry>, s: State)
    ensures Reset(providers, s).sticky == None || Reset(providers, s).sticky == s.sticky
  {
  }

  lemma ErrorKeepsSticky(providers: seq<Entry>, s: State, i: nat, e: Outcome)
    requires i < |providers| && e.Error?
    ensures var t := AfterError(providers, s, i, e); t.sticky == None || t.sticky == s.sticky
  {
  }

  /** A pool nobody has called. */
  const FRESH := State({}, {}, {}, None)

  /** Everything that happened so far, from a pool nobody has called. */
  ghost function Run(providers: seq<Entry>, moves: seq<Move>): (sys: System)
    ensures InBounds(providers, sys)
  {
    if moves == [] then System(FRESH, [])
    else
      var sys := Run(providers, moves[..|moves| - 1]);
      NextInBounds(providers, sys, Last(moves));
      Next(providers, sys, Last(moves))
  }

  ghost predicate Balanced(sys: System) {
    sys.pool.exhausted == sys.pool.soft + sys.pool.hard
  }

  /** Each move leaves exhaustion exactly soft or hard, and hardens at most the entry whose daily quota it reports. */
  lemma NextKeepsBalance(providers: seq<Entry>, sys: System, move: Move)
    requires InBounds(providers, sys) && Balanced(sys)
    ensures var next := Next(providers, sys, move);
      Balanced(next) && next.pool.hard == sys.pool.hard + QuotaOf(providers, sys, move)
  {
    hide AfterError, Advance, Ordered;
    if move.Answer? && Waits(sys, move.flight) && move.outcome.Error? {
      ErrorKeepsBalance(providers, sys.pool, sys.flights[move.flight].order[0], move.outcome);
    }
  }

  /** The entry, if any, that a move reports to be out of its daily quota. */
  function QuotaOf(providers: seq<Entry>, sys: System, move: Move): set<string>
    requires InBounds(providers, sys)
  {
    if move.Answer? && Waits(sys, move.flight) && IsHard(move.outcome) then
      assert FlightInRange(providers, sys.flights[move.flight]);
      {providers[sys.flights[move.flight].order[0]].Id()}
    else {}
  }

  /** The `n`-th move of a run reports that `id` is out of its daily quota. */
  ghost predicate QuotaAt(providers: seq<Entry>, moves: seq<Move>, n: int, id: string) {
    0 <= n < |moves| && id in QuotaOf(providers, Run(providers, moves[..n]), moves[n])
  }

  /**
   Over every interleaving, exhaustion is exactly soft or hard, and hard are exactly the entries that a call waited for
   while they reported a daily quota.
   */
  lemma {:induction false} HardIsQuotaAnswered(providers: seq<Entry>, moves: seq<Move>, id: string)
    ensures Balanced(Run(providers, moves))
    ensures id in Run(providers, moves).pool.hard <==> exists n :: QuotaAt(providers, moves, n, id)
    decreases |moves|
  {
    if moves == [] {
    } else {
      hide QuotaOf, Next;
      var m := |moves| - 1;
      HardIsQuotaAnswered(providers, moves[..m], id);
      NextKeepsBalance(providers, Run(providers, moves[..m]), moves[m]);
      QuotaInPrefix(providers, moves, id);
    }
  }

  lemma QuotaInPrefix(providers: seq<Entry>, moves: seq<Move>, id: string)
    requires moves != []
    ensures var m := |moves| - 1;
      (exists n :: QuotaAt(providers, moves, n, id))
      <==> (exists n :: QuotaAt(providers, moves[..m], n, id)) || QuotaAt(providers, moves, m, id)
  {
    hide Run, QuotaOf;
    var m := |moves| - 1;
    forall n | 0 <= n < m ensures QuotaAt(providers, moves[..m], n, id) <==> QuotaAt(providers, moves, n, id) {
      assert moves[..m][..n] == moves[..n] && moves[..m][n] == moves[n];
    }
  }

  /** Along every interleaving the hard set never shrinks. */
  lemma {:induction false} HardGrows(providers: seq<Entry>, moves: seq<Move>, n: nat)
    requires n <= |moves|
    ensures Run(providers, moves[..n]).pool.hard <= Run(providers, moves).pool.hard
    decreases |moves|
  {
    if n == |moves| {
      assert moves[..n] == moves;
    } else {
      hide QuotaOf, Next;
      var front := moves[..|moves| - 1];
      assert front[..n] == moves[..n];
      HardGrows(providers, front, n);
      HardIsQuotaAnswered(providers, front, "");
      NextKeepsBalance(providers, Run(providers, front), Last(moves));
    }
  }

  // ----- the sticky entry

  /** The move is a reply that arrives from an entry exhausted since its call began to wait for it. */
  predicate LateReply(providers: seq<Entry>, sys: System, move: Move)
    requires InBounds(providers, sys)
  {
    && move.Answer? && Waits(sys, move.flight) && move.outcome.Reply?
    && (assert FlightInRange(providers, sys.flights[move.flight]);
        providers[sys.flights[move.flight].order[0]].Id() in sys.pool.exhausted)
  }

  /** From a usable sticky entry, a move leads to one exactly when it is not a late reply. */
  lemma StickyStepIff(providers: seq<Entry>, sys: System, move: Move)
    requires WellNamed(providers) && InBounds(providers, sys) && Balanced(sys) && StickyUsable(providers, sys.pool)
    ensures StickyUsable(providers, Next(providers, sys, move).pool) <==> !LateReply(providers, sys, move)
  {
    hide AfterError, Advance, Ordered, WellNamed, IsHard;
    match move {
      case Begin(_) =>
      case ResetSoft =>
        ResetLeavesHard(providers, sys.pool);
      case Answer(k, outcome) =>
        if Waits(sys, k) {
          assert FlightInRange(providers, sys.flights[k]);
          if outcome.Error? {
            ErrorKeepsConsistent(providers, sys.pool, sys.flights[k].order[0], outcome);
          }
        }
    }
  }

  ghost predicate LateAt(providers: seq<Entry>, moves: seq<Move>, n: int) {
    0 <= n < |moves| && LateReply(providers, Run(providers, moves[..n]), moves[n])
  }

  ghost predicate UsableAt(providers: seq<Entry>, moves: seq<Move>, n: int) {
    0 <= n <= |moves| && StickyUsable(providers, Run(providers, moves[..n]).pool)
  }

  ghost predicate AlwaysUsable(providers: seq<Entry>, moves: seq<Move>) {
    forall n :: 0 <= n <= |moves| ==> UsableAt(providers, moves, n)
  }

  ghost predicate NeverLate(providers: seq<Entry>, moves: seq<Move>) {
    forall n :: 0 <= n < |moves| ==> !LateAt(providers, moves, n)
  }

  /** The sticky entry is usable all along a run exactly when no late reply arrives on it. */
  lemma {:induction false} StickyAllAlongIff(providers: seq<Entry>, moves: seq<Move>)
    requires WellNamed(providers)
    ensures AlwaysUsable(providers, moves) <==> NeverLate(providers, moves)
    decreases |moves|
  {
    if moves == [] {
      assert moves[..0] == [];
    } else {
      hide *;
      var m := |moves| - 1;
      StickyAllAlongIff(providers, moves[..m]);
      AlwaysGrows(providers, moves);
      NeverGrows(providers, moves);
      LastStep(providers, moves);
    }
  }

  lemma LastStep(providers: seq<Entry>, moves: seq<Move>)
    requires WellNamed(providers) && moves != []
    ensures var m := |moves| - 1;
      UsableAt(providers, moves, m) ==> (UsableAt(providers, moves, m + 1) <==> !LateAt(providers, moves, m))
  {
    hide Next, LateReply, StickyUsable, WellNamed;
    var m := |moves| - 1;
    assert moves[..m + 1] == moves;
    if UsableAt(providers, moves, m) {
      HardIsQuotaAnswered(providers, moves[..m], "");
      StickyStepIff(providers, Run(providers, moves[..m]), moves[m]);
    }
  }

  lemma AlwaysGrows(providers: seq<Entry>, moves: seq<Move>)
    requires moves != []
    ensures var m := |moves| - 1;
      AlwaysUsable(providers, moves) <==> AlwaysUsable(providers, moves[..m]) && UsableAt(providers, moves, m + 1)
    ensures AlwaysUsable(providers, moves[..|moves| - 1]) ==> UsableAt(providers, moves, |moves| - 1)
  {
    hide Run, StickyUsable;
    var m := |moves| - 1;
    forall n | 0 <= n <= m ensures UsableAt(providers, moves[..m], n) <==> UsableAt(providers, moves, n) {
      assert moves[..m][..n] == moves[..n];
    }
  }

  lemma NeverGrows(providers: seq<Entry>, moves: seq<Move>)
    requires moves != []
    ensures var m := |moves| - 1;
      NeverLate(providers, moves) <==> NeverLate(providers, moves[..m]) && !LateAt(providers, moves, m)
  {
    hide Run, LateReply;
    var m := |moves| - 1;
    forall n | 0 <= n < m ensures LateAt(providers, moves[..m], n) <==> LateAt(providers, moves, n) {
      assert moves[..m][..n] == moves[..n] && moves[..m][n] == moves[n];
    }
  }

  const A_MODEL := Entry("a", "m", false)
  const OTHER_MODEL := Entry("b", "m", false)
  const BUSY := Error(false, false, false, true, false)

  /** Two calls wait for the only entry; one is told to slow down, then the other gets its reply. */
  const LATE_RUN := [Begin(false), Begin(false), Answer(0, BUSY), Answer(1, Reply("late"))]

  lemma RunStep(providers: seq<Entry>, moves: seq<Move>, move: Move)
    ensures Run(providers, moves + [move]) == Next(providers, Run(providers, moves), move)
  {
    hide Next;
    assert (moves + [move])[..|moves|] == moves && Last(moves + [move]) == move;
  }

  lemma OnlyEntryFirst()
    ensures Ordered([A_MODEL], FRESH, false) == [0]
  {
    assert Others([A_MODEL], FRESH, false, 1) == [] && Others([A_MODEL], FRESH, false, 0) == [0];
  }

  lemma LateMoves()
    ensures var busy := State({A_MODEL.Id()}, {A_MODEL.Id()}, {}, None);
      var one := System(FRESH, [Waiting(false, [0])]);
      var two := System(FRESH, [Waiting(false, [0]), Waiting(false, [0])]);
      var three := System(busy, [Over(None), Waiting(false, [0])]);
      && Next([A_MODEL], System(FRESH, []), Begin(false)) == one
      && Next([A_MODEL], one, Begin(false)) == two
      && Next([A_MODEL], two, Answer(0, BUSY)) == three
      && Next([A_MODEL], three, Answer(1, Reply("late"))).pool == busy.(sticky := Some(0))
  {
    OnlyEntryFirst();
    assert [0][1..] == [];
  }

  /** Such a run: the entry ends up sticky and exhausted at once. */
  lemma LateReplyHappens()
    ensures var pool := Run([A_MODEL], LATE_RUN).pool;
      pool.sticky == Some(0) && A_MODEL.Id() in pool.exhausted && !StickyUsable([A_MODEL], pool)
  {
    hide Next;
    LateMoves();
    var m1, m2, m3 := [Begin(false)], [Begin(false), Begin(false)], [Begin(false), Begin(false), Answer(0, BUSY)];
    assert [] + [Begin(false)] == m1 && m1 + [Begin(false)] == m2 && m2 + [Answer(0, BUSY)] == m3;
    assert m3 + [Answer(1, Reply("late"))] == LATE_RUN;
    assert Run([A_MODEL], []) == System(FRESH, []);
    RunStep([A_MODEL], [], Begin(false));
    RunStep([A_MODEL], m1, Begin(false));
    RunStep([A_MODEL], m2, Answer(0, BUSY));
    RunStep([A_MODEL], m3, Answer(1, Reply("late")));
  }

  /**
   After a late reply, a reset that finds soft exhaustion makes the sticky entry usable again: it keeps one that is only
   softly exhausted and drops one that is out of its quota. Without soft exhaustion a reset does nothing at all.
   */
  lemma ResetRepairsSticky(providers: seq<Entry>, sys: System)
    requires InBounds(providers, sys) && Balanced(sys)
    ensures var t := Next(providers, sys, ResetSoft).pool;
      && t.exhausted == t.hard == sys.pool.hard && t.soft == {}
      && (sys.pool.soft == {} ==> t == sys.pool)
      && (sys.pool.soft != {} ==> StickyUsable(providers, t))
      && (sys.pool.sticky.Some? && providers[sys.pool.sticky.value].Id() !in sys.pool.hard ==>
            t.sticky == sys.pool.sticky)
  {
  }

  // ----- giving up

  /** Ahead of the call are only entries its severity allows, and those it allows are exhausted or ahead of it. */
  ghost predicate Covers(providers: seq<Entry>, pool: State, f: Flight) {
    f.Waiting? ==>
      && (forall i :: i in f.order ==> i < |providers| && Allowed(providers[i], f.critical))
      && forall i :: 0 <= i < |providers| && Allowed(providers[i], f.critical) ==>
           providers[i].Id() in pool.exhausted || i in f.order
  }

  ghost predicate AllCovered(providers: seq<Entry>, sys: System) {
    forall k :: 0 <= k < |sys.flights| ==> Covers(providers, sys.pool, sys.flights[k])
  }

  /** Moving on passes over exhausted entries only. */
  lemma {:induction false} AdvanceCovers(providers: seq<Entry>, pool: State, critical: bool, order: seq<nat>)
    requires InRange(providers, order) && Covers(providers, pool, Waiting(critical, order))
    ensures Covers(providers, pool, Advance(providers, pool.exhausted, critical, order))
    decreases |order|
  {
    if order == [] {
    } else if providers[order[0]].Id() in pool.exhausted {
      assert order == [order[0]] + order[1..];
      AdvanceCovers(providers, pool, critical, order[1..]);
    }
  }

  lemma OrderCovers(providers: seq<Entry>, s: State, critical: bool)
    requires s.sticky.Some? ==> s.sticky.value < |providers|
    ensures Covers(providers, s, Waiting(critical, Ordered(providers, s, critical)))
  {
    hide Ordered;
    OrderedMeaning(providers, s, critical);
  }

  lemma CoversGrows(providers: seq<Entry>, s: State, t: State, f: Flight)
    requires Covers(providers, s, f) && s.exhausted <= t.exhausted
    ensures Covers(providers, t, f)
  {
  }

  lemma AnswerCovers(providers: seq<Entry>, sys: System, k: nat, e: Outcome)
    requires InBounds(providers, sys) && AllCovered(providers, sys) && Waits(sys, k) && e.Error?
    ensures var f := sys.flights[k];
      f.order != [] && f.order[0] < |providers| && InRange(providers, f.order[1..])
      && var pool := AfterError(providers, sys.pool, f.order[0], e);
      && sys.pool.exhausted <= pool.exhausted
      && Covers(providers, pool, Waiting(f.critical, f.order[1..]))
  {
    hide AfterError;
    var f := sys.flights[k];
    assert FlightInRange(providers, f) && Covers(providers, sys.pool, f);
    ErrorOnlyAdds(providers, sys.pool, f.order[0], e);
    assert f.order == [f.order[0]] + f.order[1..];
  }

  /** Every move but a reset keeps all of them covered. */
  lemma NextCovers(providers: seq<Entry>, sys: System, move: Move)
    requires InBounds(providers, sys) && AllCovered(providers, sys) && !move.ResetSoft?
    ensures AllCovered(providers, Next(providers, sys, move))
  {
    hide AfterError, Advance, Ordered, Covers;
    var next := Next(providers, sys, move);
    match move {
      case Begin(critical) =>
        OrderCovers(providers, sys.pool, critical);
        AdvanceCovers(providers, sys.pool, critical, Ordered(providers, sys.pool, critical));
      case Answer(k, e) =>
        if Waits(sys, k) && e.Reply? {
          forall j | 0 <= j < |next.flights| ensures Covers(providers, next.pool, next.flights[j]) {
            ReplyCovers(providers, sys.pool, next.pool, sys.flights[j], next.flights[j]);
          }
        } else if Waits(sys, k) {
          var f := sys.flights[k];
          AnswerCovers(providers, sys, k, e);
          AdvanceCovers(providers, next.pool, f.critical, f.order[1..]);
          forall j | 0 <= j < |next.flights| && j != k ensures Covers(providers, next.pool, next.flights[j]) {
            CoversGrows(providers, sys.pool, next.pool, sys.flights[j]);
          }
        }
    }
  }

  lemma ReplyCovers(providers: seq<Entry>, s: State, t: State, f: Flight, g: Flight)
    requires Covers(providers, s, f) && s.exhausted == t.exhausted && (g == f || g.Over?)
    ensures Covers(providers, t, g)
  {
  }

  ghost predicate NoReset(moves: seq<Move>) {
    forall n :: 0 <= n < |moves| ==> !moves[n].ResetSoft?
  }

  lemma {:induction false} RunCovers(providers: seq<Entry>, moves: seq<Move>)
    requires NoReset(moves)
    ensures AllCovered(providers, Run(providers, moves))
  {
    if moves == [] {
    } else {
      hide Next, AllCovered;
      RunCovers(providers, moves[..|moves| - 1]);
      NextCovers(providers, Run(providers, moves[..|moves| - 1]), Last(moves));
    }
  }

  /** What moving on comes to, when everything allowed is exhausted or ahead. */
  lemma CoveredGivesUpIff(providers: seq<Entry>, pool: State, critical: bool, order: seq<nat>)
    requires InRange(providers, order) && Covers(providers, pool, Waiting(critical, order))
    ensures Advance(providers, pool.exhausted, critical, order) == Over(None)
       <==> AllAllowedExhausted(providers, pool, critical)
  {
    hide Advance;
    AdvanceEnds(providers, pool.exhausted, critical, order);
    if forall k :: 0 <= k < |order| ==> providers[order[k]].Id() in pool.exhausted {
      assert forall i :: i in order ==> providers[i].Id() in pool.exhausted;
    }
  }

  /** The call whose turn it is, if the move is one's beginning or failure, and how it stands afterwards. */
  predicate GivesUp(providers: seq<Entry>, sys: System, move: Move)
    requires InBounds(providers, sys)
  {
    var flights := Next(providers, sys, move).flights;
    match move
    case Begin(_) => Last(flights) == Over(None)
    case Answer(k, e) => Waits(sys, k) && flights[k] == Over(None)
    case ResetSoft => false
  }

  /** The severity of the call that the move begins, or that it lets go on after a failure. */
  function Concerned(sys: System, move: Move): Option<bool> {
    match move
    case Begin(critical) => Some(critical)
    case Answer(k, e) => if Waits(sys, k) && e.Error? then Some(sys.flights[k].critical) else None
    case ResetSoft => None
  }

  /**
   On every interleaving without resets, as on the pools the program shares, a call that begins or has had a failure
   gives up exactly when every entry its severity allows is exhausted by then, and nothing else makes a call give up.
   */
  lemma GivesUpIff(providers: seq<Entry>, moves: seq<Move>, move: Move)
    requires NoReset(moves) && !move.ResetSoft?
    ensures var sys := Run(providers, moves);
      GivesUp(providers, sys, move) <==>
        (var c := Concerned(sys, move);
         c.Some? && AllAllowedExhausted(providers, Next(providers, sys, move).pool, c.value))
  {
    hide Run, AfterError, Advance, Ordered, Covers, AllAllowedExhausted;
    RunCovers(providers, moves);
    var sys := Run(providers, moves);
    var next := Next(providers, sys, move);
    match move {
      case Begin(critical) =>
        OrderCovers(providers, sys.pool, critical);
        CoveredGivesUpIff(providers, sys.pool, critical, Ordered(providers, sys.pool, critical));
      case Answer(k, e) =>
        if Waits(sys, k) && e.Error? {
          var f := sys.flights[k];
          AnswerCovers(providers, sys, k, e);
          CoveredGivesUpIff(providers, next.pool, f.critical, f.order[1..]);
        }
    }
  }

  /** With a reset while a call waits, it can give up although an entry it had passed is available again. */
  const REVIVED_RUN := [Begin(false), Answer(0, BUSY), ResetSoft, Answer(0, BUSY)]

  lemma BothEntriesInOrder()
    ensures Ordered([A_MODEL, OTHER_MODEL], FRESH, false) == [0, 1]
  {
    var providers := [A_MODEL, OTHER_MODEL];
    assert Others(providers, FRESH, false, 2) == [] && Others(providers, FRESH, false, 1) == [1];
    assert Others(providers, FRESH, false, 0) == [0, 1];
  }

  lemma RevivedMoves()
    ensures var providers := [A_MODEL, OTHER_MODEL];
      var a, b := A_MODEL.Id(), OTHER_MODEL.Id();
      var one := System(FRESH, [Waiting(false, [0, 1])]);
      var two := System(State({a}, {a}, {}, None), [Waiting(false, [1])]);
      var three := System(FRESH, [Waiting(false, [1])]);
      && a != b
      && Next(providers, System(FRESH, []), Begin(false)) == one
      && Next(providers, one, Answer(0, BUSY)) == two
      && Next(providers, two, ResetSoft) == three
      && Next(providers, three, Answer(0, BUSY)) == System(State({b}, {b}, {}, None), [Over(None)])
  {
    BothEntriesInOrder();
    assert A_MODEL.Id()[0] == 'a' && OTHER_MODEL.Id()[0] == 'b';
    assert [0, 1][1..] == [1] && [1][1..] == [];
  }

  lemma RevivedIsMissed()
    ensures var sys := Run([A_MODEL, OTHER_MODEL], REVIVED_RUN);
      sys.flights == [Over(None)] && A_MODEL.Id() !in sys.pool.exhausted
  {
    hide Next;
    RevivedMoves();
    var providers := [A_MODEL, OTHER_MODEL];
    var m1, m2, m3 := [Begin(false)], [Begin(false), Answer(0, BUSY)], [Begin(false), Answer(0, BUSY), ResetSoft];
    assert [] + [Begin(false)] == m1 && m1 + [Answer(0, BUSY)] == m2 && m2 + [ResetSoft] == m3;
    assert m3 + [Answer(0, BUSY)] == REVIVED_RUN;
    assert Run(providers, []) == System(FRESH, []);
    RunStep(providers, [], Begin(false));
    RunStep(providers, m1, Answer(0, BUSY));
    RunStep(providers, m2, ResetSoft);
    RunStep(providers, m3, Answer(0, BUSY));
  }

  // ----- one call alone

  /** The answers a call gets, in the order it tries the entries. */
  ghost function AnswersOf(k: nat, tried: seq<nat>, answers: Answers): seq<Move> {
    seq(|tried|, i requires 0 <= i < |tried| => Answer(k, answers(tried[i])))
  }

  /** Left alone, a call under way comes to what the sequential cascade does from here. */
  lemma {:induction false} AloneFromHere(providers: seq<Entry>, moves: seq<Move>, k: nat, critical: bool,
                                         order: seq<nat>, answers: Answers)
    requires InRange(providers, order)
    requires var sys := Run(providers, moves);
      k < |sys.flights| && sys.flights[k] == Advance(providers, sys.pool.exhausted, critical, order)
    ensures var sys := Run(providers, moves);
      var r := Cascade(providers, sys.pool, order, answers);
      Run(providers, moves + AnswersOf(k, r.tried, answers)) == System(r.state, sys.flights[k := Over(r.reply)])
    decreases |order|
  {
    hide Run, AfterError;
    var sys := Run(providers, moves);
    var r := Cascade(providers, sys.pool, order, answers);
    if order == [] {
      assert moves + AnswersOf(k, r.tried, answers) == moves;
    } else if providers[order[0]].Id() in sys.pool.exhausted {
      AloneFromHere(providers, moves, k, critical, order[1..], answers);
    } else {
      var move := Answer(k, answers(order[0]));
      RunStep(providers, moves, move);
      if move.outcome.Reply? {
        assert moves + AnswersOf(k, r.tried, answers) == moves + [move];
      } else {
        AloneFromHere(providers, moves + [move], k, critical, order[1..], answers);
        assert moves + AnswersOf(k, r.tried, answers) == (moves + [move]) + AnswersOf(k, r.tried[1..], answers);
      }
    }
  }

  /** A call that nothing interrupts is the sequential one: same final state, same reply, same entries tried. */
  lemma AloneIsSequential(providers: seq<Entry>, moves: seq<Move>, critical: bool, answers: Answers)
    requires Consistent(providers, Run(providers, moves).pool)
    ensures var sys := Run(providers, moves);
      var r := CallResult(providers, sys.pool, critical, answers);
      Run(providers, moves + [Begin(critical)] + AnswersOf(|sys.flights|, r.tried, answers))
        == System(r.state, sys.flights + [Over(r.reply)])
  {
    hide Run, Cascade, Advance, Ordered;
    var sys := Run(providers, moves);
    var order := Ordered(providers, sys.pool, critical);
    RunStep(providers, moves, Begin(critical));
    AloneFromHere(providers, moves + [Begin(critical)], |sys.flights|, critical, order, answers);
  }
}
