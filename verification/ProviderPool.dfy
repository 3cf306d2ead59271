/**
 `RoleAwareLLMPool`: a cascade over provider entries with soft and hard exhaustion and a sticky
 entry, as sequential calls drive it. What a provider answers is an input of each call.
 */
module ProviderPool {
  import opened Base

  datatype Entry = Entry(provider: string, model: string, criticalOnly: bool) {
    function Id(): string {
      provider + ":" + model
    }
  }

  /** What trying one entry yields: a reply, or an exception whose message contains certain phrases. */
  datatype Outcome =
    | Reply(text: string)
    | Error(daily: bool, scraping: bool, acceptableUse: bool, rateLimit: bool, otherRateWords: bool)

  predicate IsScraping(e: Outcome)
    requires e.Error?
  {
    e.scraping || (e.acceptableUse && !e.rateLimit)
  }

  predicate IsRate(e: Outcome)
    requires e.Error?
  {
    (e.rateLimit || e.otherRateWords) && !IsScraping(e)
  }

  /** Only a daily quota that is not also a scraping block is remembered across resets. */
  predicate IsHard(e: Outcome) {
    e.Error? && e.daily && !IsScraping(e)
  }

  /** `sticky` is a position in the provider list: the original compares entries by identity. */
  datatype State = State(exhausted: set<string>, soft: set<string>, hard: set<string>, sticky: Option<nat>)

  type Answers = nat -> Outcome

  // ----- specification functions

  function SameProviderIds(providers: seq<Entry>, provider: string): set<string> {
    set k | 0 <= k < |providers| && providers[k].provider == provider :: providers[k].Id()
  }

  function StickyEntry(providers: seq<Entry>, s: State): Option<Entry> {
    if s.sticky.Some? && s.sticky.value < |providers| then Some(providers[s.sticky.value]) else None
  }

  function DropStickyId(providers: seq<Entry>, s: State, id: string): State {
    var p := StickyEntry(providers, s);
    if p.Some? && p.value.Id() == id then s.(sticky := None) else s
  }

  function DropStickyProvider(providers: seq<Entry>, s: State, provider: string): State {
    var p := StickyEntry(providers, s);
    if p.Some? && p.value.provider == provider then s.(sticky := None) else s
  }

  /** The bookkeeping of `_try_provider`'s exception handler. */
  function AfterError(providers: seq<Entry>, s: State, i: nat, e: Outcome): State
    requires i < |providers| && e.Error?
  {
    var pid := providers[i].Id();
    if IsRate(e) && !e.daily then
      DropStickyId(providers, s.(exhausted := s.exhausted + {pid}, soft := s.soft + {pid}), pid)
    else if IsScraping(e) then
      var ids := SameProviderIds(providers, providers[i].provider);
      DropStickyProvider(providers, s.(exhausted := s.exhausted + ids, soft := s.soft + ids), providers[i].provider)
    else if e.daily then
      DropStickyId(providers, s.(exhausted := s.exhausted + {pid}, hard := s.hard + {pid}), pid)
    else
      DropStickyId(providers, s.(exhausted := s.exhausted + {pid}, soft := s.soft + {pid}), pid)
  }

  predicate Eligible(p: Entry, exhausted: set<string>, critical: bool) {
    p.Id() !in exhausted && (p.criticalOnly ==> critical)
  }

  /** The non-sticky entries from position `i` on that are eligible, in list order. */
  function Others(providers: seq<Entry>, s: State, critical: bool, i: nat): (order: seq<nat>)
    requires i <= |providers|
    ensures forall k :: 0 <= k < |order| ==> order[k] < |providers|
    decreases |providers| - i
  {
    if i == |providers| then []
    else (if s.sticky != Some(i) && Eligible(providers[i], s.exhausted, critical) then [i] else [])
         + Others(providers, s, critical, i + 1)
  }

  function Ordered(providers: seq<Entry>, s: State, critical: bool): (order: seq<nat>)
    ensures forall k :: 0 <= k < |order| ==> order[k] < |providers|
  {
    var p := StickyEntry(providers, s);
    (if p.Some? && Eligible(p.value, s.exhausted, critical) then [s.sticky.value] else [])
    + Others(providers, s, critical, 0)
  }

  /** The outcome of a call: the new state, the reply if any, and which entries were tried. */
  datatype Result = Result(state: State, reply: Option<string>, tried: seq<nat>)

  /** Trying the ordered entries in turn until one replies. */
  function Cascade(providers: seq<Entry>, s: State, order: seq<nat>, answers: Answers): Result
    requires forall k :: 0 <= k < |order| ==> order[k] < |providers|
    decreases |order|
  {
    if order == [] then Result(s, None, [])
    else if providers[order[0]].Id() in s.exhausted then Cascade(providers, s, order[1..], answers)
    else
      match answers(order[0])
      case Reply(text) => Result(s.(sticky := Some(order[0])), Some(text), [order[0]])
      case Error(_, _, _, _, _) =>
        var rest := Cascade(providers, AfterError(providers, s, order[0], answers(order[0])), order[1..], answers);
        rest.(tried := [order[0]] + rest.tried)
  }

  function Reset(providers: seq<Entry>, s: State): State {
    if s.soft == {} then s
    else
      var t := s.(soft := {}, exhausted := s.hard);
      var p := StickyEntry(providers, t);
      if p.Some? && p.value.Id() in t.exhausted then t.(sticky := None) else t
  }

  // ----- the class

  class Pool {
    const providers: seq<Entry>
    var exhausted: set<string>
    var softExhausted: set<string>
    var hardExhausted: set<string>
    var sticky: Option<nat>

    function Abs(): State
      reads this
    {
      State(exhausted, softExhausted, hardExhausted, sticky)
    }

    constructor (providers: seq<Entry>)
      ensures this.providers == providers && Abs() == State({}, {}, {}, None)
    {
      this.providers := providers;
      exhausted, softExhausted, hardExhausted, sticky := {}, {}, {}, None;
    }

    /** `_try_provider` with the answer the provider gives. */
    method TryProvider(i: nat, answer: Outcome) returns (reply: Option<string>)
      requires i < |providers|
      modifies this
      ensures answer.Reply? ==> Abs() == old(Abs()) && reply == Some(answer.text)
      ensures answer.Error? ==> Abs() == AfterError(providers, old(Abs()), i, answer) && reply == None
    {
      if answer.Reply? {
        return Some(answer.text);
      }
      var pid := providers[i].Id();
      if IsRate(answer) && !answer.daily {
        exhausted := exhausted + {pid};
        softExhausted := softExhausted + {pid};
        if sticky.Some? && sticky.value < |providers| && providers[sticky.value].Id() == pid {
          sticky := None;
        }
        return None;
      }
      if IsScraping(answer) {
        var blocked := providers[i].provider;
        for k := 0 to |providers|
          invariant exhausted == old(exhausted) + SameProviderIds(providers[..k], blocked)
          invariant softExhausted == old(softExhausted) + SameProviderIds(providers[..k], blocked)
          invariant hardExhausted == old(hardExhausted) && sticky == old(sticky)
        {
          SameProviderStep(providers, k, blocked);
          if providers[k].provider == blocked {
            exhausted := exhausted + {providers[k].Id()};
            softExhausted := softExhausted + {providers[k].Id()};
          }
        }
        assert providers[..|providers|] == providers;
        if sticky.Some? && sticky.value < |providers| && providers[sticky.value].provider == blocked {
          sticky := None;
        }
        return None;
      }
      exhausted := exhausted + {pid};
      if answer.daily {
        hardExhausted := hardExhausted + {pid};
      } else {
        softExhausted := softExhausted + {pid};
      }
      if sticky.Some? && sticky.value < |providers| && providers[sticky.value].Id() == pid {
        sticky := None;
      }
      return None;
    }

    /** The head of `call`: sticky first, then the rest, skipping exhausted and disallowed entries. */
    method OrderEntries(critical: bool) returns (ordered: seq<nat>)
      ensures ordered == Ordered(providers, Abs(), critical)
    {
      ordered := [];
      if sticky.Some? && sticky.value < |providers| && Eligible(providers[sticky.value], exhausted, critical) {
        ordered := ordered + [sticky.value];
      }
      ghost var order := Ordered(providers, Abs(), critical);
      for i := 0 to |providers|
        invariant order == ordered + Others(providers, Abs(), critical, i)
      {
        hide Ordered;
        ghost var rest := Others(providers, Abs(), critical, i + 1);
        assert (ordered + [i]) + rest == ordered + ([i] + rest) && [] + rest == rest;
        if sticky != Some(i) && Eligible(providers[i], exhausted, critical) {
          ordered := ordered + [i];
        }
      }
    }

    /** `call`; `answers` says what each entry would answer if it is tried. */
    method Call(critical: bool, answers: Answers) returns (reply: Option<string>, ghost tried: seq<nat>)
      modifies this
      ensures Result(Abs(), reply, tried)
         == Cascade(providers, old(Abs()), Ordered(providers, old(Abs()), critical), answers)
    {
      hide AfterError, Ordered;
      tried := [];
      var ordered := OrderEntries(critical);
      reply := None;
      for k := 0 to |ordered|
        invariant var rest := Cascade(providers, Abs(), ordered[k..], answers);
          rest.(tried := tried + rest.tried) == Cascade(providers, old(Abs()), ordered, answers)
      {
        var i := ordered[k];
        assert ordered[k..][1..] == ordered[k + 1..];
        if providers[i].Id() in exhausted {
          continue;
        }
        ghost var before, rest := Abs(), Cascade(providers, Abs(), ordered[k..], answers);
        var text := TryProvider(i, answers(i));
        if text.Some? {
          sticky := Some(i);
          return text, tried + [i];
        }
        assert rest.tried == [i] + Cascade(providers, Abs(), ordered[k + 1..], answers).tried;
        tried := tried + [i];
      }
    }

    method ResetSoftExhausted()
      modifies this
      ensures Abs() == Reset(providers, old(Abs()))
    {
      if softExhausted == {} {
        return;
      }
      softExhausted := {};
      exhausted := hardExhausted;
      if sticky.Some? && sticky.value < |providers| && providers[sticky.value].Id() in exhausted {
        sticky := None;
      }
    }

    method IsAvailable() returns (available: bool)
      ensures available <==> exists p :: p in providers && p.Id() !in exhausted
    {
      available := false;
      for i := 0 to |providers|
        invariant !available && forall k :: 0 <= k < i ==> providers[k].Id() in exhausted
      {
        if providers[i].Id() !in exhausted {
          return true;
        }
      }
    }
  }

  lemma SameProviderStep(providers: seq<Entry>, k: nat, provider: string)
    requires k < |providers|
    ensures SameProviderIds(providers[..k + 1], provider)
         == SameProviderIds(providers[..k], provider)
            + (if providers[k].provider == provider then {providers[k].Id()} else {})
  {
    var a, b := providers[..k], providers[..k + 1];
    forall x | x in SameProviderIds(b, provider)
      ensures x in SameProviderIds(a, provider) || (providers[k].provider == provider && x == providers[k].Id())
    {
      var j :| 0 <= j < |b| && b[j].provider == provider && b[j].Id() == x;
      if j < k {
        assert a[j] == b[j];
      }
    }
    forall x | x in SameProviderIds(a, provider) ensures x in SameProviderIds(b, provider) {
      var j :| 0 <= j < |a| && a[j].provider == provider && a[j].Id() == x;
      assert b[j] == a[j];
    }
    if providers[k].provider == provider {
      assert b[k] == providers[k];
    }
  }

  // ----- what holds between calls

  /** Entries as `_build_providers` makes them: the provider name is the part of the id before its first colon. */
  ghost predicate WellNamed(providers: seq<Entry>) {
    forall k :: 0 <= k < |providers| ==> ':' !in providers[k].provider
  }

  lemma ColonSplits(a: string, b: string, x: string, y: string)
    requires ':' !in a && ':' !in b && a + ":" + x == b + ":" + y
    ensures a == b
  {
    var l, r := a + ":" + x, b + ":" + y;
    assert l[|a|] == ':' && r[|b|] == ':';
    assert l[..|a|] == a && r[..|b|] == b;
  }

  ghost predicate StickyUsable(providers: seq<Entry>, s: State) {
    s.sticky.Some? ==> s.sticky.value < |providers| && providers[s.sticky.value].Id() !in s.exhausted
  }

  /** Exhaustion is exactly soft or hard, and the sticky entry is never an exhausted one. */
  ghost predicate Consistent(providers: seq<Entry>, s: State) {
    s.exhausted == s.soft + s.hard && StickyUsable(providers, s)
  }

  /** An error exhausts the entry it came from, forgets nothing, and leaves the state consistent. */
  lemma ErrorKeepsConsistent(providers: seq<Entry>, s: State, i: nat, e: Outcome)
    requires WellNamed(providers) && Consistent(providers, s) && i < |providers| && e.Error?
    ensures var t := AfterError(providers, s, i, e);
      && Consistent(providers, t)
      && providers[i].Id() in t.exhausted && s.exhausted <= t.exhausted
      && t.hard == s.hard + (if IsHard(e) then {providers[i].Id()} else {})
  {
    var t := AfterError(providers, s, i, e);
    if IsScraping(e) && s.sticky.Some? {
      var p := providers[s.sticky.value];
      if p.Id() in SameProviderIds(providers, providers[i].provider) {
        var k :| 0 <= k < |providers| && providers[k].provider == providers[i].provider && providers[k].Id() == p.Id();
        ColonSplits(p.provider, providers[k].provider, p.model, providers[k].model);
      }
    }
  }

  /** The message blames scraping, or unacceptable use without a rate limit. */
  predicate BlamesScraping(e: Outcome) {
    e.Error? && (e.scraping || (e.acceptableUse && !e.rateLimit))
  }

  /** What a failure of entry `i` puts out of use: the whole provider on a scraping block, else the entry. */
  predicate HitBy(providers: seq<Entry>, i: nat, e: Outcome, k: nat)
    requires i < |providers| && k < |providers|
  {
    if BlamesScraping(e) then providers[k].provider == providers[i].provider else providers[k].Id() == providers[i].Id()
  }

  /**
   What a failure does to each entry: exhausted for good when a daily quota is reported without a scraping block, until
   the next reset otherwise; and the sticky entry is dropped exactly when it is one of those put out of use.
   */
  lemma ErrorMeaning(providers: seq<Entry>, s: State, i: nat, e: Outcome, k: nat)
    requires WellNamed(providers) && i < |providers| && k < |providers| && e.Error?
    ensures var t, id := AfterError(providers, s, i, e), providers[k].Id();
      && (id in t.exhausted <==> id in s.exhausted || HitBy(providers, i, e, k))
      && (id in t.hard <==> id in s.hard || (HitBy(providers, i, e, k) && e.daily && !BlamesScraping(e)))
      && (id in t.soft <==> id in s.soft || (HitBy(providers, i, e, k) && (BlamesScraping(e) || !e.daily)))
      && (s.sticky == Some(k) ==> t.sticky == if HitBy(providers, i, e, k) then None else Some(k))
  {
    var ids := SameProviderIds(providers, providers[i].provider);
    if providers[k].Id() in ids {
      var j :| 0 <= j < |providers| && providers[j].provider == providers[i].provider &&
               providers[j].Id() == providers[k].Id();
      ColonSplits(providers[k].provider, providers[j].provider, providers[k].model, providers[j].model);
    }
  }

  /** Within a call, each entry tried is not exhausted when its turn comes. */
  lemma {:induction false} TriedWasFree(providers: seq<Entry>, s: State, order: seq<nat>, answers: Answers, l: nat)
    requires forall k :: 0 <= k < |order| ==> order[k] < |providers|
    requires l < |Cascade(providers, s, order, answers).tried|
    ensures var tried := Cascade(providers, s, order, answers).tried;
      tried[l] < |providers| && providers[tried[l]].Id() !in s.exhausted
    decreases |order|
  {
    hide AfterError;
    if order == [] {
    } else if providers[order[0]].Id() in s.exhausted {
      TriedWasFree(providers, s, order[1..], answers, l);
    } else if answers(order[0]).Error? && l > 0 {
      var t := AfterError(providers, s, order[0], answers(order[0]));
      TriedWasFree(providers, t, order[1..], answers, l - 1);
      ErrorOnlyAdds(providers, s, order[0], answers(order[0]));
    }
  }

  lemma ErrorOnlyAdds(providers: seq<Entry>, s: State, i: nat, e: Outcome)
    requires i < |providers| && e.Error?
    ensures var t := AfterError(providers, s, i, e); s.exhausted <= t.exhausted && providers[i].Id() in t.exhausted
  {
  }

  /** After a scraping block, no entry of that provider is tried in the rest of the call. */
  lemma {:induction false} BlockedProviderIsLeft(providers: seq<Entry>, s: State, order: seq<nat>, answers: Answers,
                                                 k: nat, l: nat)
    requires WellNamed(providers) && forall k :: 0 <= k < |order| ==> order[k] < |providers|
    requires k < l < |Cascade(providers, s, order, answers).tried|
    requires BlamesScraping(answers(Cascade(providers, s, order, answers).tried[k]))
    ensures var tried := Cascade(providers, s, order, answers).tried;
      && tried[k] < |providers| && tried[l] < |providers|
      && providers[tried[l]].provider != providers[tried[k]].provider
    decreases |order|
  {
    hide AfterError, WellNamed;
    if order == [] {
    } else if providers[order[0]].Id() in s.exhausted {
      BlockedProviderIsLeft(providers, s, order[1..], answers, k, l);
    } else if answers(order[0]).Error? {
      var t := AfterError(providers, s, order[0], answers(order[0]));
      TriedWasFree(providers, t, order[1..], answers, l - 1);
      if k == 0 {
        var later := Cascade(providers, t, order[1..], answers).tried[l - 1];
        ErrorMeaning(providers, s, order[0], answers(order[0]), later);
      } else {
        BlockedProviderIsLeft(providers, t, order[1..], answers, k - 1, l - 1);
      }
    }
  }

  /** The entries this severity may use at all. */
  predicate Allowed(p: Entry, critical: bool) {
    p.criticalOnly ==> critical
  }

  ghost predicate AllAllowedExhausted(providers: seq<Entry>, s: State, critical: bool) {
    forall k :: 0 <= k < |providers| && Allowed(providers[k], critical) ==> providers[k].Id() in s.exhausted
  }

  lemma {:induction false} CascadeKeepsConsistent(providers: seq<Entry>, s: State, order: seq<nat>, answers: Answers)
    requires WellNamed(providers) && Consistent(providers, s)
    requires forall k :: 0 <= k < |order| ==> order[k] < |providers|
    ensures var r := Cascade(providers, s, order, answers);
      && Consistent(providers, r.state) && s.exhausted <= r.state.exhausted && s.hard <= r.state.hard
      && (forall k :: 0 <= k < |r.tried| ==> r.tried[k] in order)
      && (r.reply == None ==> forall k :: 0 <= k < |order| ==> providers[order[k]].Id() in r.state.exhausted)
      && (r.reply.Some? ==>
            && r.tried != [] && r.state.sticky == Some(Last(r.tried))
            && answers(Last(r.tried)) == Reply(r.reply.value))
      && (forall k :: 0 <= k < |r.tried| - (if r.reply.Some? then 1 else 0) ==> answers(r.tried[k]).Error?)
    decreases |order|
  {
    hide AfterError, WellNamed, IsHard;
    if order == [] {
    } else {
      var i := order[0];
      if providers[i].Id() in s.exhausted {
        CascadeKeepsConsistent(providers, s, order[1..], answers);
      } else if answers(i).Error? {
        ErrorKeepsConsistent(providers, s, i, answers(i));
        CascadeKeepsConsistent(providers, AfterError(providers, s, i, answers(i)), order[1..], answers);
      }
    }
  }

  lemma {:induction false} CascadeTriesOnce(providers: seq<Entry>, s: State, order: seq<nat>, answers: Answers)
    requires Distinct(order) && forall k :: 0 <= k < |order| ==> order[k] < |providers|
    ensures var r := Cascade(providers, s, order, answers); Distinct(r.tried) && forall k :: 0 <= k < |r.tried| ==>
      r.tried[k] in order
    ensures order != [] && providers[order[0]].Id() !in s.exhausted ==>
              var r := Cascade(providers, s, order, answers); r.tried != [] && r.tried[0] == order[0]
    decreases |order|
  {
    if order == [] {
    } else {
      var i := order[0];
      assert forall x :: x in order[1..] ==> x in order && x != i;
      if providers[i].Id() in s.exhausted {
        CascadeTriesOnce(providers, s, order[1..], answers);
      } else if answers(i).Error? {
        CascadeTriesOnce(providers, AfterError(providers, s, i, answers(i)), order[1..], answers);
      }
    }
  }

  lemma {:induction false} OthersMeaning(providers: seq<Entry>, s: State, critical: bool, i: nat)
    requires i <= |providers|
    ensures forall k :: k in Others(providers, s, critical, i) <==>
              i <= k < |providers| && s.sticky != Some(k) && Eligible(providers[k], s.exhausted, critical)
    ensures Distinct(Others(providers, s, critical, i))
    decreases |providers| - i
  {
    hide Eligible, Distinct;
    if i == |providers| {
      NothingRepeats();
    } else {
      var rest := Others(providers, s, critical, i + 1);
      OthersMeaning(providers, s, critical, i + 1);
      assert i !in rest;
      OneInFront(i, rest);
      assert [] + rest == rest;
    }
  }

  lemma NothingRepeats()
    ensures Distinct<nat>([])
  {
  }

  lemma OneInFront(i: nat, rest: seq<nat>)
    requires i !in rest && Distinct(rest)
    ensures Distinct([i] + rest) && forall k :: k in [i] + rest <==> k == i || k in rest
  {
  }

  /** The tried order: exactly the eligible entries, each once, the sticky one first. */
  lemma OrderedMeaning(providers: seq<Entry>, s: State, critical: bool)
    requires s.sticky.Some? ==> s.sticky.value < |providers|
    ensures var order := Ordered(providers, s, critical);
      && Distinct(order)
      && (forall k :: k in order <==> 0 <= k < |providers| && Eligible(providers[k], s.exhausted, critical))
      && (s.sticky.Some? && Eligible(providers[s.sticky.value], s.exhausted, critical) ==>
            order != [] && order[0] == s.sticky.value)
  {
    OthersMeaning(providers, s, critical, 0);
    var others := Others(providers, s, critical, 0);
    assert s.sticky.Some? ==> s.sticky.value !in others;
  }

  function CallResult(providers: seq<Entry>, s: State, critical: bool, answers: Answers): Result
    requires Consistent(providers, s)
  {
    OrderedMeaning(providers, s, critical);
    assert forall k :: 0 <= k < |Ordered(providers, s, critical)| ==>
      Ordered(providers, s, critical)[k] in Ordered(providers, s, critical);
    Cascade(providers, s, Ordered(providers, s, critical), answers)
  }

  /**
   One call: the sticky entry, if allowed, is tried first; each entry is tried at most once and only
   if eligible; and the call gives up exactly when it leaves every allowed entry exhausted.
   */
  lemma CallIsFair(providers: seq<Entry>, s: State, critical: bool, answers: Answers)
    requires WellNamed(providers) && Consistent(providers, s)
    ensures var r := CallResult(providers, s, critical, answers);
      && Consistent(providers, r.state) && s.hard <= r.state.hard
      && Distinct(r.tried)
      && (forall k :: 0 <= k < |r.tried| ==>
            r.tried[k] < |providers| && Eligible(providers[r.tried[k]], s.exhausted, critical))
      && (s.sticky.Some? && Allowed(providers[s.sticky.value], critical) ==>
            r.tried != [] && r.tried[0] == s.sticky.value)
      && (r.reply == None <==> AllAllowedExhausted(providers, r.state, critical))
      && (r.reply.Some? ==>
            && r.tried != [] && r.state.sticky == Some(Last(r.tried))
            && answers(Last(r.tried)) == Reply(r.reply.value))
  {
    var order := Ordered(providers, s, critical);
    OrderedMeaning(providers, s, critical);
    assert forall k :: 0 <= k < |order| ==> order[k] in order;
    CascadeKeepsConsistent(providers, s, order, answers);
    CascadeTriesOnce(providers, s, order, answers);
    var r := CallResult(providers, s, critical, answers);
    forall k | 0 <= k < |r.tried| ensures r.tried[k] < |providers| &&
      Eligible(providers[r.tried[k]], s.exhausted, critical) {
      assert r.tried[k] in order;
    }
    if r.reply == None {
      forall k | 0 <= k < |providers| &&
        Allowed(providers[k], critical) ensures providers[k].Id() in r.state.exhausted {
        if Eligible(providers[k], s.exhausted, critical) {
          assert k in order;
        }
      }
    } else {
      assert Last(r.tried) == r.tried[|r.tried| - 1];
      assert providers[Last(r.tried)].Id() !in r.state.exhausted;
    }
  }

  /**
   After a call that gave up, the pool still counts as available exactly when a critical-only entry was out of bounds
   and unused.
   */
  lemma AvailableAfterGivingUp(providers: seq<Entry>, s: State, critical: bool, answers: Answers)
    requires WellNamed(providers) && Consistent(providers, s)
    requires CallResult(providers, s, critical, answers).reply == None
    ensures var t := CallResult(providers, s, critical, answers).state;
      (exists p :: p in providers && p.Id() !in t.exhausted)
      <==> (!critical && exists p :: p in providers && p.criticalOnly && p.Id() !in t.exhausted)
  {
    CallIsFair(providers, s, critical, answers);
    var t := CallResult(providers, s, critical, answers).state;
    forall p | p in providers && p.Id() !in t.exhausted ensures !critical && p.criticalOnly {
      var k :| 0 <= k < |providers| && providers[k] == p;
    }
  }

  /** A reset leaves exactly the hard set exhausted. */
  lemma ResetLeavesHard(providers: seq<Entry>, s: State)
    requires Consistent(providers, s)
    ensures var t := Reset(providers, s); Consistent(providers, t) && t.exhausted == t.hard == s.hard && t.soft == {}
    ensures Reset(providers, s).sticky == s.sticky
  {
  }

  // ----- every sequence of calls and resets

  datatype Op = DoCall(critical: bool, answers: Answers) | DoReset

  ghost function Run(providers: seq<Entry>, ops: seq<Op>): (s: State)
    requires WellNamed(providers)
    ensures Consistent(providers, s)
  {
    if ops == [] then State({}, {}, {}, None)
    else
      var s := Run(providers, ops[..|ops| - 1]);
      match Last(ops)
      case DoReset => ResetLeavesHard(providers, s); Reset(providers, s)
      case DoCall(critical, answers) =>
        CallIsFair(providers, s, critical, answers);
        CallResult(providers, s, critical, answers).state
  }

  /** Hard exhaustion never shrinks along a run. */
  lemma {:induction false} HardGrows(providers: seq<Entry>, ops: seq<Op>, n: nat)
    requires WellNamed(providers) && n <= |ops|
    ensures Run(providers, ops[..n]).hard <= Run(providers, ops).hard
    decreases |ops|
  {
    if n == |ops| {
      assert ops[..n] == ops;
    } else {
      var front := ops[..|ops| - 1];
      assert front[..n] == ops[..n];
      HardGrows(providers, front, n);
      var s := Run(providers, front);
      if Last(ops).DoReset? {
        ResetLeavesHard(providers, s);
      } else {
        CallIsFair(providers, s, Last(ops).critical, Last(ops).answers);
      }
    }
  }

  lemma {:induction false} CascadeHard(providers: seq<Entry>, s: State, order: seq<nat>, answers: Answers, id: string)
    requires WellNamed(providers) && Consistent(providers, s)
    requires forall k :: 0 <= k < |order| ==> order[k] < |providers|
    ensures var r := Cascade(providers, s, order, answers);
      id in r.state.hard <==>
        id in s.hard || exists i :: i in r.tried && i < |providers| && IsHard(answers(i)) && providers[i].Id() == id
    decreases |order|
  {
    if order == [] {
    } else {
      var i := order[0];
      if providers[i].Id() in s.exhausted {
        CascadeHard(providers, s, order[1..], answers, id);
      } else if answers(i).Error? {
        ErrorKeepsConsistent(providers, s, i, answers(i));
        CascadeHard(providers, AfterError(providers, s, i, answers(i)), order[1..], answers, id);
      }
    }
  }

  /** An entry was tried somewhere in the run and answered with a daily quota. */
  ghost predicate QuotaSeen(providers: seq<Entry>, ops: seq<Op>, id: string)
    requires WellNamed(providers)
  {
    exists n :: 0 <= n < |ops| && ops[n].DoCall?
      && QuotaIn(providers, Run(providers, ops[..n]), ops[n].critical, ops[n].answers, id)
  }

  /** After any run, the hard set is exactly the entries that reported a daily quota along it. */
  lemma {:induction false} HardIsQuotaSeen(providers: seq<Entry>, ops: seq<Op>, id: string)
    requires WellNamed(providers)
    ensures id in Run(providers, ops).hard <==> QuotaSeen(providers, ops, id)
    decreases |ops|
  {
    if ops == [] {
    } else {
      hide CallResult, Reset, IsHard;
      var m := |ops| - 1;
      HardIsQuotaSeen(providers, ops[..m], id);
      QuotaSeenStep(providers, ops, id);
      var s := Run(providers, ops[..m]);
      if Last(ops).DoReset? {
        ResetLeavesHard(providers, s);
      } else {
        CallHard(providers, s, Last(ops).critical, Last(ops).answers, id);
      }
    }
  }

  ghost predicate QuotaIn(providers: seq<Entry>, s: State, critical: bool, answers: Answers, id: string)
    requires Consistent(providers, s)
  {
    exists i :: i in CallResult(providers, s, critical, answers).tried && i < |providers| && IsHard(answers(i)) &&
      providers[i].Id() == id
  }

  lemma CallHard(providers: seq<Entry>, s: State, critical: bool, answers: Answers, id: string)
    requires WellNamed(providers) && Consistent(providers, s)
    ensures id in CallResult(providers, s, critical, answers).state.hard <==>
      id in s.hard || QuotaIn(providers, s, critical, answers, id)
  {
    CascadeHard(providers, s, Ordered(providers, s, critical), answers, id);
  }

  lemma QuotaSeenStep(providers: seq<Entry>, ops: seq<Op>, id: string)
    requires WellNamed(providers) && ops != []
    ensures var front := ops[..|ops| - 1];
      QuotaSeen(providers, ops, id) <==>
        (|| QuotaSeen(providers, front, id)
         || (Last(ops).DoCall? && QuotaIn(providers, Run(providers, front), Last(ops).critical, Last(ops).answers, id)))
  {
    hide CallResult, QuotaIn, Run;
    var front := ops[..|ops| - 1];
    assert forall n :: 0 <= n < |front| ==> front[..n] == ops[..n];
  }
}
