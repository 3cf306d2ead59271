/**
 The sliding-window rate limiter: per-key deques trimmed on access and swept every thousandth call,
 against the naive rule "accept while fewer than `limit` accepted calls lie in the last window".
 */
module RateLimiter {
  import opened Base

  const SWEEP_INTERVAL := 1000
  const SWEEP_STALE_AFTER_SECONDS := 3600.0

  // ----- what one call does, as a function of the limiter's state

  datatype State = State(buckets: map<string, seq<real>>, callsSinceSweep: nat)

  function Stale(entries: seq<real>, now: real): bool {
    entries == [] || now - Last(entries) > SWEEP_STALE_AFTER_SECONDS
  }

  function Sweep(buckets: map<string, seq<real>>, now: real): map<string, seq<real>> {
    map k | k in buckets && !Stale(buckets[k], now) :: buckets[k]
  }

  /** Popping entries off the front while they are older than the window. */
  function Trim(entries: seq<real>, now: real, window: real): seq<real> {
    if entries != [] && now - entries[0] > window then Trim(entries[1..], now, window) else entries
  }

  function Entries(buckets: map<string, seq<real>>, key: string): seq<real> {
    if key in buckets then buckets[key] else []
  }

  function AfterSweep(s: State, now: real): State {
    if s.callsSinceSweep + 1 >= SWEEP_INTERVAL then State(Sweep(s.buckets, now), 0)
    else s.(callsSinceSweep := s.callsSinceSweep + 1)
  }

  function Accepts(s: State, key: string, now: real, limit: int, window: real): bool {
    var live := Trim(Entries(AfterSweep(s, now).buckets, key), now, window);
    live == [] || |live| < limit
  }

  function Step(s: State, key: string, now: real, limit: int, window: real): State {
    var swept := AfterSweep(s, now);
    var live := Trim(Entries(swept.buckets, key), now, window);
    if Accepts(s, key, now, limit, window) then swept.(buckets := swept.buckets[key := live + [now]])
    else swept.(buckets := swept.buckets[key := live])
  }

  /** The module-level state and `check_rate_limit`; a refusal is the HTTP 429. */
  class Limiter {
    var buckets: map<string, seq<real>>
    var callsSinceSweep: nat

    function Abs(): State
      reads this
    {
      State(buckets, callsSinceSweep)
    }

    constructor ()
      ensures Abs() == State(map[], 0)
    {
      buckets, callsSinceSweep := map[], 0;
    }

    method SweepExpiredBuckets(now: real)
      modifies this
      ensures Abs() == State(Sweep(old(buckets), now), old(callsSinceSweep))
    {
      var staleKeys := set k | k in buckets && Stale(buckets[k], now);
      while staleKeys != {}
        invariant staleKeys <= buckets.Keys
        invariant forall k :: k in buckets ==> k in old(buckets) && buckets[k] == old(buckets)[k]
        invariant forall k :: k in old(buckets) ==> (k in buckets <==> k in staleKeys || !Stale(old(buckets)[k], now))
        invariant forall k :: k in staleKeys ==> Stale(buckets[k], now)
        invariant callsSinceSweep == old(callsSinceSweep)
        decreases |staleKeys|
      {
        var key :| key in staleKeys;
        staleKeys := staleKeys - {key};
        buckets := buckets - {key};
      }
    }

    method CheckRateLimit(key: string, now: real, limit: int, window: real) returns (accepted: bool)
      modifies this
      ensures accepted == Accepts(old(Abs()), key, now, limit, window)
      ensures Abs() == Step(old(Abs()), key, now, limit, window)
    {
      callsSinceSweep := callsSinceSweep + 1;
      if callsSinceSweep >= SWEEP_INTERVAL {
        callsSinceSweep := 0;
        SweepExpiredBuckets(now);
      }
      ghost var swept := buckets;
      var entries := if key in buckets then buckets[key] else [];
      if entries != [] {
        while entries != [] && now - entries[0] > window
          invariant Trim(entries, now, window) == Trim(Entries(swept, key), now, window)
          decreases |entries|
        {
          entries := entries[1..];
        }
        if entries == [] {
          buckets := buckets - {key};
        } else {
          buckets := buckets[key := entries];
        }
      }
      assert entries == Trim(Entries(swept, key), now, window);
      if entries != [] && |entries| >= limit {
        assert buckets == swept[key := entries];
        return false;
      }
      buckets := buckets[key := entries + [now]];
      assert buckets == swept[key := entries + [now]];
      return true;
    }
  }

  // ----- runs

  datatype Call = Call(key: string, now: real)

  /** Each key's limit and window, fixed for the run. */
  datatype Config = Config(limit: string -> int, window: string -> real)

  ghost predicate NonDecreasing(calls: seq<Call>) {
    forall i, j :: 0 <= i < j < |calls| ==> calls[i].now <= calls[j].now
  }

  function Init(): State { State(map[], 0) }

  ghost function RunState(cfg: Config, calls: seq<Call>): State {
    if calls == [] then Init()
    else
      var c := Last(calls);
      Step(RunState(cfg, calls[..|calls| - 1]), c.key, c.now, cfg.limit(c.key), cfg.window(c.key))
  }

  /** The limiter's decision on each call of a run. */
  ghost function Decisions(cfg: Config, calls: seq<Call>): (ds: seq<bool>)
    ensures |ds| == |calls|
  {
    if calls == [] then []
    else
      var front := calls[..|calls| - 1];
      var c := Last(calls);
      Decisions(cfg, front) + [Accepts(RunState(cfg, front), c.key, c.now, cfg.limit(c.key), cfg.window(c.key))]
  }

  /** The times of the accepted calls for one key. */
  ghost function AcceptedTimes(calls: seq<Call>, ds: seq<bool>, key: string): seq<real>
    requires |ds| == |calls|
  {
    if calls == [] then []
    else
      AcceptedTimes(calls[..|calls| - 1], ds[..|calls| - 1], key)
      + (if ds[|calls| - 1] && Last(calls).key == key then [Last(calls).now] else [])
  }

  /** How many of the times lie in the closed window of length `w` that ends at `now`. */
  ghost function CountIn(ts: seq<real>, now: real, w: real): nat {
    if ts == [] then 0
    else CountIn(ts[..|ts| - 1], now, w) + if Last(ts) <= now && now - Last(ts) <= w then 1 else 0
  }

  /** The naive limiter: no trimming, no sweep, the whole history of accepted calls. */
  ghost function NaiveDecisions(cfg: Config, calls: seq<Call>): (ds: seq<bool>)
    ensures |ds| == |calls|
  {
    if calls == [] then []
    else
      var front := calls[..|calls| - 1];
      var c := Last(calls);
      var ds := NaiveDecisions(cfg, front);
      ds + [CountIn(AcceptedTimes(front, ds, c.key), c.now, cfg.window(c.key)) < cfg.limit(c.key)]
  }

  // ----- the cached, trimmed, swept state stands for the whole history

  ghost predicate Ascending(ts: seq<real>) {
    forall i, j :: 0 <= i < j < |ts| ==> ts[i] <= ts[j]
  }

  /** `live` is what remains of `all`: a suffix, everything before it being out of the window since `now`. */
  ghost predicate Remains(all: seq<real>, live: seq<real>, now: real, w: real) {
    && |live| <= |all|
    && live == all[|all| - |live|..]
    && forall i :: 0 <= i < |all| - |live| ==> now - all[i] > w
  }

  lemma {:induction false} TrimRemains(all: seq<real>, live: seq<real>, then_: real, now: real, w: real)
    requires Remains(all, live, then_, w) && then_ <= now
    ensures Remains(all, Trim(live, now, w), now, w)
    ensures Trim(live, now, w) != [] ==> now - Trim(live, now, w)[0] <= w
    decreases |live|
  {
    if live == [] || now - live[0] <= w {
    } else {
      assert live[0] == all[|all| - |live|];
      TrimRemains(all, live[1..], now, now, w);
    }
  }

  /** The trimmed deque's length is the number of accepted calls in the window. */
  lemma {:induction false} RemainsCounts(all: seq<real>, live: seq<real>, now: real, w: real)
    requires Ascending(all) && Remains(all, live, now, w)
    requires forall i :: 0 <= i < |all| ==> all[i] <= now
    requires live != [] ==> now - live[0] <= w
    ensures CountIn(all, now, w) == |live|
    decreases |all|
  {
    if all == [] {
    } else {
      var front := all[..|all| - 1];
      if live == [] {
        RemainsCounts(front, [], now, w);
      } else {
        var shorter := live[..|live| - 1];
        assert Last(live) == Last(all) && live[0] == all[|all| - |live|];
        if shorter != [] {
          assert shorter[0] == live[0];
        }
        RemainsCounts(front, shorter, now, w);
      }
    }
  }

  lemma {:induction false} TrimKeepsLast(entries: seq<real>, now: real, w: real)
    ensures Trim(entries, now, w) != [] ==> entries != [] && Last(Trim(entries, now, w)) == Last(entries)
    decreases |entries|
  {
    if entries == [] || now - entries[0] <= w {
    } else {
      TrimKeepsLast(entries[1..], now, w);
    }
  }

  /** The key's own bucket after a call holds that call, or what the refused key still had. */
  lemma StepSweeps(s: State, key: string, now: real, limit: int, w: real)
    ensures var t := Step(s, key, now, limit, w);
      && t.callsSinceSweep == (if s.callsSinceSweep >= 999 then 0 else s.callsSinceSweep + 1)
      && (s.callsSinceSweep >= 999 ==> forall k :: k in t.buckets ==>
            t.buckets[k] != [] && now - Last(t.buckets[k]) <= 3600.0)
  {
    var swept := AfterSweep(s, now);
    TrimKeepsLast(Entries(swept.buckets, key), now, w);
    hide Trim;
    var live := Trim(Entries(swept.buckets, key), now, w);
    assert Last(live + [now]) == now;
  }

  /**
   The sweep happens on every thousandth call, and leaves only keys with a call accepted within the hour before it:
   keys never seen again do not pile up.
   */
  lemma {:induction false} SweptEveryThousand(cfg: Config, calls: seq<Call>)
    ensures RunState(cfg, calls).callsSinceSweep == |calls| % 1000
    ensures calls != [] && |calls| % 1000 == 0 ==>
      forall k :: k in RunState(cfg, calls).buckets ==>
        var entries := RunState(cfg, calls).buckets[k];
        entries != [] && Last(calls).now - Last(entries) <= 3600.0
  {
    if calls == [] {
    } else {
      hide Step;
      var c := Last(calls);
      SweptEveryThousand(cfg, calls[..|calls| - 1]);
      StepSweeps(RunState(cfg, calls[..|calls| - 1]), c.key, c.now, cfg.limit(c.key), cfg.window(c.key));
    }
  }

  /** The configurations for which the limiter is correct: positive limits, windows the sweep respects. */
  ghost predicate Supported(cfg: Config) {
    forall k :: cfg.limit(k) >= 1 && cfg.window(k) <= 3600.0
  }

  ghost predicate Mirrors(s: State, times: seq<real>, key: string, now: real, w: real) {
    && Ascending(times)
    && (forall i :: 0 <= i < |times| ==> times[i] <= now)
    && Remains(times, Entries(s.buckets, key), now, w)
  }

  lemma SweepMirrors(s: State, times: seq<real>, key: string, then_: real, now: real, w: real)
    requires Mirrors(s, times, key, then_, w) && then_ <= now && w <= SWEEP_STALE_AFTER_SECONDS
    ensures Mirrors(AfterSweep(s, now), times, key, now, w)
  {
    var live := Entries(s.buckets, key);
    if Entries(AfterSweep(s, now).buckets, key) != live {
      assert live != [] && now - Last(live) > w;
      forall i | 0 <= i < |times| ensures now - times[i] > w {
        assert Last(live) == times[|times| - 1];
      }
    }
  }

  /** One call for this key: the decision is the naive one, and the bucket keeps standing for the history. */
  lemma StepMirrors(s: State, times: seq<real>, key: string, then_: real, now: real, limit: int, w: real)
    requires Mirrors(s, times, key, then_, w) && then_ <= now && w <= SWEEP_STALE_AFTER_SECONDS
    ensures limit >= 1 ==> Accepts(s, key, now, limit, w) == (CountIn(times, now, w) < limit)
    ensures Mirrors(Step(s, key, now, limit, w), if Accepts(s, key, now, limit, w) then times + [now] else times,
                    key, now, w)
  {
    hide Mirrors, Remains, Trim, AfterSweep, CountIn;
    SweepMirrors(s, times, key, then_, now, w);
    TrimMirrors(AfterSweep(s, now), times, key, now, w);
    var live := Trim(Entries(AfterSweep(s, now).buckets, key), now, w);
    AppendMirrors(Step(s, key, now, limit, w), times, live, key, now, w);
  }

  lemma TrimMirrors(s: State, times: seq<real>, key: string, now: real, w: real)
    requires Mirrors(s, times, key, now, w)
    ensures Ascending(times) && forall i :: 0 <= i < |times| ==> times[i] <= now
    ensures var live := Trim(Entries(s.buckets, key), now, w);
      Remains(times, live, now, w) && CountIn(times, now, w) == |live|
  {
    hide Trim, CountIn;
    TrimRemains(times, Entries(s.buckets, key), now, now, w);
    RemainsCounts(times, Trim(Entries(s.buckets, key), now, w), now, w);
  }

  lemma AppendMirrors(s: State, times: seq<real>, live: seq<real>, key: string, now: real, w: real)
    requires Ascending(times) && forall i :: 0 <= i < |times| ==> times[i] <= now
    requires Remains(times, live, now, w)
    ensures Entries(s.buckets, key) == live ==> Mirrors(s, times, key, now, w)
    ensures Entries(s.buckets, key) == live + [now] ==> Mirrors(s, times + [now], key, now, w)
  {
  }

  /** A call for another key leaves this key's bucket standing for its history. */
  lemma OtherStepMirrors(s: State, times: seq<real>, key: string, other: string, then_: real, now: real, limit: int,
                         w: real, wo: real)
    requires Mirrors(s, times, key, then_, w) && then_ <= now && w <= SWEEP_STALE_AFTER_SECONDS && other != key
    ensures Mirrors(Step(s, other, now, limit, wo), times, key, now, w)
  {
    SweepMirrors(s, times, key, then_, now, w);
    hide Remains, AfterSweep, Trim;
  }

  ghost function LastTime(calls: seq<Call>): real {
    if calls == [] then 0.0 else Last(calls).now
  }

  lemma FrontOrdered(calls: seq<Call>)
    requires NonDecreasing(calls) && calls != []
    ensures NonDecreasing(calls[..|calls| - 1])
    ensures |calls| > 1 ==> LastTime(calls[..|calls| - 1]) <= Last(calls).now
  {
  }

  /** Unfolding a run by its last call. */
  lemma RunUnfold(cfg: Config, calls: seq<Call>, key: string)
    requires calls != []
    ensures var front, c := calls[..|calls| - 1], Last(calls);
      var s := RunState(cfg, front);
      var accepted := Accepts(s, c.key, c.now, cfg.limit(c.key), cfg.window(c.key));
      && RunState(cfg, calls) == Step(s, c.key, c.now, cfg.limit(c.key), cfg.window(c.key))
      && Decisions(cfg, calls) == Decisions(cfg, front) + [accepted]
      && AcceptedTimes(calls, Decisions(cfg, calls), key) == AcceptedTimes(front, Decisions(cfg, front), key)
         + (if accepted && c.key == key then [c.now] else [])
  {
    hide Step, Accepts;
    var front := calls[..|calls| - 1];
    assert Decisions(cfg, calls)[..|front|] == Decisions(cfg, front);
  }

  lemma NaiveUnfold(cfg: Config, calls: seq<Call>, key: string)
    requires calls != []
    ensures var front, c := calls[..|calls| - 1], Last(calls);
      var ds := NaiveDecisions(cfg, front);
      var accepted := CountIn(AcceptedTimes(front, ds, c.key), c.now, cfg.window(c.key)) < cfg.limit(c.key);
      && NaiveDecisions(cfg, calls) == ds + [accepted]
      && AcceptedTimes(calls, NaiveDecisions(cfg, calls), key) == AcceptedTimes(front, ds, key)
         + (if accepted && c.key == key then [c.now] else [])
  {
    hide CountIn;
    var front := calls[..|calls| - 1];
    assert NaiveDecisions(cfg, calls)[..|front|] == NaiveDecisions(cfg, front);
  }

  ghost predicate RunOk(cfg: Config, calls: seq<Call>, key: string) {
    Mirrors(RunState(cfg, calls), AcceptedTimes(calls, Decisions(cfg, calls), key), key, LastTime(calls),
            cfg.window(key))
  }

  lemma StartMirrors(key: string, now: real, w: real)
    ensures Mirrors(Init(), [], key, now, w)
  {
  }

  lemma {:induction false} RunMirrors(cfg: Config, calls: seq<Call>, key: string)
    requires Supported(cfg) && NonDecreasing(calls)
    ensures RunOk(cfg, calls, key)
    decreases |calls|
  {
    hide Mirrors, Step, Accepts;
    if calls == [] {
      StartMirrors(key, 0.0, cfg.window(key));
    } else {
      var front, c := calls[..|calls| - 1], Last(calls);
      FrontOrdered(calls);
      RunMirrors(cfg, front, key);
      RunUnfold(cfg, calls, key);
      hide RunState, Decisions, AcceptedTimes;
      var s, times := RunState(cfg, front), AcceptedTimes(front, Decisions(cfg, front), key);
      assert times + [] == times;
      var then_ := if front == [] then c.now else LastTime(front);
      if front == [] {
        StartMirrors(key, c.now, cfg.window(key));
        EmptyRun(cfg, key);
      }
      if c.key == key {
        StepMirrors(s, times, key, then_, c.now, cfg.limit(key), cfg.window(key));
      } else {
        OtherStepMirrors(s, times, key, c.key, then_, c.now, cfg.limit(c.key), cfg.window(key), cfg.window(c.key));
      }
    }
  }

  lemma EmptyRun(cfg: Config, key: string)
    ensures RunState(cfg, []) == Init() && Decisions(cfg, []) == [] && AcceptedTimes([], [], key) == []
  {
  }

  /** On a supported configuration each decision follows the naive rule over the calls accepted so far. */
  lemma DecisionIsNaive(cfg: Config, calls: seq<Call>)
    requires Supported(cfg) && NonDecreasing(calls) && calls != []
    ensures var front, c := calls[..|calls| - 1], Last(calls);
      Accepts(RunState(cfg, front), c.key, c.now, cfg.limit(c.key), cfg.window(c.key))
      == (CountIn(AcceptedTimes(front, Decisions(cfg, front), c.key), c.now, cfg.window(c.key)) < cfg.limit(c.key))
  {
    hide Mirrors, Step, Accepts, RunState, Decisions, AcceptedTimes, CountIn;
    var front, c := calls[..|calls| - 1], Last(calls);
    FrontOrdered(calls);
    RunMirrors(cfg, front, c.key);
    var s, times := RunState(cfg, front), AcceptedTimes(front, Decisions(cfg, front), c.key);
    var then_ := if front == [] then c.now else LastTime(front);
    if front == [] {
      StartMirrors(c.key, c.now, cfg.window(c.key));
      EmptyRun(cfg, c.key);
    }
    StepMirrors(s, times, c.key, then_, c.now, cfg.limit(c.key), cfg.window(c.key));
  }

  /** Refinement: on every run with non-decreasing times, a supported limiter decides as the naive one does. */
  lemma {:induction false} RefinesNaive(cfg: Config, calls: seq<Call>)
    requires Supported(cfg) && NonDecreasing(calls)
    ensures Decisions(cfg, calls) == NaiveDecisions(cfg, calls)
    decreases |calls|
  {
    if calls == [] {
    } else {
      hide RunState, Accepts, AcceptedTimes, CountIn, Decisions, NaiveDecisions;
      FrontOrdered(calls);
      RefinesNaive(cfg, calls[..|calls| - 1]);
      DecisionIsNaive(cfg, calls);
      RunUnfold(cfg, calls, "");
      NaiveUnfold(cfg, calls, "");
    }
  }

  // ----- safety

  lemma {:induction false} CountShrinks(ts: seq<real>, now: real, later: real, w: real)
    requires now <= later && forall i :: 0 <= i < |ts| ==> ts[i] <= now
    ensures CountIn(ts, later, w) <= CountIn(ts, now, w)
  {
    if ts == [] {
    } else {
      CountShrinks(ts[..|ts| - 1], now, later, w);
    }
  }

  /** No window of a key's length, wherever it ends, ever holds more than the key's limit of accepted calls. */
  lemma {:induction false} NeverMoreThanLimit(cfg: Config, calls: seq<Call>, key: string, end: real)
    requires Supported(cfg) && NonDecreasing(calls)
    ensures CountIn(AcceptedTimes(calls, Decisions(cfg, calls), key), end, cfg.window(key)) <= cfg.limit(key)
    decreases |calls|
  {
    if calls != [] {
      hide *;
      var front, c := calls[..|calls| - 1], Last(calls);
      var before := AcceptedTimes(front, Decisions(cfg, front), key);
      FrontOrdered(calls);
      NeverMoreThanLimit(cfg, front, key, end);
      RunUnfold(cfg, calls, key);
      DecisionIsNaive(cfg, calls);
      TimesUpTo(calls);
      AcceptedBefore(cfg, front, key, c.now);
      CountAppend(before, c.now, end, cfg.window(key));
      if c.now <= end {
        CountShrinks(before, c.now, end, cfg.window(key));
      }
      LimitPositive(cfg, key);
    } else {
      EmptyRun(cfg, key);
      LimitPositive(cfg, key);
    }
  }

  lemma LimitPositive(cfg: Config, key: string)
    requires Supported(cfg)
    ensures cfg.limit(key) >= 1
    ensures forall end, w :: CountIn([], end, w) == 0
  {
  }

  lemma TimesUpTo(calls: seq<Call>)
    requires NonDecreasing(calls) && calls != []
    ensures var front := calls[..|calls| - 1]; forall i :: 0 <= i < |front| ==> front[i].now <= Last(calls).now
  {
  }

  lemma CountAppend(ts: seq<real>, t: real, end: real, w: real)
    ensures CountIn(ts + [t], end, w) == CountIn(ts, end, w) + if t <= end && end - t <= w then 1 else 0
    ensures ts + [] == ts
  {
    assert (ts + [t])[..|ts|] == ts;
  }

  lemma {:induction false} AcceptedBefore(cfg: Config, calls: seq<Call>, key: string, now: real)
    requires forall i :: 0 <= i < |calls| ==> calls[i].now <= now
    ensures forall i :: 0 <= i < |AcceptedTimes(calls, Decisions(cfg, calls), key)| ==>
              AcceptedTimes(calls, Decisions(cfg, calls), key)[i] <= now
    decreases |calls|
  {
    if calls != [] {
      hide RunState, Accepts, Decisions, AcceptedTimes;
      RunUnfold(cfg, calls, key);
      AcceptedBefore(cfg, calls[..|calls| - 1], key, now);
    } else {
      EmptyRun(cfg, key);
    }
  }

  // ----- where the two disagree

  /** `n` calls for one key at time zero. */
  ghost function Burst(key: string, n: nat): seq<Call> {
    seq(n, _ => Call(key, 0.0))
  }

  ghost function Zeros(n: nat): seq<real> {
    seq(n, _ => 0.0)
  }

  ghost function Filled(cfg: Config, key: string, n: nat): nat
    requires cfg.limit(key) >= 1
  {
    if n < cfg.limit(key) then n else cfg.limit(key)
  }

  lemma {:induction false} CountZeros(n: nat, now: real, w: real)
    requires 0.0 <= now <= w
    ensures CountIn(Zeros(n), now, w) == n
  {
    if n == 0 {
    } else {
      assert Zeros(n)[..n - 1] == Zeros(n - 1);
      CountZeros(n - 1, now, w);
    }
  }

  lemma ZerosAppend(m: nat)
    ensures Zeros(m) + [0.0] == Zeros(m + 1) && Zeros(m) + [] == Zeros(m)
    ensures m > 0 ==> Zeros(m) != [] && Last(Zeros(m)) == 0.0
  {
  }

  /** One more call at time zero against a bucket of `m` zeros. */
  lemma StepAtZero(s: State, key: string, m: nat, limit: int, w: real)
    requires limit >= 1 && w >= 0.0 && m <= limit && Entries(s.buckets, key) == Zeros(m)
    ensures var next := Step(s, key, 0.0, limit, w);
      && next.callsSinceSweep == (if s.callsSinceSweep + 1 >= SWEEP_INTERVAL then 0 else s.callsSinceSweep + 1)
      && Entries(next.buckets, key) == Zeros(if m < limit then m + 1 else m)
  {
    ZerosAppend(m);
    assert Entries(AfterSweep(s, 0.0).buckets, key) == Zeros(m);
    assert Trim(Zeros(m), 0.0, w) == Zeros(m);
  }

  lemma CycleStep(n: nat)
    requires n > 0
    ensures n % SWEEP_INTERVAL
         == if (n - 1) % SWEEP_INTERVAL + 1 >= SWEEP_INTERVAL then 0 else (n - 1) % SWEEP_INTERVAL + 1
  {
  }

  /** A burst long enough to fill the key, ending just before a sweep is due. */
  lemma BurstLength(limit: nat) returns (n: nat)
    ensures limit <= n && n % SWEEP_INTERVAL == SWEEP_INTERVAL - 1
  {
    n := SWEEP_INTERVAL * limit + (SWEEP_INTERVAL - 1);
  }

  lemma BurstFront(key: string, n: nat)
    requires n > 0
    ensures var calls := Burst(key, n);
      calls != [] && calls[..|calls| - 1] == Burst(key, n - 1) && Last(calls) == Call(key, 0.0)
  {
    assert Burst(key, n)[..n - 1] == Burst(key, n - 1);
  }

  lemma EmptyBurst(cfg: Config, key: string)
    requires cfg.limit(key) >= 1
    ensures RunState(cfg, Burst(key, 0)).callsSinceSweep == 0 % SWEEP_INTERVAL
    ensures Entries(RunState(cfg, Burst(key, 0)).buckets, key) == Zeros(Filled(cfg, key, 0))
    ensures AcceptedTimes(Burst(key, 0), NaiveDecisions(cfg, Burst(key, 0)), key) == Zeros(Filled(cfg, key, 0))
  {
    assert Burst(key, 0) == [];
  }

  lemma FilledStep(cfg: Config, key: string, n: nat)
    requires cfg.limit(key) >= 1
    ensures Filled(cfg, key, 0) == 0 && Filled(cfg, key, n) <= cfg.limit(key)
    ensures Filled(cfg, key, n + 1)
         == if Filled(cfg, key, n) < cfg.limit(key) then Filled(cfg, key, n) + 1 else Filled(cfg, key, n)
  {
  }

  lemma {:induction false} BurstFills(cfg: Config, key: string, n: nat)
    requires cfg.limit(key) >= 1 && cfg.window(key) >= 0.0
    ensures RunState(cfg, Burst(key, n)).callsSinceSweep == n % SWEEP_INTERVAL
    ensures Entries(RunState(cfg, Burst(key, n)).buckets, key) == Zeros(Filled(cfg, key, n))
    decreases n
  {
    hide *;
    if n == 0 {
      EmptyBurst(cfg, key);
    } else {
      BurstFront(key, n);
      CycleStep(n);
      FilledStep(cfg, key, n - 1);
      BurstFills(cfg, key, n - 1);
      RunUnfold(cfg, Burst(key, n), key);
      StepAtZero(RunState(cfg, Burst(key, n - 1)), key, Filled(cfg, key, n - 1), cfg.limit(key), cfg.window(key));
    }
  }

  lemma {:induction false} NaiveBurst(cfg: Config, key: string, n: nat)
    requires cfg.limit(key) >= 1 && cfg.window(key) >= 0.0
    ensures AcceptedTimes(Burst(key, n), NaiveDecisions(cfg, Burst(key, n)), key) == Zeros(Filled(cfg, key, n))
    decreases n
  {
    hide *;
    if n == 0 {
      EmptyBurst(cfg, key);
    } else {
      BurstFront(key, n);
      FilledStep(cfg, key, n - 1);
      NaiveBurst(cfg, key, n - 1);
      NaiveUnfold(cfg, Burst(key, n), key);
      CountZeros(Filled(cfg, key, n - 1), 0.0, cfg.window(key));
      ZerosAppend(Filled(cfg, key, n - 1));
    }
  }

  /** With a limit below one the limiter still lets the first call through; the naive rule never would. */
  lemma LimitBelowOneDiffers(cfg: Config, key: string)
    requires cfg.limit(key) < 1
    ensures Decisions(cfg, [Call(key, 0.0)]) != NaiveDecisions(cfg, [Call(key, 0.0)])
  {
    var calls := [Call(key, 0.0)];
    assert calls[..0] == [];
    assert Decisions(cfg, calls)[0] && !NaiveDecisions(cfg, calls)[0];
  }

  lemma SweptKeyIsOpen(s: State, key: string, m: nat, limit: int, w: real)
    requires s.callsSinceSweep == SWEEP_INTERVAL - 1 && w > SWEEP_STALE_AFTER_SECONDS
    requires m > 0 && Entries(s.buckets, key) == Zeros(m)
    ensures Accepts(s, key, w, limit, w)
  {
    ZerosAppend(m);
    assert Entries(AfterSweep(s, w).buckets, key) == [];
  }

  lemma BurstThenCall(key: string, n: nat, now: real)
    requires now >= 0.0
    ensures var calls := Burst(key, n) + [Call(key, now)];
      NonDecreasing(calls) && |calls| == n + 1 && calls[..|calls| - 1] == Burst(key, n) && Last(calls) == Call(key, now)
  {
    var calls := Burst(key, n) + [Call(key, now)];
    assert calls[..n] == Burst(key, n);
  }

  /**
   A window longer than the staleness threshold: a sweep forgets calls that still count, and a full key is let through.
   */
  lemma LongWindowDiffers(cfg: Config, key: string) returns (calls: seq<Call>)
    requires cfg.limit(key) >= 1 && cfg.window(key) > 3600.0
    ensures NonDecreasing(calls) && Decisions(cfg, calls) != NaiveDecisions(cfg, calls)
  {
    hide RunState, Accepts, Decisions, NaiveDecisions, AcceptedTimes, CountIn, Zeros, Burst, NonDecreasing, Entries;
    var w, limit := cfg.window(key), cfg.limit(key);
    var n := BurstLength(limit);
    calls := Burst(key, n) + [Call(key, w)];
    BurstThenCall(key, n, w);
    BurstFills(cfg, key, n);
    NaiveBurst(cfg, key, n);
    RunUnfold(cfg, calls, key);
    NaiveUnfold(cfg, calls, key);
    CountZeros(limit, w, w);
    SweptKeyIsOpen(RunState(cfg, Burst(key, n)), key, limit, limit, w);
    assert Last(Decisions(cfg, calls)) != Last(NaiveDecisions(cfg, calls));
  }

  /** The exact condition: the limiter is the naive limiter on every run iff its configuration is supported. */
  lemma RefinesNaiveIff(cfg: Config)
    ensures Supported(cfg) <==>
            forall calls :: NonDecreasing(calls) ==> Decisions(cfg, calls) == NaiveDecisions(cfg, calls)
  {
    if Supported(cfg) {
      forall calls | NonDecreasing(calls) ensures Decisions(cfg, calls) == NaiveDecisions(cfg, calls) {
        RefinesNaive(cfg, calls);
      }
    } else {
      var key :| !(cfg.limit(key) >= 1 && cfg.window(key) <= 3600.0);
      if cfg.limit(key) < 1 {
        LimitBelowOneDiffers(cfg, key);
        assert NonDecreasing([Call(key, 0.0)]);
      } else {
        var calls := LongWindowDiffers(cfg, key);
      }
    }
  }
}
