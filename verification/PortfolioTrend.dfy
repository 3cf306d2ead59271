/**
 The portfolio trend of `AsvsService.get_portfolio_dashboard`: scan events walked in time order, each repository's last
 known percentage carried forward, one point kept per day.
 */
module PortfolioTrend {
  import opened Base
  import opened Dicts
  import opened Rounding
  import opened Sorting
  import opened Tallies

  /** Microseconds in a day. */
  const DAY := 86_400_000_000

  /** Microseconds since `datetime.min`; no scan carries a stamp of that very first day. */
  type Stamp = t: int | t >= DAY witness DAY

  datatype Event = Event(createdAt: Option<Stamp>, repo: string, pct: int)

  /** One repository's latest L1 percentage and its trend; every event in it names that repository. */
  datatype Repo = Repo(id: string, l1: int, trend: seq<Event>)

  datatype Point = Point(date: Option<Stamp>, pct: int)

  /** `created_at or datetime.min`. */
  function Key(e: Event): int {
    if e.createdAt.Some? then e.createdAt.value else 0
  }

  /** The day an event is filed under; 0 stands for the `None` key. */
  function Day(e: Event): int {
    Key(e) / DAY
  }

  predicate Earlier(a: Event, b: Event) {
    Key(a) < Key(b)
  }

  // ----- what a repository is known for by the end of a day

  predicate ByDay(e: Event, repo: string, day: int) {
    e.repo == repo && Day(e) <= day
  }

  /** The newest event of `repo` up to the end of `day`; of two with one stamp, the later in the list. */
  function Newest(events: seq<Event>, repo: string, day: int): (r: Option<Event>) {
    if events == [] then None
    else
      var e, before := Last(events), Newest(events[..|events| - 1], repo, day);
      if ByDay(e, repo, day) && (before == None || Key(before.value) <= Key(e)) then Some(e) else before
  }

  /** `Newest` in plain terms. */
  lemma {:induction false} NewestMeaning(events: seq<Event>, repo: string, day: int)
    ensures Newest(events, repo, day) == None <==> forall e :: e in events ==> !ByDay(e, repo, day)
    ensures Newest(events, repo, day).Some? ==> exists k :: 0 <= k < |events| && IsNewest(events, k, repo, day)
                                                         && events[k] == Newest(events, repo, day).value
  {
    if events == [] {
    } else {
      var front, e := events[..|events| - 1], Last(events);
      NewestMeaning(front, repo, day);
      assert events == front + [e];
      if Newest(front, repo, day).Some? {
        var k :| 0 <= k < |front| && IsNewest(front, k, repo, day) && front[k] == Newest(front, repo, day).value;
        assert IsNewest(events, if ByDay(e, repo, day) && Key(front[k]) <= Key(e) then |front| else k, repo, day);
      } else if ByDay(e, repo, day) {
        assert IsNewest(events, |front|, repo, day);
      }
    }
  }

  ghost predicate IsNewest(events: seq<Event>, k: int, repo: string, day: int) {
    && 0 <= k < |events| && ByDay(events[k], repo, day)
    && (forall j :: 0 <= j < |events| && ByDay(events[j], repo, day) ==> Key(events[j]) <= Key(events[k]))
    && forall j :: k < j < |events| && ByDay(events[j], repo, day) ==> Key(events[j]) < Key(events[k])
  }

  /** What one repository is known for by the end of `day`: one percentage, or none yet. */
  function Known(r: Repo, day: int): seq<int> {
    var e := Newest(r.trend, r.id, day);
    if e.Some? then [e.value.pct] else []
  }

  /** The percentages known by the end of `day`, in the order of the repositories. */
  function Snapshot(repos: seq<Repo>, day: int): seq<int> {
    if repos == [] then [] else Snapshot(repos[..|repos| - 1], day) + Known(Last(repos), day)
  }

  function Sum(s: seq<int>): int {
    if s == [] then 0 else Sum(s[..|s| - 1]) + Last(s)
  }

  /** The rounded mean; 0 of nothing. */
  function RoundedMean(sum: int, count: nat): int {
    if count == 0 then 0 else Round(sum as real / count as real)
  }

  // ----- all events, sorted

  function Events(repos: seq<Repo>): seq<Event> {
    if repos == [] then [] else Events(repos[..|repos| - 1]) + Last(repos).trend
  }

  ghost predicate WellFormed(repos: seq<Repo>) {
    && (forall i, j :: 0 <= i < j < |repos| ==> repos[i].id != repos[j].id)
    && forall r, e :: r in repos && e in r.trend ==> e.repo == r.id
  }

  lemma {:induction false} EventsMembers(repos: seq<Repo>, e: Event)
    ensures e in Events(repos) <==> exists r :: r in repos && e in r.trend
  {
    if repos == [] {
    } else {
      EventsMembers(repos[..|repos| - 1], e);
      assert forall r :: r in repos <==> r in repos[..|repos| - 1] || r == Last(repos);
    }
  }

  lemma {:induction false} NewestOfJoin(a: seq<Event>, b: seq<Event>, repo: string, day: int)
    ensures (forall e :: e in b ==> e.repo != repo) ==> Newest(a + b, repo, day) == Newest(a, repo, day)
    ensures (forall e :: e in a ==> e.repo != repo) ==> Newest(a + b, repo, day) == Newest(b, repo, day)
    decreases |b|, |a|
  {
    if b != [] {
      assert (a + b)[..|a + b| - 1] == a + b[..|b| - 1];
      NewestOfJoin(a, b[..|b| - 1], repo, day);
    } else if a != [] {
      assert a + b == a;
      NewestOfJoin(a[..|a| - 1], b, repo, day);
      assert a[..|a| - 1] + b == a[..|a| - 1];
    } else {
      assert a + b == [];
    }
  }

  /** Among all events, a repository's newest is the newest of its own trend. */
  lemma {:induction false} NewestIsLocal(repos: seq<Repo>, k: nat, day: int)
    requires WellFormed(repos) && k < |repos|
    ensures Newest(Events(repos), repos[k].id, day) == Newest(repos[k].trend, repos[k].id, day)
  {
    hide Newest;
    var n := |repos| - 1;
    var front, id := repos[..n], repos[k].id;
    NewestOfJoin(Events(front), repos[n].trend, id, day);
    if k < n {
      NewestIsLocal(front, k, day);
      assert repos[n] in repos;
    } else {
      forall e | e in Events(front) ensures e.repo != id {
        EventsMembers(front, e);
        var r :| r in front && e in r.trend;
        assert r in repos;
      }
    }
  }

  /** The last event of `repo` in a list, whatever its day. */
  function Latest(events: seq<Event>, repo: string): Option<Event> {
    if events == [] then None
    else if Last(events).repo == repo then Some(Last(events)) else Latest(events[..|events| - 1], repo)
  }

  /** In a list sorted by time, up to the end of a day, the newest event is the last one. */
  lemma {:induction false} NewestIsLast(s: seq<Event>, repo: string, day: int)
    requires SortedBy(s, Earlier)
    ensures Newest(s, repo, day).Some? ==> Newest(s, repo, day).value in s
    ensures (forall e :: e in s ==> Day(e) <= day) ==> Newest(s, repo, day) == Latest(s, repo)
  {
    if s == [] {
    } else {
      NewestIsLast(s[..|s| - 1], repo, day);
    }
  }

  lemma NewestAppend(s: seq<Event>, x: Event, repo: string, day: int)
    ensures var before := Newest(s, repo, day);
      Newest(s + [x], repo, day) == if ByDay(x, repo, day) &&
        (before == None || Key(before.value) <= Key(x)) then Some(x) else before
  {
    assert (s + [x])[..|s|] == s;
  }

  lemma {:induction false} NewestOfInsert(s: seq<Event>, x: Event, repo: string, day: int)
    requires SortedBy(s, Earlier)
    ensures Newest(Insert(s, x, Earlier), repo, day) == Newest(s + [x], repo, day)
  {
    if s == [] || !Earlier(x, Last(s)) {
    } else {
      hide Newest, ByDay;
      var front, y := s[..|s| - 1], Last(s);
      assert s == front + [y];
      NewestOfInsert(front, x, repo, day);
      NewestIsLast(front, repo, day);
      NewestAppend(front, x, repo, day);
      NewestAppend(front, y, repo, day);
      NewestAppend(s, x, repo, day);
      NewestAppend(Insert(front, x, Earlier), y, repo, day);
    }
  }

  /** Sorting the events moves none past the newest: it is the same before and after. */
  lemma {:induction false} NewestSurvivesSort(events: seq<Event>, repo: string, day: int)
    ensures Newest(StableSort(events, Earlier), repo, day) == Newest(events, repo, day)
  {
    if events == [] {
    } else {
      var front, e := events[..|events| - 1], Last(events);
      NewestSurvivesSort(front, repo, day);
      SortSorts(front, Earlier);
      NewestOfInsert(StableSort(front, Earlier), e, repo, day);
      assert (StableSort(front, Earlier) + [e])[..|front|] == StableSort(front, Earlier);
    }
  }

  // ----- one point of the trend

  /** What `events` make known of `ids` by the end of `day`, in the order of `ids`. */
  function KnownIn(events: seq<Event>, ids: seq<string>, day: int): seq<int> {
    if ids == [] then []
    else
      var known := Newest(events, Last(ids), day);
      KnownIn(events, ids[..|ids| - 1], day) + if known.Some? then [known.value.pct] else []
  }

  function MeanOf(s: seq<int>): int {
    RoundedMean(Sum(s), |s|)
  }

  function Ids(repos: seq<Repo>): (ids: seq<string>)
    ensures |ids| == |repos|
    ensures forall k :: 0 <= k < |ids| ==> ids[k] == repos[k].id
  {
    seq(|repos|, k requires 0 <= k < |repos| => repos[k].id)
  }

  /** A later day's event changes nothing that was known by the end of an earlier day. */
  lemma {:induction false} LaterIsUnknown(events: seq<Event>, x: Event, ids: seq<string>, day: int)
    requires day < Day(x)
    ensures KnownIn(events + [x], ids, day) == KnownIn(events, ids, day)
  {
    assert (events + [x])[..|events|] == events;
    if ids == [] {
    } else {
      LaterIsUnknown(events, x, ids[..|ids| - 1], day);
    }
  }

  lemma KnownInGrows(events: seq<Event>, ids: seq<string>, id: string, day: int)
    ensures KnownIn(events, ids + [id], day)
         == KnownIn(events, ids, day) + var e := Newest(events, id, day); if e.Some? then [e.value.pct] else []
  {
    assert (ids + [id])[..|ids|] == ids;
  }

  lemma SnapshotGrows(repos: seq<Repo>, r: Repo, day: int)
    ensures Snapshot(repos + [r], day) == Snapshot(repos, day) + Known(r, day)
  {
    assert (repos + [r])[..|repos|] == repos;
  }

  /** The sorted events of all repositories make known what the repositories' own trends do. */
  lemma {:induction false} KnownIsSnapshot(repos: seq<Repo>, n: nat, day: int)
    requires WellFormed(repos) && n <= |repos|
    ensures KnownIn(StableSort(Events(repos), Earlier), Ids(repos)[..n], day) == Snapshot(repos[..n], day)
  {
    if n == 0 {
    } else {
      hide *;
      KnownIsSnapshot(repos, n - 1, day);
      NewestInAll(repos, n - 1, day);
      PrefixesGrow(repos, n - 1);
      KnownInGrows(StableSort(Events(repos), Earlier), Ids(repos)[..n - 1], repos[n - 1].id, day);
      SnapshotGrows(repos[..n - 1], repos[n - 1], day);
      KnownUnfolds(repos[n - 1], day);
    }
  }

  lemma KnownUnfolds(r: Repo, day: int)
    ensures Known(r, day) == var e := Newest(r.trend, r.id, day); if e.Some? then [e.value.pct] else []
  {
  }

  lemma NewestInAll(repos: seq<Repo>, k: nat, day: int)
    requires WellFormed(repos) && k < |repos|
    ensures Newest(StableSort(Events(repos), Earlier), repos[k].id, day) == Newest(repos[k].trend, repos[k].id, day)
  {
    hide Newest, StableSort, WellFormed, Events;
    NewestSurvivesSort(Events(repos), repos[k].id, day);
    NewestIsLocal(repos, k, day);
  }

  lemma PrefixesGrow(repos: seq<Repo>, k: nat)
    requires k < |repos|
    ensures Ids(repos)[..k + 1] == Ids(repos)[..k] + [repos[k].id] && repos[..k + 1] == repos[..k] + [repos[k]]
  {
  }

  // ----- the dictionary's values against the listing

  function Listed(ids: seq<string>, m: map<string, int>): seq<int> {
    if ids == [] then []
    else Listed(ids[..|ids| - 1], m) + if Last(ids) in m then [m[Last(ids)]] else []
  }

  lemma SumAppend(s: seq<int>, x: int)
    ensures Sum(s + [x]) == Sum(s) + x
  {
    assert (s + [x])[..|s|] == s;
  }

  lemma {:induction false} ListedRemoval(ids: seq<string>, m: map<string, int>, k: string)
    requires Distinct(ids) && k in m
    ensures k in ids ==>
      Sum(Listed(ids, m)) == Sum(Listed(ids, m - {k})) + m[k] && |Listed(ids, m)| == |Listed(ids, m - {k})| + 1
    ensures k !in ids ==> Listed(ids, m) == Listed(ids, m - {k})
  {
    if ids == [] {
    } else {
      var front, id := ids[..|ids| - 1], Last(ids);
      assert ids == front + [id];
      ListedRemoval(front, m, k);
      if id in m {
        SumAppend(Listed(front, m), m[id]);
        SumAppend(Listed(front, m - {k}), m[id]);
      }
      assert Listed(front, m) + [] == Listed(front, m) && Listed(front, m - {k}) + [] == Listed(front, m - {k});
    }
  }

  lemma {:induction false} SumOverIgnores(keys: seq<string>, m: map<string, int>, k: string)
    requires k !in keys && forall j :: j in keys ==> j in m
    ensures SumOver(keys, m) == SumOver(keys, m - {k})
  {
    if keys == [] {
    } else {
      SumOverIgnores(keys[..|keys| - 1], m, k);
    }
  }

  lemma {:induction false} NothingListed(ids: seq<string>)
    ensures Listed(ids, map[]) == []
  {
    if ids == [] {
    } else {
      NothingListed(ids[..|ids| - 1]);
    }
  }

  /** Summing a dictionary in its own order or in the order of a listing of all its keys is the same. */
  lemma {:induction false} OrderIsIrrelevant(keys: seq<string>, m: map<string, int>, ids: seq<string>)
    requires Distinct(keys) && Distinct(ids)
    requires forall k :: k in keys <==> k in m
    requires forall k :: k in keys ==> k in ids
    ensures SumOver(keys, m) == Sum(Listed(ids, m)) && |keys| == |Listed(ids, m)|
  {
    if keys == [] {
      assert m == map[];
      NothingListed(ids);
    } else {
      var front, k := keys[..|keys| - 1], Last(keys);
      assert keys == front + [k];
      OrderIsIrrelevant(front, m - {k}, ids);
      SumOverIgnores(front, m, k);
      ListedRemoval(ids, m, k);
    }
  }

  /** `lastKnown` holds, for each repository seen, the percentage of its last event. */
  ghost predicate Current(lastKnown: Dict<string, int>, seen: seq<Event>) {
    && lastKnown.Valid()
    && forall r :: lastKnown.Get(r) == if Latest(seen, r).Some? then Some(Latest(seen, r).value.pct) else None
  }

  lemma {:induction false} CurrentIsKnown(lastKnown: Dict<string, int>, seen: seq<Event>, ids: seq<string>, day: int)
    requires Current(lastKnown, seen) && SortedBy(seen, Earlier)
    requires forall e :: e in seen ==> Day(e) <= day
    ensures KnownIn(seen, ids, day) == Listed(ids, lastKnown.vals)
  {
    if ids == [] {
    } else {
      CurrentIsKnown(lastKnown, seen, ids[..|ids| - 1], day);
      NewestIsLast(seen, Last(ids), day);
      assert lastKnown.Get(Last(ids))
         == if Latest(seen, Last(ids)).Some? then Some(Latest(seen, Last(ids)).value.pct) else None;
    }
  }

  // ----- the loop

  /**
   One point a day, days ascending, each with the mean known by that day's end and the stamp of the day's newest event.
   */
  ghost predicate Filed(byDay: Dict<int, Point>, seen: seq<Event>, ids: seq<string>) {
    && byDay.Valid() && DaysOf(byDay, seen)
    && forall d :: d in byDay.vals ==> FiledPoint(byDay.vals[d], seen, ids, d)
  }

  ghost predicate FiledPoint(p: Point, seen: seq<Event>, ids: seq<string>, day: int) {
    && p.pct == MeanOf(KnownIn(seen, ids, day))
    && (exists e :: e in seen && Day(e) == day && e.createdAt == p.date)
    && forall e :: e in seen && Day(e) == day ==> Key(e) <= DateKey(p)
  }

  function DateKey(p: Point): int {
    if p.date.Some? then p.date.value else 0
  }

  function PointDay(p: Point): int {
    DateKey(p) / DAY
  }

  /** In a sorted list the last event's day is the latest. */
  lemma LastIsLatest(seen: seq<Event>, x: Event)
    requires SortedBy(seen + [x], Earlier)
    ensures forall e :: e in seen + [x] ==> Key(e) <= Key(x) && Day(e) <= Day(x)
  {
    var now := seen + [x];
    forall e | e in now ensures Key(e) <= Key(x) && Day(e) <= Day(x) {
      var k :| 0 <= k < |now| && now[k] == e;
      assert now[|seen|] == x;
    }
  }

  lemma PointStep(p: Point, seen: seq<Event>, x: Event, ids: seq<string>, day: int)
    requires FiledPoint(p, seen, ids, day) && day < Day(x)
    ensures FiledPoint(p, seen + [x], ids, day)
  {
    LaterIsUnknown(seen, x, ids, day);
    var e :| e in seen && Day(e) == day && e.createdAt == p.date;
    assert e in seen + [x];
  }

  /** The dictionary's keys are the days seen, ascending. */
  ghost predicate DaysOf(byDay: Dict<int, Point>, seen: seq<Event>) {
    && byDay.Valid()
    && (forall i, j :: 0 <= i < j < |byDay.keys| ==> byDay.keys[i] < byDay.keys[j])
    && forall d :: d in byDay.vals <==> exists e :: e in seen && Day(e) == d
  }

  lemma DaysStep(byDay: Dict<int, Point>, seen: seq<Event>, x: Event, p: Point)
    requires DaysOf(byDay, seen) && SortedBy(seen + [x], Earlier)
    ensures byDay.Valid() && DaysOf(byDay.Put(Day(x), p), seen + [x])
    ensures forall d :: d in byDay.vals ==> d <= Day(x)
  {
    hide Day;
    LastIsLatest(seen, x);
    DaysSeen(byDay, seen, x);
    KeysStay(byDay, Day(x), p);
  }

  lemma DaysSeen(byDay: Dict<int, Point>, seen: seq<Event>, x: Event)
    requires DaysOf(byDay, seen) && forall e :: e in seen + [x] ==> Day(e) <= Day(x)
    ensures forall d :: d in byDay.vals ==> d <= Day(x)
    ensures forall d :: d in byDay.vals || d == Day(x) <==> exists e :: e in seen + [x] && Day(e) == d
  {
    hide Day;
    var now := seen + [x];
    assert x in now && forall e :: e in now <==> e in seen || e == x;
    forall d | d in byDay.vals ensures d <= Day(x) && exists e :: e in now && Day(e) == d {
      var e :| e in seen && Day(e) == d;
      assert e in now;
    }
  }

  /** A day no earlier than any key goes last. */
  lemma KeysStay(byDay: Dict<int, Point>, day: int, p: Point)
    requires byDay.Valid() && forall d :: d in byDay.vals ==> d <= day
    requires forall i, j :: 0 <= i < j < |byDay.keys| ==> byDay.keys[i] < byDay.keys[j]
    ensures var keys := byDay.Put(day, p).keys; forall i, j :: 0 <= i < j < |keys| ==> keys[i] < keys[j]
  {
    var keys := byDay.Put(day, p).keys;
    forall i, j | 0 <= i < j < |keys| ensures keys[i] < keys[j] {
      assert byDay.keys[i] in byDay.keys;
    }
  }

  lemma FileStep(byDay: Dict<int, Point>, seen: seq<Event>, x: Event, ids: seq<string>, pct: int)
    requires Filed(byDay, seen, ids) && SortedBy(seen + [x], Earlier)
    requires pct == MeanOf(KnownIn(seen + [x], ids, Day(x)))
    ensures byDay.Valid() && Filed(byDay.Put(Day(x), Point(x.createdAt, pct)), seen + [x], ids)
  {
    hide KnownIn, MeanOf, Day, DaysOf;
    var p := Point(x.createdAt, pct);
    DaysStep(byDay, seen, x, p);
    LastIsLatest(seen, x);
    assert x in seen + [x] && FiledPoint(p, seen + [x], ids, Day(x));
    forall d | d in byDay.vals && d != Day(x) ensures FiledPoint(byDay.vals[d], seen + [x], ids, d) {
      PointStep(byDay.vals[d], seen, x, ids, d);
    }
  }

  lemma CurrentStep(lastKnown: Dict<string, int>, seen: seq<Event>, x: Event)
    requires Current(lastKnown, seen)
    ensures lastKnown.Valid() && Current(lastKnown.Put(x.repo, x.pct), seen + [x])
  {
    assert (seen + [x])[..|seen|] == seen;
    var after := lastKnown.Put(x.repo, x.pct);
    forall r
      ensures after.Get(r) == if Latest(seen + [x], r).Some? then Some(Latest(seen + [x], r).value.pct) else None
    {
      assert lastKnown.Get(r) == if Latest(seen, r).Some? then Some(Latest(seen, r).value.pct) else None;
    }
  }

  /** The mean the loop computes after an event is the mean of what is known by the end of that event's day. */
  lemma LoopMean(lastKnown: Dict<string, int>, seen: seq<Event>, x: Event, ids: seq<string>)
    requires Current(lastKnown, seen + [x]) && SortedBy(seen + [x], Earlier)
    requires Distinct(ids) && forall e :: e in seen + [x] ==> e.repo in ids
    ensures lastKnown.Valid()
    ensures RoundedMean(Total(lastKnown), |lastKnown.keys|) == MeanOf(KnownIn(seen + [x], ids, Day(x)))
  {
    hide KnownIn, Listed, Sum, RoundedMean, SumOver;
    var now := seen + [x];
    LastIsLatest(seen, x);
    forall r | r in lastKnown.keys ensures r in ids {
      assert lastKnown.Get(r).Some?;
      LatestIsOne(now, r);
    }
    CurrentIsKnown(lastKnown, now, ids, Day(x));
    OrderIsIrrelevant(lastKnown.keys, lastKnown.vals, ids);
  }

  lemma {:induction false} LatestIsOne(events: seq<Event>, repo: string)
    ensures Latest(events, repo).Some? ==>
      Latest(events, repo).value in events && Latest(events, repo).value.repo == repo
  {
    if events == [] {
    } else {
      LatestIsOne(events[..|events| - 1], repo);
    }
  }

  /** The trend loop over the sorted events. */
  method FileByDay(sorted: seq<Event>, ids: seq<string>) returns (byDay: Dict<int, Point>)
    requires SortedBy(sorted, Earlier) && Distinct(ids) && forall e :: e in sorted ==> e.repo in ids
    ensures Filed(byDay, sorted, ids)
  {
    hide *;
    var lastKnown: Dict<string, int> := Empty();
    byDay := Empty();
    LoopStarts(ids);
    assert sorted[..0] == [];
    for i := 0 to |sorted|
      invariant Current(lastKnown, sorted[..i])
      invariant Filed(byDay, sorted[..i], ids)
    {
      var x := sorted[i];
      PrefixStep(sorted, ids, i);
      CurrentStep(lastKnown, sorted[..i], x);
      lastKnown := lastKnown.Put(x.repo, x.pct);
      LoopMean(lastKnown, sorted[..i], x, ids);
      var pct := RoundedMean(Total(lastKnown), |lastKnown.keys|);
      FileStep(byDay, sorted[..i], x, ids, pct);
      byDay := byDay.Put(Day(x), Point(x.createdAt, pct));
    }
    assert sorted[..|sorted|] == sorted;
  }

  lemma LoopStarts(ids: seq<string>)
    ensures Current(Empty(), []) && Filed(Empty(), [], ids)
  {
  }

  lemma PrefixStep(sorted: seq<Event>, ids: seq<string>, i: nat)
    requires i < |sorted| && SortedBy(sorted, Earlier) && forall e :: e in sorted ==> e.repo in ids
    ensures sorted[..i + 1] == sorted[..i] + [sorted[i]]
    ensures SortedBy(sorted[..i] + [sorted[i]], Earlier)
    ensures forall e :: e in sorted[..i] + [sorted[i]] ==> e.repo in ids
  {
  }

  /**
   A point's percentage is the rounded mean of every repository's latest by the end of its day; its stamp is the newest
   of that day.
   */
  ghost predicate TrendPoint(p: Point, repos: seq<Repo>) {
    && p.pct == MeanOf(Snapshot(repos, PointDay(p)))
    && (exists e :: e in Events(repos) && e.createdAt == p.date)
    && forall e :: e in Events(repos) && Day(e) == PointDay(p) ==> Key(e) <= DateKey(p)
  }

  /** One point for each day with an event, in ascending order. */
  ghost predicate IsTrend(points: seq<Point>, repos: seq<Repo>) {
    && (forall i, j :: 0 <= i < j < |points| ==> PointDay(points[i]) < PointDay(points[j]))
    && (forall e :: e in Events(repos) ==> exists k :: 0 <= k < |points| && PointDay(points[k]) == Day(e))
    && forall k :: 0 <= k < |points| ==> TrendPoint(points[k], repos)
  }

  /** Dating a point by its stamp or by its key is the same. */
  lemma PointMeans(p: Point, repos: seq<Repo>, day: int)
    requires WellFormed(repos) && FiledPoint(p, StableSort(Events(repos), Earlier), Ids(repos), day)
    ensures PointDay(p) == day && TrendPoint(p, repos)
  {
    hide MeanOf, KnownIn, Snapshot, StableSort;
    SameEvents(repos);
    KnownIsSnapshot(repos, |repos|, day);
    assert Ids(repos)[..|repos|] == Ids(repos) && repos[..|repos|] == repos;
    assert forall e :: e in StableSort(Events(repos), Earlier) && e.createdAt == p.date ==> Key(e) == DateKey(p);
  }

  lemma SameEvents(repos: seq<Repo>)
    ensures forall e :: e in StableSort(Events(repos), Earlier) <==> e in Events(repos)
  {
    hide StableSort;
    var sorted, events := StableSort(Events(repos), Earlier), Events(repos);
    SortPermutes(events, Earlier);
    forall e ensures e in sorted <==> e in events {
      assert e in sorted <==> e in multiset(sorted);
      assert e in events <==> e in multiset(events);
    }
  }

  lemma FiledIsTrend(byDay: Dict<int, Point>, repos: seq<Repo>)
    requires WellFormed(repos) && Filed(byDay, StableSort(Events(repos), Earlier), Ids(repos))
    ensures byDay.Valid() && IsTrend(Values(byDay), repos)
  {
    hide TrendPoint, FiledPoint, StableSort, Day, PointDay, WellFormed, Events;
    SameEvents(repos);
    var points := Values(byDay);
    forall k | 0 <= k < |points| ensures PointDay(points[k]) == byDay.keys[k] && TrendPoint(points[k], repos) {
      PointMeans(points[k], repos, byDay.keys[k]);
    }
    forall e | e in Events(repos) ensures exists k :: 0 <= k < |points| && PointDay(points[k]) == Day(e) {
      assert Day(e) in byDay.vals;
      assert Day(e) in byDay.keys;
    }
  }

  /** The trend block of `get_portfolio_dashboard`. */
  method Trend(repos: seq<Repo>) returns (points: seq<Point>)
    requires WellFormed(repos)
    ensures IsTrend(points, repos)
  {
    hide IsTrend, Filed, Newest;
    var sorted := StableSort(Events(repos), Earlier);
    SortSorts(Events(repos), Earlier);
    EventsNamed(repos);
    var byDay := FileByDay(sorted, Ids(repos));
    FiledIsTrend(byDay, repos);
    points := Values(byDay);
  }

  lemma EventsNamed(repos: seq<Repo>)
    requires WellFormed(repos)
    ensures Distinct(Ids(repos)) && forall e :: e in StableSort(Events(repos), Earlier) ==> e.repo in Ids(repos)
  {
    var events := Events(repos);
    SortPermutes(events, Earlier);
    forall e | e in StableSort(events, Earlier) ensures e.repo in Ids(repos) {
      assert e in multiset(StableSort(events, Earlier));
      assert e in multiset(events);
      EventsMembers(repos, e);
      var r :| r in repos && e in r.trend;
      var k :| 0 <= k < |repos| && repos[k] == r;
      assert Ids(repos)[k] == r.id;
    }
  }
}
