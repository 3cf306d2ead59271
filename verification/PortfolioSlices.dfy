/**
 The recent slices of the stored scans that the dashboard makes its portfolio trend of, and which days' points the
 slices leave as full histories would give them.
 */
module PortfolioSlices {
  import opened Base
  import opened PortfolioTrend
  import opened Rounding
  import opened Sorting

  // ----- the slice of recent scans a trend is made of

  /** A repository's completed scans as the store returns them, newest first, and its latest L1 percentage. */
  datatype History = History(id: string, l1: int, scans: seq<Event>)

  function Reversed(s: seq<Event>): (r: seq<Event>)
    ensures |r| == |s| && forall k :: 0 <= k < |s| ==> r[k] == s[|s| - 1 - k]
  {
    seq(|s|, k requires 0 <= k < |s| => s[|s| - 1 - k])
  }

  /** The `n` newest scans, oldest first: `list(reversed(scans[:n]))`; a negative `n` leaves out the oldest. */
  function Recent(h: History, n: int): Repo {
    Repo(h.id, h.l1, Reversed(h.scans[..SliceEnd(n, |h.scans|)]))
  }

  function RecentOf(histories: seq<History>, n: int): (repos: seq<Repo>)
    ensures |repos| == |histories| && forall k :: 0 <= k < |repos| ==> repos[k] == Recent(histories[k], n)
  {
    seq(|histories|, k requires 0 <= k < |histories| => Recent(histories[k], n))
  }

  /** Every scan of every repository. */
  function Whole(histories: seq<History>): (repos: seq<Repo>)
    ensures |repos| == |histories| && forall k :: 0 <= k < |repos| ==>
      repos[k] == Repo(histories[k].id, histories[k].l1, Reversed(histories[k].scans))
  {
    seq(|histories|, k requires 0 <= k < |histories| =>
      Repo(histories[k].id, histories[k].l1, Reversed(histories[k].scans)))
  }

  /** Newest first, and each scan is its repository's. */
  ghost predicate Stored(h: History) {
    && (forall i, j :: 0 <= i < j < |h.scans| ==> Key(h.scans[i]) >= Key(h.scans[j]))
    && forall i :: 0 <= i < |h.scans| ==> h.scans[i].repo == h.id
  }

  ghost predicate AllStored(histories: seq<History>) {
    && (forall i, j :: 0 <= i < j < |histories| ==> histories[i].id != histories[j].id)
    && forall k :: 0 <= k < |histories| ==> Stored(histories[k])
  }

  predicate LessCompliant(a: Repo, b: Repo) {
    a.l1 < b.l1
  }

  // The listing order of the repositories decides nothing.

  lemma {:induction false} SumJoin(a: seq<int>, b: seq<int>)
    ensures Sum(a + b) == Sum(a) + Sum(b)
  {
    if b == [] {
      assert a + b == a;
    } else {
      var front := b[..|b| - 1];
      SumJoin(a, front);
      SumAppend(a + front, Last(b));
      assert a + b == (a + front) + [Last(b)];
    }
  }

  /** Inserting a repository anywhere adds its percentage to the sum and its events to the rest. */
  lemma {:induction false} InsertedAnywhere(repos: seq<Repo>, r: Repo, day: int)
    ensures var all := Insert(repos, r, LessCompliant);
      && Sum(Snapshot(all, day)) == Sum(Snapshot(repos, day)) + Sum(Known(r, day))
      && |Snapshot(all, day)| == |Snapshot(repos, day)| + |Known(r, day)|
  {
    hide Known;
    if repos == [] || !LessCompliant(r, Last(repos)) {
      SnapshotGrows(repos, r, day);
      SumJoin(Snapshot(repos, day), Known(r, day));
    } else {
      var front, last := repos[..|repos| - 1], Last(repos);
      InsertedAnywhere(front, r, day);
      SnapshotGrows(Insert(front, r, LessCompliant), last, day);
      SumJoin(Snapshot(Insert(front, r, LessCompliant), day), Known(last, day));
      SumJoin(Snapshot(front, day), Known(last, day));
    }
  }

  /** Sorting the repositories leaves every day's mean as it was. */
  lemma {:induction false} SortKeepsMean(repos: seq<Repo>, day: int)
    ensures var sorted := StableSort(repos, LessCompliant);
      && Sum(Snapshot(sorted, day)) == Sum(Snapshot(repos, day))
      && |Snapshot(sorted, day)| == |Snapshot(repos, day)|
  {
    if repos == [] {
    } else {
      hide Known;
      var front, r := repos[..|repos| - 1], Last(repos);
      SortKeepsMean(front, day);
      InsertedAnywhere(StableSort(front, LessCompliant), r, day);
      SumJoin(Snapshot(front, day), Known(r, day));
    }
  }

  lemma SameRepos(repos: seq<Repo>)
    ensures forall r :: r in StableSort(repos, LessCompliant) <==> r in repos
  {
    hide StableSort;
    var sorted := StableSort(repos, LessCompliant);
    SortPermutes(repos, LessCompliant);
    forall r ensures r in sorted <==> r in repos {
      assert r in sorted <==> r in multiset(sorted);
      assert r in repos <==> r in multiset(repos);
    }
  }

  lemma SortStaysWellFormed(repos: seq<Repo>)
    requires WellFormed(repos)
    ensures WellFormed(StableSort(repos, LessCompliant))
  {
    hide StableSort;
    SameRepos(repos);
    var sorted := StableSort(repos, LessCompliant);
    SortPermutes(repos, LessCompliant);
    assert Distinct(repos);
    PermutationDistinct(repos, sorted);
    forall i, j | 0 <= i < j < |sorted| ensures sorted[i].id != sorted[j].id {
      assert sorted[i] in sorted && sorted[j] in sorted;
      var a :| 0 <= a < |repos| && repos[a] == sorted[i];
      var b :| 0 <= b < |repos| && repos[b] == sorted[j];
      assert a != b;
    }
  }

  /** A trend over the sorted repositories is one over the repositories as listed. */
  lemma ListingIsIrrelevant(points: seq<Point>, repos: seq<Repo>)
    requires IsTrend(points, StableSort(repos, LessCompliant))
    ensures IsTrend(points, repos)
  {
    hide TrendPoint, StableSort, Events, PointDay, Day;
    SameListedEvents(repos);
    forall k | 0 <= k < |points| ensures TrendPoint(points[k], repos) {
      PointMoves(points[k], repos);
    }
  }

  lemma PointMoves(p: Point, repos: seq<Repo>)
    requires TrendPoint(p, StableSort(repos, LessCompliant))
    ensures TrendPoint(p, repos)
  {
    hide Snapshot, StableSort, Events, Sum, RoundedMean, PointDay, Day;
    SameListedEvents(repos);
    SortKeepsMean(repos, PointDay(p));
  }

  lemma SameListedEvents(repos: seq<Repo>)
    ensures forall e :: e in Events(StableSort(repos, LessCompliant)) <==> e in Events(repos)
  {
    hide StableSort, Events;
    var sorted := StableSort(repos, LessCompliant);
    SameRepos(repos);
    forall e ensures e in Events(sorted) <==> e in Events(repos) {
      EventsMembers(sorted, e);
      EventsMembers(repos, e);
    }
  }

  /**
   The repositories of the dashboard, each with its recent trend, put in order of compliance, and the portfolio trend
   over them.
   */
  method Portfolio(histories: seq<History>, trendLength: int) returns (points: seq<Point>)
    requires AllStored(histories)
    ensures IsTrend(points, RecentOf(histories, trendLength))
  {
    hide IsTrend;
    var repos: seq<Repo> := [];
    for k := 0 to |histories|
      invariant |repos| == k && forall i :: 0 <= i < k ==> repos[i] == Recent(histories[i], trendLength)
    {
      repos := repos + [Recent(histories[k], trendLength)];
    }
    assert repos == RecentOf(histories, trendLength);
    RecentIsWellFormed(histories, trendLength);
    SortStaysWellFormed(repos);
    points := Trend(StableSort(repos, LessCompliant));
    ListingIsIrrelevant(points, repos);
  }

  lemma RecentIsWellFormed(histories: seq<History>, n: int)
    requires AllStored(histories)
    ensures WellFormed(RecentOf(histories, n))
  {
    var repos := RecentOf(histories, n);
    forall r, e | r in repos && e in r.trend ensures e.repo == r.id {
      var k :| 0 <= k < |repos| && repos[k] == r;
      var i :| 0 <= i < |r.trend| && r.trend[i] == e;
      assert Stored(histories[k]);
    }
  }

  /**
   The slice leaves out nothing that was newest by `day`: it is the whole history, reaches back to `day`, or the history
   began later.
   */
  predicate Reaches(h: History, n: int, day: int) {
    var cut := SliceEnd(n, |h.scans|);
    || cut == |h.scans|
    || (cut > 0 && Day(h.scans[cut - 1]) <= day)
    || Day(Last(h.scans)) > day
  }

  lemma {:induction false} NewestMember(events: seq<Event>, repo: string, day: int)
    ensures Newest(events, repo, day).Some? ==>
      Newest(events, repo, day).value in events && ByDay(Newest(events, repo, day).value, repo, day)
    ensures Newest(events, repo, day).None? <==> forall e :: e in events ==> !ByDay(e, repo, day)
  {
    if events == [] {
    } else {
      var front := events[..|events| - 1];
      NewestMember(front, repo, day);
      assert forall e :: e in events <==> e in front || e == Last(events);
    }
  }

  /** After older events, the newest of the younger ones counts, if there is any by `day`. */
  lemma {:induction false} NewestAcross(old': seq<Event>, young: seq<Event>, repo: string, day: int)
    requires forall a, b :: a in old' && b in young ==> Key(a) <= Key(b)
    ensures Newest(old' + young, repo, day)
         == if Newest(young, repo, day).Some? then Newest(young, repo, day) else Newest(old', repo, day)
  {
    if young == [] {
      assert old' + young == old';
    } else {
      hide Newest;
      var front, e := young[..|young| - 1], Last(young);
      assert young == front + [e] && old' + young == old' + front + [e];
      NewestAcross(old', front, repo, day);
      NewestAppend(old' + front, e, repo, day);
      NewestAppend(front, e, repo, day);
      NewestMember(old', repo, day);
    }
  }

  lemma OldestDecides(scans: seq<Event>, repo: string, day: int)
    requires scans != [] && forall i, j :: 0 <= i < j < |scans| ==> Key(scans[i]) >= Key(scans[j])
    requires forall i :: 0 <= i < |scans| ==> scans[i].repo == repo
    ensures Newest(Reversed(scans), repo, day).Some? <==> Day(Last(scans)) <= day
  {
    hide Newest;
    var r := Reversed(scans);
    NewestMember(r, repo, day);
    assert r[0] in r && r[0] == Last(scans);
    forall e | e in r ensures Key(e) >= Key(Last(scans)) && e.repo == repo {
      var k :| 0 <= k < |r| && r[k] == e;
      assert e == scans[|scans| - 1 - k];
    }
  }

  /**
   For one repository: the slice gives the same newest scan exactly when it reaches; otherwise it gives none where there
   was one.
   */
  lemma SliceIff(h: History, n: int, day: int)
    requires Stored(h)
    ensures var part, whole := Newest(Recent(h, n).trend, h.id, day), Newest(Reversed(h.scans), h.id, day);
      if Reaches(h, n, day) then part == whole else part.None? && whole.Some?
  {
    hide Newest, Reversed, SliceEnd;
    var cut := SliceEnd(n, |h.scans|);
    if cut == |h.scans| {
      assert h.scans[..|h.scans|] == h.scans;
    } else {
      var young, older := h.scans[..cut], h.scans[cut..];
      SliceJoins(h, cut, day);
      OldestDecides(h.scans, h.id, day);
      if cut > 0 {
        OldestDecides(young, h.id, day);
      } else {
        NewestMember(Reversed(young), h.id, day);
      }
      OldestDecides(older, h.id, day);
    }
  }

  lemma SliceJoins(h: History, cut: nat, day: int)
    requires Stored(h) && cut <= |h.scans|
    ensures var young, older := Reversed(h.scans[..cut]), Reversed(h.scans[cut..]);
      Newest(Reversed(h.scans), h.id, day)
        == if Newest(young, h.id, day).Some? then Newest(young, h.id, day) else Newest(older, h.id, day)
  {
    hide Newest;
    var young, older := h.scans[..cut], h.scans[cut..];
    assert Reversed(h.scans) == Reversed(older) + Reversed(young);
    SliceOrdered(h, cut);
    NewestAcross(Reversed(older), Reversed(young), h.id, day);
  }

  lemma SliceOrdered(h: History, n: nat)
    requires Stored(h) && n <= |h.scans|
    ensures forall a, b :: a in Reversed(h.scans[n..]) && b in Reversed(h.scans[..n]) ==> Key(a) <= Key(b)
  {
    forall a, b | a in Reversed(h.scans[n..]) && b in Reversed(h.scans[..n]) ensures Key(a) <= Key(b) {
      var i := PlaceOf(h.scans[n..], a);
      var j := PlaceOf(h.scans[..n], b);
      assert a == h.scans[n + i] && b == h.scans[j];
    }
  }

  lemma PlaceOf(s: seq<Event>, e: Event) returns (k: nat)
    requires e in Reversed(s)
    ensures k < |s| && s[k] == e
  {
    var i :| 0 <= i < |s| && Reversed(s)[i] == e;
    k := |s| - 1 - i;
  }

  ghost predicate AllReach(histories: seq<History>, n: int, day: int) {
    forall k :: 0 <= k < |histories| ==> Reaches(histories[k], n, day)
  }

  lemma AllReachGrows(front: seq<History>, h: History, n: int, day: int)
    ensures AllReach(front + [h], n, day) <==> AllReach(front, n, day) && Reaches(h, n, day)
  {
    hide Reaches;
    var all := front + [h];
    assert all[|front|] == h && forall k :: 0 <= k < |front| ==> all[k] == front[k];
  }

  ghost predicate EachStored(histories: seq<History>) {
    forall k :: 0 <= k < |histories| ==> Stored(histories[k])
  }

  lemma EachStoredSplit(histories: seq<History>)
    requires EachStored(histories) && histories != []
    ensures EachStored(histories[..|histories| - 1]) && Stored(Last(histories))
    ensures histories == histories[..|histories| - 1] + [Last(histories)]
  {
    hide Stored;
  }

  /** The recent snapshot is the whole one, or misses somebody. */
  ghost predicate Compared(histories: seq<History>, n: int, day: int) {
    var part, whole := Snapshot(RecentOf(histories, n), day), Snapshot(Whole(histories), day);
    && |part| <= |whole|
    && (part == whole <==> AllReach(histories, n, day))
    && (part != whole ==> |part| < |whole|)
  }

  lemma {:induction false} SlicesCompare(histories: seq<History>, n: int, day: int)
    requires EachStored(histories)
    ensures Compared(histories, n, day)
  {
    if histories == [] {
    } else {
      hide *;
      EachStoredSplit(histories);
      SlicesCompare(histories[..|histories| - 1], n, day);
      SliceStep(histories[..|histories| - 1], Last(histories), n, day);
    }
  }

  lemma SnapshotsGrow(front: seq<History>, h: History, n: int, day: int)
    ensures Snapshot(RecentOf(front + [h], n), day)
         == Snapshot(RecentOf(front, n), day) + Known(Recent(h, n), day)
    ensures Snapshot(Whole(front + [h]), day)
         == Snapshot(Whole(front), day) + Known(Repo(h.id, h.l1, Reversed(h.scans)), day)
  {
    hide Snapshot, Known, Recent, Reversed;
    var whole := Repo(h.id, h.l1, Reversed(h.scans));
    assert RecentOf(front + [h], n) == RecentOf(front, n) + [Recent(h, n)];
    assert Whole(front + [h]) == Whole(front) + [whole];
    SnapshotGrows(RecentOf(front, n), Recent(h, n), day);
    SnapshotGrows(Whole(front), whole, day);
  }

  lemma SliceStep(front: seq<History>, h: History, n: int, day: int)
    requires Stored(h) && Compared(front, n, day)
    ensures Compared(front + [h], n, day)
  {
    hide Stored, Newest, Recent, Reaches, Snapshot, Reversed, AllReach;
    AllReachGrows(front, h, n, day);
    SliceIff(h, n, day);
    RecentKeepsId(h, n);
    var whole := Repo(h.id, h.l1, Reversed(h.scans));
    SnapshotsGrow(front, h, n, day);
    JoinsCompare(Snapshot(RecentOf(front, n), day), Known(Recent(h, n), day),
                 Snapshot(Whole(front), day), Known(whole, day));
  }

  lemma JoinsCompare(a: seq<int>, x: seq<int>, b: seq<int>, y: seq<int>)
    requires |a| <= |b| && (a != b ==> |a| < |b|)
    requires x == y || (x == [] && y != [])
    ensures |a + x| <= |b + y|
    ensures a + x == b + y <==> a == b && x == y
    ensures a + x != b + y ==> |a + x| < |b + y|
  {
  }

  lemma RecentKeepsId(h: History, n: int)
    ensures Recent(h, n).id == h.id
  {
  }

  /**
   A day's point takes in the same percentages as it would over full histories exactly when every repository's slice
   reaches that day; a repository whose older scans were cut off is otherwise missing from the mean.
   */
  lemma FullHistoryIff(histories: seq<History>, n: int, day: int)
    requires AllStored(histories)
    ensures Snapshot(RecentOf(histories, n), day) == Snapshot(Whole(histories), day)
       <==> forall k :: 0 <= k < |histories| ==> Reaches(histories[k], n, day)
  {
    hide Snapshot, Reaches, Stored;
    SlicesCompare(histories, n, day);
  }

  // ----- when the point itself is off

  /** The same scans at the same times, whatever percentages they came to. */
  ghost predicate SameStamps(a: seq<History>, b: seq<History>) {
    |a| == |b| && forall k :: 0 <= k < |a| ==> SameScans(a[k], b[k])
  }

  ghost predicate SameScans(a: History, b: History) {
    && a.id == b.id && |a.scans| == |b.scans|
    && forall i :: 0 <= i < |a.scans| ==>
         a.scans[i].createdAt == b.scans[i].createdAt && a.scans[i].repo == b.scans[i].repo
  }

  /** Every scan came to a percentage. */
  ghost predicate Percentages(histories: seq<History>) {
    forall k :: 0 <= k < |histories| ==> PercentagesIn(histories[k])
  }

  ghost predicate PercentagesIn(h: History) {
    forall i :: 0 <= i < |h.scans| ==> 0 <= h.scans[i].pct <= 100
  }

  /** The mean the slices give for `day` is the one full histories give. */
  predicate SamePoint(histories: seq<History>, n: int, day: int) {
    MeanOf(Snapshot(RecentOf(histories, n), day)) == MeanOf(Snapshot(Whole(histories), day))
  }

  function Paint(events: seq<Event>, pct: int): (r: seq<Event>)
    ensures |r| == |events| && forall i :: 0 <= i < |r| ==> r[i] == events[i].(pct := pct)
  {
    seq(|events|, i requires 0 <= i < |events| => events[i].(pct := pct))
  }

  /** The history with one percentage all along. */
  function Painted(h: History, pct: int): History {
    h.(scans := Paint(h.scans, pct))
  }

  lemma {:induction false} NewestOfPaint(events: seq<Event>, pct: int, repo: string, day: int)
    ensures var e := Newest(events, repo, day);
      Newest(Paint(events, pct), repo, day) == if e.Some? then Some(e.value.(pct := pct)) else None
  {
    if events == [] {
    } else {
      var front := events[..|events| - 1];
      NewestOfPaint(front, pct, repo, day);
      assert Paint(events, pct)[..|front|] == Paint(front, pct);
    }
  }

  predicate SeenRecently(h: History, n: int, day: int) {
    Newest(Recent(h, n).trend, h.id, day).Some?
  }

  predicate SeenEver(h: History, day: int) {
    Newest(Reversed(h.scans), h.id, day).Some?
  }

  lemma PaintedIsKnown(h: History, pct: int, n: int, day: int)
    ensures Known(Recent(Painted(h, pct), n), day) == if SeenRecently(h, n, day) then [pct] else []
    ensures var whole := Repo(h.id, h.l1, Reversed(Painted(h, pct).scans));
      Known(whole, day) == if SeenEver(h, day) then [pct] else []
  {
    hide Newest;
    var cut := SliceEnd(n, |h.scans|);
    assert Reversed(Paint(h.scans, pct)[..cut]) == Paint(Reversed(h.scans[..cut]), pct);
    assert Reversed(Paint(h.scans, pct)) == Paint(Reversed(h.scans), pct);
    NewestOfPaint(Reversed(h.scans[..cut]), pct, h.id, day);
    NewestOfPaint(Reversed(h.scans), pct, h.id, day);
  }

  /** `x` and `y` in turn, `count` of them. */
  function Alternating(count: nat, x: int, y: int): int {
    if count == 0 then 0 else Alternating(count - 1, x, y) + if count % 2 == 1 then x else y
  }

  lemma {:induction false} AlternatingSums(count: nat)
    ensures 2 * Alternating(count, 1, 0) == count + count % 2
    ensures 2 * Alternating(count, 1, 2) == 3 * count - count % 2
    ensures Alternating(count, 0, 0) == 0 && Alternating(count, 100, 100) == 100 * count
  {
    if count == 0 {
    } else {
      AlternatingSums(count - 1);
    }
  }

  /** The percentage the next repository is painted. */
  function Shade(front: seq<History>, h: History, n: int, day: int, x: int, y: int, z: int): int {
    if !SeenRecently(h, n, day) then z else if |Snapshot(RecentOf(front, n), day)| % 2 == 0 then x else y
  }

  /** Repositories the slice shows by `day` get `x` and `y` in turn, the others `z`. */
  function Shaded(histories: seq<History>, n: int, day: int, x: int, y: int, z: int): (r: seq<History>)
    ensures |r| == |histories|
  {
    if histories == [] then []
    else
      var front, h := histories[..|histories| - 1], Last(histories);
      Shaded(front, n, day, x, y, z) + [Painted(h, Shade(front, h, n, day, x, y, z))]
  }

  lemma {:induction false} ShadedIsPaint(histories: seq<History>, n: int, day: int, x: int, y: int, z: int)
    requires 0 <= x <= 100 && 0 <= y <= 100 && 0 <= z <= 100
    ensures SameStamps(Shaded(histories, n, day, x, y, z), histories)
    ensures Percentages(Shaded(histories, n, day, x, y, z))
  {
    hide *;
    if histories == [] {
      ShadedIsPaintInitially(n, day, x, y, z);
    } else {
      var front, h := histories[..|histories| - 1], Last(histories);
      ShadedIsPaint(front, n, day, x, y, z);
      ShadedUnfolds(histories, n, day, x, y, z);
      assert histories == front + [h] by { LastSplits(histories); }
      ShadeInRange(front, h, n, day, x, y, z);
      PaintStep(Shaded(front, n, day, x, y, z), front, h, Shade(front, h, n, day, x, y, z));
    }
  }

  lemma LastSplits(histories: seq<History>)
    requires histories != []
    ensures histories == histories[..|histories| - 1] + [Last(histories)]
  {
  }

  lemma ShadeInRange(front: seq<History>, h: History, n: int, day: int, x: int, y: int, z: int)
    requires 0 <= x <= 100 && 0 <= y <= 100 && 0 <= z <= 100
    ensures 0 <= Shade(front, h, n, day, x, y, z) <= 100
  {
  }

  lemma ShadedIsPaintInitially(n: int, day: int, x: int, y: int, z: int)
    ensures SameStamps(Shaded([], n, day, x, y, z), []) && Percentages(Shaded([], n, day, x, y, z))
  {
  }

  lemma PaintStep(painted: seq<History>, front: seq<History>, h: History, pct: int)
    requires SameStamps(painted, front) && Percentages(painted) && 0 <= pct <= 100
    ensures SameStamps(painted + [Painted(h, pct)], front + [h]) && Percentages(painted + [Painted(h, pct)])
  {
    assert SameScans(Painted(h, pct), h) && PercentagesIn(Painted(h, pct));
    hide SameScans, PercentagesIn, Painted;
    var all, list := painted + [Painted(h, pct)], front + [h];
    assert forall k :: 0 <= k < |front| ==> all[k] == painted[k] && list[k] == front[k];
  }

  /** Two lists of percentages: `part` values on both, alternating, and `whole - part` values `z` on the second only. */
  ghost predicate SumTo(recent: seq<int>, full: seq<int>, part: nat, whole: nat, x: int, y: int, z: int) {
    && part <= whole && |recent| == part && |full| == whole
    && Sum(recent) == Alternating(part, x, y) && Sum(full) == Alternating(part, x, y) + Alternating(whole - part, z, z)
  }

  /** What the slices and the full histories of `shaded` sum to, in numbers of those of `histories`. */
  ghost predicate Sums(shaded: seq<History>, histories: seq<History>, n: int, day: int, x: int, y: int, z: int) {
    SumTo(Snapshot(RecentOf(shaded, n), day), Snapshot(Whole(shaded), day),
          |Snapshot(RecentOf(histories, n), day)|, |Snapshot(Whole(histories), day)|, x, y, z)
  }

  lemma SumToGrows(recent: seq<int>, full: seq<int>, part: nat, whole: nat, x: int, y: int, z: int,
                   pct: int, seen: bool, ever: bool)
    requires SumTo(recent, full, part, whole, x, y, z) && (seen ==> ever)
    requires pct == if !seen then z else if part % 2 == 0 then x else y
    ensures SumTo(recent + (if seen then [pct] else []), full + (if ever then [pct] else []),
                  part + (if seen then 1 else 0), whole + (if ever then 1 else 0), x, y, z)
  {
    hide Sum;
    SumAppend(recent, pct);
    SumAppend(full, pct);
    assert recent + [] == recent && full + [] == full;
  }

  lemma {:induction false} ShadedSums(histories: seq<History>, n: int, day: int, x: int, y: int, z: int)
    requires EachStored(histories)
    ensures Sums(Shaded(histories, n, day, x, y, z), histories, n, day, x, y, z)
  {
    hide *;
    if histories == [] {
      NothingShaded(n, day, x, y, z);
    } else {
      var front, h := histories[..|histories| - 1], Last(histories);
      EachStoredSplit(histories);
      ShadedSums(front, n, day, x, y, z);
      ShadedUnfolds(histories, n, day, x, y, z);
      SumsGrow(Shaded(front, n, day, x, y, z), front, h, n, day, x, y, z);
    }
  }

  lemma NothingShaded(n: int, day: int, x: int, y: int, z: int)
    ensures Sums(Shaded([], n, day, x, y, z), [], n, day, x, y, z)
  {
  }

  lemma ShadedUnfolds(histories: seq<History>, n: int, day: int, x: int, y: int, z: int)
    requires histories != []
    ensures var front, h := histories[..|histories| - 1], Last(histories);
      Shaded(histories, n, day, x, y, z)
        == Shaded(front, n, day, x, y, z) + [Painted(h, Shade(front, h, n, day, x, y, z))]
  {
    hide Shade, Painted;
  }

  /** One more repository shows one more percentage where it was seen by `day`. */
  lemma ListGrows(front: seq<History>, h: History, n: int, day: int)
    ensures |Snapshot(RecentOf(front + [h], n), day)|
         == |Snapshot(RecentOf(front, n), day)| + if SeenRecently(h, n, day) then 1 else 0
    ensures |Snapshot(Whole(front + [h]), day)| == |Snapshot(Whole(front), day)| + if SeenEver(h, day) then 1 else 0
  {
    hide Newest, Snapshot, Reversed;
    SnapshotsGrow(front, h, n, day);
    RecentKeepsId(h, n);
  }

  lemma SumsGrow(shaded: seq<History>, front: seq<History>, h: History, n: int, day: int, x: int, y: int, z: int)
    requires Stored(h) && Sums(shaded, front, n, day, x, y, z)
    ensures Sums(shaded + [Painted(h, Shade(front, h, n, day, x, y, z))], front + [h], n, day, x, y, z)
  {
    hide Newest, Snapshot, Known, Recent, Reversed, Stored, Reaches, RecentOf, Whole, SumTo, Painted;
    var pct := Shade(front, h, n, day, x, y, z);
    SnapshotsGrow(shaded, Painted(h, pct), n, day);
    PaintedIsKnown(h, pct, n, day);
    PaintedIsSame(h, pct);
    ListGrows(front, h, n, day);
    SliceShows(h, n, day);
    SumToGrows(Snapshot(RecentOf(shaded, n), day), Snapshot(Whole(shaded), day),
               |Snapshot(RecentOf(front, n), day)|, |Snapshot(Whole(front), day)|, x, y, z,
               pct, SeenRecently(h, n, day), SeenEver(h, day));
  }

  lemma PaintedIsSame(h: History, pct: int)
    ensures Painted(h, pct).id == h.id && Painted(h, pct).l1 == h.l1
  {
  }

  lemma SliceShows(h: History, n: int, day: int)
    requires Stored(h)
    ensures SeenRecently(h, n, day) ==> SeenEver(h, day)
  {
    hide Newest, Reaches;
    SliceIff(h, n, day);
  }

  /** When a rounded mean is at least 1, and at least 2. */
  lemma MeanReaches(sum: int, count: nat)
    requires count > 0
    ensures RoundedMean(sum, count) >= 1 <==> 2 * sum > count
    ensures RoundedMean(sum, count) >= 2 <==> 2 * sum >= 3 * count
  {
    var total, parts := sum as real, count as real;
    QuotientBounds(total, parts, 0.5);
    QuotientBounds(total, parts, 1.5);
    assert total > 0.5 * parts <==> 2 * sum > count;
    assert total >= 1.5 * parts <==> 2 * sum >= 3 * count;
  }

  lemma QuotientBounds(total: real, parts: real, bound: real)
    requires parts > 0.0
    ensures total / parts > bound <==> total > bound * parts
    ensures total / parts >= bound <==> total >= bound * parts
  {
    var mean := total / parts;
    assert total == mean * parts;
    assert total - bound * parts == (mean - bound) * parts;
  }

  /** With fewer repositories in the slices than in the histories, percentages for which the rounded means differ. */
  lemma MeansDiffer(part: nat, whole: nat) returns (x: int, y: int, z: int)
    requires part < whole
    ensures 0 <= x <= 100 && 0 <= y <= 100 && 0 <= z <= 100
    ensures var sum := Alternating(part, x, y);
      RoundedMean(sum, part) != RoundedMean(sum + Alternating(whole - part, z, z), whole)
  {
    hide RoundedMean;
    AlternatingSums(part);
    AlternatingSums(whole - part);
    if part == 0 {
      x, y, z := 0, 0, 100;
      MeanReaches(100 * whole, whole);
      assert RoundedMean(0, 0) == 0 by { NothingAveraged(); }
    } else {
      x, y, z := 1, if part % 2 == 1 then 0 else 2, 0;
      MeanReaches(Alternating(part, x, y), part);
      MeanReaches(Alternating(part, x, y), whole);
    }
  }

  lemma NothingAveraged()
    ensures RoundedMean(0, 0) == 0
  {
  }

  /** Where some slice does not reach the day, percentages at which the day's mean is off. */
  lemma MissedPoint(histories: seq<History>, n: int, day: int) returns (painted: seq<History>)
    requires AllStored(histories) && !AllReach(histories, n, day)
    ensures AllStored(painted) && SameStamps(painted, histories) && Percentages(painted)
    ensures !SamePoint(painted, n, day)
  {
    hide Snapshot, Stored, AllReach, RoundedMean, Alternating, Shaded;
    SlicesCompare(histories, n, day);
    var part, whole := |Snapshot(RecentOf(histories, n), day)|, |Snapshot(Whole(histories), day)|;
    var x, y, z := MeansDiffer(part, whole);
    painted := Shaded(histories, n, day, x, y, z);
    ShadedSums(histories, n, day, x, y, z);
    ShadedIsPaint(histories, n, day, x, y, z);
    StampsDecide(painted, histories, n, day);
  }

  /** What is stored and what the slices reach depends on ids and stamps alone. */
  lemma StampsDecide(a: seq<History>, b: seq<History>, n: int, day: int)
    requires SameStamps(a, b) && AllStored(b)
    ensures AllStored(a) && (AllReach(a, n, day) <==> AllReach(b, n, day))
  {
    forall k | 0 <= k < |a| ensures Stored(a[k]) && (Reaches(a[k], n, day) <==> Reaches(b[k], n, day)) {
      assert SameScans(a[k], b[k]) && Stored(b[k]);
    }
  }

  /**
   A day's mean is the one full histories give, whatever percentages the scans came to, exactly when every repository's
   slice reaches the day.
   */
  lemma PointIff(histories: seq<History>, n: int, day: int)
    requires AllStored(histories)
    ensures (forall painted :: SameStamps(painted, histories) && Percentages(painted) ==> SamePoint(painted, n, day))
       <==> forall k :: 0 <= k < |histories| ==> Reaches(histories[k], n, day)
  {
    hide Snapshot, Reaches, Stored, MeanOf, SameStamps, Percentages, SamePoint;
    if AllReach(histories, n, day) {
      forall painted | SameStamps(painted, histories) && Percentages(painted) ensures SamePoint(painted, n, day) {
        StampsDecide(painted, histories, n, day);
        FullHistoryIff(painted, n, day);
        SamePercentages(painted, n, day);
      }
    } else {
      var painted := MissedPoint(histories, n, day);
      assert !SamePoint(painted, n, day);
    }
  }

  lemma SamePercentages(histories: seq<History>, n: int, day: int)
    requires Snapshot(RecentOf(histories, n), day) == Snapshot(Whole(histories), day)
    ensures SamePoint(histories, n, day)
  {
  }

  // ----- one such input

  const OLD_FAIL := Event(Some(DAY), "a", 0)
  const NEW_PASS := Event(Some(2 * DAY), "a", 100)
  const OTHER_PASS := Event(Some(DAY), "b", 100)

  /** "a" failed on day 1 and passed on day 2, "b" passed on day 1. */
  const CUT_SHORT := [History("a", 100, [NEW_PASS, OLD_FAIL]), History("b", 100, [OTHER_PASS])]

  ghost predicate HasPoint(points: seq<Point>, day: int, pct: int) {
    exists k :: 0 <= k < |points| && PointDay(points[k]) == day && points[k].pct == pct
  }

  lemma PointOfDay(points: seq<Point>, repos: seq<Repo>, e: Event)
    requires IsTrend(points, repos) && e in Events(repos)
    ensures HasPoint(points, Day(e), MeanOf(Snapshot(repos, Day(e))))
  {
    hide MeanOf, Snapshot, Events, Day, PointDay;
    var k :| 0 <= k < |points| && PointDay(points[k]) == Day(e);
    assert TrendPoint(points[k], repos);
  }

  lemma CutShortSlices()
    ensures RecentOf(CUT_SHORT, 1) == [Repo("a", 100, [NEW_PASS]), Repo("b", 100, [OTHER_PASS])]
    ensures Whole(CUT_SHORT) == [Repo("a", 100, [OLD_FAIL, NEW_PASS]), Repo("b", 100, [OTHER_PASS])]
  {
    assert Reversed([NEW_PASS, OLD_FAIL][..1]) == [NEW_PASS] && Reversed([OTHER_PASS][..1]) == [OTHER_PASS];
    assert Reversed([NEW_PASS, OLD_FAIL]) == [OLD_FAIL, NEW_PASS] && Reversed([OTHER_PASS]) == [OTHER_PASS];
  }

  lemma PairSnapshot(a: Repo, b: Repo, day: int)
    ensures Snapshot([a, b], day) == Known(a, day) + Known(b, day)
  {
    hide Known;
    assert [a, b] == [a] + [b] && [a] == [] + [a];
    SnapshotGrows([], a, day);
    SnapshotGrows([a], b, day);
    assert Snapshot([], day) == [];
  }

  lemma NewestOfOne(e: Event, day: int)
    ensures Newest([e], e.repo, day) == if Day(e) <= day then Some(e) else None
  {
    hide Day;
    var s := [e];
    assert s[..0] == [];
  }

  lemma CutShortDays()
    ensures Day(OLD_FAIL) == 1 && Day(NEW_PASS) == 2 && Day(OTHER_PASS) == 1
  {
  }

  lemma CutShortKnown()
    ensures Known(Repo("a", 100, [NEW_PASS]), 1) == [] && Known(Repo("b", 100, [OTHER_PASS]), 1) == [100]
    ensures Known(Repo("a", 100, [OLD_FAIL, NEW_PASS]), 1) == [0]
  {
    hide Newest, Day;
    CutShortDays();
    NewestOfOne(NEW_PASS, 1);
    NewestOfOne(OTHER_PASS, 1);
    NewestOfOne(OLD_FAIL, 1);
    assert [OLD_FAIL, NEW_PASS] == [OLD_FAIL] + [NEW_PASS];
    NewestAppend([OLD_FAIL], NEW_PASS, "a", 1);
  }

  lemma CutShortSnapshots()
    ensures OTHER_PASS in Events(RecentOf(CUT_SHORT, 1)) && OTHER_PASS in Events(Whole(CUT_SHORT))
    ensures Snapshot(RecentOf(CUT_SHORT, 1), 1) == [100] && Snapshot(Whole(CUT_SHORT), 1) == [0, 100]
  {
    hide Known, Snapshot, RecentOf, Whole, Events;
    var a, b, full := Repo("a", 100, [NEW_PASS]), Repo("b", 100, [OTHER_PASS]), Repo("a", 100, [OLD_FAIL, NEW_PASS]);
    CutShortSlices();
    CutShortKnown();
    PairSnapshot(a, b, 1);
    PairSnapshot(full, b, 1);
    assert OTHER_PASS in b.trend && b in [a, b] && b in [full, b];
    EventsMembers([a, b], OTHER_PASS);
    EventsMembers([full, b], OTHER_PASS);
  }

  /** With slices of one scan every trend shows day 1 at 100; over the full histories every trend shows it at 50. */
  lemma CutShortPoint(points: seq<Point>, full: seq<Point>)
    requires IsTrend(points, RecentOf(CUT_SHORT, 1)) && IsTrend(full, Whole(CUT_SHORT))
    ensures AllStored(CUT_SHORT) && HasPoint(points, 1, 100) && HasPoint(full, 1, 50)
  {
    CutShortSnapshots();
    hide IsTrend, Snapshot, Events, RecentOf, Whole, HasPoint;
    PointOfDay(points, RecentOf(CUT_SHORT, 1), OTHER_PASS);
    PointOfDay(full, Whole(CUT_SHORT), OTHER_PASS);
    assert Sum([100]) == 100 by { SumAppend([], 100); }
    assert Sum([0, 100]) == 100 by { SumAppend([0], 100); SumAppend([], 0); }
    RoundUnique(50.0, 50);
  }
}
