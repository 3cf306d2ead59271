/**
 The compliance figures of `AsvsService.get_compliance_summary`: verdict counts per chapter, totals and
 percentages per level.
 */
module Compliance {
  import opened Base
  import opened Dicts
  import opened Rounding
  import opened Sorting
  import opened Tallies

  datatype Control = Control(controlId: string, chapterId: string, level: string, strategy: string)

  datatype Chapter = Chapter(chapterId: string, strategy: string, controlCount: nat, counts: Dict<string, int>)

  datatype Level = Level(total: nat, passed: nat, pct: int)

  datatype Summary = Summary(chapters: seq<Chapter>, l1: Level, l2: Level, l3: Level, overall: Level)

  const VERDICT_KEYS := ["pass", "fail", "n_a", "manual_review", "not_tested"]

  /** `results.get(control_id, {}).get("verdict", "not_tested")`; `results` maps a control to its stored verdict. */
  function VerdictOf(results: map<string, string>, c: Control): string {
    if c.controlId in results then results[c.controlId] else "not_tested"
  }

  predicate Passes(results: map<string, string>, c: Control) {
    c.controlId in results && results[c.controlId] == "pass"
  }

  // ----- filtering a catalog

  lemma FilterAppend<T(!new)>(s: seq<T>, x: T, keep: T -> bool)
    ensures Filter(s + [x], keep) == Filter(s, keep) + if keep(x) then [x] else []
  {
    assert (s + [x])[..|s + [x]| - 1] == s;
  }

  lemma {:induction false} FilterWeakens<T(!new)>(s: seq<T>, keep: T -> bool, more: T -> bool)
    requires forall x :: x in s && keep(x) ==> more(x)
    ensures |Filter(s, keep)| <= |Filter(s, more)|
  {
    if s == [] {
    } else {
      FilterWeakens(s[..|s| - 1], keep, more);
    }
  }

  // ----- chapters

  function InChapter(id: string): Control -> bool {
    (c: Control) => c.chapterId == id
  }

  /** `d` files every control under its chapter, in order, and has no empty entry. */
  ghost predicate Grouped(d: Dict<string, seq<Control>>, controls: seq<Control>) {
    && d.Valid()
    && (forall id :: d.GetOr(id, []) == Filter(controls, InChapter(id)))
    && forall id :: id in d.vals ==> d.vals[id] != []
  }

  lemma GroupStep(d: Dict<string, seq<Control>>, controls: seq<Control>, c: Control)
    requires Grouped(d, controls)
    ensures d.Valid() && Grouped(d.Put(c.chapterId, d.GetOr(c.chapterId, []) + [c]), controls + [c])
  {
    hide Filter;
    forall id ensures Filter(controls + [c], InChapter(id))
                   == d.GetOr(id, []) + if c.chapterId == id then [c] else [] {
      FilterAppend(controls, c, InChapter(id));
    }
  }

  lemma NothingGrouped()
    ensures Grouped(Empty(), [])
  {
  }

  /** The loop that fills `by_chapter`. */
  method GroupByChapter(controls: seq<Control>) returns (d: Dict<string, seq<Control>>)
    ensures Grouped(d, controls)
  {
    hide *;
    d := Empty();
    NothingGrouped();
    assert controls[..0] == [];
    for i := 0 to |controls|
      invariant Grouped(d, controls[..i])
    {
      GroupStep(d, controls[..i], controls[i]);
      assert controls[..i] + [controls[i]] == controls[..i + 1];
      var id := controls[i].chapterId;
      d := d.Put(id, d.GetOr(id, []) + [controls[i]]);
    }
    assert controls[..|controls|] == controls;
  }

  function Verdicts(results: map<string, string>, controls: seq<Control>): (v: seq<string>)
    ensures |v| == |controls|
  {
    seq(|controls|, i requires 0 <= i < |controls| => VerdictOf(results, controls[i]))
  }

  lemma NoVerdicts(results: map<string, string>)
    ensures Verdicts(results, []) == []
  {
  }

  lemma VerdictsAppend(results: map<string, string>, controls: seq<Control>, c: Control)
    ensures Verdicts(results, controls + [c]) == Verdicts(results, controls) + [VerdictOf(results, c)]
  {
  }

  /** The entry of one chapter: every verdict counted once, and the strategy all its controls share, or "mixed". */
  ghost predicate Describes(ch: Chapter, id: string, controls: seq<Control>, results: map<string, string>) {
    && ch.chapterId == id
    && ch.controlCount == |controls|
    && Tallied(ch.counts, VERDICT_KEYS, Verdicts(results, controls))
    && ((forall c :: c in controls ==> c.strategy == ch.strategy)
        || (ch.strategy == "mixed" && exists c, e :: c in controls && e in controls && c.strategy != e.strategy))
  }

  method CountVerdicts(controls: seq<Control>, results: map<string, string>) returns (counts: Dict<string, int>)
    ensures Tallied(counts, VERDICT_KEYS, Verdicts(results, controls))
  {
    hide *;
    counts := Zeroes(VERDICT_KEYS);
    ZeroesTally(VERDICT_KEYS);
    NoVerdicts(results);
    assert controls[..0] == [];
    for i := 0 to |controls|
      invariant Tallied(counts, VERDICT_KEYS, Verdicts(results, controls[..i]))
    {
      var verdict := VerdictOf(results, controls[i]);
      BumpTallies(counts, VERDICT_KEYS, Verdicts(results, controls[..i]), verdict);
      VerdictsAppend(results, controls[..i], controls[i]);
      assert controls[..i] + [controls[i]] == controls[..i + 1];
      counts := Bump(counts, verdict);
    }
    assert controls[..|controls|] == controls;
  }

  method ChapterEntry(id: string, controls: seq<Control>, results: map<string, string>) returns (ch: Chapter)
    requires controls != []
    ensures Describes(ch, id, controls, results)
    ensures ch.counts.Valid() && Total(ch.counts) == ch.controlCount
  {
    hide Tallied, Total, Verdicts, VerdictOf;
    var counts := CountVerdicts(controls, results);
    TalliedTotal(counts, VERDICT_KEYS, Verdicts(results, controls));
    var strategy := if forall c :: c in controls ==>
      c.strategy == controls[0].strategy then controls[0].strategy else "mixed";
    ch := Chapter(id, strategy, |controls|, counts);
  }

  // ----- conservation

  function ChapterIds(controls: seq<Control>): (ids: seq<string>)
    ensures |ids| == |controls|
    ensures forall i :: 0 <= i < |ids| ==> ids[i] == controls[i].chapterId
  {
    seq(|controls|, i requires 0 <= i < |controls| => controls[i].chapterId)
  }

  function Sizes(ids: seq<string>, controls: seq<Control>): map<string, int> {
    map id | id in ids :: |Filter(controls, InChapter(id))|
  }

  lemma {:induction false} SizeIsCount(controls: seq<Control>, id: string)
    ensures |Filter(controls, InChapter(id))| == multiset(ChapterIds(controls))[id]
  {
    if controls == [] {
    } else {
      var front, c := controls[..|controls| - 1], Last(controls);
      SizeIsCount(front, id);
      assert ChapterIds(controls) == ChapterIds(front) + [c.chapterId];
    }
  }

  /** Splitting a list of controls by chapter neither loses nor repeats one. */
  lemma ChaptersPartition(ids: seq<string>, controls: seq<Control>)
    requires Distinct(ids) && forall c :: c in controls ==> c.chapterId in ids
    ensures SumOver(ids, Sizes(ids, controls)) == |controls|
  {
    forall id | id in ids ensures Sizes(ids, controls)[id] == multiset(ChapterIds(controls))[id] {
      SizeIsCount(controls, id);
    }
    SumOfCounts(ids, Sizes(ids, controls), multiset(ChapterIds(controls)));
  }

  function HasVerdict(results: map<string, string>, v: string): Control -> bool {
    (c: Control) => VerdictOf(results, c) == v
  }

  lemma {:induction false} CountIsSize(results: map<string, string>, controls: seq<Control>, v: string)
    ensures multiset(Verdicts(results, controls))[v] == |Filter(controls, HasVerdict(results, v))|
  {
    if controls == [] {
      assert Verdicts(results, []) == [];
    } else {
      var front, c := controls[..|controls| - 1], Last(controls);
      assert controls == front + [c];
      CountIsSize(results, front, v);
      VerdictsAppend(results, front, c);
    }
  }

  /** A control's verdict as recorded; one without a record is not tested. */
  ghost predicate Recorded(results: map<string, string>, c: Control, v: string) {
    if c.controlId in results then results[c.controlId] == v else v == "not_tested"
  }

  /**
   A chapter's entry for a verdict is the number of its controls recorded with it; the five usual verdicts have an
   entry even when it is 0, any other only when it is not.
   */
  lemma EntryMeans(ch: Chapter, id: string, controls: seq<Control>, results: map<string, string>, v: string)
    requires Describes(ch, id, controls, results)
    ensures var n := |Filter(controls, (c: Control) => Recorded(results, c, v))|;
      && (v in ch.counts.vals <==> n > 0 || v in ["pass", "fail", "n_a", "manual_review", "not_tested"])
      && (v in ch.counts.vals ==> ch.counts.vals[v] == n)
  {
    CountIsSize(results, controls, v);
    SameFilter(controls, HasVerdict(results, v), (c: Control) => Recorded(results, c, v));
    hide Filter, Verdicts;
    assert v in Verdicts(results, controls) <==> v in multiset(Verdicts(results, controls));
  }

  lemma {:induction false} SameFilter<T(!new)>(s: seq<T>, f: T -> bool, g: T -> bool)
    requires forall x :: x in s ==> f(x) == g(x)
    ensures Filter(s, f) == Filter(s, g)
  {
    if s == [] {
    } else {
      SameFilter(s[..|s| - 1], f, g);
    }
  }

  lemma {:induction false} FilterCommutes<T(!new)>(s: seq<T>, f: T -> bool, g: T -> bool)
    ensures Filter(Filter(s, f), g) == Filter(Filter(s, g), f)
  {
    hide Filter;
    if s == [] {
      NothingFiltered(f);
      NothingFiltered(g);
    } else {
      var front, x := s[..|s| - 1], Last(s);
      assert s == front + [x];
      FilterCommutes(front, f, g);
      FilterTwice(front, x, f, g);
      FilterTwice(front, x, g, f);
    }
  }

  lemma NothingFiltered<T(!new)>(keep: T -> bool)
    ensures Filter([], keep) == []
  {
  }

  lemma FilterTwice<T(!new)>(s: seq<T>, x: T, f: T -> bool, g: T -> bool)
    ensures Filter(Filter(s + [x], f), g) == Filter(Filter(s, f), g) + if f(x) && g(x) then [x] else []
  {
    hide Filter;
    FilterAppend(s, x, f);
    if f(x) {
      FilterAppend(Filter(s, f), x, g);
    } else {
      assert Filter(s + [x], f) == Filter(s, f);
    }
  }

  /** The number of controls the chapters' entries claim for one verdict. */
  function VerdictSum(chapters: seq<Chapter>, v: string): int {
    if chapters == [] then 0 else VerdictSum(chapters[..|chapters| - 1], v) + Last(chapters).counts.GetOr(v, 0)
  }

  function ControlSum(chapters: seq<Chapter>): int {
    if chapters == [] then 0 else ControlSum(chapters[..|chapters| - 1]) + Last(chapters).controlCount
  }

  function IdsOf(chapters: seq<Chapter>): (ids: seq<string>)
    ensures |ids| == |chapters|
    ensures forall k :: 0 <= k < |ids| ==> ids[k] == chapters[k].chapterId
  {
    seq(|chapters|, k requires 0 <= k < |chapters| => chapters[k].chapterId)
  }

  /** Every entry describes the catalog's controls of its chapter. */
  ghost predicate DescribesAll(chapters: seq<Chapter>, controls: seq<Control>, results: map<string, string>) {
    forall k :: 0 <= k < |chapters| ==>
      Describes(chapters[k], chapters[k].chapterId, Filter(controls, InChapter(chapters[k].chapterId)), results)
  }

  lemma {:induction false} EntrySums(chapters: seq<Chapter>, controls: seq<Control>, results: map<string, string>,
                                     v: string,
                                     sizes: map<string, int>, hits: map<string, int>)
    requires DescribesAll(chapters, controls, results)
    requires forall id :: id in IdsOf(chapters) ==> id in sizes && sizes[id] == |Filter(controls, InChapter(id))|
    requires forall id :: id in IdsOf(chapters) ==>
      id in hits && hits[id] == |Filter(Filter(controls, HasVerdict(results, v)), InChapter(id))|
    ensures ControlSum(chapters) == SumOver(IdsOf(chapters), sizes)
    ensures VerdictSum(chapters, v) == SumOver(IdsOf(chapters), hits)
  {
    if chapters == [] {
    } else {
      hide Filter, Verdicts;
      var front, id := chapters[..|chapters| - 1], Last(chapters).chapterId;
      assert IdsOf(chapters) == IdsOf(front) + [id];
      EntrySums(front, controls, results, v, sizes, hits);
      assert id in IdsOf(chapters);
      CountIsSize(results, Filter(controls, InChapter(id)), v);
      FilterCommutes(controls, InChapter(id), HasVerdict(results, v));
    }
  }

  /**
   Chapters and verdicts are two ways to cut one catalog: the entries' sizes add up to it, and the entries'
   counts of any one verdict add up to the controls that got it.
   */
  lemma SummaryConserves(chapters: seq<Chapter>, controls: seq<Control>, results: map<string, string>, v: string)
    requires Distinct(IdsOf(chapters)) && forall c :: c in controls ==> c.chapterId in IdsOf(chapters)
    requires DescribesAll(chapters, controls, results)
    ensures ControlSum(chapters) == |controls|
    ensures VerdictSum(chapters, v) == |Filter(controls, HasVerdict(results, v))|
  {
    hide DescribesAll;
    var ids, hits := IdsOf(chapters), Filter(controls, HasVerdict(results, v));
    FilterMembers(controls, HasVerdict(results, v));
    ChaptersPartition(ids, controls);
    ChaptersPartition(ids, hits);
    EntrySums(chapters, controls, results, v, Sizes(ids, controls), Sizes(ids, hits));
  }

  // ----- levels

  function LevelOrder(level: string): Option<int> {
    if level == "L1" then Some(1) else if level == "L2" then Some(2) else if level == "L3" then Some(3) else None
  }

  /** `_level_includes`: an unknown control level belongs to no target, an unknown target takes nothing. */
  predicate LevelIncludes(controlLevel: string, targetLevel: string) {
    LevelOrder(controlLevel).GetOr(99) <= LevelOrder(targetLevel).GetOr(0)
  }

  /** A target takes in the controls of its own and of lower levels; unknown levels belong to none and take none. */
  lemma LevelsMeaning(controlLevel: string, targetLevel: string)
    ensures var levels := ["L1", "L2", "L3"];
      LevelIncludes(controlLevel, targetLevel) <==>
        PlaceIn(levels, controlLevel) <= PlaceIn(levels, targetLevel) < 3
  {
    ThreePlaces(controlLevel);
    ThreePlaces(targetLevel);
  }

  lemma ThreePlaces(x: string)
    ensures PlaceIn(["L1", "L2", "L3"], x) ==
      if x == "L1" then 0 else if x == "L2" then 1 else if x == "L3" then 2 else 3
  {
    assert ["L1", "L2", "L3"][1..] == ["L2", "L3"] && ["L2", "L3"][1..] == ["L3"] && ["L3"][1..] == [];
  }

  /** The exact percentage, as a real. */
  function Share(passed: nat, total: nat): (share: real)
    requires passed <= total && 0 < total
    ensures 0.0 <= share <= 100.0 && share * total as real == 100.0 * passed as real
  {
    var ratio := passed as real / total as real;
    assert ratio * total as real == passed as real;
    assert 0.0 <= ratio <= 1.0;
    ratio * 100.0
  }

  /** `round(passed / total * 100) if total else 0`. */
  function Pct(passed: nat, total: nat): (pct: int)
    requires passed <= total
    ensures 0 <= pct <= 100
    ensures total > 0 ==> -0.5 <= pct as real - Share(passed, total) <= 0.5
  {
    if total == 0 then 0 else Round(Share(passed, total))
  }

  function AtLevel(target: string): Control -> bool {
    (c: Control) => LevelIncludes(c.level, target)
  }

  function Passing(results: map<string, string>): Control -> bool {
    (c: Control) => Passes(results, c)
  }

  /** `int(chapter_id[1:])` orders the chapters; `number` stands for that parse. */
  function ByNumber(number: string -> int): (string, string) -> bool {
    (a: string, b: string) => number(a) < number(b)
  }

  /** The figures of a list of applicable controls. */
  function Figures(applicable: seq<Control>, results: map<string, string>): Level {
    FilterMembers(applicable, Passing(results));
    var passed := |Filter(applicable, Passing(results))|;
    Level(|applicable|, passed, Pct(passed, |applicable|))
  }

  method LevelFigures(controls: seq<Control>, results: map<string, string>, target: string) returns (level: Level)
    ensures level == Figures(Filter(controls, AtLevel(target)), results)
  {
    var applicable := Filter(controls, AtLevel(target));
    var passed := Filter(applicable, Passing(results));
    FilterMembers(applicable, Passing(results));
    level := Level(|applicable|, |passed|, Pct(|passed|, |applicable|));
  }

  /** `b` takes in `a`, in controls and in passes. */
  ghost predicate Nested(a: Level, b: Level) {
    a.total <= b.total && a.passed <= b.passed
  }

  lemma TargetsNest(controls: seq<Control>, results: map<string, string>, low: string, high: string)
    requires LevelOrder(low).GetOr(0) <= LevelOrder(high).GetOr(0)
    ensures Nested(Figures(Filter(controls, AtLevel(low)), results), Figures(Filter(controls, AtLevel(high)), results))
  {
    hide Pct, Filter;
    var passed := Filter(controls, Passing(results));
    FilterWeakens(controls, AtLevel(low), AtLevel(high));
    FilterWeakens(passed, AtLevel(low), AtLevel(high));
    FilterCommutes(controls, AtLevel(low), Passing(results));
    FilterCommutes(controls, AtLevel(high), Passing(results));
  }

  lemma CatalogHoldsAll(controls: seq<Control>, results: map<string, string>, target: string)
    ensures Nested(Figures(Filter(controls, AtLevel(target)), results), Figures(controls, results))
  {
    hide Pct, Filter;
    FilterMembers(controls, AtLevel(target));
    FilterCommutes(controls, AtLevel(target), Passing(results));
    FilterMembers(Filter(controls, Passing(results)), AtLevel(target));
  }

  lemma NothingIsZero()
    ensures Pct(0, 0) == 0
  {
  }

  /**
   A level is reported as 100% exactly when at most one control in two hundred is not passing: rounding hides the last
   few.
   */
  lemma FullMarksIff(passed: nat, total: nat)
    requires passed <= total
    ensures Pct(passed, total) == 100 <==> total > 0 && 200 * (total - passed) <= total
  {
    if total > 0 {
      ShareBound(passed, total);
      hide Share;
      RoundsFull(Share(passed, total));
      WholeBound(passed, total);
    }
  }

  lemma ShareBound(passed: nat, total: nat)
    requires passed <= total && 0 < total
    ensures Share(passed, total) >= 99.5 <==> 100.0 * passed as real >= 99.5 * total as real
  {
    var share := Share(passed, total);
    assert share * total as real == 100.0 * passed as real;
    ScaledBound(share, total as real, 99.5);
  }

  lemma RoundsFull(share: real)
    requires 0.0 <= share <= 100.0
    ensures Round(share) == 100 <==> share >= 99.5
  {
  }

  lemma WholeBound(passed: nat, total: nat)
    requires passed <= total
    ensures 100.0 * passed as real >= 99.5 * total as real <==> 200 * (total - passed) <= total
  {
  }

  lemma ScaledBound(share: real, n: real, bound: real)
    requires n > 0.0
    ensures share >= bound <==> share * n >= bound * n
  {
    assert share * n - bound * n == (share - bound) * n;
  }

  /** The chapters that occur, each once, in numerical order. */
  ghost predicate InOrder(ids: seq<string>, controls: seq<Control>, number: string -> int) {
    && Distinct(ids)
    && SortedBy(ids, ByNumber(number))
    && forall id :: id in ids <==> exists c :: c in controls && c.chapterId == id
  }

  lemma ChapterOccurs(d: Dict<string, seq<Control>>, controls: seq<Control>, id: string)
    requires Grouped(d, controls)
    ensures id in d.vals <==> exists c :: c in controls && c.chapterId == id
  {
    FilterMembers(controls, InChapter(id));
    if id in d.vals {
      assert d.GetOr(id, []) == d.vals[id];
      var c := d.vals[id][0];
      assert c in Filter(controls, InChapter(id));
    } else {
      assert d.GetOr(id, []) == [];
      assert forall c :: c in controls ==> c !in Filter(controls, InChapter(id));
    }
  }

  lemma SortedChapters(d: Dict<string, seq<Control>>, controls: seq<Control>, number: string -> int)
    requires Grouped(d, controls)
    ensures InOrder(StableSort(d.keys, ByNumber(number)), controls, number)
    ensures forall id :: id in StableSort(d.keys, ByNumber(number)) ==> id in d.vals
  {
    hide Filter, StableSort;
    var ids := StableSort(d.keys, ByNumber(number));
    SortSorts(d.keys, ByNumber(number));
    SortPermutes(d.keys, ByNumber(number));
    PermutationDistinct(d.keys, ids);
    forall id ensures id in ids <==> id in d.vals {
      assert id in ids <==> id in multiset(ids);
      assert id in d.keys <==> id in multiset(d.keys);
    }
    forall id ensures id in ids <==> exists c :: c in controls && c.chapterId == id {
      ChapterOccurs(d, controls, id);
    }
  }

  /** The loop over the sorted chapters. */
  method ChapterEntries(controls: seq<Control>, results: map<string, string>, number: string -> int)
    returns (chapters: seq<Chapter>)
    ensures InOrder(IdsOf(chapters), controls, number)
    ensures DescribesAll(chapters, controls, results)
  {
    hide Filter, StableSort, InOrder, Tallied;
    var byChapter := GroupByChapter(controls);
    var ids := StableSort(byChapter.keys, ByNumber(number));
    SortedChapters(byChapter, controls, number);
    chapters := [];
    for i := 0 to |ids|
      invariant IdsOf(chapters) == ids[..i]
      invariant DescribesAll(chapters, controls, results)
    {
      assert ids[i] in ids;
      var id := ids[i];
      assert byChapter.GetOr(id, []) == byChapter.vals[id];
      var ch := ChapterEntry(id, byChapter.vals[id], results);
      chapters := chapters + [ch];
    }
    assert ids[..|ids|] == ids;
  }

  /** `get_compliance_summary`, without its free text. */
  method GetComplianceSummary(controls: seq<Control>, results: map<string, string>, number: string -> int)
    returns (summary: Summary)
    ensures InOrder(IdsOf(summary.chapters), controls, number)
    ensures DescribesAll(summary.chapters, controls, results)
    ensures summary.l1 == Figures(Filter(controls, AtLevel("L1")), results)
    ensures summary.l2 == Figures(Filter(controls, AtLevel("L2")), results)
    ensures summary.l3 == Figures(Filter(controls, AtLevel("L3")), results)
    ensures summary.overall == Figures(controls, results)
  {
    var chapters := ChapterEntries(controls, results, number);
    var l1 := LevelFigures(controls, results, "L1");
    var l2 := LevelFigures(controls, results, "L2");
    var l3 := LevelFigures(controls, results, "L3");
    summary := Summary(chapters, l1, l2, l3, Figures(controls, results));
  }

  /** What every summary satisfies: conserved counts, one pass count for both views, nested levels. */
  lemma SummaryAgrees(s: Summary, controls: seq<Control>, results: map<string, string>, number: string -> int)
    requires InOrder(IdsOf(s.chapters), controls, number) && DescribesAll(s.chapters, controls, results)
    requires s.l1 == Figures(Filter(controls, AtLevel("L1")), results)
    requires s.l2 == Figures(Filter(controls, AtLevel("L2")), results)
    requires s.l3 == Figures(Filter(controls, AtLevel("L3")), results)
    requires s.overall == Figures(controls, results)
    ensures ControlSum(s.chapters) == s.overall.total == |controls|
    ensures VerdictSum(s.chapters, "pass") == s.overall.passed
    ensures Nested(s.l1, s.l2) && Nested(s.l2, s.l3) && Nested(s.l3, s.overall)
  {
    hide DescribesAll, InOrder, Filter, Pct, Figures, VerdictSum, ControlSum, HasVerdict, Passing, AtLevel, Nested,
         Distinct;
    EveryChapterListed(s.chapters, controls, number);
    SummaryConserves(s.chapters, controls, results, "pass");
    FiguresCount(controls, results);
    PassingIsPass(controls, results);
    TargetsNest(controls, results, "L1", "L2");
    TargetsNest(controls, results, "L2", "L3");
    CatalogHoldsAll(controls, results, "L3");
  }

  lemma EveryChapterListed(chapters: seq<Chapter>, controls: seq<Control>, number: string -> int)
    requires InOrder(IdsOf(chapters), controls, number)
    ensures Distinct(IdsOf(chapters)) && forall c :: c in controls ==> c.chapterId in IdsOf(chapters)
  {
  }

  lemma FiguresCount(controls: seq<Control>, results: map<string, string>)
    ensures Figures(controls, results).total == |controls|
    ensures Figures(controls, results).passed == |Filter(controls, Passing(results))|
  {
  }

  lemma {:induction false} PassingIsPass(controls: seq<Control>, results: map<string, string>)
    ensures Filter(controls, Passing(results)) == Filter(controls, HasVerdict(results, "pass"))
  {
    if controls == [] {
    } else {
      PassingIsPass(controls[..|controls| - 1], results);
    }
  }
}
