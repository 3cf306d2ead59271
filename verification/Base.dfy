/** Small vocabulary shared by every module: optional values and facts about sequences. */
module Base {

  datatype Option<+T> = None | Some(value: T) {
    function GetOr(default: T): T {
      match this
      case Some(v) => v
      case None => default
    }
  }

  /** Python's truth of an optional string. */
  predicate Truthy(s: Option<string>) {
    s.Some? && s.value != ""
  }

  /** No element occurs at two positions. */
  ghost predicate Distinct<T>(s: seq<T>) {
    forall i, j :: 0 <= i < j < |s| ==> s[i] != s[j]
  }

  function Last<T>(s: seq<T>): T
    requires s != []
  {
    s[|s| - 1]
  }

  /** Where Python's `xs[:n]` ends: a negative bound counts from the end. */
  function SliceEnd(n: int, length: nat): (k: nat)
    ensures k <= length
    ensures n >= 0 ==> k <= n
    ensures n < 0 && length + n > 0 ==> k == length + n
  {
    if n >= 0 then (if n < length then n else length)
    else if length + n > 0 then length + n else 0
  }

  /** The place of `x` in a list, the list's length if it is not there. */
  ghost function PlaceIn<T>(list: seq<T>, x: T): nat {
    if list == [] || list[0] == x then 0 else 1 + PlaceIn(list[1..], x)
  }

  lemma FourPlaces(x: string)
    ensures PlaceIn(["critical", "high", "medium", "low"], x) ==
      match x case "critical" => 0 case "high" => 1 case "medium" => 2 case "low" => 3 case _ => 4
  {
    var order := ["critical", "high", "medium", "low"];
    assert order[1..] == ["high", "medium", "low"] && order[1..][1..] == ["medium", "low"];
    assert ["medium", "low"][1..] == ["low"] && ["low"][1..] == [];
  }

  lemma DistinctCardinality<T>(s: seq<T>)
    requires Distinct(s)
    ensures |set x | x in s| == |s|
  {
    if s == [] {
    } else {
      var front := s[..|s| - 1];
      DistinctCardinality(front);
      assert s == front + [Last(s)];
      assert (set x | x in s) == (set x | x in front) + {Last(s)};
    }
  }

  /** A sequence holds at most as many different values as it has positions. */
  lemma SetOfSeqBound<T>(s: seq<T>)
    ensures |set x | x in s| <= |s|
  {
    if s == [] {
    } else {
      var front := s[..|s| - 1];
      SetOfSeqBound(front);
      assert s == front + [Last(s)];
      assert (set x | x in s) == (set x | x in front) + {Last(s)};
    }
  }

  /** A repetition-free sequence drawn from a finite set is no longer than the set. */
  lemma DistinctWithin<T>(s: seq<T>, universe: set<T>)
    requires Distinct(s)
    requires forall x :: x in s ==> x in universe
    ensures |s| <= |universe|
  {
    DistinctCardinality(s);
    SubsetCardinality((set x | x in s), universe);
  }

  lemma SubsetCardinality<T>(a: set<T>, b: set<T>)
    requires a <= b
    ensures |a| <= |b|
  {
    if a == {} {
    } else {
      var x :| x in a;
      SubsetCardinality(a - {x}, b - {x});
    }
  }

  lemma ElementOf<T>(s: set<T>) returns (x: T)
    requires s != {}
    ensures x in s
  {
    x :| x in s;
  }

  /** `[x for x in s if keep(x)]`. */
  function Filter<T(!new)>(s: seq<T>, keep: T -> bool): seq<T> {
    if s == [] then [] else Filter(s[..|s| - 1], keep) + if keep(Last(s)) then [Last(s)] else []
  }

  lemma {:induction false} FilterMembers<T(!new)>(s: seq<T>, keep: T -> bool)
    ensures |Filter(s, keep)| <= |s|
    ensures forall x :: x in Filter(s, keep) <==> x in s && keep(x)
  {
    if s == [] {
    } else {
      FilterMembers(s[..|s| - 1], keep);
      assert forall x :: x in s <==> x in s[..|s| - 1] || x == Last(s);
    }
  }
}
