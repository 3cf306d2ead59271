/** Python's `sorted` and `list.sort`: a stable sort by a strict order. */
module Sorting {
  import opened Base

  /** `less` is a strict order whose complement is transitive, as comparisons of keys are. */
  ghost predicate WeakOrder<T(!new)>(less: (T, T) -> bool) {
    && (forall a, b :: less(a, b) ==> !less(b, a))
    && (forall a, b, c :: !less(b, a) && !less(c, b) ==> !less(c, a))
  }

  ghost predicate SortedBy<T>(s: seq<T>, less: (T, T) -> bool) {
    forall i, j :: 0 <= i < j < |s| ==> !less(s[j], s[i])
  }

  /** `x` placed after every element it does not precede. */
  function Insert<T>(s: seq<T>, x: T, less: (T, T) -> bool): (r: seq<T>)
    ensures |r| == |s| + 1
  {
    if s != [] && less(x, Last(s)) then Insert(s[..|s| - 1], x, less) + [Last(s)] else s + [x]
  }

  function StableSort<T>(s: seq<T>, less: (T, T) -> bool): (r: seq<T>)
    ensures |r| == |s|
  {
    if s == [] then [] else Insert(StableSort(s[..|s| - 1], less), Last(s), less)
  }

  lemma {:induction false} InsertPermutes<T>(s: seq<T>, x: T, less: (T, T) -> bool)
    ensures multiset(Insert(s, x, less)) == multiset(s) + multiset{x}
  {
    if s == [] || !less(x, Last(s)) {
    } else {
      InsertPermutes(s[..|s| - 1], x, less);
      assert s == s[..|s| - 1] + [Last(s)];
    }
  }

  lemma {:induction false} SortPermutes<T>(s: seq<T>, less: (T, T) -> bool)
    ensures multiset(StableSort(s, less)) == multiset(s)
  {
    if s == [] {
    } else {
      SortPermutes(s[..|s| - 1], less);
      InsertPermutes(StableSort(s[..|s| - 1], less), Last(s), less);
      assert s == s[..|s| - 1] + [Last(s)];
    }
  }

  lemma {:induction false} InsertSorts<T(!new)>(s: seq<T>, x: T, less: (T, T) -> bool)
    requires WeakOrder(less) && SortedBy(s, less)
    ensures SortedBy(Insert(s, x, less), less)
    ensures forall i :: 0 <= i <= |s| ==> Insert(s, x, less)[i] == x || Insert(s, x, less)[i] in s
  {
    if s == [] {
    } else if less(x, Last(s)) {
      var front := s[..|s| - 1];
      InsertSorts(front, x, less);
      assert forall i :: 0 <= i < |front| ==> front[i] == s[i];
    } else {
      forall i | 0 <= i < |s| ensures !less(x, s[i]) {
        assert !less(Last(s), s[i]);
      }
    }
  }

  lemma {:induction false} SortSorts<T(!new)>(s: seq<T>, less: (T, T) -> bool)
    requires WeakOrder(less)
    ensures SortedBy(StableSort(s, less), less)
  {
    if s == [] {
    } else {
      SortSorts(s[..|s| - 1], less);
      InsertSorts(StableSort(s[..|s| - 1], less), Last(s), less);
    }
  }

  /** A rearrangement of a repetition-free sequence repeats nothing either. */
  lemma PermutationDistinct<T>(s: seq<T>, t: seq<T>)
    requires Distinct(s) && multiset(s) == multiset(t)
    ensures Distinct(t)
  {
    assert |s| == |multiset(s)| == |multiset(t)| == |t|;
    forall i, j | 0 <= i < j < |t| ensures t[i] != t[j] {
      if t[i] == t[j] {
        var rest := t[..j] + t[j + 1..];
        assert t[i] == rest[i];
        forall x | x in s ensures x in rest {
          assert x in multiset(s);
          var k :| 0 <= k < |t| && t[k] == x;
          assert k != j ==> rest[if k < j then k else k - 1] == x;
        }
        DistinctCardinality(s);
        SetOfSeqBound(rest);
        SubsetCardinality((set x | x in s), (set x | x in rest));
      }
    }
  }

  /** Sorting a sorted sequence leaves it alone. */
  lemma {:induction false} SortIdentity<T>(s: seq<T>, less: (T, T) -> bool)
    requires SortedBy(s, less)
    ensures StableSort(s, less) == s
  {
    if s == [] {
    } else {
      SortIdentity(s[..|s| - 1], less);
      assert s == s[..|s| - 1] + [Last(s)];
    }
  }

  /** `s[k]` is the first of the elements nothing precedes. */
  ghost predicate FirstLeast<T>(s: seq<T>, k: nat, less: (T, T) -> bool) {
    && k < |s|
    && (forall j :: 0 <= j < |s| ==> !less(s[j], s[k]))
    && (forall j :: 0 <= j < k ==> less(s[k], s[j]))
  }

  lemma {:induction false} InsertHead<T(!new)>(s: seq<T>, x: T, less: (T, T) -> bool)
    requires WeakOrder(less) && SortedBy(s, less) && s != []
    ensures Insert(s, x, less)[0] == if less(x, s[0]) then x else s[0]
  {
    if |s| <= 1 {
    } else {
      var front := s[..|s| - 1];
      assert front[0] == s[0];
      if less(x, Last(s)) {
        InsertHead(front, x, less);
      }
    }
  }

  /** The head of a stable sort is the first least element of the input. */
  lemma {:induction false} SortHead<T(!new)>(s: seq<T>, less: (T, T) -> bool) returns (k: nat)
    requires WeakOrder(less) && s != []
    ensures FirstLeast(s, k, less) && StableSort(s, less)[0] == s[k]
    decreases |s|
  {
    var front, last := s[..|s| - 1], Last(s);
    if front == [] {
      k := 0;
    } else {
      k := SortHead(front, less);
      SortSorts(front, less);
      InsertHead(StableSort(front, less), last, less);
      if less(last, front[k]) {
        forall j | 0 <= j < |front| ensures less(last, s[j]) && !less(s[j], last) {
          assert s[j] == front[j];
        }
        k := |front|;
      }
    }
  }
}
