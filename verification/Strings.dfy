/** Python's ordering and substring test of strings, and `sorted(set_of_strings)`. */
module Strings {
  import opened Base

  /** Lexicographic order by code point, as `<=` on `str`. */
  predicate StrLe(a: string, b: string) {
    a == [] || (b != [] && (a[0] < b[0] || (a[0] == b[0] && StrLe(a[1..], b[1..]))))
  }

  lemma StrLeTotal(a: string, b: string)
    ensures StrLe(a, b) || StrLe(b, a)
  {
  }

  lemma {:induction false} StrLeAntisymmetric(a: string, b: string)
    requires StrLe(a, b) && StrLe(b, a)
    ensures a == b
  {
    if a == [] {
    } else {
      StrLeAntisymmetric(a[1..], b[1..]);
      assert a == [a[0]] + a[1..] && b == [b[0]] + b[1..];
    }
  }

  lemma StrLeTransitive(a: string, b: string, c: string)
    requires StrLe(a, b) && StrLe(b, c)
    ensures StrLe(a, c)
  {
  }

  predicate IsLeast(s: set<string>, m: string) {
    m in s && forall x :: x in s ==> StrLe(m, x)
  }

  lemma {:induction false} LeastExists(s: set<string>) returns (m: string)
    requires s != {}
    ensures IsLeast(s, m)
    decreases |s|
  {
    var x :| x in s;
    StrLeTotal(x, x);
    if s == {x} {
      m := x;
    } else {
      var rest := s - {x};
      m := LeastExists(rest);
      StrLeTotal(x, m);
      if StrLe(x, m) {
        forall y | y in s ensures StrLe(x, y) {
          if y != x {
            StrLeTransitive(x, m, y);
          }
        }
        m := x;
      }
    }
  }

  lemma LeastUnique(s: set<string>, a: string, b: string)
    requires IsLeast(s, a) && IsLeast(s, b)
    ensures a == b
  {
    StrLeAntisymmetric(a, b);
  }

  ghost predicate Sorted(ss: seq<string>) {
    forall i, j :: 0 <= i < j < |ss| ==> StrLe(ss[i], ss[j])
  }

  /** `sorted(s)` for a set: each element once, in order. */
  function SortedSet(s: set<string>): (ss: seq<string>)
    ensures Sorted(ss) && Distinct(ss)
    ensures forall x :: x in ss <==> x in s
  {
    if s == {} then []
    else
      assert exists m :: IsLeast(s, m) by { var m := LeastExists(s); }
      assert forall a, b :: IsLeast(s, a) && IsLeast(s, b) ==> a == b by {
        forall a, b | IsLeast(s, a) && IsLeast(s, b) ensures a == b { LeastUnique(s, a, b); }
      }
      var m :| m in s && IsLeast(s, m);
      [m] + SortedSet(s - {m})
  }

  predicate OccursAt(part: string, whole: string, i: int) {
    0 <= i <= |whole| - |part| && whole[i..i + |part|] == part
  }

  /** `part in whole`. */
  predicate Occurs(part: string, whole: string) {
    exists i :: 0 <= i <= |whole| - |part| && OccursAt(part, whole, i)
  }
}
