/** Counting occurrences into a dictionary, as `d[k] = d.get(k, 0) + 1` does. */
module Tallies {
  import opened Base
  import opened Dicts

  /** `{k: 0 for k in start}`. */
  function Zeroes<K(!new, ==)>(start: seq<K>): (d: Dict<K, int>)
    ensures d.Valid()
    ensures forall k :: k in d.vals <==> k in start
    ensures forall k :: k in d.vals ==> d.vals[k] == 0
  {
    if start == [] then Empty()
    else
      assert forall k :: k in start <==> k in start[..|start| - 1] || k == Last(start);
      Zeroes(start[..|start| - 1]).Put(Last(start), 0)
  }

  function Bump<K(!new, ==)>(d: Dict<K, int>, k: K): (r: Dict<K, int>)
    requires d.Valid()
    ensures r.Valid()
  {
    d.Put(k, d.GetOr(k, 0) + 1)
  }

  /** `d` holds one key for each of `start` and each of `counted`, with its number of occurrences in `counted`. */
  ghost predicate Tallied<K(!new)>(d: Dict<K, int>, start: seq<K>, counted: seq<K>) {
    && d.Valid()
    && (forall k :: k in d.vals <==> k in start || k in counted)
    && (forall k :: k in d.vals ==> d.vals[k] == multiset(counted)[k])
  }

  lemma ZeroesTally<K(!new)>(start: seq<K>)
    ensures Tallied(Zeroes(start), start, [])
  {
  }

  lemma BumpTallies<K(!new)>(d: Dict<K, int>, start: seq<K>, counted: seq<K>, k: K)
    requires Tallied(d, start, counted)
    ensures d.Valid() && Tallied(Bump(d, k), start, counted + [k])
  {
    assert multiset(counted + [k]) == multiset(counted) + multiset{k};
    if k !in d.vals {
      assert k !in counted;
      assert multiset(counted)[k] == 0;
    }
    forall j ensures j in counted + [k] <==> j in counted || j == k {
    }
  }

  function SumOver<K>(keys: seq<K>, vals: map<K, int>): int
    requires forall k :: k in keys ==> k in vals
  {
    if keys == [] then 0 else SumOver(keys[..|keys| - 1], vals) + vals[Last(keys)]
  }

  /** `sum(d.values())`. */
  function Total<K(!new)>(d: Dict<K, int>): int
    requires d.Valid()
  {
    SumOver(d.keys, d.vals)
  }

  /** Occurrence counts over keys that miss no element add up to the number of elements. */
  lemma {:induction false} SumOfCounts<K>(keys: seq<K>, vals: map<K, int>, elems: multiset<K>)
    requires Distinct(keys)
    requires forall k :: k in keys ==> k in vals && vals[k] == elems[k]
    requires forall k :: k in elems ==> k in keys
    ensures SumOver(keys, vals) == |elems|
  {
    if keys == [] {
      assert elems == multiset{};
    } else {
      var front, k := keys[..|keys| - 1], Last(keys);
      assert forall j :: j in keys <==> j in front || j == k;
      SumOfCounts(front, vals, elems[k := 0]);
    }
  }

  /** Whatever was counted, the entries sum to how much was counted. */
  lemma TalliedTotal<K(!new)>(d: Dict<K, int>, start: seq<K>, counted: seq<K>)
    requires Tallied(d, start, counted)
    ensures d.Valid() && Total(d) == |counted|
  {
    SumOfCounts(d.keys, d.vals, multiset(counted));
  }
}
