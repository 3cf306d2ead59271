/**
 Python's `dict`: a map that also remembers the order in which its keys were first inserted.
 Overwriting a key keeps its place.
 */
module Dicts {
  import opened Base

  datatype Dict<K(==,!new), V> = Dict(keys: seq<K>, vals: map<K, V>) {

    ghost predicate Valid() {
      && Distinct(keys)
      && forall k :: k in keys <==> k in vals
    }

    function Put(k: K, v: V): (d: Dict<K, V>)
      requires Valid()
      ensures d.Valid()
      ensures d.vals == vals[k := v]
      ensures d.keys == if k in vals then keys else keys + [k]
    {
      Dict(if k in vals then keys else keys + [k], vals[k := v])
    }

    function Get(k: K): Option<V> {
      if k in vals then Some(vals[k]) else None
    }

    function GetOr(k: K, default: V): V {
      if k in vals then vals[k] else default
    }
  }

  function Empty<K(!new), V>(): (d: Dict<K, V>)
    ensures d.Valid()
  {
    Dict([], map[])
  }

  /** `list(d.values())`. */
  function Values<K(!new), V>(d: Dict<K, V>): (vs: seq<V>)
    requires d.Valid()
    ensures |vs| == |d.keys|
    ensures forall k :: 0 <= k < |vs| ==> d.keys[k] in d.vals && vs[k] == d.vals[d.keys[k]]
  {
    assert forall k :: 0 <= k < |d.keys| ==> d.keys[k] in d.keys;
    seq(|d.keys|, k requires 0 <= k < |d.keys| => d.vals[d.keys[k]])
  }
}
