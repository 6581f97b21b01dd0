/** Python dictionaries where the insertion order matters: assigning to a present key keeps its
    place, a new key goes last, and `next(iter(d))` is the oldest key. */
module Dicts {
  import opened Wrappers

  datatype Dict<K, V> = Dict(keys: seq<K>, vals: map<K, V>) {
    ghost predicate Valid() {
      && (forall i, j | 0 <= i < j < |keys| :: keys[i] != keys[j])
      && (forall k | k in keys :: k in vals)
      && (forall k | k in vals :: k in keys)
    }

    predicate Has(k: K) { k in vals }

    function Get(k: K): Option<V> { if k in vals then Some(vals[k]) else None }
  }

  function Empty<K, V>(): Dict<K, V> { Dict([], map[]) }

  function Put<K(==), V>(d: Dict<K, V>, k: K, v: V): (r: Dict<K, V>)
    requires d.Valid()
    ensures r.Valid()
  {
    Dict(if k in d.vals then d.keys else d.keys + [k], d.vals[k := v])
  }

  function Without<K(==)>(keys: seq<K>, k: K): seq<K> {
    if keys == [] then [] else
    if keys[0] == k then keys[1..] else [keys[0]] + Without(keys[1..], k)
  }

  lemma {:induction false} WithoutRemoves<K(!new)>(keys: seq<K>, k: K)
    requires forall i, j | 0 <= i < j < |keys| :: keys[i] != keys[j]
    ensures var r := Without(keys, k);
      && (forall i, j | 0 <= i < j < |r| :: r[i] != r[j])
      && (forall x :: x in r <==> x in keys && x != k)
      && |r| == |keys| - (if k in keys then 1 else 0)
  {
    if keys != [] {
      var rest := keys[1..];
      assert keys == [keys[0]] + rest;
      assert keys[0] !in rest by {
        forall j | 0 <= j < |rest| ensures rest[j] != keys[0] {
          assert rest[j] == keys[j + 1];
        }
      }
      WithoutRemoves(rest, k);
      if keys[0] != k {
        var w := Without(rest, k);
        assert forall j | 0 <= j < |w| :: w[j] in w && w[j] != keys[0];
      }
    }
  }

  /** `d.pop(k, None)`. */
  function Pop<K(==,!new), V>(d: Dict<K, V>, k: K): (r: Dict<K, V>)
    requires d.Valid()
    ensures r.Valid() && r.vals == d.vals - {k} && |r.keys| == |d.keys| - (if d.Has(k) then 1 else 0)
  {
    WithoutRemoves(d.keys, k);
    Dict(Without(d.keys, k), d.vals - {k})
  }
}
