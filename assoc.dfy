/**
 * A Python `dict` whose iteration order matters, as a list of key/value
 * pairs in insertion order. `d[k] = v` overwrites the value of a present key
 * where it stands and appends a new key at the end.
 */
module Assoc {
  import opened Wrappers

  type Assoc<K, V> = seq<(K, V)>

  /** `list(d.keys())` */
  function Keys<K, V>(m: Assoc<K, V>): (ks: seq<K>)
    ensures |ks| == |m|
  {
    if m == [] then [] else [m[0].0] + Keys(m[1..])
  }

  /** Position `i` of `list(d.keys())` is the key of entry `i`. */
  lemma {:induction false} KeysAt<K, V>(m: Assoc<K, V>, i: int)
    requires 0 <= i < |m|
    ensures Keys(m)[i] == m[i].0
  {
    if i > 0 {
      KeysAt(m[1..], i - 1);
    }
  }

  /** No key occurs twice, as in a real dict. */
  ghost predicate DistinctKeys<K, V>(m: Assoc<K, V>) {
    forall i, j :: 0 <= i < j < |m| ==> m[i].0 != m[j].0
  }

  /** `d.get(k)` */
  function Get<K(==), V>(m: Assoc<K, V>, k: K): (r: Option<V>)
    ensures r.None? <==> k !in Keys(m)
    ensures r.Some? ==> (k, r.value) in m
  {
    if m == [] then None
    else if m[0].0 == k then Some(m[0].1)
    else
      assert Keys(m) == [m[0].0] + Keys(m[1..]);
      Get(m[1..], k)
  }

  /** `d[k] = v`: a present key keeps its place, a new one goes last. */
  function Put<K(==), V>(m: Assoc<K, V>, k: K, v: V): Assoc<K, V> {
    if m == [] then [(k, v)]
    else if m[0].0 == k then [(k, v)] + m[1..]
    else [m[0]] + Put(m[1..], k, v)
  }

  /** The key order after `d[k] = v`. */
  lemma {:induction false} PutKeys<K, V>(m: Assoc<K, V>, k: K, v: V)
    ensures Keys(Put(m, k, v)) == if k in Keys(m) then Keys(m) else Keys(m) + [k]
  {
    if m != [] {
      assert Keys(m) == [m[0].0] + Keys(m[1..]);
      if m[0].0 != k {
        PutKeys(m[1..], k, v);
        assert Keys([m[0]] + Put(m[1..], k, v)) == [m[0].0] + Keys(Put(m[1..], k, v));
      }
    }
  }

  /** After `d[k] = v`, `d[k]` is `v` and every other key reads as before. */
  lemma {:induction false} GetPut<K, V>(m: Assoc<K, V>, k: K, v: V, k': K)
    ensures Get(Put(m, k, v), k') == if k' == k then Some(v) else Get(m, k')
  {
    if m != [] && m[0].0 != k {
      GetPut(m[1..], k, v, k');
    }
  }

  /** Assignment keeps the keys of a dict distinct. */
  lemma PutDistinct<K, V>(m: Assoc<K, V>, k: K, v: V)
    requires DistinctKeys(m)
    ensures DistinctKeys(Put(m, k, v))
  {
    var r := Put(m, k, v);
    PutKeys(m, k, v);
    forall i, j | 0 <= i < j < |r| ensures r[i].0 != r[j].0 {
      KeysAt(r, i);
      KeysAt(r, j);
      KeysAt(m, i);
      if j < |m| {
        KeysAt(m, j);
      }
    }
  }
}
