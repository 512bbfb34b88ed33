/**
 * Python dictionaries, which remember the order in which keys were first
 * inserted, modelled as association lists of (key, value) pairs.
 */
module Assoc {
  import opened Wrappers

  type Dict<K, V> = seq<(K, V)>

  /** The keys of `d` in insertion order. */
  function Keys<K, V>(d: Dict<K, V>): (ks: seq<K>)
    ensures |ks| == |d|
    ensures forall i :: 0 <= i < |d| ==> ks[i] == d[i].0
  {
    if d == [] then [] else [d[0].0] + Keys(d[1..])
  }

  /** `d.get(k)`: the value stored under `k`, if any. */
  function Get<K(==), V>(d: Dict<K, V>, k: K): (r: Option<V>)
    ensures r.Some? <==> k in Keys(d)
  {
    if d == [] then None
    else if d[0].0 == k then Some(d[0].1)
    else
      assert Keys(d) == [d[0].0] + Keys(d[1..]);
      Get(d[1..], k)
  }

  /**
   * `d[k] = v`: an existing key keeps its position and gets the new value,
   * a new key goes to the end (lemma SetKeys).
   */
  function Set<K(==,!new), V>(d: Dict<K, V>, k: K, v: V): (r: Dict<K, V>)
    ensures Get(r, k) == Some(v)
    ensures forall k' :: k' != k ==> Get(r, k') == Get(d, k')
  {
    if d == [] then [(k, v)]
    else if d[0].0 == k then [(k, v)] + d[1..]
    else
      var r := [d[0]] + Set(d[1..], k, v);
      assert r[1..] == Set(d[1..], k, v);
      r
  }

  /** Where `d[k] = v` leaves the keys: unchanged for an old key, `k` last for a new one. */
  lemma {:induction false} SetKeys<K(!new), V>(d: Dict<K, V>, k: K, v: V)
    ensures k in Keys(d) ==> Keys(Set(d, k, v)) == Keys(d)
    ensures k !in Keys(d) ==> Keys(Set(d, k, v)) == Keys(d) + [k]
  {
    if d != [] {
      assert Keys(d) == [d[0].0] + Keys(d[1..]);
      if d[0].0 == k {
        assert Keys([(k, v)] + d[1..]) == [k] + Keys(d[1..]);
      } else {
        SetKeys(d[1..], k, v);
        var r := Set(d, k, v);
        assert r[1..] == Set(d[1..], k, v);
        assert Keys(r) == [d[0].0] + Keys(r[1..]);
      }
    }
  }

  /** No key occurs twice, as in every Python dict. */
  predicate UniqueKeys<K(==), V>(d: Dict<K, V>) {
    forall i, j :: 0 <= i < j < |d| ==> d[i].0 != d[j].0
  }

  /** Inserting a new key or replacing an existing one keeps the keys unique. */
  lemma SetKeepsUniqueKeys<K(!new), V>(d: Dict<K, V>, k: K, v: V)
    requires UniqueKeys(d)
    ensures UniqueKeys(Set(d, k, v))
  {
    var r := Set(d, k, v);
    SetKeys(d, k, v);
    var kd, kr := Keys(d), Keys(r);
    forall i, j | 0 <= i < j < |r| ensures r[i].0 != r[j].0 {
      assert kr[i] == r[i].0 && kr[j] == r[j].0;
      if j < |d| {
        assert kr[i] == kd[i] && kr[j] == kd[j];
        assert kd[i] == d[i].0 && kd[j] == d[j].0;
      } else {
        assert kr == kd + [k];
        assert kr[i] == kd[i] && kd[i] == d[i].0 && kd[i] in kd;
      }
    }
  }

  /** What `d.get(k)` finds is one of the pairs of `d`. */
  lemma {:induction false} GetIsMember<K, V>(d: Dict<K, V>, k: K)
    requires Get(d, k).Some?
    ensures (k, Get(d, k).value) in d
  {
    if d[0].0 != k {
      GetIsMember(d[1..], k);
    }
  }

  /** `d[k] = v` stores `(k, v)` and otherwise keeps pairs of `d`. */
  lemma {:induction false} SetMembers<K(!new), V>(d: Dict<K, V>, k: K, v: V)
    ensures forall e :: e in Set(d, k, v) ==> e in d || e == (k, v)
  {
    if d != [] && d[0].0 != k {
      SetMembers(d[1..], k, v);
    }
  }

  /** Assigning a key twice is assigning it once, with the second value. */
  lemma {:induction false} SetSet<K(!new), V>(d: Dict<K, V>, k: K, v: V, w: V)
    ensures Set(Set(d, k, v), k, w) == Set(d, k, w)
  {
    if d != [] && d[0].0 != k {
      SetSet(d[1..], k, v, w);
      assert Set(d, k, v)[1..] == Set(d[1..], k, v);
    }
  }
}
