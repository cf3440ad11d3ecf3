/**
 * A JavaScript `Map`: lookups by key, iteration in first-insertion order.
 * Lookups and updates act on the first entry with the key; `DistinctKeys`
 * holds of every map built from `[]` by `Set`.
 */
module OrderedMaps {
  import opened Options
  import opened Seqs

  type OrderedMap<K, V> = seq<(K, V)>

  /** The keys in iteration order. */
  function Keys<K, V>(m: OrderedMap<K, V>): (ks: seq<K>)
    ensures |ks| == |m|
    ensures forall i :: 0 <= i < |m| ==> ks[i] == m[i].0
  {
    seq(|m|, i requires 0 <= i < |m| => m[i].0)
  }

  predicate DistinctKeys<K(==), V>(m: OrderedMap<K, V>) {
    forall i, j :: 0 <= i < j < |m| ==> m[i].0 != m[j].0
  }

  /** `m.get(k)`. */
  function Get<K(==), V>(m: OrderedMap<K, V>, k: K): (r: Option<V>)
    ensures r.None? <==> k !in Keys(m)
  {
    match IndexOf(Keys(m), k)
    case None => None
    case Some(i) => Some(m[i].1)
  }

  /** `m.set(k, v)`: a new key goes last, an existing key keeps its place. */
  function Set<K(==,!new), V>(m: OrderedMap<K, V>, k: K, v: V): (r: OrderedMap<K, V>)
    ensures Keys(r) == Keys(m) + (if k in Keys(m) then [] else [k])
    ensures Get(r, k) == Some(v)
    ensures forall k' :: k' != k ==> Get(r, k') == Get(m, k')
    ensures DistinctKeys(m) ==> DistinctKeys(r)
  {
    match IndexOf(Keys(m), k)
    case Some(i) =>
      var r := m[i := (k, v)];
      assert Keys(r) == Keys(m);
      r
    case None =>
      var r := m + [(k, v)];
      assert Keys(r) == Keys(m) + [k];
      forall k' | k' != k ensures Get(r, k') == Get(m, k') {
        IndexOfAppend(Keys(m), k, k');
      }
      r
  }

  /** A search for another key is not affected by a key added at the end. */
  lemma IndexOfAppend<K>(ks: seq<K>, k: K, k': K)
    requires k' != k
    ensures IndexOf(ks + [k], k') == IndexOf(ks, k')
  {
    var a, b := IndexOf(ks + [k], k'), IndexOf(ks, k');
    if a.Some? {
      assert a.value < |ks|;
      assert ks[a.value] == k';
      assert (ks + [k])[b.value] == ks[b.value] == k';
    } else {
      assert k' !in ks;
    }
  }

  /** Setting a key twice is setting it once to the later value: the key keeps its first place. */
  lemma SetTwice<K(!new), V>(m: OrderedMap<K, V>, k: K, v1: V, v2: V)
    ensures Set(Set(m, k, v1), k, v2) == Set(m, k, v2)
  {
    match IndexOf(Keys(m), k)
    case Some(i) =>
      assert Keys(Set(m, k, v1)) == Keys(m);
    case None =>
      var m1 := m + [(k, v1)];
      assert Keys(m1) == Keys(m) + [k];
      assert IndexOf(Keys(m1), k) == Some(|m|);
  }
}
