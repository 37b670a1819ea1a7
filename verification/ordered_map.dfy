/** An insertion-ordered map with the semantics of a JavaScript `Map`:
    setting a key that is already present replaces its value where it
    stands, setting a new key appends it, and deleting a key removes its
    one entry and keeps the others in order. The map is a sequence of
    key/value pairs with pairwise distinct keys; `ToMap` is the unordered
    map it denotes and serves as the reference the operations are proved
    against. */
module OrderedMap {
  import opened Optional

  /** No key occurs twice. */
  predicate Unique<K(==), V>(m: seq<(K, V)>) {
    forall i, j :: 0 <= i < j < |m| ==> m[i].0 != m[j].0
  }

  type OMap<K(==), V> = m: seq<(K, V)> | Unique(m) witness []

  /** The keys in iteration order. */
  function Keys<K, V>(m: seq<(K, V)>): seq<K> {
    seq(|m|, i requires 0 <= i < |m| => m[i].0)
  }

  /** The unordered map denoted by `m`. */
  function ToMap<K(==), V>(m: seq<(K, V)>): map<K, V>
    decreases |m|
  {
    if |m| == 0 then map[] else ToMap(m[1..])[m[0].0 := m[0].1]
  }

  /** The position of the first entry whose key is `k`, if any. */
  function IndexOf<K(==), V>(m: seq<(K, V)>, k: K): (r: Option<nat>)
    ensures r.Some? ==> r.value < |m| && m[r.value].0 == k
    ensures r.Some? ==> forall j :: 0 <= j < r.value ==> m[j].0 != k
    ensures r.None? <==> forall i :: 0 <= i < |m| ==> m[i].0 != k
    decreases |m|
  {
    if |m| == 0 then None
    else if m[0].0 == k then Some(0)
    else match IndexOf(m[1..], k)
      case None => None
      case Some(i) => Some(i + 1)
  }

  /** `Map.get`: the value stored under `k`, or nothing. */
  function Get<K(==), V>(m: OMap<K, V>, k: K): (r: Option<V>)
    ensures r.None? <==> k !in Keys(m)
    ensures forall i :: 0 <= i < |m| && m[i].0 == k ==> r == Some(m[i].1)
  {
    match IndexOf(m, k)
    case None => None
    case Some(i) =>
      assert Keys(m)[i] == k;
      Some(m[i].1)
  }

  /** `Map.set`: a present key keeps its position and takes the new value;
      a new key is appended after every existing entry. */
  function Set<K(==, !new), V>(m: OMap<K, V>, k: K, v: V): (r: OMap<K, V>)
    ensures Keys(r) == if k in Keys(m) then Keys(m) else Keys(m) + [k]
    ensures forall i :: 0 <= i < |m| && m[i].0 != k ==> r[i] == m[i]
    ensures forall i :: 0 <= i < |m| && m[i].0 == k ==> r[i] == (k, v)
    ensures k !in Keys(m) ==> r == m + [(k, v)]
    ensures Get(r, k) == Some(v)
    ensures forall k' :: k' != k ==> Get(r, k') == Get(m, k')
  {
    match IndexOf(m, k)
    case None =>
      var r := m + [(k, v)];
      assert Keys(r) == Keys(m) + [k];
      r
    case Some(i) =>
      var r := m[i := (k, v)];
      assert Keys(m)[i] == k;
      assert Keys(r) == Keys(m);
      r
  }

  /** `Map.delete`: the entry for `k` disappears, the others keep their
      relative order; deleting an absent key changes nothing. */
  function Delete<K(==, !new), V>(m: OMap<K, V>, k: K): (r: OMap<K, V>)
    ensures k !in Keys(m) ==> r == m
    ensures forall i :: 0 <= i < |m| && m[i].0 == k ==> r == m[..i] + m[i + 1..]
    ensures Get(r, k) == None
    ensures forall k' :: k' != k ==> Get(r, k') == Get(m, k')
  {
    match IndexOf(m, k)
    case None => m
    case Some(i) =>
      var r := m[..i] + m[i + 1..];
      assert Keys(m)[i] == k;
      assert Keys(r) == Keys(m)[..i] + Keys(m)[i + 1..];
      r
  }

  /** Lookup in the ordered map agrees with lookup in the map it denotes. */
  lemma {:induction false} GetAgreesWithToMap<K, V>(m: OMap<K, V>, k: K)
    ensures Get(m, k) == if k in ToMap(m) then Some(ToMap(m)[k]) else None
    decreases |m|
  {
    if |m| > 0 && m[0].0 != k {
      var tail: OMap<K, V> := m[1..];
      GetAgreesWithToMap(tail, k);
      if k in Keys(tail) {
        var i :| 0 <= i < |tail| && tail[i].0 == k;
        assert m[i + 1] == tail[i];
      } else {
        assert k !in Keys(m);
      }
    }
  }

  /** `Set` is map update on the denoted map. */
  lemma SetIsMapUpdate<K(!new), V>(m: OMap<K, V>, k: K, v: V)
    ensures ToMap(Set(m, k, v)) == ToMap(m)[k := v]
  {
    var r := Set(m, k, v);
    forall k'
      ensures k' in ToMap(r) <==> k' in ToMap(m)[k := v]
      ensures k' in ToMap(r) ==> ToMap(r)[k'] == ToMap(m)[k := v][k']
    {
      GetAgreesWithToMap(r, k');
      GetAgreesWithToMap(m, k');
    }
  }

  /** `Delete` is key removal on the denoted map. */
  lemma DeleteIsMapRemoval<K(!new), V>(m: OMap<K, V>, k: K)
    ensures ToMap(Delete(m, k)) == ToMap(m) - {k}
  {
    var r := Delete(m, k);
    forall k'
      ensures k' in ToMap(r) <==> k' in ToMap(m) - {k}
      ensures k' in ToMap(r) ==> ToMap(r)[k'] == (ToMap(m) - {k})[k']
    {
      GetAgreesWithToMap(r, k');
      GetAgreesWithToMap(m, k');
    }
  }
}
