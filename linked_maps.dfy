/** The insertion-ordered map behind Kotlin's `mutableMapOf<String, V>()` (a `LinkedHashMap`):
    a list of entries with distinct keys. `put` on a key already present replaces its value
    where it stands; `put` on a new key appends. Iterating over `keys` or `values` follows
    the list. */
module LinkedMaps {
  import opened Wrappers

  datatype Entry<V> = Entry(key: string, value: V)

  type LinkedMap<V> = seq<Entry<V>>

  /** No key appears twice (what every Kotlin map guarantees). */
  predicate DistinctKeys<V>(m: LinkedMap<V>) {
    forall i, j :: 0 <= i < j < |m| ==> m[i].key != m[j].key
  }

  /** The `keys` view, in iteration order. */
  function Keys<V>(m: LinkedMap<V>): (ks: seq<string>)
    ensures |ks| == |m| && forall i :: 0 <= i < |m| ==> ks[i] == m[i].key
  {
    if m == [] then [] else [m[0].key] + Keys(m[1..])
  }

  /** The `values` view, in iteration order. */
  function Values<V>(m: LinkedMap<V>): (vs: seq<V>)
    ensures |vs| == |m| && forall i :: 0 <= i < |m| ==> vs[i] == m[i].value
  {
    if m == [] then [] else [m[0].value] + Values(m[1..])
  }

  /** `map[key]`: the value of the first entry under `k`, or `None` (Kotlin `null`). */
  function Get<V>(m: LinkedMap<V>, k: string): (r: Option<V>)
    ensures r.None? <==> k !in Keys(m)
    ensures r.Some? ==> exists i :: 0 <= i < |m| && m[i] == Entry(k, r.value)
  {
    if m == [] then None
    else if m[0].key == k then Some(m[0].value)
    else
      var r := Get(m[1..], k);
      assert forall i :: 1 <= i < |m| ==> m[i] == m[1..][i - 1];
      r
  }

  /** With distinct keys, the value found under a key is the one its entry stores. */
  lemma {:induction false} GetUnique<V>(m: LinkedMap<V>, i: nat)
    requires DistinctKeys(m) && i < |m|
    ensures Get(m, m[i].key) == Some(m[i].value)
  {
    if i > 0 {
      assert m[1..][i - 1] == m[i];
      GetUnique(m[1..], i - 1);
    }
  }

  /** `map[key] = value`. */
  function Put<V>(m: LinkedMap<V>, k: string, v: V): LinkedMap<V>
  {
    if m == [] then [Entry(k, v)]
    else if m[0].key == k then [Entry(k, v)] + m[1..]
    else [m[0]] + Put(m[1..], k, v)
  }

  /** `put` stores `v` under `k`, keeps every other key's value, and either keeps the key
      order (a key already present) or appends the key (a new one). */
  lemma PutSpec<V>(m: LinkedMap<V>, k: string, v: V)
    ensures Get(Put(m, k, v), k) == Some(v)
    ensures forall k' :: k' != k ==> Get(Put(m, k, v), k') == Get(m, k')
    ensures k in Keys(m) ==> Keys(Put(m, k, v)) == Keys(m)
    ensures k !in Keys(m) ==> Keys(Put(m, k, v)) == Keys(m) + [k]
  {
    PutValues(m, k, v);
    PutKeys(m, k, v);
  }

  lemma {:induction false} PutValues<V>(m: LinkedMap<V>, k: string, v: V)
    ensures Get(Put(m, k, v), k) == Some(v)
    ensures forall k' :: k' != k ==> Get(Put(m, k, v), k') == Get(m, k')
  {
    if m != [] && m[0].key != k {
      PutValues(m[1..], k, v);
      var r := Put(m, k, v);
      assert r[0] == m[0] && r[1..] == Put(m[1..], k, v);
    } else if m != [] {
      var r := Put(m, k, v);
      assert r[1..] == m[1..];
    }
  }

  lemma {:induction false} PutKeys<V>(m: LinkedMap<V>, k: string, v: V)
    ensures k in Keys(m) ==> Keys(Put(m, k, v)) == Keys(m)
    ensures k !in Keys(m) ==> Keys(Put(m, k, v)) == Keys(m) + [k]
  {
    if m != [] && m[0].key != k {
      PutKeys(m[1..], k, v);
      var r := Put(m, k, v);
      assert r == [m[0]] + Put(m[1..], k, v);
      assert r[1..] == Put(m[1..], k, v);
      assert Keys(m) == [m[0].key] + Keys(m[1..]);
      assert Keys(r) == [m[0].key] + Keys(r[1..]);
    } else if m != [] {
      var r := Put(m, k, v);
      assert r[1..] == m[1..];
      assert Keys(m) == [m[0].key] + Keys(m[1..]);
      assert Keys(r) == [k] + Keys(r[1..]);
    }
  }

  /** `put` keeps the keys distinct. */
  lemma PutDistinct<V>(m: LinkedMap<V>, k: string, v: V)
    requires DistinctKeys(m)
    ensures DistinctKeys(Put(m, k, v))
  {
    PutKeys(m, k, v);
    var r := Put(m, k, v);
    var ks, old_ks := Keys(r), Keys(m);
    forall i, j | 0 <= i < j < |r| ensures r[i].key != r[j].key {
      assert r[i].key == ks[i] && r[j].key == ks[j];
      if j < |m| {
        assert ks[i] == old_ks[i] && ks[j] == old_ks[j];
        assert old_ks[i] == m[i].key && old_ks[j] == m[j].key;
      } else {
        assert ks[j] == k && ks[i] == old_ks[i];
      }
    }
  }
}
