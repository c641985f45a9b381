/**
  Python dictionaries preserve insertion order, and the code iterates over them
  in that order. A dictionary is modelled as a sequence of (key, value) pairs
  whose keys are pairwise distinct.
 */
module Dicts {
  import opened Wrappers

  /** The key at position `i`. */
  function KeyAt<K, V>(d: seq<(K, V)>, i: nat): K
    requires i < |d|
  {
    d[i].0
  }

  /** No key occurs twice. The quantifier fires only on `KeyAt` terms, so a
      proof that needs distinctness names the positions it compares. */
  predicate DistinctKeys<K(==), V>(d: seq<(K, V)>) {
    forall i, j {:trigger KeyAt(d, i), KeyAt(d, j)} :: 0 <= i < j < |d| ==> KeyAt(d, i) != KeyAt(d, j)
  }

  /** An insertion-ordered dictionary. */
  type Dict<K(==), V> = d: seq<(K, V)> | DistinctKeys(d) witness []

  /** Two positions of a dictionary hold different keys. */
  lemma DistinctKeysAt<K, V>(d: seq<(K, V)>, i: nat, j: nat)
    requires DistinctKeys(d) && i < |d| && j < |d| && i != j
    ensures d[i].0 != d[j].0
  {
    if i < j {
      assert KeyAt(d, i) != KeyAt(d, j);
    } else {
      assert KeyAt(d, j) != KeyAt(d, i);
    }
  }

  /** A prefix of a dictionary is a dictionary. */
  lemma DistinctKeysPrefix<K, V>(d: seq<(K, V)>, n: nat)
    requires DistinctKeys(d) && n <= |d|
    ensures DistinctKeys(d[..n])
  {
    forall i, j | 0 <= i < j < n ensures KeyAt(d[..n], i) != KeyAt(d[..n], j) {
      DistinctKeysAt(d, i, j);
    }
  }

  /** The last key of a dictionary is not among the earlier ones. */
  lemma LastKeyFresh<K, V>(d: seq<(K, V)>)
    requires DistinctKeys(d) && d != []
    ensures d[|d| - 1].0 !in KeysOf(d[..|d| - 1])
  {
    var init := d[..|d| - 1];
    if d[|d| - 1].0 in KeysOf(init) {
      var i :| 0 <= i < |init| && KeysOf(init)[i] == d[|d| - 1].0;
      DistinctKeysAt(d, i, |d| - 1);
    }
  }

  /** The keys, in insertion order (Python's `d.keys()`). */
  function KeysOf<K, V>(d: seq<(K, V)>): (ks: seq<K>)
    ensures |ks| == |d|
    ensures forall i :: 0 <= i < |d| ==> ks[i] == d[i].0
  {
    seq(|d|, i requires 0 <= i < |d| => d[i].0)
  }

  /** Position of key `k`, if it is present. */
  function IndexOf<K(==), V>(d: seq<(K, V)>, k: K): (r: Option<nat>)
    ensures r.Some? ==> r.value < |d| && d[r.value].0 == k
    ensures r.None? ==> k !in KeysOf(d)
    decreases |d|
  {
    if |d| == 0 then None
    else if d[|d| - 1].0 == k then Some(|d| - 1)
    else IndexOf(d[..|d| - 1], k)
  }

  /** Lookup: `d.get(k)`. */
  function Get<K(==), V>(d: Dict<K, V>, k: K): (r: Option<V>)
    ensures r.Some? <==> k in KeysOf(d)
    ensures forall i :: 0 <= i < |d| && d[i].0 == k ==> r == Some(d[i].1)
  {
    match IndexOf(d, k)
    case Some(i) =>
      assert forall j :: 0 <= j < |d| && d[j].0 == k ==> j == i by {
        forall j | 0 <= j < |d| && d[j].0 == k ensures j == i {
          if j != i { DistinctKeysAt(d, i, j); }
        }
      }
      Some(d[i].1)
    case None => None
  }

  /** Assignment `d[k] = v`: an existing key keeps its position and takes the new
      value; a new key goes at the end. */
  function Put<K(==), V>(d: Dict<K, V>, k: K, v: V): Dict<K, V> {
    match IndexOf(d, k)
    case Some(i) =>
      var r := d[i := (k, v)];
      assert DistinctKeys(r) by {
        forall a, b | 0 <= a < b < |r| ensures KeyAt(r, a) != KeyAt(r, b) {
          DistinctKeysAt(d, a, b);
        }
      }
      r
    case None =>
      var r := d + [(k, v)];
      assert DistinctKeys(r) by {
        forall a, b | 0 <= a < b < |r| ensures KeyAt(r, a) != KeyAt(r, b) {
          if b < |d| {
            DistinctKeysAt(d, a, b);
          } else {
            assert KeysOf(d)[a] == d[a].0;
          }
        }
      }
      r
  }

  /** What assignment does: an existing key keeps its place, a new key is
      appended, `k` now maps to `v`, and every other position is untouched. */
  lemma PutSpec<K, V>(d: Dict<K, V>, k: K, v: V)
    ensures k in KeysOf(d) ==> KeysOf(Put(d, k, v)) == KeysOf(d)
    ensures k !in KeysOf(d) ==> KeysOf(Put(d, k, v)) == KeysOf(d) + [k] && Put(d, k, v) == d + [(k, v)]
    ensures Get(Put(d, k, v), k) == Some(v)
    ensures forall i :: 0 <= i < |d| && d[i].0 != k ==> Put(d, k, v)[i] == d[i]
  {
  }

  /** Assigning one key leaves every other key's lookup as it was. */
  lemma PutOther<K, V>(d: Dict<K, V>, k: K, v: V, k': K)
    requires k' != k
    ensures Get(Put(d, k, v), k') == Get(d, k')
  {
    PutSpec(d, k, v);
    if k' in KeysOf(d) {
      var i := IndexOf(d, k').value;
      assert Put(d, k, v)[i] == d[i];
    }
  }
}
