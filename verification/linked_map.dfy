/**
  The insertion-ordered map `java.util.LinkedHashMap`, as the sequence of its entries
  in iteration order. `put` of a new key appends it; `put` of a key already present
  overwrites its value where it stands.
 */
module LinkedMap {
  import opened Wrappers

  /** No key occurs twice, as in every Java map. */
  ghost predicate UniqueKeys<K, V>(m: seq<(K, V)>) {
    forall i, j :: 0 <= i < j < |m| ==> m[i].0 != m[j].0
  }

  /** The keys in iteration order (`keySet()`). */
  function Keys<K, V>(m: seq<(K, V)>): (ks: seq<K>)
    ensures |ks| == |m|
    ensures forall i :: 0 <= i < |m| ==> ks[i] == m[i].0
  {
    seq(|m|, i requires 0 <= i < |m| => m[i].0)
  }

  /** The values in iteration order (`values()`). */
  function Values<K, V>(m: seq<(K, V)>): (vs: seq<V>)
    ensures |vs| == |m|
    ensures forall i :: 0 <= i < |m| ==> vs[i] == m[i].1
  {
    seq(|m|, i requires 0 <= i < |m| => m[i].1)
  }

  /** The position of the first entry for `k`, or `|m|` when there is none. */
  function IndexOf<K(==), V>(m: seq<(K, V)>, k: K): (i: nat)
    ensures i <= |m|
    ensures i < |m| ==> m[i].0 == k
    ensures forall j :: 0 <= j < i ==> m[j].0 != k
  {
    if |m| == 0 then 0
    else if m[0].0 == k then 0
    else 1 + IndexOf(m[1..], k)
  }

  /** `containsKey(k)`. */
  predicate ContainsKey<K(==), V>(m: seq<(K, V)>, k: K) {
    IndexOf(m, k) < |m|
  }

  /** `get(k)`: the value of the entry for `k`, `None` when there is none. */
  function Get<K(==), V>(m: seq<(K, V)>, k: K): (r: Option<V>)
    ensures r.Some? <==> ContainsKey(m, k)
  {
    var i := IndexOf(m, k);
    if i < |m| then Some(m[i].1) else None
  }

  /** `put(k, v)`: overwrite the entry for `k` in place, or append a new last entry. */
  function Put<K(==), V>(m: seq<(K, V)>, k: K, v: V): (r: seq<(K, V)>)
    ensures IndexOf(m, k) < |m| ==>
      && |r| == |m|
      && r[IndexOf(m, k)] == (k, v)
      && forall j :: 0 <= j < |m| && j != IndexOf(m, k) ==> r[j] == m[j]
    ensures IndexOf(m, k) == |m| ==> r == m + [(k, v)]
  {
    var i := IndexOf(m, k);
    if i < |m| then m[i := (k, v)] else m + [(k, v)]
  }

  /** `put` keeps the keys distinct. */
  lemma PutKeepsKeysUnique<K, V>(m: seq<(K, V)>, k: K, v: V)
    requires UniqueKeys(m)
    ensures UniqueKeys(Put(m, k, v))
  {
    var r := Put(m, k, v);
    if IndexOf(m, k) == |m| {
      forall i, j | 0 <= i < j < |r| ensures r[i].0 != r[j].0 {
        if j == |m| {
          assert r[i] == m[i];
        }
      }
    } else {
      assert forall j :: 0 <= j < |m| ==> r[j].0 == m[j].0;
    }
  }

  /** `IndexOf` is determined by where `k` first occurs. */
  lemma IndexOfAt<K, V>(m: seq<(K, V)>, k: K, i: nat)
    requires i <= |m|
    requires i < |m| ==> m[i].0 == k
    requires forall j :: 0 <= j < i ==> m[j].0 != k
    ensures IndexOf(m, k) == i
  {
  }

  /** After `put(k, v)`, `get(k)` is `v` and every other key reads as before. */
  lemma GetPut<K, V>(m: seq<(K, V)>, k: K, v: V, k': K)
    ensures Get(Put(m, k, v), k) == Some(v)
    ensures k' != k ==> Get(Put(m, k, v), k') == Get(m, k')
  {
    var r := Put(m, k, v);
    var i := IndexOf(m, k);
    IndexOfAt(r, k, i);
    if k' != k {
      var i' := IndexOf(m, k');
      if i' < |m| {
        IndexOfAt(r, k', i');
      } else {
        IndexOfAt(r, k', |r|);
      }
    }
  }

  /** `put` keeps the key order, appending `k` only when it is new. */
  lemma KeysPut<K, V>(m: seq<(K, V)>, k: K, v: V)
    ensures ContainsKey(m, k) ==> Keys(Put(m, k, v)) == Keys(m)
    ensures !ContainsKey(m, k) ==> Keys(Put(m, k, v)) == Keys(m) + [k]
  {
    var r := Put(m, k, v);
    if ContainsKey(m, k) {
      assert forall j :: 0 <= j < |m| ==> Keys(r)[j] == Keys(m)[j];
    } else {
      assert forall j :: 0 <= j < |r| ==> Keys(r)[j] == (Keys(m) + [k])[j];
    }
  }

  /** `putAll(src)`: `put` every entry of `src`, in the order of `src`. */
  function PutAll<K(==), V>(m: seq<(K, V)>, src: seq<(K, V)>): (r: seq<(K, V)>)
    ensures |m| <= |r|
    ensures forall i :: 0 <= i < |m| ==> r[i].0 == m[i].0
    ensures UniqueKeys(m) ==> UniqueKeys(r)
    decreases |src|
  {
    if |src| == 0 then m
    else
      var m' := Put(m, src[0].0, src[0].1);
      assert UniqueKeys(m) ==> UniqueKeys(m') by {
        if UniqueKeys(m) {
          PutKeepsKeysUnique(m, src[0].0, src[0].1);
        }
      }
      PutAll(m', src[1..])
  }

  /** The value of the last entry for `k` in `src`: the one that wins in a `putAll`. */
  function LastGet<K(==), V>(src: seq<(K, V)>, k: K): Option<V>
  {
    if |src| == 0 then None
    else if src[|src| - 1].0 == k then Some(src[|src| - 1].1)
    else LastGet(src[..|src| - 1], k)
  }

  /** A `putAll` of `a` followed by the entry `e` is one `put` after the `putAll` of `a`. */
  lemma {:induction false} PutAllSnoc<K, V>(m: seq<(K, V)>, a: seq<(K, V)>, e: (K, V))
    ensures PutAll(m, a + [e]) == Put(PutAll(m, a), e.0, e.1)
    decreases |a|
  {
    if |a| == 0 {
      assert (a + [e])[1..] == [];
    } else {
      assert (a + [e])[0] == a[0];
      assert (a + [e])[1..] == a[1..] + [e];
      PutAllSnoc(Put(m, a[0].0, a[0].1), a[1..], e);
    }
  }

  /**
    After `putAll(src)`, a key of `src` reads as its last value in `src`, and any
    other key reads as it did before.
   */
  lemma {:induction false} GetPutAll<K, V>(m: seq<(K, V)>, src: seq<(K, V)>, k: K)
    ensures Get(PutAll(m, src), k) == (if LastGet(src, k).Some? then LastGet(src, k) else Get(m, k))
    decreases |src|
  {
    if |src| != 0 {
      var n := |src| - 1;
      var e := src[n];
      assert src == src[..n] + [e];
      PutAllSnoc(m, src[..n], e);
      GetPut(PutAll(m, src[..n]), e.0, e.1, k);
      GetPutAll(m, src[..n], k);
    }
  }

  /** Copying a map with distinct keys into an empty LinkedHashMap keeps its entries and their order. */
  lemma {:induction false} PutAllCopies<K, V>(src: seq<(K, V)>)
    requires UniqueKeys(src)
    ensures PutAll([], src) == src
    decreases |src|
  {
    if |src| != 0 {
      var n := |src| - 1;
      var e := src[n];
      assert src == src[..n] + [e];
      PutAllSnoc([], src[..n], e);
      PutAllCopies(src[..n]);
      assert IndexOf(src[..n], e.0) == n;
    }
  }
}
