/**
  A Python `dict` whose iteration order matters: a sequence of (key, value)
  pairs in insertion order, each key once. Assigning to a present key keeps
  its position; assigning to a new key appends it.
 */
module Dict {
  import opened Wrappers

  function Keys<K, V>(d: seq<(K, V)>): (r: seq<K>)
    ensures |r| == |d| && forall i :: 0 <= i < |d| ==> r[i] == d[i].0
  {
    seq(|d|, i requires 0 <= i < |d| => d[i].0)
  }

  predicate DistinctKeys<K(==), V>(d: seq<(K, V)>) {
    forall i, j :: 0 <= i < j < |d| ==> d[i].0 != d[j].0
  }

  /** Position of the first pair whose key is `k`. */
  function KeyIndex<K(==), V>(d: seq<(K, V)>, k: K): (r: Option<nat>)
    ensures r.Some? ==> r.value < |d| && d[r.value].0 == k
    ensures r.Some? ==> forall j :: 0 <= j < r.value ==> d[j].0 != k
    ensures r.None? ==> forall j :: 0 <= j < |d| ==> d[j].0 != k
  {
    if d == [] then None
    else if d[0].0 == k then Some(0)
    else match KeyIndex(d[1..], k)
      case None => None
      case Some(i) => Some(i + 1)
  }

  /** `d.get(k)`. */
  function Get<K(==), V>(d: seq<(K, V)>, k: K): (r: Option<V>)
    ensures r.None? <==> k !in Keys(d)
    ensures r.Some? ==> (k, r.value) in d
  {
    match KeyIndex(d, k)
    case None => None
    case Some(i) => Some(d[i].1)
  }

  /** In a dictionary whose keys are distinct, a present pair is what `get` finds. */
  lemma GetPair<K, V>(d: seq<(K, V)>, k: K, v: V)
    requires DistinctKeys(d) && (k, v) in d
    ensures Get(d, k) == Some(v)
  {
    var i :| 0 <= i < |d| && d[i] == (k, v);
    var j := KeyIndex(d, k).value;
    assert i == j;
  }

  /**
    `d[k] = v`: `k` now maps to `v`, every other key keeps its value, a present
    key keeps its position and a new key goes last.
   */
  function Put<K(==,!new), V>(d: seq<(K, V)>, k: K, v: V): (r: seq<(K, V)>)
    ensures Keys(r) == if k in Keys(d) then Keys(d) else Keys(d) + [k]
    ensures Get(r, k) == Some(v)
    ensures forall k' :: k' != k ==> Get(r, k') == Get(d, k')
    ensures DistinctKeys(d) ==> DistinctKeys(r)
  {
    match KeyIndex(d, k)
    case Some(i) =>
      var r := d[i := (k, v)];
      KeyIndexAt(r, k, i);
      assert forall k' :: k' != k ==> KeyIndex(r, k') == KeyIndex(d, k') by {
        forall k' | k' != k ensures KeyIndex(r, k') == KeyIndex(d, k') {
          KeyIndexPointwise(d, r, k');
        }
      }
      r
    case None =>
      var r := d + [(k, v)];
      KeyIndexAt(r, k, |d|);
      assert forall k' :: k' != k ==> KeyIndex(r, k') == KeyIndex(d, k') by {
        forall k' | k' != k ensures KeyIndex(r, k') == KeyIndex(d, k') {
          KeyIndexPointwise(d, r, k');
        }
      }
      r
  }

  /**
    Two dictionaries that agree, pair by pair, on every pair whose key is or
    is not `k`, and whose extra pairs do not have key `k`, place `k` alike.
   */
  lemma KeyIndexPointwise<K, V>(d: seq<(K, V)>, r: seq<(K, V)>, k: K)
    requires |d| <= |r|
    requires forall j :: 0 <= j < |d| ==> (d[j].0 == k <==> r[j].0 == k) && (d[j].0 == k ==> d[j] == r[j])
    requires forall j :: |d| <= j < |r| ==> r[j].0 != k
    ensures KeyIndex(r, k) == KeyIndex(d, k)
  {
    match KeyIndex(d, k)
    case Some(i) => KeyIndexAt(r, k, i);
    case None =>
  }

  /** The first position holding key `k` is the one `KeyIndex` finds. */
  lemma KeyIndexAt<K, V>(d: seq<(K, V)>, k: K, i: nat)
    requires i < |d| && d[i].0 == k
    requires forall j :: 0 <= j < i ==> d[j].0 != k
    ensures KeyIndex(d, k) == Some(i)
  {
    var a := KeyIndex(d, k);
    assert a.value <= i;
  }

  /** `{k: v for k in ks}`. */
  function FromKeys<K(==,!new), V>(ks: seq<K>, v: V): (r: seq<(K, V)>)
    ensures DistinctKeys(r)
  {
    if ks == [] then [] else Put(FromKeys(ks[..|ks| - 1], v), ks[|ks| - 1], v)
  }

  /** Every listed key maps to `v`, and no other key is present. */
  lemma {:induction false} FromKeysGet<K(!new), V>(ks: seq<K>, v: V, k: K)
    ensures Get(FromKeys(ks, v), k) == if k in ks then Some(v) else None
  {
    if ks != [] {
      var init := ks[..|ks| - 1];
      var last := ks[|ks| - 1];
      assert ks == init + [last];
      if k != last {
        FromKeysGet(init, v, k);
        assert Get(FromKeys(ks, v), k) == Get(FromKeys(init, v), k);
      }
    }
  }

  /** Every pair of `{k: v for k in ks}` holds `v`. */
  lemma FromKeysValues<K(!new), V>(ks: seq<K>, v: V)
    ensures forall i :: 0 <= i < |FromKeys(ks, v)| ==> FromKeys(ks, v)[i].1 == v
  {
    var d := FromKeys(ks, v);
    forall i | 0 <= i < |d| ensures d[i].1 == v {
      assert d[i] in d;
      GetPair(d, d[i].0, d[i].1);
      FromKeysGet(ks, v, d[i].0);
    }
  }
}
