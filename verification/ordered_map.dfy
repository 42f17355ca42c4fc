/** A Python `dict` as an insertion-ordered list of entries: assigning to a
    present key updates its entry in place, assigning to a new key appends. */
module OrderedMap {
  import opened Results

  /** Position of the first entry for `k`, or `|m|` when there is none. */
  function KeyIndex<K(==), V>(m: seq<(K, V)>, k: K): (i: nat)
    ensures i <= |m|
    ensures forall j :: 0 <= j < i ==> m[j].0 != k
    ensures i < |m| ==> m[i].0 == k
  {
    if |m| == 0 || m[0].0 == k then 0 else 1 + KeyIndex(m[1..], k)
  }

  /** No key has two entries. */
  predicate DistinctKeys<K(==), V>(m: seq<(K, V)>) {
    forall i, j :: 0 <= i < j < |m| ==> m[i].0 != m[j].0
  }

  /** `d.get(k)`. */
  function Get<K(==), V>(m: seq<(K, V)>, k: K): Option<V> {
    var i := KeyIndex(m, k);
    if i < |m| then Some(m[i].1) else None
  }

  /** `d[k] = v`. */
  function Put<K(==), V>(m: seq<(K, V)>, k: K, v: V): seq<(K, V)> {
    var i := KeyIndex(m, k);
    if i < |m| then m[i := (k, v)] else m + [(k, v)]
  }

  /** The value of the entry inserted first: `next(iter(d.values()))`. */
  function FirstValue<K, V>(m: seq<(K, V)>): Option<V> {
    if |m| == 0 then None else Some(m[0].1)
  }

  /** The first entry for `k` is wherever no earlier entry has key `k`. */
  lemma {:induction false} KeyIndexIs<K, V>(m: seq<(K, V)>, k: K, i: nat)
    requires i <= |m|
    requires forall j :: 0 <= j < i ==> m[j].0 != k
    requires i < |m| ==> m[i].0 == k
    ensures KeyIndex(m, k) == i
    decreases |m|
  {
    if |m| > 0 && m[0].0 != k {
      KeyIndexIs(m[1..], k, i - 1);
    }
  }

  /** After `d[k] = v`, `k` reads `v` and every other key reads what it read before. */
  lemma {:induction false} GetPut<K, V>(m: seq<(K, V)>, k: K, v: V, k': K)
    ensures Get(Put(m, k, v), k') == if k' == k then Some(v) else Get(m, k')
  {
    var r := Put(m, k, v);
    var i := KeyIndex(m, k);
    var i' := KeyIndex(m, k');
    if k' != k {
      if i' < |m| {
        assert r[i'] == m[i'];
        KeyIndexIs(r, k', i');
      } else {
        KeyIndexIs(r, k', |r|);
      }
    } else {
      KeyIndexIs(r, k, i);
    }
  }

  /** Assignment keeps keys distinct, keeps the first entry's key first, and
      grows the dict by one entry exactly when the key is new. */
  lemma {:induction false} PutShape<K, V>(m: seq<(K, V)>, k: K, v: V)
    requires DistinctKeys(m)
    ensures DistinctKeys(Put(m, k, v))
    ensures |m| > 0 ==> Put(m, k, v)[0].0 == m[0].0
    ensures |Put(m, k, v)| == if Get(m, k).Some? then |m| else |m| + 1
  {
  }
}
