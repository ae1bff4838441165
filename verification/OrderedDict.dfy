/** Python dictionaries whose iteration order matters: pairs in insertion order,
    one per key; assigning to a present key keeps its place. */
module OrderedDict {
  import opened Options

  type Dict<K(==), V> = seq<(K, V)>

  ghost predicate Distinct<K, V>(d: Dict<K, V>) {
    forall i, j :: 0 <= i < j < |d| ==> d[i].0 != d[j].0
  }

  function Find<K(==), V>(d: Dict<K, V>, k: K): Option<V> {
    if d == [] then None
    else if d[|d| - 1].0 == k then Some(d[|d| - 1].1)
    else Find(d[..|d| - 1], k)
  }

  function Put<K(==), V>(d: Dict<K, V>, k: K, v: V): (r: Dict<K, V>) {
    if d == [] then [(k, v)]
    else if d[|d| - 1].0 == k then d[..|d| - 1] + [(k, v)]
    else if Find(d[..|d| - 1], k).Some? then Put(d[..|d| - 1], k, v) + [d[|d| - 1]]
    else d + [(k, v)]
  }

  lemma {:induction false} FindAt<K, V>(d: Dict<K, V>, i: nat)
    requires Distinct(d) && i < |d|
    ensures Find(d, d[i].0) == Some(d[i].1)
  {
    if i < |d| - 1 {
      FindAt(d[..|d| - 1], i);
    }
  }

  lemma {:induction false} FindSome<K, V>(d: Dict<K, V>, k: K)
    ensures Find(d, k).Some? ==> exists i :: 0 <= i < |d| && d[i] == (k, Find(d, k).value)
  {
    if d != [] && d[|d| - 1].0 != k {
      FindSome(d[..|d| - 1], k);
    }
  }

  lemma {:induction false} FindNone<K, V>(d: Dict<K, V>, k: K)
    ensures Find(d, k).None? <==> forall i :: 0 <= i < |d| ==> d[i].0 != k
  {
    if d != [] && d[|d| - 1].0 != k {
      FindNone(d[..|d| - 1], k);
    }
  }

  lemma FindSnoc<K, V>(d: Dict<K, V>, k: K, v: V, j: K)
    ensures Find(d + [(k, v)], j) == if j == k then Some(v) else Find(d, j)
  {
    assert (d + [(k, v)])[..|d|] == d;
  }

  lemma {:induction false} PutFind<K, V>(d: Dict<K, V>, k: K, v: V, j: K)
    ensures Find(Put(d, k, v), j) == if j == k then Some(v) else Find(d, j)
  {
    if d == [] {
      FindSnoc<K, V>([], k, v, j);
    } else if d[|d| - 1].0 == k {
      FindSnoc(d[..|d| - 1], k, v, j);
    } else if Find(d[..|d| - 1], k).Some? {
      PutFind(d[..|d| - 1], k, v, j);
      FindSnoc(Put(d[..|d| - 1], k, v), d[|d| - 1].0, d[|d| - 1].1, j);
    } else {
      FindSnoc(d, k, v, j);
    }
  }

  /** The keys keep their places; a new key goes to the end. */
  lemma {:induction false} PutKeys<K, V>(d: Dict<K, V>, k: K, v: V)
    ensures var r := Put(d, k, v);
            && |r| == (if Find(d, k).Some? then |d| else |d| + 1)
            && (forall i :: 0 <= i < |d| ==> r[i].0 == d[i].0)
            && (Find(d, k).None? ==> r == d + [(k, v)])
  {
    if d != [] && d[|d| - 1].0 != k {
      PutKeys(d[..|d| - 1], k, v);
    }
  }

  lemma PutDistinct<K, V>(d: Dict<K, V>, k: K, v: V)
    requires Distinct(d)
    ensures Distinct(Put(d, k, v))
  {
    PutKeys(d, k, v);
    FindNone(d, k);
  }

  /** Writing back what is there changes nothing. */
  lemma {:induction false} PutSame<K, V>(d: Dict<K, V>, k: K, v: V)
    requires Find(d, k) == Some(v)
    ensures Put(d, k, v) == d
  {
    if d[|d| - 1].0 != k {
      PutSame(d[..|d| - 1], k, v);
    } else {
      assert d == d[..|d| - 1] + [d[|d| - 1]];
    }
  }

  /** `pop(k, None)`. */
  function Remove<K(==), V>(d: Dict<K, V>, k: K): Dict<K, V> {
    if d == [] then []
    else if d[|d| - 1].0 == k then d[..|d| - 1]
    else Remove(d[..|d| - 1], k) + [d[|d| - 1]]
  }

  lemma {:induction false} RemoveAt<K, V>(d: Dict<K, V>, i: nat)
    requires Distinct(d) && i < |d|
    ensures Remove(d, d[i].0) == d[..i] + d[i + 1..]
  {
    if i < |d| - 1 {
      RemoveAt(d[..|d| - 1], i);
      assert d[..|d| - 1][..i] == d[..i] && d[..|d| - 1][i + 1..] + [d[|d| - 1]] == d[i + 1..];
    }
  }

  function Values<K, V>(d: Dict<K, V>): (vs: seq<V>)
    ensures |vs| == |d| && forall i :: 0 <= i < |d| ==> vs[i] == d[i].1
  {
    seq(|d|, i requires 0 <= i < |d| => d[i].1)
  }
}
