/** Dictionaries that remember insertion order: the oldest entry comes first. The
    caches that evict their oldest or least recently used entry, and the table of
    refresh generations, are kept this way; removing a key and putting it back makes
    it the newest. */
module OrderedEntries {
  import opened Wrappers

  datatype Entry<K, V> = Entry(key: K, value: V)

  function Keys<K, V>(d: seq<Entry<K, V>>): set<K> {
    if d == [] then {} else Keys(d[..|d| - 1]) + {d[|d| - 1].key}
  }

  function Get<K(==), V>(d: seq<Entry<K, V>>, key: K): Option<V> {
    if d == [] then None
    else if d[|d| - 1].key == key then Some(d[|d| - 1].value)
    else Get(d[..|d| - 1], key)
  }

  /** No key twice. */
  predicate Distinct<K(==), V>(d: seq<Entry<K, V>>) {
    d == [] || (Distinct(d[..|d| - 1]) && d[|d| - 1].key !in Keys(d[..|d| - 1]))
  }

  function Without<K(==), V>(d: seq<Entry<K, V>>, key: K): seq<Entry<K, V>> {
    if d == [] then []
    else if d[|d| - 1].key == key then Without(d[..|d| - 1], key)
    else Without(d[..|d| - 1], key) + [d[|d| - 1]]
  }

  /** Removes the key and puts it back as the newest entry. */
  function Renewed<K(==), V>(d: seq<Entry<K, V>>, key: K, value: V): seq<Entry<K, V>> {
    Without(d, key) + [Entry(key, value)]
  }

  function Newest<K, V>(d: seq<Entry<K, V>>, limit: nat): seq<Entry<K, V>> {
    if |d| > limit then d[|d| - limit..] else d
  }

  lemma {:induction false} GetSome<K, V>(d: seq<Entry<K, V>>, key: K)
    ensures Get(d, key).Some? <==> key in Keys(d)
  {
    if d != [] {
      GetSome(d[..|d| - 1], key);
    }
  }

  lemma {:induction false} WithoutGet<K, V>(d: seq<Entry<K, V>>, key: K, other: K)
    ensures Get(Without(d, key), other) == if other == key then None else Get(d, other)
  {
    if d != [] {
      WithoutGet(d[..|d| - 1], key, other);
      var rest := Without(d[..|d| - 1], key);
      assert (rest + [d[|d| - 1]])[..|rest|] == rest;
    }
  }

  lemma {:induction false} WithoutKeys<K, V>(d: seq<Entry<K, V>>, key: K)
    ensures Keys(Without(d, key)) == Keys(d) - {key}
    ensures |Without(d, key)| <= |d|
    ensures Distinct(d) ==> Distinct(Without(d, key))
  {
    if d != [] {
      WithoutKeys(d[..|d| - 1], key);
      var rest := Without(d[..|d| - 1], key);
      assert (rest + [d[|d| - 1]])[..|rest|] == rest;
    }
  }

  lemma RenewedGet<K, V>(d: seq<Entry<K, V>>, key: K, value: V, other: K)
    ensures Get(Renewed(d, key, value), other) == if other == key then Some(value) else Get(d, other)
  {
    WithoutGet(d, key, other);
    assert Renewed(d, key, value)[..|Without(d, key)|] == Without(d, key);
  }

  lemma RenewedKeys<K, V>(d: seq<Entry<K, V>>, key: K, value: V)
    ensures Keys(Renewed(d, key, value)) == Keys(d) + {key}
    ensures |Renewed(d, key, value)| <= |d| + 1
    ensures Distinct(d) ==> Distinct(Renewed(d, key, value))
  {
    WithoutKeys(d, key);
    assert Renewed(d, key, value)[..|Without(d, key)|] == Without(d, key);
  }

  /** Dropping the oldest entry. */
  lemma {:induction false} TailGet<K, V>(d: seq<Entry<K, V>>, key: K)
    requires Distinct(d) && d != []
    ensures Distinct(d[1..]) && Keys(d) == {d[0].key} + Keys(d[1..]) && d[0].key !in Keys(d[1..])
    ensures Get(d[1..], key) == if key == d[0].key then None else Get(d, key)
    ensures Get(d, d[0].key) == Some(d[0].value)
  {
    var n := |d| - 1;
    if n > 0 {
      TailGet(d[..n], key);
      assert d[1..][..n - 1] == d[..n][1..];
    } else {
      assert d[..n] == [] && d[1..] == [];
    }
  }

  lemma {:induction false} ConsDistinct<K, V>(e: Entry<K, V>, d: seq<Entry<K, V>>)
    requires Distinct(d) && e.key !in Keys(d)
    ensures Distinct([e] + d)
  {
    var n := |d| - 1;
    if d == [] {
      assert [e] + d == [e] && [e][..0] == [];
    } else {
      ConsDistinct(e, d[..n]);
      assert ([e] + d)[..|d|] == [e] + d[..n];
      TailGet([e] + d[..n], e.key);
      assert ([e] + d[..n])[1..] == d[..n];
    }
  }

  lemma {:induction false} NewestGet<K, V>(d: seq<Entry<K, V>>, limit: nat, key: K)
    requires Distinct(d)
    ensures Distinct(Newest(d, limit)) && Keys(Newest(d, limit)) <= Keys(d)
    ensures Get(Newest(d, limit), key).Some? ==> Get(Newest(d, limit), key) == Get(d, key)
    decreases |d|
  {
    if |d| > limit {
      TailGet(d, key);
      NewestGet(d[1..], limit, key);
      assert Newest(d, limit) == Newest(d[1..], limit);
      GetSome(d[1..], key);
    }
  }

  /** Distinct entries are as many as their keys. */
  lemma {:induction false} CountKeys<K, V>(d: seq<Entry<K, V>>)
    requires Distinct(d)
    ensures |Keys(d)| == |d|
  {
    if d != [] {
      CountKeys(d[..|d| - 1]);
    }
  }

  lemma {:induction false} EntryOf<K, V>(d: seq<Entry<K, V>>, key: K)
    requires key in Keys(d)
    ensures exists i :: 0 <= i < |d| && d[i].key == key
  {
    if d[|d| - 1].key != key {
      EntryOf(d[..|d| - 1], key);
      var i :| 0 <= i < |d| - 1 && d[..|d| - 1][i].key == key;
      assert d[i].key == key;
    }
  }
}
