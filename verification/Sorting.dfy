/** The stable sort the source gets from `sorted(..., key=...)`. */
module Sorting {

  /** A lexicographic sort key. */
  datatype Key = Key(major: int, minor: int)

  predicate KeyLeq(a: Key, b: Key) {
    a.major < b.major || (a.major == b.major && a.minor <= b.minor)
  }

  ghost predicate Ordered<T>(s: seq<T>, key: T -> Key) {
    forall i, j :: 0 <= i < j < |s| ==> KeyLeq(key(s[i]), key(s[j]))
  }

  /** Places `x` in front of the first element whose key is not smaller. */
  function Insert<T>(x: T, s: seq<T>, key: T -> Key): seq<T> {
    if s == [] || KeyLeq(key(x), key(s[0])) then [x] + s
    else [s[0]] + Insert(x, s[1..], key)
  }

  function Sort<T>(s: seq<T>, key: T -> Key): seq<T> {
    if s == [] then [] else Insert(s[0], Sort(s[1..], key), key)
  }

  lemma {:induction false} InsertKeeps<T>(x: T, s: seq<T>, key: T -> Key)
    ensures multiset(Insert(x, s, key)) == multiset(s) + multiset{x}
    ensures Ordered(s, key) ==> Ordered(Insert(x, s, key), key)
  {
    InsertAdds(x, s, key);
    if Ordered(s, key) {
      InsertOrders(x, s, key);
    }
  }

  lemma {:induction false} InsertAdds<T>(x: T, s: seq<T>, key: T -> Key)
    ensures multiset(Insert(x, s, key)) == multiset(s) + multiset{x}
  {
    if s != [] && !KeyLeq(key(x), key(s[0])) {
      InsertAdds(x, s[1..], key);
      assert s == [s[0]] + s[1..];
    }
  }

  lemma {:induction false} InsertOrders<T>(x: T, s: seq<T>, key: T -> Key)
    requires Ordered(s, key)
    ensures Ordered(Insert(x, s, key), key)
    ensures forall y :: y in Insert(x, s, key) ==> y == x || y in s
  {
    if s == [] || KeyLeq(key(x), key(s[0])) {
      OrderedCons(x, s, key);
    } else {
      InsertOrders(x, s[1..], key);
      assert forall y :: y in s[1..] ==> y in s && KeyLeq(key(s[0]), key(y));
      OrderedCons(s[0], Insert(x, s[1..], key), key);
    }
  }

  lemma OrderedCons<T>(x: T, s: seq<T>, key: T -> Key)
    requires Ordered(s, key) && forall y :: y in s ==> KeyLeq(key(x), key(y))
    ensures Ordered([x] + s, key)
  {
    var all := [x] + s;
    forall i, j | 0 <= i < j < |all| ensures KeyLeq(key(all[i]), key(all[j])) {
      assert all[j] == s[j - 1] && s[j - 1] in s;
    }
  }

  lemma {:induction false} SortKeeps<T>(s: seq<T>, key: T -> Key)
    ensures multiset(Sort(s, key)) == multiset(s)
    ensures Ordered(Sort(s, key), key)
  {
    if s == [] {
    } else {
      SortKeeps(s[1..], key);
      InsertKeeps(s[0], Sort(s[1..], key), key);
      assert s == [s[0]] + s[1..];
    }
  }

  /** Membership is all most callers need of the permutation. */
  lemma SameMembers<T>(s: seq<T>, key: T -> Key, x: T)
    ensures x in Sort(s, key) <==> x in s
    ensures |Sort(s, key)| == |s|
  {
    SortKeeps(s, key);
    assert x in Sort(s, key) <==> x in multiset(Sort(s, key));
    assert |multiset(Sort(s, key))| == |multiset(s)|;
  }
}
