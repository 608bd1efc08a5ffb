/** Order-preserving sub-sequences, witnessed by their positions. */
module Subsequences {

  /** `at` gives, for each element of `s`, its place in `t`; places increase. */
  ghost predicate Embeds<T>(at: seq<int>, s: seq<T>, t: seq<T>) {
    && |at| == |s|
    && (forall i, j :: 0 <= i < j < |at| ==> at[i] < at[j])
    && (forall i :: 0 <= i < |at| ==> 0 <= at[i] < |t| && t[at[i]] == s[i])
  }

  ghost predicate Subsequence<T>(s: seq<T>, t: seq<T>) {
    exists at :: Embeds(at, s, t)
  }

  lemma EmptySubsequence<T>(t: seq<T>)
    ensures Subsequence([], t)
  {
    assert Embeds([], [], t);
  }

  lemma BothGrow<T>(s: seq<T>, t: seq<T>, x: T)
    requires Subsequence(s, t)
    ensures Subsequence(s + [x], t + [x])
  {
    var at :| Embeds(at, s, t);
    assert Embeds(at + [|t|], s + [x], t + [x]);
  }

  /** Leaving out a stretch keeps a sub-sequence. */
  lemma CutOut<T>(a: seq<T>, b: seq<T>, c: seq<T>, t: seq<T>)
    requires Subsequence(a + (b + c), t)
    ensures Subsequence(a + c, t)
  {
    var s := a + (b + c);
    var at :| Embeds(at, s, t);
    var cut := at[..|a|] + at[|a| + |b|..];
    forall i | 0 <= i < |cut| ensures 0 <= cut[i] < |t| && t[cut[i]] == (a + c)[i] {
      var k := if i < |a| then i else i + |b|;
      assert cut[i] == at[k] && (a + c)[i] == s[k];
    }
    assert Embeds(cut, a + c, t);
  }

  /** A sub-sequence holds no element more often than the whole does. */
  lemma {:induction false} SubsequenceCounts<T>(s: seq<T>, t: seq<T>)
    requires Subsequence(s, t)
    ensures multiset(s) <= multiset(t) && |s| <= |t|
    decreases |s|
  {
    if s != [] {
      var at :| Embeds(at, s, t);
      var n := |s| - 1;
      var p := at[n];
      assert Embeds(at[..n], s[..n], t[..p]);
      SubsequenceCounts(s[..n], t[..p]);
      OneMoreCounts(s, t, n, p);
    }
  }

  lemma OneMoreCounts<T>(s: seq<T>, t: seq<T>, n: nat, p: nat)
    requires n + 1 == |s| && p < |t| && s[n] == t[p] && multiset(s[..n]) <= multiset(t[..p])
    ensures multiset(s) <= multiset(t)
  {
    assert s == s[..n] + [s[n]];
    assert t == t[..p] + [t[p]] + t[p + 1..];
    assert multiset(s) == multiset(s[..n]) + multiset{s[n]};
    assert multiset(t) == multiset(t[..p]) + multiset{t[p]} + multiset(t[p + 1..]);
  }
}
