// Permutations of an array and of one of its ranges: the common vocabulary of the
// sorting modules.  All sorting here moves entries of a pointer array about, and the
// proofs need to know that nothing is lost and nothing outside the range moves.
module Perms {

  // s lists every number of 0..n-1 exactly once.
  ghost predicate IsPerm(s: seq<int>, n: nat) {
    && |s| == n
    && (forall k :: 0 <= k < n ==> 0 <= s[k] < n)
    && (forall i, j :: 0 <= i < j < n ==> s[i] != s[j])
  }

  // b is a with the range [lo, hi) rearranged.
  ghost predicate PermIn<T(!new)>(a: seq<T>, b: seq<T>, lo: int, hi: int) {
    && |a| == |b|
    && 0 <= lo <= hi <= |a|
    && (forall k :: 0 <= k < |a| && !(lo <= k < hi) ==> b[k] == a[k])
    && multiset(a[lo..hi]) == multiset(b[lo..hi])
  }

  lemma PermInTrans<T(!new)>(a: seq<T>, b: seq<T>, c: seq<T>, lo: int, hi: int)
    requires PermIn(a, b, lo, hi) && PermIn(b, c, lo, hi)
    ensures PermIn(a, c, lo, hi)
  {
  }

  lemma SplitRange<T>(a: seq<T>, l: int, lo: int, hi: int, h: int)
    requires 0 <= l <= lo <= hi <= h <= |a|
    ensures multiset(a[l..h]) == multiset(a[l..lo]) + multiset(a[lo..hi]) + multiset(a[hi..h])
  {
    assert a[l..h] == a[l..lo] + a[lo..hi] + a[hi..h];
  }

  lemma PermInWiden<T(!new)>(a: seq<T>, b: seq<T>, lo: int, hi: int, l: int, h: int)
    requires PermIn(a, b, lo, hi) && 0 <= l <= lo && hi <= h <= |a|
    ensures PermIn(a, b, l, h)
  {
    SplitRange(a, l, lo, hi, h);
    SplitRange(b, l, lo, hi, h);
    assert a[l..lo] == b[l..lo];
    assert a[hi..h] == b[hi..h];
  }

  lemma SwapMultiset<T>(r: seq<T>, x: nat, y: nat)
    requires x < |r| && y < |r|
    ensures multiset(r) == multiset(r[x := r[y]][y := r[x]])
  {
  }

  lemma PermInSwap<T(!new)>(a: seq<T>, i: int, j: int, lo: int, hi: int)
    requires 0 <= lo <= i < hi <= |a| && lo <= j < hi
    ensures PermIn(a, a[i := a[j]][j := a[i]], lo, hi)
  {
    var b := a[i := a[j]][j := a[i]];
    var r, x, y := a[lo..hi], i - lo, j - lo;
    assert b[lo..hi] == r[x := r[y]][y := r[x]];
    SwapMultiset(r, x, y);
  }

  // Where the entry now at k came from.
  lemma PermInFrom<T(!new)>(a: seq<T>, b: seq<T>, lo: int, hi: int, k: int) returns (j: int)
    requires PermIn(a, b, lo, hi) && lo <= k < hi
    ensures lo <= j < hi && a[j] == b[k]
  {
    assert b[k] in multiset(b[lo..hi]) by {
      assert b[lo..hi][k - lo] == b[k];
    }
    assert b[k] in a[lo..hi];
    var i :| 0 <= i < hi - lo && a[lo..hi][i] == b[k];
    j := lo + i;
  }

  lemma TwiceIn<T>(s: seq<T>, i: int, j: int)
    requires 0 <= i < j < |s| && s[i] == s[j]
    ensures multiset(s)[s[i]] >= 2
  {
    assert s == s[..i] + [s[i]] + s[i + 1..j] + [s[j]] + s[j + 1..];
  }

  lemma {:induction false} OnceIn<T(!new)>(s: seq<T>, v: T)
    requires forall i, j :: 0 <= i < j < |s| ==> s[i] != s[j]
    ensures multiset(s)[v] <= 1
  {
    if s != [] {
      var t := s[..|s| - 1];
      assert s == t + [s[|s| - 1]];
      OnceIn(t, v);
      assert v == s[|s| - 1] ==> v !in t;
    }
  }

  // Rearranging a permutation leaves a permutation.
  lemma IsPermKept(s: seq<int>, t: seq<int>, n: nat)
    requires IsPerm(s, n) && multiset(s) == multiset(t) && |t| == n
    ensures IsPerm(t, n)
  {
    forall k | 0 <= k < n ensures 0 <= t[k] < n {
      assert t[k] in multiset(t);
      assert t[k] in s;
    }
    forall i, j | 0 <= i < j < n ensures t[i] != t[j] {
      if t[i] == t[j] {
        TwiceIn(t, i, j);
        OnceIn(s, t[i]);
      }
    }
  }

  lemma IsPermKeptIn(s: seq<int>, t: seq<int>, n: nat, lo: int, hi: int)
    requires IsPerm(s, n) && PermIn(s, t, lo, hi)
    ensures IsPerm(t, n)
  {
    PermInWiden(s, t, lo, hi, 0, n);
    assert s[0..n] == s && t[0..n] == t;
    IsPermKept(s, t, n);
  }

  lemma PermInPrefix<T(!new)>(s: seq<T>, t: seq<T>, lo: int, hi: int, n: nat)
    requires PermIn(s, t, lo, hi) && hi <= n <= |s|
    ensures PermIn(s[..n], t[..n], lo, hi)
  {
    assert s[..n][lo..hi] == s[lo..hi];
    assert t[..n][lo..hi] == t[lo..hi];
  }
}
