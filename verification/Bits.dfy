// Bit strings, most significant bit first, as the bit stream stores them.
module Bits {
  import opened Powers

  type bit = x: int | 0 <= x < 2

  // The number a bit string spells.
  function Value(s: seq<bit>): (v: nat)
    ensures v < Pow2(|s|)
  {
    if s == [] then 0 else 2 * Value(s[..|s| - 1]) + s[|s| - 1]
  }

  // The n lowest bits of v.
  function ToBits(v: nat, n: nat): (s: seq<bit>)
    ensures |s| == n
  {
    if n == 0 then [] else ToBits(v / 2, n - 1) + [v % 2]
  }

  lemma {:induction false} ValueOfBits(v: nat, n: nat)
    requires v < Pow2(n)
    ensures Value(ToBits(v, n)) == v
  {
    if n > 0 {
      ValueOfBits(v / 2, n - 1);
      assert ToBits(v, n)[..n - 1] == ToBits(v / 2, n - 1);
    }
  }

  lemma {:induction false} BitsOfValue(s: seq<bit>)
    ensures ToBits(Value(s), |s|) == s
  {
    if s != [] {
      var t := s[..|s| - 1];
      BitsOfValue(t);
      assert Value(s) / 2 == Value(t) && Value(s) % 2 == s[|s| - 1];
      assert s == t + [s[|s| - 1]];
    }
  }

  lemma {:induction false} ValueAppend(s: seq<bit>, t: seq<bit>)
    ensures Value(s + t) == Times(Value(s), Pow2(|t|)) + Value(t)
  {
    hide Times;
    if t == [] {
      assert s + t == s;
      TimesUnit(Value(s));
    } else {
      var u := t[..|t| - 1];
      ValueAppend(s, u);
      assert (s + t)[..|s + t| - 1] == s + u;
      TimesDouble(Value(s), Pow2(|u|));
    }
  }

  lemma ValueStep(s: seq<bit>, n: nat)
    requires n < |s|
    ensures Value(s[..n + 1]) == 2 * Value(s[..n]) + s[n]
  {
    assert s[..n + 1][..n] == s[..n];
  }
}
