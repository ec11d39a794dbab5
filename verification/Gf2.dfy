// Exclusive or on numbers, and matrices over GF(2) acting on it.
module Gf2 {
  import opened Powers

  function Xor(a: nat, b: nat): (r: nat)
    decreases a + b
  {
    if a == 0 && b == 0 then 0 else 2 * Xor(a / 2, b / 2) + (a % 2 + b % 2) % 2
  }

  lemma XorBits(a: nat, b: nat)
    ensures Xor(a, b) / 2 == Xor(a / 2, b / 2) && Xor(a, b) % 2 == (a % 2 + b % 2) % 2
  {
  }

  lemma {:induction false} XorCommutes(a: nat, b: nat)
    ensures Xor(a, b) == Xor(b, a)
    decreases a + b
  {
    if a != 0 || b != 0 {
      XorCommutes(a / 2, b / 2);
    }
  }

  lemma {:induction false} XorAssoc(a: nat, b: nat, c: nat)
    ensures Xor(Xor(a, b), c) == Xor(a, Xor(b, c))
    decreases a + b + c
  {
    hide Xor;
    if a == 0 && b == 0 && c == 0 {
      XorUnit(0);
    } else {
      XorAssoc(a / 2, b / 2, c / 2);
      XorBits(a, b);
      XorBits(b, c);
      XorBits(Xor(a, b), c);
      XorBits(a, Xor(b, c));
      Same(Xor(Xor(a, b), c), Xor(a, Xor(b, c)));
    }
  }

  lemma Same(x: nat, y: nat)
    requires x / 2 == y / 2 && x % 2 == y % 2
    ensures x == y
  {
  }

  lemma {:induction false} XorUnit(a: nat)
    ensures Xor(a, 0) == a && Xor(0, a) == a && Xor(a, a) == 0
  {
    if a != 0 {
      XorUnit(a / 2);
    }
  }

  // Mixing the same number in twice.
  lemma XorTwice(a: nat, b: nat)
    ensures Xor(Xor(a, b), b) == a
  {
    XorAssoc(a, b, b);
    XorUnit(b);
    XorUnit(a);
  }

  lemma XorSwap(a: nat, b: nat, c: nat, d: nat)
    ensures Xor(Xor(a, b), Xor(c, d)) == Xor(Xor(a, c), Xor(b, d))
  {
    hide Xor;
    XorAssoc(a, b, Xor(c, d));
    XorAssoc(b, c, d);
    XorCommutes(b, c);
    XorAssoc(c, b, d);
    XorAssoc(a, c, Xor(b, d));
  }

  lemma {:induction false} XorBound(a: nat, b: nat, n: nat)
    requires a < Pow2(n) && b < Pow2(n)
    ensures Xor(a, b) < Pow2(n)
    decreases n
  {
    if n > 0 {
      XorBound(a / 2, b / 2, n - 1);
      XorBits(a, b);
    }
  }

  // Numbers without common bits add up.
  lemma {:induction false} XorDisjoint(h: nat, low: nat, n: nat)
    requires low < Pow2(n)
    ensures Times(h, Pow2(n)) >= 0 && Xor(Times(h, Pow2(n)), low) == Times(h, Pow2(n)) + low
    decreases n
  {
    hide Times, Xor;
    TimesMonotone(0, h, Pow2(n));
    TimesOne(Pow2(n));
    if n == 0 {
      TimesUnit(h);
      XorUnit(h);
    } else {
      XorDisjoint(h, low / 2, n - 1);
      TimesDouble(h, Pow2(n - 1));
      XorBits(Times(h, Pow2(n)), low);
      Same(Xor(Times(h, Pow2(n)), low), Times(h, Pow2(n)) + low);
    }
  }

  // Shifting right treats both numbers alike.
  lemma {:induction false} XorShift(a: nat, b: nat, n: nat)
    ensures Xor(a, b) / Pow2(n) == Xor(Down(a, n), Down(b, n))
    decreases n
  {
    hide Xor;
    if n > 0 {
      XorBits(a, b);
      XorShift(a / 2, b / 2, n - 1);
      Halving(a, Pow2(n - 1));
      Halving(b, Pow2(n - 1));
      Halving(Xor(a, b), Pow2(n - 1));
    }
  }

  function Down(a: nat, n: nat): (r: nat)
    ensures r == a / Pow2(n)
  {
    DivNat(a, Pow2(n));
    a / Pow2(n)
  }

  lemma DivNat(v: nat, p: nat)
    requires p > 0
    ensures v / p >= 0
  {
  }

  // ---- matrices: column i is the image of bit i ----

  function MatVec(mat: seq<nat>, v: nat, i: nat): nat
    requires i <= |mat| && v < Pow2(|mat| - i)
    decreases v
  {
    if v == 0 then 0
    else Xor(if v % 2 == 1 then mat[i] else 0, MatVec(mat, v / 2, i + 1))
  }

  lemma HalfFits(v: nat, n: nat)
    requires 0 < v < Pow2(n)
    ensures n > 0 && v / 2 < Pow2(n - 1)
  {
  }

  // What a matrix does, bit by bit.
  method MatrixTimes(mat: array<nat>, v: nat) returns (sum: nat)
    requires v < Pow2(mat.Length)
    ensures sum == MatVec(mat[..], v, 0)
  {
    hide Xor;
    sum := 0;
    var vec: nat, i: nat := v, 0;
    XorUnit(MatVec(mat[..], v, 0));
    while vec != 0
      invariant 0 <= i <= mat.Length && vec < Pow2(mat.Length - i)
      invariant Xor(sum, MatVec(mat[..], vec, i)) == MatVec(mat[..], v, 0)
      decreases vec
    {
      HalfFits(vec, mat.Length - i);
      ghost var rest := MatVec(mat[..], vec / 2, i + 1);
      if vec % 2 == 1 {
        XorAssoc(sum, mat[i], rest);
        sum := Xor(sum, mat[i]);
      } else {
        XorUnit(rest);
      }
      vec := vec / 2;
      i := i + 1;
    }
    XorUnit(sum);
  }
}
