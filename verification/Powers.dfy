// Powers of two and Fibonacci numbers.
module Powers {

  function Pow2(p: nat): (r: nat)
    ensures r >= 1
  {
    if p == 0 then 1 else 2 * Pow2(p - 1)
  }

  lemma {:induction false} Pow2Monotone(p: nat, q: nat)
    requires p <= q
    ensures Pow2(p) <= Pow2(q)
    decreases q
  {
    if p < q {
      Pow2Monotone(p, q - 1);
    }
  }

  lemma MulDouble(a: int, b: int)
    ensures 2 * (a * b) == (2 * a) * b
  {
  }

  lemma {:induction false} Pow2Add(p: nat, q: nat)
    ensures Pow2(p + q) == Pow2(p) * Pow2(q)
  {
    if p > 0 {
      Pow2Add(p - 1, q);
      assert Pow2(p + q) == 2 * Pow2(p - 1 + q);
      MulDouble(Pow2(p - 1), Pow2(q));
    }
  }

  lemma Pow2Values()
    ensures Pow2(8) == 256 && Pow2(16) == 0x1_0000 && Pow2(20) == 0x10_0000 && Pow2(23) == 0x80_0000
    ensures Pow2(31) == 0x8000_0000 && Pow2(32) == 0x1_0000_0000
  {
    assert Pow2(4) == 16;
    assert Pow2(8) == 256;
    assert Pow2(12) == 4096;
    assert Pow2(16) == 0x1_0000;
    assert Pow2(20) == 0x10_0000;
    assert Pow2(24) == 0x100_0000;
    assert Pow2(28) == 0x1000_0000;
  }

  function Fib(n: nat): nat {
    if n < 2 then n else Fib(n - 1) + Fib(n - 2)
  }

  lemma {:induction false} FibMonotone(m: nat, n: nat)
    requires m <= n
    ensures Fib(m) <= Fib(n)
    decreases n
  {
    if m < n {
      FibMonotone(m, n - 1);
    }
  }

  lemma FibValues()
    ensures Fib(20) == 6765 && Fib(35) == 9227465
  {
    assert Fib(4) == 3 && Fib(5) == 5;
    assert Fib(8) == 21 && Fib(9) == 34;
    assert Fib(12) == 144 && Fib(13) == 233;
    assert Fib(16) == 987 && Fib(17) == 1597;
    assert Fib(20) == 6765 && Fib(21) == 10946;
    assert Fib(24) == 46368 && Fib(25) == 75025;
    assert Fib(28) == 317811 && Fib(29) == 514229;
    assert Fib(32) == 2178309 && Fib(33) == 3524578;
    assert Fib(34) == 5702887 && Fib(35) == 9227465;
  }

  // A product that the solver does not expand on its own.
  function Times(a: int, p: int): int {
    a * p
  }

  lemma TimesAdd(a: int, b: int, p: int)
    ensures Times(a + b, p) == Times(a, p) + Times(b, p)
  {
  }

  lemma TimesDouble(a: int, p: int)
    ensures Times(2 * a, p) == Times(a, 2 * p) == 2 * Times(a, p)
  {
  }

  lemma TimesMonotone(a: int, b: int, p: int)
    requires a <= b && 0 <= p
    ensures Times(a, p) <= Times(b, p)
  {
    assert (b - a) * p >= 0;
  }

  lemma TimesIncreasing(a: int, b: int, p: int)
    requires a > b && 0 < p
    ensures Times(a, p) > Times(b, p)
  {
    hide Times;
    TimesMonotone(b + 1, a, p);
    TimesAdd(b, 1, p);
    TimesOne(p);
  }

  lemma TimesStrict(a: int, b: int, p: int)
    requires Times(a, p) <= Times(b, p) && 0 < p
    ensures a <= b
  {
    if a > b {
      TimesIncreasing(a, b, p);
    }
  }

  lemma TimesPow(p: nat, q: nat)
    ensures Times(Pow2(p), Pow2(q)) == Pow2(p + q)
  {
    Pow2Add(p, q);
  }

  lemma TimesOne(p: int)
    ensures Times(1, p) == p && Times(0, p) == 0
  {
  }

  lemma TimesUnit(a: int)
    ensures Times(a, 1) == a
  {
  }

  // Dividing a multiple plus a remainder.
  lemma DivTimes(q: int, p: int, r: int)
    requires 0 <= r < p
    ensures (Times(q, p) + r) / p == q && (Times(q, p) + r) % p == r
  {
    var x := q * p + r;
    assert x == p * (x / p) + x % p;
    DivUnique(q, r, x / p, x % p, p);
  }

  lemma DivUnique(q: int, r: int, u: int, v: int, p: int)
    requires 0 <= r < p && 0 <= v < p && q * p + r == p * u + v
    ensures q == u && r == v
  {
    assert (q - u) * p == v - r;
    if q > u {
      TimesIncreasing(q - u, 0, p);
      TimesMonotone(1, q - u, p);
    } else if q < u {
      TimesMonotone(q - u, -1, p);
    }
  }

  lemma TimesAssoc(a: int, p: nat, q: nat)
    ensures Times(Times(a, Pow2(p)), Pow2(q)) == Times(a, Pow2(p + q))
  {
    Pow2Add(p, q);
    var x, y := Pow2(p), Pow2(q);
    assert (a * x) * y == a * (x * y);
  }

  lemma TimesIs(q: int, p: int, g: int)
    requires p > 0 && q == g / p
    ensures Times(q, p) + g % p == g && 0 <= g % p < p
  {
  }

  lemma Halving(v: nat, p: nat)
    requires p > 0
    ensures v / (2 * p) == v / 2 / p
  {
    var q := v / 2 / p;
    var r := v / 2 % p;
    TimesIs(q, p, v / 2);
    var s := 2 * r + v % 2;
    TimesDouble(q, p);
    DivTimes(q, 2 * p, s);
  }
}
