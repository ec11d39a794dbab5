// zlib's Adler-32: two running sums reduced modulo 65521 as rarely as 32-bit arithmetic
// allows, with and without division, and the checksum of a concatenation.
module Adler32 {
  import opened Rotations
  import opened Powers

  const BASE := 65521
  const NMAX := 5552

  datatype Sums = Sums(a: nat, b: nat)

  // ---- the definition: both sums reduced after every byte ----

  function Step(p: Sums, c: byte): Sums {
    Sums((p.a + c) % BASE, (p.b + (p.a + c) % BASE) % BASE)
  }

  function Adler(p: Sums, s: seq<byte>): (r: Sums)
    ensures r.a < BASE && r.b < BASE
  {
    if s == [] then Reduced(p) else Step(Adler(p, s[..|s| - 1]), s[|s| - 1])
  }

  function Reduced(p: Sums): Sums {
    Sums(p.a % BASE, p.b % BASE)
  }

  // The two halves of a checksum.
  function Split(x: nat): Sums {
    Sums(x % 0x1_0000, x / 0x1_0000 % 0x1_0000)
  }

  function Joined(p: Sums): nat {
    p.a + 0x1_0000 * p.b
  }

  lemma SplitJoined(p: Sums)
    requires p.a < 0x1_0000 && p.b < 0x1_0000
    ensures Split(Joined(p)) == p
  {
  }

  // ---- the sums without any reduction ----

  function Run(p: Sums, s: seq<byte>): Sums {
    if s == [] then p
    else
      var q := Run(p, s[..|s| - 1]);
      Sums(q.a + s[|s| - 1], q.b + q.a + s[|s| - 1])
  }

  lemma ModAdd(x: int, y: int)
    ensures (x % BASE + y) % BASE == (x + y) % BASE && (x + y % BASE) % BASE == (x + y) % BASE
  {
  }

  // Reducing late gives the same.
  lemma {:induction false} ReduceLate(p: Sums, s: seq<byte>)
    ensures Reduced(Run(p, s)) == Adler(p, s)
  {
    if s != [] {
      var q := Run(p, s[..|s| - 1]);
      ReduceLate(p, s[..|s| - 1]);
      StepLate(q, s[|s| - 1]);
    }
    hide Step, Reduced;
  }

  lemma StepLate(q: Sums, c: byte)
    ensures Reduced(Sums(q.a + c, q.b + q.a + c)) == Step(Reduced(q), c)
  {
    ModAdd(q.a, c);
    ModAdd(q.b, (q.a % BASE + c) % BASE);
    ModAdd(q.b % BASE, (q.a + c) % BASE);
    ModAdd(q.b, q.a + c);
  }

  lemma {:induction false} AdlerAppend(p: Sums, s: seq<byte>, t: seq<byte>)
    ensures Adler(Adler(p, s), t) == Adler(p, s + t)
  {
    hide Step, Reduced;
    if t == [] {
      assert s + t == s;
      ReducedTwice(p, s);
    } else {
      var k := |t| - 1;
      AdlerAppend(p, s, t[..k]);
      assert (s + t)[..|s| + k] == s + t[..k];
    }
  }

  lemma ReducedTwice(p: Sums, s: seq<byte>)
    ensures Reduced(Adler(p, s)) == Adler(p, s)
  {
  }

  lemma RunStep(p: Sums, s: seq<byte>, i: nat)
    requires i < |s|
    ensures Run(p, s[..i + 1]) == Sums(Run(p, s[..i]).a + s[i], Run(p, s[..i]).b + Run(p, s[..i]).a + s[i])
  {
    assert s[..i + 1][..i] == s[..i];
  }

  // How large the second sum can get in n bytes.
  function Largest(n: nat): nat {
    if n == 0 then 65535 else Largest(n - 1) + 65535 + 255 * n
  }

  lemma {:induction false} LargestIs(n: nat)
    ensures 2 * Largest(n) == 2 * 65535 * (n + 1) + 255 * (n * (n + 1))
  {
    if n > 0 {
      LargestIs(n - 1);
      assert n * (n + 1) == (n - 1) * n + 2 * n;
    }
  }

  lemma {:induction false} RunBound(p: Sums, s: seq<byte>)
    requires p.a < 0x1_0000 && p.b < 0x1_0000
    ensures Run(p, s).a <= 65535 + 255 * |s| && Run(p, s).b <= Largest(|s|)
  {
    if s != [] {
      RunBound(p, s[..|s| - 1]);
    }
  }

  // NMAX: in so many bytes neither sum leaves 32 bits, whatever 16-bit halves it starts from.
  lemma NeverWraps(p: Sums, s: seq<byte>)
    requires p.a < 0x1_0000 && p.b < 0x1_0000 && |s| <= NMAX
    ensures Run(p, s).a < 0x1_0000_0000 && Run(p, s).b < 0x1_0000_0000
  {
    RunBound(p, s);
    LargestIs(|s|);
    LargestIs(NMAX);
    LargestGrows(|s|, NMAX);
    hide Run, Largest;
    assert NMAX * (NMAX + 1) == 30830256;
  }

  // One byte more and they could.
  lemma NmaxIsTight(p: Sums, s: seq<byte>)
    requires p == Sums(BASE - 1, BASE - 1) && |s| == NMAX + 1 && forall i :: 0 <= i < |s| ==> s[i] == 255
    ensures Run(p, s).b >= 0x1_0000_0000
  {
    RunOfOnes(p, s);
    TriangleIs(NMAX + 1);
    hide Run, Triangle;
    assert (NMAX + 1) * (NMAX + 2) == 30841362;
  }

  function Triangle(n: nat): nat {
    if n == 0 then 0 else Triangle(n - 1) + n
  }

  lemma {:induction false} TriangleIs(n: nat)
    ensures 2 * Triangle(n) == n * (n + 1)
  {
    if n > 0 {
      TriangleIs(n - 1);
      assert n * (n + 1) == (n - 1) * n + 2 * n;
    }
  }

  lemma {:induction false} RunOfOnes(p: Sums, s: seq<byte>)
    requires p == Sums(BASE - 1, BASE - 1) && forall i :: 0 <= i < |s| ==> s[i] == 255
    ensures Run(p, s).a == BASE - 1 + 255 * |s| && Run(p, s).b == (BASE - 1) * (|s| + 1) + 255 * Triangle(|s|)
  {
    if s != [] {
      RunOfOnes(p, s[..|s| - 1]);
    }
  }

  lemma {:induction false} LargestGrows(m: nat, n: nat)
    requires m <= n
    ensures Largest(m) <= Largest(n)
    decreases n
  {
    if m < n {
      LargestGrows(m, n - 1);
    }
  }

  // ---- reducing with and without division ----

  // CHOP: 65536 is 15 modulo BASE.
  function Chop(a: nat): nat {
    a % 0x1_0000 + a / 0x1_0000 * 15
  }

  lemma ChopKeeps(a: nat)
    ensures Chop(a) % BASE == a % BASE
  {
    var q := a / 0x1_0000;
    assert a == Chop(a) + q * BASE;
    Multiple(Chop(a), q);
  }

  lemma Multiple(x: int, q: int)
    ensures (x + q * BASE) % BASE == x % BASE
  {
  }

  method Mod28(a0: nat, noDivide: bool) returns (a: nat)
    requires a0 < 0x1000_0000
    ensures a == a0 % BASE
  {
    if !noDivide {
      return a0 % BASE;
    }
    ChopKeeps(a0);
    a := Chop(a0);
    assert a < 2 * BASE;
    if a >= BASE {
      a := a - BASE;
    }
  }

  method Mod(a0: nat, noDivide: bool) returns (a: nat)
    requires a0 < 0x1_0000_0000
    ensures a == a0 % BASE
  {
    if !noDivide {
      return a0 % BASE;
    }
    ChopKeeps(a0);
    a := Mod28(Chop(a0), true);
  }

  // The same for lengths of up to 63 bits; 2^32 is 225 modulo BASE.
  method Mod63(a0: nat, noDivide: bool) returns (a: nat)
    requires a0 < 0x8000_0000_0000_0000
    ensures a == a0 % BASE
  {
    if !noDivide {
      return a0 % BASE;
    }
    var tmp: nat := a0 / 0x1_0000_0000;
    a := a0 % 0x1_0000_0000 + (tmp * 256 - tmp * 32 + tmp);
    assert a0 == a + tmp * 65551 * BASE - tmp * 0 by {
      assert 65551 * BASE == 0x1_0000_0000 - 225;
    }
    Multiple(a, tmp * 65551);
    ChopKeeps(a);
    a := Chop(a);
    ChopKeeps(a);
    a := Chop(a);
    assert a < 2 * BASE;
    if a >= BASE {
      a := a - BASE;
    }
  }

  // ---- the checksum ----

  // Bytes lo..hi - 1 added up in 32-bit arithmetic.
  method AddBytes(p: Sums, buf: seq<byte>, lo: nat, hi: nat) returns (q: Sums)
    requires p.a < 0x1_0000 && p.b < 0x1_0000 && lo <= hi <= |buf| && hi - lo <= NMAX
    ensures q == Run(p, buf[lo..hi]) && q.a < 0x1_0000_0000 && q.b < 0x1_0000_0000
  {
    hide Run;
    var part := buf[lo..hi];
    var adler: nat, sum2: nat := p.a, p.b;
    RunNone(p, part);
    for i := 0 to hi - lo
      invariant Sums(adler, sum2) == Run(p, part[..i])
    {
      NeverWraps(p, part[..i + 1]);
      RunStep(p, part, i);
      adler := (adler + buf[lo + i]) % 0x1_0000_0000;
      sum2 := (sum2 + adler) % 0x1_0000_0000;
    }
    assert part[..hi - lo] == part;
    NeverWraps(p, part);
    q := Sums(adler, sum2);
  }

  lemma RunNone(p: Sums, s: seq<byte>)
    ensures Run(p, s[..0]) == p
  {
  }

  // A buffer may be missing.
  datatype Buffer = Null | Bytes(s: seq<byte>)

  // adler32.  A missing buffer, unless its length is given as one, asks for the checksum of no
  // bytes.
  method Checksum(adler0: nat, buf: Buffer, noDivide: bool) returns (r: nat)
    requires adler0 < 0x1_0000_0000
    ensures buf.Null? ==> r == 1 && r == Joined(Adler(Split(1), []))
    ensures buf.Bytes? ==> (r == Joined(Adler(Split(adler0), buf.s)) <==> !LeavesExcess(Split(adler0), buf.s))
    ensures buf.Bytes? ==> Reduced(Split(r)) == Adler(Split(adler0), buf.s)
    ensures buf.Bytes? && Split(adler0).a < BASE && Split(adler0).b < BASE ==> r == Joined(Adler(Split(adler0), buf.s))
  {
    if buf.Null? {
      return 1;
    }
    r := Bytewise(adler0, buf.s, noDivide);
  }

  // A single byte is handled without a full reduction, which leaves the second half unreduced
  // when it came in unreduced and the sum reaches twice the base.
  method Bytewise(adler0: nat, buf: seq<byte>, noDivide: bool) returns (r: nat)
    requires adler0 < 0x1_0000_0000
    ensures r == Joined(Adler(Split(adler0), buf)) <==> !LeavesExcess(Split(adler0), buf)
    ensures Reduced(Split(r)) == Adler(Split(adler0), buf)
    ensures Split(adler0).a < BASE && Split(adler0).b < BASE ==> r == Joined(Adler(Split(adler0), buf))
  {
    hide Adler, Run, Split, Joined, Reduced, LeavesExcess;
    var p := Split(adler0);
    SplitBound(adler0);
    NoExcess(p, buf);
    if |buf| == 1 {
      r := OneByte(p, buf);
      return;
    }
    if |buf| < 16 {
      p := FewBytes(p, buf, noDivide);
    } else {
      p := ManyBytes(p, buf, noDivide);
    }
    ReducedJoined(p);
    r := Joined(p);
  }

  lemma SplitBound(x: nat)
    ensures Split(x).a < 0x1_0000 && Split(x).b < 0x1_0000
  {
  }

  lemma ReducedJoined(p: Sums)
    requires p.a < BASE && p.b < BASE
    ensures Reduced(Split(Joined(p))) == p
  {
    SplitJoined(p);
    hide Split, Joined;
  }

  // Stretches of NMAX bytes, then the rest, with one reduction each.
  method ManyBytes(p: Sums, buf: seq<byte>, noDivide: bool) returns (q: Sums)
    requires p.a < 0x1_0000 && p.b < 0x1_0000 && |buf| >= 16
    ensures q == Adler(p, buf) && q.a < BASE && q.b < BASE
  {
    hide Adler, Run;
    var pos := 0;
    q := p;
    AdlerNone(p, buf);
    while |buf| - pos >= NMAX
      invariant 0 <= pos <= |buf| && q.a < 0x1_0000 && q.b < 0x1_0000 && Adler(q, []) == Adler(p, buf[..pos])
      invariant pos > 0 ==> q.a < BASE && q.b < BASE
    {
      q := OneStretch(q, buf, pos, pos + NMAX, noDivide, p);
      pos := pos + NMAX;
    }
    if pos < |buf| {
      q := OneStretch(q, buf, pos, |buf|, noDivide, p);
    }
    assert buf[..|buf|] == buf;
    AlreadyReduced(q);
  }

  // Fewer than sixteen bytes: one subtraction reduces the first sum.
  method FewBytes(p: Sums, buf: seq<byte>, noDivide: bool) returns (q: Sums)
    requires p.a < 0x1_0000 && p.b < 0x1_0000 && |buf| < 16
    ensures q == Adler(p, buf) && q.a < BASE && q.b < BASE
  {
    hide Adler, Run;
    ReduceLate(p, buf);
    assert buf[0..|buf|] == buf;
    q := AddBytes(p, buf, 0, |buf|);
    RunBound(p, buf);
    SmallSums(|buf|);
    var adler := q.a;
    if adler >= BASE {
      adler := adler - BASE;
    }
    var sum2 := Mod28(q.b, noDivide);
    q := Sums(adler, sum2);
  }

  ghost predicate LeavesExcess(p: Sums, s: seq<byte>) {
    |s| == 1 && p.b + (p.a + s[0]) % BASE >= 2 * BASE
  }

  // A checksum whose halves came in reduced never leaves an excess.
  lemma NoExcess(p: Sums, s: seq<byte>)
    ensures (p.a < BASE && p.b < BASE) || |s| != 1 ==> !LeavesExcess(p, s)
  {
  }

  // One that did not can: both halves of 0xfffffff0 exceed the base.
  lemma SomeExcess()
    ensures LeavesExcess(Split(0xffff_fff0), [0])
  {
  }

  method OneByte(p: Sums, buf: seq<byte>) returns (r: nat)
    requires |buf| == 1 && p.a < 0x1_0000 && p.b < 0x1_0000
    ensures r == Joined(Adler(p, buf)) <==> !LeavesExcess(p, buf)
    ensures Reduced(Split(r)) == Adler(p, buf)
  {
    hide Adler, Joined, Split;
    OneByteIs(p, buf);
    var adler: nat, sum2: nat := p.a + buf[0], p.b;
    if adler >= BASE {
      adler := adler - BASE;
    }
    sum2 := sum2 + adler;
    if sum2 >= BASE {
      sum2 := sum2 - BASE;
    }
    SplitJoined(Sums(adler, sum2));
    SplitJoined(Adler(p, buf));
    r := Joined(Sums(adler, sum2));
  }

  lemma OneByteIs(p: Sums, s: seq<byte>)
    requires |s| == 1
    ensures Adler(p, s) == Sums((p.a + s[0]) % BASE, (p.b + (p.a + s[0]) % BASE) % BASE)
  {
    ReduceLate(p, s);
    assert s[..0] == [];
    assert Run(p, s) == Sums(p.a + s[0], p.b + p.a + s[0]);
    ModAdd(p.b, p.a + s[0]);
  }

  lemma SmallSums(n: nat)
    requires n < 16
    ensures Largest(n) < 0x1000_0000
  {
    LargestGrows(n, 16);
    LargestIs(16);
  }

  lemma AdlerNone(p: Sums, s: seq<byte>)
    ensures Adler(p, s[..0]) == Adler(p, [])
  {
  }

  lemma AlreadyReduced(p: Sums)
    requires p.a < BASE && p.b < BASE
    ensures Adler(p, []) == p
  {
  }

  // Bytes pos..end - 1 and one reduction.
  method OneStretch(p: Sums, buf: seq<byte>, pos: nat, end: nat, noDivide: bool, ghost start: Sums) returns (q: Sums)
    requires p.a < 0x1_0000 && p.b < 0x1_0000 && pos <= end <= |buf| && end - pos <= NMAX
    requires Adler(p, []) == Adler(start, buf[..pos])
    ensures q.a < BASE && q.b < BASE && Adler(q, []) == Adler(start, buf[..end])
  {
    hide Adler, Run;
    var sums := AddBytes(p, buf, pos, end);
    var a := Mod(sums.a, noDivide);
    var b := Mod(sums.b, noDivide);
    q := Sums(a, b);
    var part := buf[pos..end];
    ReduceLate(p, part);
    AlreadyReduced(q);
    AdlerAppend(p, [], part);
    AdlerAppend(start, buf[..pos], part);
    assert [] + part == part;
    assert buf[..pos] + part == buf[..end];
  }

  // ---- combining two checksums ----

  // The sums of t, started from p, in terms of those started from (1, 0).
  lemma {:induction false} RunFrom(p: Sums, t: seq<byte>)
    ensures Run(p, t).a == p.a - 1 + Run(Sums(1, 0), t).a
    ensures Run(p, t).b == p.b + Times(|t|, p.a - 1) + Run(Sums(1, 0), t).b
  {
    hide Times;
    if t == [] {
      TimesOne(p.a - 1);
    } else {
      var k := |t| - 1;
      RunFrom(p, t[..k]);
      TimesAdd(k, 1, p.a - 1);
      TimesOne(p.a - 1);
    }
  }

  // adler32_combine_.  A negative length is answered with a value no checksum has.
  method Combine(adler1: nat, adler2: nat, len2: int, noDivide: bool, ghost s: seq<byte>, ghost t: seq<byte>) returns (r: nat)
    requires len2 >= 0 ==> len2 == |t| < 0x8000_0000_0000_0000
    requires len2 >= 0 ==> adler1 == Joined(Adler(Sums(1, 0), s)) && adler2 == Joined(Adler(Sums(1, 0), t))
    ensures len2 < 0 ==> r == 0xffff_ffff
    ensures len2 >= 0 ==> r == Joined(Adler(Sums(1, 0), s + t))
  {
    hide Adler, Run, Times, Joined, Split;
    if len2 < 0 {
      return 0xffff_ffff;
    }
    ghost var p, q := Adler(Sums(1, 0), s), Adler(Sums(1, 0), t);
    SplitJoined(p);
    SplitJoined(q);
    var rem := Mod63(len2, noDivide);
    var sum1 := Split(adler1).a;
    ProductFits(rem, sum1);
    var sum2 := Mod(Times(rem, sum1), noDivide);
    CombinedSums(s, t, rem, sum2);
    sum1 := sum1 + Split(adler2).a + BASE - 1;
    sum2 := sum2 + Split(adler1).b + Split(adler2).b + BASE - rem;
    var sums := Subtract(sum1, sum2);
    r := Joined(sums);
  }

  // The final reductions, by subtraction alone.
  method Subtract(a: nat, b: nat) returns (p: Sums)
    requires a < 3 * BASE && b < 4 * BASE
    ensures p == Reduced(Sums(a, b))
  {
    var sum1, sum2 := a, b;
    if sum1 >= BASE {
      sum1 := sum1 - BASE;
    }
    if sum1 >= BASE {
      sum1 := sum1 - BASE;
    }
    if sum2 >= 2 * BASE {
      sum2 := sum2 - 2 * BASE;
    }
    if sum2 >= BASE {
      sum2 := sum2 - BASE;
    }
    p := Sums(sum1, sum2);
  }

  lemma ProductFits(x: nat, y: nat)
    requires x < BASE && y < BASE
    ensures 0 <= Times(x, y) < 0x1_0000_0000
  {
    hide Times;
    TimesMonotone(x, BASE, y);
    TimesMonotone(0, x, y);
    TimesOne(y);
    BaseTimes(y);
  }

  lemma BaseTimes(y: nat)
    ensures Times(BASE, y) == BASE * y
  {
  }

  lemma CombinedSums(s: seq<byte>, t: seq<byte>, rem: nat, product: nat)
    requires var p := Adler(Sums(1, 0), s); rem == |t| % BASE && Times(rem, p.a) >= 0 && product == Times(rem, p.a) % BASE
    ensures var p, q, r := Adler(Sums(1, 0), s), Adler(Sums(1, 0), t), Adler(Sums(1, 0), s + t);
            r.a == (p.a + q.a + BASE - 1) % BASE && r.b == (product + p.b + q.b + BASE - rem) % BASE
  {
    hide Adler, Run, Times;
    var p := Adler(Sums(1, 0), s);
    AdlerAppend(Sums(1, 0), s, t);
    ReduceLate(p, t);
    ReduceLate(Sums(1, 0), t);
    RunFrom(p, t);
    var x, y, k := Run(Sums(1, 0), t).a, Run(Sums(1, 0), t).b, |t| / BASE;
    ModAdd(p.a - 1, x);
    Multiple(p.a - 1 + x % BASE, 1);
    // the length only counts modulo BASE
    Lengths(|t|, p.a);
    var all := Times(rem, p.a) + p.b + y - rem;
    Multiple(all, Times(k, p.a - 1));
    ModAdd(Times(rem, p.a), p.b + y - rem);
    ModAdd(product + p.b - rem, y);
    Multiple(product + p.b - rem + y % BASE, 1);
  }

  lemma Lengths(n: nat, a: nat)
    ensures Times(n, a - 1) == Times(n % BASE, a) - n % BASE + Times(n / BASE, a - 1) * BASE
  {
    hide Times;
    var k, m := n / BASE, n % BASE;
    TimesAdd(k * BASE, m, a - 1);
    TimesBase(k, a - 1);
    TimesLess(m, a);
  }

  lemma TimesBase(k: int, x: int)
    ensures Times(k * BASE, x) == Times(k, x) * BASE
  {
  }

  lemma TimesLess(m: int, a: int)
    ensures Times(m, a - 1) == Times(m, a) - m
  {
  }
}
