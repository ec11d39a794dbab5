// zlib's CRC-32: the tables, the byte-wise and word-wise loops, and the checksum of a
// concatenation computed from the two checksums by squaring matrices over GF(2).
module Crc32 {
  import opened Powers
  import opened Gf2
  import opened Rotations

  const POLY: nat := 0xedb8_8320
  const ONES: nat := 0xffff_ffff

  type word = x: int | 0 <= x < 0x1_0000_0000

  // One zero bit through the shift register.
  function ZeroBit(c: nat): nat {
    Xor(Tap(c % 2), c / 2)
  }

  // What the bit shifted out mixes in.
  function Tap(b: nat): nat {
    if b == 1 then POLY else 0
  }

  function Zeros(c: nat, k: nat): nat
    decreases k
  {
    if k == 0 then c else Zeros(ZeroBit(c), k - 1)
  }

  lemma ZeroBitLinear(a: nat, b: nat)
    ensures ZeroBit(Xor(a, b)) == Xor(ZeroBit(a), ZeroBit(b))
  {
    hide Xor, Tap;
    XorBits(a, b);
    TapLinear(a % 2, b % 2);
    XorSwap(Tap(a % 2), Tap(b % 2), a / 2, b / 2);
  }

  lemma TapLinear(x: nat, y: nat)
    requires x < 2 && y < 2
    ensures Tap((x + y) % 2) == Xor(Tap(x), Tap(y))
  {
    hide Xor;
    XorUnit(POLY);
    XorUnit(0);
  }

  lemma {:induction false} ZerosLinear(a: nat, b: nat, k: nat)
    ensures Zeros(Xor(a, b), k) == Xor(Zeros(a, k), Zeros(b, k))
    decreases k
  {
    hide ZeroBit, Xor;
    if k > 0 {
      ZeroBitLinear(a, b);
      ZerosLinear(ZeroBit(a), ZeroBit(b), k - 1);
    }
  }

  lemma {:induction false} ZerosOfZero(k: nat)
    ensures Zeros(0, k) == 0
  {
    if k > 0 {
      assert ZeroBit(0) == 0;
      ZerosOfZero(k - 1);
    }
  }

  lemma {:induction false} ZerosAdd(c: nat, j: nat, k: nat)
    ensures Zeros(Zeros(c, j), k) == Zeros(c, j + k)
    decreases j
  {
    hide ZeroBit;
    if j > 0 {
      ZerosAdd(ZeroBit(c), j - 1, k);
    }
  }

  lemma WordBound()
    ensures Pow2(32) == 0x1_0000_0000 && POLY < Pow2(32) && Pow2(8) == 256
  {
    Pow2Values();
  }

  lemma {:induction false} ZerosBound(c: nat, k: nat)
    requires c < 0x1_0000_0000
    ensures Zeros(c, k) < 0x1_0000_0000
    decreases k
  {
    if k > 0 {
      WordBound();
      XorBound(Tap(c % 2), c / 2, 32);
      hide Xor;
      ZerosBound(ZeroBit(c), k - 1);
    }
  }

  // Zero bits move a register whose low bits are empty down by as many places.
  lemma {:induction false} ZerosShift(h: nat, k: nat)
    ensures Times(h, Pow2(k)) >= 0 && Zeros(Times(h, Pow2(k)), k) == h
    decreases k
  {
    TimesMonotone(0, h, Pow2(k));
    TimesOne(Pow2(k));
    if k == 0 {
      TimesUnit(h);
    } else {
      TimesDouble(h, Pow2(k - 1));
      ZerosShift(h, k - 1);
      var x := Times(h, Pow2(k - 1));
      XorUnit(x);
      assert ZeroBit(2 * x) == x;
      hide Times, ZeroBit;
    }
  }

  // A register is its low byte and the bytes above it.
  lemma SplitByte(c: nat)
    ensures c == Xor(Times(c / 256, 256), c % 256)
  {
    WordBound();
    XorDisjoint(c / 256, c % 256, 8);
    hide Xor;
  }

  // The table lookup of one step: eight zero bits.
  lemma ByteStep(c: nat)
    ensures Zeros(c, 8) == Xor(Zeros(c % 256, 8), c / 256)
  {
    hide Xor, Zeros, Times;
    WordBound();
    SplitByte(c);
    TimesMonotone(0, c / 256, 256);
    TimesOne(256);
    ZerosLinear(Times(c / 256, 256), c % 256, 8);
    ZerosShift(c / 256, 8);
    XorCommutes(c / 256, Zeros(c % 256, 8));
  }

  // ---- the checksum, a byte at a time ----

  function Update(c: nat, b: byte): nat {
    Zeros(Xor(c, b), 8)
  }

  function Fold(c: nat, s: seq<byte>): nat {
    if s == [] then c else Update(Fold(c, s[..|s| - 1]), s[|s| - 1])
  }

  // The CRC-32 of s, continuing from crc; 0 starts a new one.
  function Crc(crc: nat, s: seq<byte>): nat {
    Xor(Fold(Xor(crc, ONES), s), ONES)
  }

  lemma FoldStep(c: nat, s: seq<byte>, i: nat)
    requires i < |s|
    ensures Fold(c, s[..i + 1]) == Update(Fold(c, s[..i]), s[i])
  {
    assert s[..i + 1][..i] == s[..i];
  }

  lemma {:induction false} FoldBound(c: nat, s: seq<byte>)
    requires c < 0x1_0000_0000
    ensures Fold(c, s) < 0x1_0000_0000
  {
    if s != [] {
      var k := |s| - 1;
      FoldBound(c, s[..k]);
      WordBound();
      Pow2Monotone(8, 32);
      XorBound(Fold(c, s[..k]), s[k], 32);
      ZerosBound(Xor(Fold(c, s[..k]), s[k]), 8);
    }
    hide Xor, Zeros, Pow2;
  }

  lemma {:induction false} FoldAppend(c: nat, s: seq<byte>, t: seq<byte>)
    ensures Fold(c, s + t) == Fold(Fold(c, s), t)
  {
    hide Update;
    if t == [] {
      assert s + t == s;
    } else {
      var k := |t| - 1;
      FoldAppend(c, s, t[..k]);
      assert (s + t)[..|s| + k] == s + t[..k];
    }
  }

  // The register's start only matters through the zero bits that follow it.
  lemma {:induction false} FoldAffine(c: nat, d: nat, s: seq<byte>)
    ensures Fold(Xor(c, d), s) == Xor(Zeros(c, 8 * |s|), Fold(d, s))
  {
    hide Xor, Zeros, Update;
    if s == [] {
      NoZeros(c);
    } else {
      var k := |s| - 1;
      FoldAffine(c, d, s[..k]);
      AffineStep(Zeros(c, 8 * k), Fold(d, s[..k]), s[k]);
      ZerosAdd(c, 8 * k, 8);
    }
  }

  lemma NoZeros(c: nat)
    ensures Zeros(c, 0) == c
  {
  }

  lemma AffineStep(x: nat, y: nat, b: byte)
    ensures Update(Xor(x, y), b) == Xor(Zeros(x, 8), Update(y, b))
  {
    hide Zeros, Xor;
    XorAssoc(x, y, b);
    ZerosLinear(x, Xor(y, b), 8);
  }

  // The checksum of a concatenation from the two checksums.
  lemma CrcOfConcatenation(s: seq<byte>, t: seq<byte>)
    ensures Crc(0, s + t) == Xor(Zeros(Crc(0, s), 8 * |t|), Crc(0, t))
  {
    hide Zeros, Fold, Xor;
    XorUnit(ONES);
    var f, z := Fold(ONES, s), Zeros(Crc(0, s), 8 * |t|);
    FoldAppend(ONES, s, t);
    XorTwice(f, ONES);
    FoldAffine(Crc(0, s), ONES, t);
    XorAssoc(z, Fold(ONES, t), ONES);
  }

  // The bytes as a little-endian word.
  function Word(b0: byte, b1: byte, b2: byte, b3: byte): nat {
    b0 as int + 256 * b1 as int + 0x1_0000 * b2 as int + 0x100_0000 * b3 as int
  }

  lemma WordIsXor(b0: byte, b1: byte, b2: byte, b3: byte)
    ensures Pow2(8) == 256 && Pow2(16) == 0x1_0000 && Pow2(24) == 0x100_0000
    ensures Word(b0, b1, b2, b3) == Xor(Xor(Xor(b0, Place(b1, 8)), Place(b2, 16)), Place(b3, 24))
  {
    hide Xor, Times;
    Pow2Values();
    assert Pow2(24) == 16 * Pow2(20);
    hide Pow2;
    var w1, w2 := b0 as int + 256 * b1 as int, b0 as int + 256 * b1 as int + 0x1_0000 * b2 as int;
    XorPlace(b0, b1, 8);
    XorPlace(w1, b2, 16);
    XorPlace(w2, b3, 24);
    PlaceIs(b1, b2, b3);
  }

  lemma PlaceIs(b1: byte, b2: byte, b3: byte)
    requires Pow2(8) == 256 && Pow2(16) == 0x1_0000 && Pow2(24) == 0x100_0000
    ensures Place(b1, 8) == 256 * b1 as int && Place(b2, 16) == 0x1_0000 * b2 as int && Place(b3, 24) == 0x100_0000 * b3 as int
  {
  }

  function Place(b: byte, k: nat): (r: nat) {
    TimesMonotone(0, b, Pow2(k));
    TimesOne(Pow2(k));
    Times(b, Pow2(k))
  }

  lemma XorPlace(low: nat, b: byte, k: nat)
    requires low < Pow2(k)
    ensures Xor(low, Place(b, k)) == low + Place(b, k)
  {
    hide Xor, Times;
    XorDisjoint(b, low, k);
    XorCommutes(low, Place(b, k));
  }

  // ---- byte order ----

  // ZSWAP32: the four bytes the other way round.
  function Swap(x: nat): (r: nat)
    requires x < 0x1_0000_0000
    ensures r < 0x1_0000_0000
  {
    x / 0x100_0000 + x / 0x1_0000 % 256 * 256 + x / 256 % 256 * 0x1_0000 + x % 256 * 0x100_0000
  }

  function ByteOf(x: nat, k: nat): byte
    requires k < 4
  {
    if k == 0 then x % 256 else if k == 1 then x / 256 % 256 else if k == 2 then x / 0x1_0000 % 256 else x / 0x100_0000 % 256
  }

  lemma ByteNames(x: nat)
    ensures ByteOf(x, 0) == x % 256 && ByteOf(x, 1) == x / 256 % 256 && ByteOf(x, 2) == x / 0x1_0000 % 256 && ByteOf(x, 3) == x / 0x100_0000 % 256
  {
  }

  lemma WordOfBytes(x: nat)
    requires x < 0x1_0000_0000
    ensures x == Word(ByteOf(x, 0), ByteOf(x, 1), ByteOf(x, 2), ByteOf(x, 3))
    ensures Swap(x) == Word(ByteOf(x, 3), ByteOf(x, 2), ByteOf(x, 1), ByteOf(x, 0))
    ensures x / 0x100_0000 == ByteOf(x, 3)
  {
    Quotients(x);
    var q1 := x / 256;
    var q2 := q1 / 256;
    var q3 := q2 / 256;
    assert x == 256 * q1 + x % 256 && q1 == 256 * q2 + q1 % 256 && q2 == 256 * q3 + q2 % 256;
  }

  lemma Quotients(x: nat)
    ensures x / 0x1_0000 == x / 256 / 256 && x / 0x100_0000 == x / 256 / 256 / 256
  {
    TwoQuotients(x, 256);
    TwoQuotients(x, 0x1_0000);
  }

  lemma TwoQuotients(x: nat, p: nat)
    requires p == 256 || p == 0x1_0000
    ensures x / (256 * p) == x / p / 256
  {
  }

  lemma BytesOfWord(b0: byte, b1: byte, b2: byte, b3: byte)
    ensures var x := Word(b0, b1, b2, b3);
            x < 0x1_0000_0000 && ByteOf(x, 0) == b0 && ByteOf(x, 1) == b1 && ByteOf(x, 2) == b2 && ByteOf(x, 3) == b3
  {
    var y1, y2 := b1 as int + 256 * b2 as int + 0x1_0000 * b3 as int, b2 as int + 256 * b3 as int;
    var x := Word(b0, b1, b2, b3);
    Peel(b0, y1);
    Peel(b1, y2);
    Peel(b2, b3);
    Quotients(x);
    ByteNames(x);
  }

  lemma Peel(b: byte, y: nat)
    ensures (b as int + 256 * y) % 256 == b && (b as int + 256 * y) / 256 == y
  {
  }

  lemma SwapWord(b0: byte, b1: byte, b2: byte, b3: byte)
    ensures Word(b0, b1, b2, b3) < 0x1_0000_0000 && Swap(Word(b0, b1, b2, b3)) == Word(b3, b2, b1, b0)
  {
    hide Word, Swap, ByteOf;
    BytesOfWord(b0, b1, b2, b3);
    WordOfBytes(Word(b0, b1, b2, b3));
  }

  lemma SwapTwice(x: nat)
    requires x < 0x1_0000_0000
    ensures Swap(Swap(x)) == x
  {
    hide Word, Swap, ByteOf;
    WordOfBytes(x);
    SwapWord(ByteOf(x, 3), ByteOf(x, 2), ByteOf(x, 1), ByteOf(x, 0));
  }

  function XorByte(a: byte, b: byte): byte {
    WordBound();
    XorBound(a, b, 8);
    Xor(a, b)
  }

  lemma {:induction false} XorTimes(a: nat, b: nat, k: nat)
    ensures Times(a, Pow2(k)) >= 0 && Times(b, Pow2(k)) >= 0 && Xor(Times(a, Pow2(k)), Times(b, Pow2(k))) == Times(Xor(a, b), Pow2(k))
    decreases k
  {
    hide Times, Xor;
    TimesMonotone(0, a, Pow2(k));
    TimesMonotone(0, b, Pow2(k));
    TimesOne(Pow2(k));
    if k == 0 {
      TimesUnit(a);
      TimesUnit(b);
      TimesUnit(Xor(a, b));
    } else {
      XorTimes(a, b, k - 1);
      TimesDouble(a, Pow2(k - 1));
      TimesDouble(b, Pow2(k - 1));
      TimesDouble(Xor(a, b), Pow2(k - 1));
      XorBits(Times(a, Pow2(k)), Times(b, Pow2(k)));
      Same(Xor(Times(a, Pow2(k)), Times(b, Pow2(k))), Times(Xor(a, b), Pow2(k)));
    }
  }

  lemma XorPlaces(a: byte, b: byte, k: nat)
    ensures Xor(Place(a, k), Place(b, k)) == Place(XorByte(a, b), k)
  {
    hide Times, Xor;
    XorTimes(a, b, k);
  }

  // Words are mixed byte by byte.
  lemma XorWords(a0: byte, a1: byte, a2: byte, a3: byte, b0: byte, b1: byte, b2: byte, b3: byte)
    ensures Xor(Word(a0, a1, a2, a3), Word(b0, b1, b2, b3)) == Word(XorByte(a0, b0), XorByte(a1, b1), XorByte(a2, b2), XorByte(a3, b3))
  {
    WordIsXor(a0, a1, a2, a3);
    WordIsXor(b0, b1, b2, b3);
    WordIsXor(XorByte(a0, b0), XorByte(a1, b1), XorByte(a2, b2), XorByte(a3, b3));
    hide Xor, Word, Times, Pow2, Place;
    XorPlaces(a1, b1, 8);
    XorPlaces(a2, b2, 16);
    XorPlaces(a3, b3, 24);
    var p1, p2, p3, q1, q2, q3 := Place(a1, 8), Place(a2, 16), Place(a3, 24), Place(b1, 8), Place(b2, 16), Place(b3, 24);
    XorSwap(Xor(Xor(a0, p1), p2), p3, Xor(Xor(b0, q1), q2), q3);
    XorSwap(Xor(a0, p1), p2, Xor(b0, q1), q2);
    XorSwap(a0, p1, b0, q1);
  }

  // Swapping the bytes respects exclusive or.
  lemma SwapLinear(x: nat, y: nat)
    requires x < 0x1_0000_0000 && y < 0x1_0000_0000
    ensures Xor(x, y) < 0x1_0000_0000 && Swap(Xor(x, y)) == Xor(Swap(x), Swap(y))
  {
    WordBound();
    hide Xor, Word, Swap, ByteOf, XorByte, Pow2;
    XorBound(x, y, 32);
    var a0, a1, a2, a3 := ByteOf(x, 0), ByteOf(x, 1), ByteOf(x, 2), ByteOf(x, 3);
    var b0, b1, b2, b3 := ByteOf(y, 0), ByteOf(y, 1), ByteOf(y, 2), ByteOf(y, 3);
    WordOfBytes(x);
    WordOfBytes(y);
    XorWords(a0, a1, a2, a3, b0, b1, b2, b3);
    XorWords(a3, a2, a1, a0, b3, b2, b1, b0);
    SwapWord(XorByte(a0, b0), XorByte(a1, b1), XorByte(a2, b2), XorByte(a3, b3));
  }

  // ---- the tables ----

  // The polynomial from the exponents of its terms.
  method Polynomial() returns (poly: nat)
    ensures poly == POLY
  {
    var p := [0, 1, 2, 4, 5, 7, 8, 10, 11, 12, 16, 22, 23, 26];
    poly := 0;
    ghost var sums := [0, 0x8000_0000, 0xc000_0000, 0xe000_0000, 0xe800_0000, 0xec00_0000, 0xed00_0000, 0xed80_0000, 0xeda0_0000,
                       0xedb0_0000, 0xedb8_0000, 0xedb8_8000, 0xedb8_8200, 0xedb8_8300, 0xedb8_8320];
    for n := 0 to 14
      invariant poly == sums[n]
    {
      TermOf(31 - p[n]);
      poly := poly + Pow2(31 - p[n]);
    }
  }

  lemma TermOf(e: nat)
    ensures Pow2(31) == 0x8000_0000 && Pow2(30) == 0x4000_0000 && Pow2(29) == 0x2000_0000 && Pow2(27) == 0x800_0000
    ensures Pow2(26) == 0x400_0000 && Pow2(24) == 0x100_0000 && Pow2(23) == 0x80_0000 && Pow2(21) == 0x20_0000
    ensures Pow2(20) == 0x10_0000 && Pow2(19) == 0x8_0000 && Pow2(15) == 0x8000 && Pow2(9) == 0x200 && Pow2(8) == 0x100 && Pow2(5) == 0x20
  {
    Pow2Values();
    assert Pow2(24) == 16 * Pow2(20) && Pow2(20) == 16 * Pow2(16) && Pow2(28) == 16 * Pow2(24);
    assert Pow2(31) == 2 * Pow2(30) && Pow2(30) == 2 * Pow2(29) && Pow2(27) == 8 * Pow2(24) && Pow2(26) == 4 * Pow2(24);
    assert Pow2(23) == 8 * Pow2(20) && Pow2(21) == 2 * Pow2(20) && Pow2(19) == 8 * Pow2(16) && Pow2(16) == 2 * Pow2(15);
    assert Pow2(5) == 32 && Pow2(9) == 2 * Pow2(8);
  }

  // Row k of the table holds every byte followed by k more zero bytes; rows 4 to 7 hold the
  // same with their bytes swapped.
  ghost predicate Made(table: array2<nat>)
    reads table
  {
    && table.Length0 == 8 && table.Length1 == 256
    && (forall n :: 0 <= n < 256 ==> Entries(table, n))
  }

  ghost predicate Entries(table: array2<nat>, n: int)
    requires table.Length0 == 8 && table.Length1 == 256 && 0 <= n < 256
    reads table
  {
    forall k :: 0 <= k < 4 ==> table[k, n] == Zeros(n, 8 * k + 8) < 0x1_0000_0000 && table[k + 4, n] == Swap(Zeros(n, 8 * k + 8))
  }

  lemma Entry(table: array2<nat>, k: int, n: int)
    requires Made(table) && 0 <= k < 4 && 0 <= n < 256
    ensures table[k, n] == Zeros(n, 8 * k + 8) < 0x1_0000_0000 && table[k + 4, n] == Swap(Zeros(n, 8 * k + 8))
  {
    assert Entries(table, n);
  }

  lemma NextZero(c: nat, k: nat)
    ensures Zeros(c, k + 1) == ZeroBit(Zeros(c, k))
    ensures ZeroBit(Zeros(c, k)) == if Zeros(c, k) % 2 == 1 then Xor(POLY, Zeros(c, k) / 2) else Zeros(c, k) / 2
  {
    hide Xor;
    ZerosAdd(c, k, 1);
    XorUnit(Zeros(c, k) / 2);
    assert Zeros(Zeros(c, k), 1) == Zeros(ZeroBit(Zeros(c, k)), 0);
  }

  // make_crc_table: the first row bit by bit, the others from it.
  method MakeCrcTable(table: array2<nat>)
    requires table.Length0 == 8 && table.Length1 == 256
    modifies table
    ensures Made(table)
  {
    hide ZeroBit, Xor, Zeros, Swap;
    var poly := Polynomial();
    for n := 0 to 256
      invariant forall m :: 0 <= m < n ==> table[0, m] == Zeros(m, 8)
    {
      var c := OneEntry(poly, n);
      table[0, n] := c;
    }
    for n := 0 to 256
      invariant forall m :: 0 <= m < 256 ==> table[0, m] == Zeros(m, 8)
      invariant forall m :: 0 <= m < n ==> Entries(table, m)
    {
      FillRows(table, n);
    }
  }

  // The remainder of one byte, bit by bit.
  method OneEntry(poly: nat, n: nat) returns (c: nat)
    requires poly == POLY
    ensures c == Zeros(n, 8)
  {
    hide ZeroBit, Xor, Zeros;
    c := n;
    NoZeros(n);
    for k := 0 to 8
      invariant c == Zeros(n, k)
    {
      NextZero(n, k);
      c := if c % 2 == 1 then Xor(poly, c / 2) else c / 2;
    }
  }

  method FillRows(table: array2<nat>, n: nat)
    requires table.Length0 == 8 && table.Length1 == 256 && n < 256
    requires forall m :: 0 <= m < 256 ==> table[0, m] == Zeros(m, 8)
    modifies table
    ensures forall j, m :: 0 <= j < 8 && 0 <= m < 256 && (j == 0 || m != n) ==> table[j, m] == old(table[j, m])
    ensures Entries(table, n)
    ensures forall m :: 0 <= m < n && old(Entries(table, m)) ==> Entries(table, m)
  {
    hide Xor, Zeros, Swap;
    var c := table[0, n];
    ZerosBound(n, 8);
    table[4, n] := Swap(c);
    for k := 1 to 4
      invariant c == Zeros(n, 8 * k)
      invariant forall j, m :: 0 <= j < 8 && 0 <= m < 256 && (j == 0 || m != n) ==> table[j, m] == old(table[j, m])
      invariant forall j :: 0 <= j < k ==> table[j, n] == Zeros(n, 8 * j + 8) < 0x1_0000_0000 && table[j + 4, n] == Swap(Zeros(n, 8 * j + 8))
    {
      ByteStep(c);
      ZerosAdd(n, 8 * k, 8);
      ZerosBound(n, 8 * k + 8);
      c := Xor(table[0, c % 256], c / 256);
      table[k, n] := c;
      table[k + 4, n] := Swap(c);
    }
  }

  // One byte by table lookup.
  lemma LookupStep(c: nat, b: byte)
    ensures Update(c, b) == Xor(Zeros(Xor(c, b) % 256, 8), c / 256)
  {
    hide Xor, Zeros;
    ByteStep(Xor(c, b));
    WordBound();
    XorShift(c, b, 8);
    XorUnit(c / 256);
  }

  method DoOne(table: array2<nat>, c: nat, b: byte) returns (r: nat)
    requires Made(table)
    ensures r == Update(c, b)
  {
    hide Xor, Zeros, Update, Entries;
    LookupStep(c, b);
    Entry(table, 0, Xor(c, b) % 256);
    r := Xor(table[0, Xor(c, b) % 256], c / 256);
  }

  // crc32 without the word-wise loops: eight bytes a round, then the rest.
  method CrcBytes(table: array2<nat>, crc0: nat, buf: seq<byte>) returns (crc: nat)
    requires Made(table)
    ensures crc == Crc(crc0, buf)
  {
    hide Xor, Fold, Made;
    crc := Xor(crc0, ONES);
    FoldNone(crc, buf);
    var pos := 0;
    while |buf| - pos >= 8
      invariant 0 <= pos <= |buf| && crc == Fold(Xor(crc0, ONES), buf[..pos])
    {
      for i := 0 to 8
        invariant crc == Fold(Xor(crc0, ONES), buf[..pos + i])
      {
        FoldStep(Xor(crc0, ONES), buf, pos + i);
        crc := DoOne(table, crc, buf[pos + i]);
      }
      pos := pos + 8;
    }
    while pos < |buf|
      invariant 0 <= pos <= |buf| && crc == Fold(Xor(crc0, ONES), buf[..pos])
    {
      FoldStep(Xor(crc0, ONES), buf, pos);
      crc := DoOne(table, crc, buf[pos]);
      pos := pos + 1;
    }
    assert buf[..|buf|] == buf;
    crc := Xor(crc, ONES);
  }

  lemma FoldNone(c: nat, s: seq<byte>)
    ensures Fold(c, s[..0]) == c
  {
  }

  // ---- four bytes at a time ----

  // A byte mixed in k steps later.
  lemma Absorb(y: nat, b: nat, k: nat)
    ensures Times(b, Pow2(k)) >= 0 && Xor(Zeros(y, k), b) == Zeros(Xor(y, Times(b, Pow2(k))), k)
  {
    hide Xor, Zeros, Times;
    ZerosShift(b, k);
    ZerosLinear(y, Times(b, Pow2(k)), k);
  }

  lemma FourUpdates(c: nat, b0: byte, b1: byte, b2: byte, b3: byte)
    ensures Update(Update(Update(Update(c, b0), b1), b2), b3) == Zeros(Xor(c, Word(b0, b1, b2, b3)), 32)
  {
    hide Xor, Zeros, Times, Pow2, Word;
    var x0 := Xor(c, b0);
    var p1, p2, p3 := Place(b1, 8), Place(b2, 16), Place(b3, 24);
    Absorb(x0, b1, 8);
    var x1 := Xor(x0, p1);
    ZerosAdd(x1, 8, 8);
    Absorb(x1, b2, 16);
    var x2 := Xor(x1, p2);
    ZerosAdd(x2, 16, 8);
    Absorb(x2, b3, 24);
    ZerosAdd(Xor(x2, p3), 24, 8);
    XorAssoc(c, b0, p1);
    XorAssoc(c, Xor(b0, p1), p2);
    XorAssoc(c, Xor(Xor(b0, p1), p2), p3);
    WordIsXor(b0, b1, b2, b3);
  }

  lemma Slide(x: nat, k: nat)
    ensures Zeros(x, 8 + k) == Xor(Zeros(x % 256, 8 + k), Zeros(x / 256, k))
  {
    hide Xor, Zeros;
    ByteStep(x);
    ZerosAdd(x, 8, k);
    ZerosAdd(x % 256, 8, k);
    ZerosLinear(Zeros(x % 256, 8), x / 256, k);
  }

  // Four table lookups at once.
  lemma FourLookups(x: nat)
    requires x < 0x1_0000_0000
    ensures Zeros(x, 32) == Xor(Xor(Xor(Zeros(x % 256, 32), Zeros(x / 256 % 256, 24)), Zeros(x / 0x1_0000 % 256, 16)), Zeros(x / 0x100_0000, 8))
  {
    hide Xor, Zeros;
    Slide(x, 24);
    Slide(x / 256, 16);
    Slide(x / 0x1_0000, 8);
    var a, b, c, d := Zeros(x % 256, 32), Zeros(x / 256 % 256, 24), Zeros(x / 0x1_0000 % 256, 16), Zeros(x / 0x100_0000, 8);
    assert x / 256 / 256 == x / 0x1_0000 && x / 0x1_0000 / 256 == x / 0x100_0000;
    XorAssoc(b, c, d);
    XorAssoc(a, Xor(b, c), d);
    XorAssoc(a, b, c);
  }

  method DoFour(table: array2<nat>, c: nat, b0: byte, b1: byte, b2: byte, b3: byte) returns (r: nat)
    requires Made(table) && c < 0x1_0000_0000
    ensures r == Update(Update(Update(Update(c, b0), b1), b2), b3)
  {
    hide Xor, Zeros, Update, Pow2, Entries, Word;
    FourUpdates(c, b0, b1, b2, b3);
    WordBound();
    BytesOfWord(b0, b1, b2, b3);
    XorBound(c, Word(b0, b1, b2, b3), 32);
    r := Xor(c, Word(b0, b1, b2, b3));
    FourLookups(r);
    Entry(table, 3, r % 256);
    Entry(table, 2, r / 256 % 256);
    Entry(table, 1, r / 0x1_0000 % 256);
    Entry(table, 0, r / 0x100_0000);
    r := Xor(Xor(Xor(table[3, r % 256], table[2, r / 256 % 256]), table[1, r / 0x1_0000 % 256]), table[0, r / 0x100_0000]);
  }

  // crc32_little: bytes up to a word boundary, eight words a round, single words, and the
  // remaining bytes.  address is where the buffer starts.
  method CrcLittle(table: array2<nat>, crc0: word, buf: seq<byte>, address: nat) returns (crc: nat)
    requires Made(table)
    ensures crc == Crc(crc0, buf)
  {
    hide Xor, Fold, Made, Crc;
    WordBound();
    XorBound(crc0, ONES, 32);
    var c := Xor(crc0, ONES);
    ghost var start := c;
    FoldNone(c, buf);
    var pos := 0;
    while pos < |buf| && (address + pos) % 4 != 0
      invariant 0 <= pos <= |buf| && c == Fold(start, buf[..pos])
    {
      FoldStep(start, buf, pos);
      c := DoOne(table, c, buf[pos]);
      pos := pos + 1;
    }
    while |buf| - pos >= 32
      invariant 0 <= pos <= |buf| && c == Fold(start, buf[..pos])
    {
      for i := 0 to 8
        invariant c == Fold(start, buf[..pos + 4 * i])
      {
        c := NextWord(table, c, buf, pos + 4 * i, start);
      }
      pos := pos + 32;
    }
    while |buf| - pos >= 4
      invariant 0 <= pos <= |buf| && c == Fold(start, buf[..pos])
    {
      c := NextWord(table, c, buf, pos, start);
      pos := pos + 4;
    }
    while pos < |buf|
      invariant 0 <= pos <= |buf| && c == Fold(start, buf[..pos])
    {
      FoldStep(start, buf, pos);
      c := DoOne(table, c, buf[pos]);
      pos := pos + 1;
    }
    assert buf[..|buf|] == buf;
    crc := Xor(c, ONES);
    CrcIs(crc0, buf);
  }

  lemma CrcIs(crc: nat, s: seq<byte>)
    ensures Crc(crc, s) == Xor(Fold(Xor(crc, ONES), s), ONES)
  {
  }

  method NextWord(table: array2<nat>, c: nat, buf: seq<byte>, pos: nat, ghost start: nat) returns (r: nat)
    requires Made(table) && pos + 4 <= |buf| && start < 0x1_0000_0000 && c == Fold(start, buf[..pos])
    ensures r == Fold(start, buf[..pos + 4])
  {
    hide Fold, Made, Update;
    FoldBound(start, buf[..pos]);
    FoldStep(start, buf, pos);
    FoldStep(start, buf, pos + 1);
    FoldStep(start, buf, pos + 2);
    FoldStep(start, buf, pos + 3);
    r := DoFour(table, c, buf[pos], buf[pos + 1], buf[pos + 2], buf[pos + 3]);
  }

  // ---- the residue ----

  // Bytes as bit vectors.
  function Num(a: bv8): byte {
    a as int
  }

  function Mixed(a: bv8, b: bv8): bv8 {
    a ^ b
  }

  function Half(a: bv8): bv8 {
    a >> 1
  }

  function Low(a: bv8): bv8 {
    a & 1
  }

  // a shifted right, with the lowest bit of b shifted in.
  function Carried(a: bv8, b: bv8): bv8 {
    (a >> 1) | (b << 7)
  }

  lemma HalfIs(a: bv8)
    ensures Num(Half(a)) == Num(a) / 2 && Num(Low(a)) == Num(a) % 2
  {
  }

  lemma CarriedIs(a: bv8, b: bv8)
    ensures Num(Carried(a, b)) as int == Num(a) / 2 + 128 * (Num(b) % 2)
  {
    hide Num, Carried, Half, Low, Topped;
    CarriedBits(a, b);
    HalfIs(a);
    HalfIs(b);
    LowIs(b);
    ToppedIs(Half(a));
  }

  function Topped(h: bv8): bv8 {
    h | 0x80
  }

  lemma CarriedBits(a: bv8, b: bv8)
    ensures Carried(a, b) == (if Low(b) == 1 then Topped(Half(a)) else Half(a)) && Half(a) & 0x80 == 0
  {
  }

  lemma ToppedIs(h: bv8)
    requires h & 0x80 == 0
    ensures Num(Topped(h)) as int == Num(h) as int + 128
  {
  }

  lemma MixedHalves(a: bv8, b: bv8)
    ensures Half(Mixed(a, b)) == Mixed(Half(a), Half(b)) && Num(Low(Mixed(a, b))) == (Num(Low(a)) + Num(Low(b))) % 2
    ensures Num(a) == 0 && Num(b) == 0 ==> Num(Mixed(a, b)) == 0
  {
  }

  lemma NumOrder(a: bv8, b: bv8)
    ensures !(Num(a) == 0 && Num(b) == 0) ==> Num(Half(a)) as int + Num(Half(b)) as int < Num(a) as int + Num(b) as int
  {
    HalfIs(a);
    HalfIs(b);
    hide Num, Half;
  }

  lemma {:induction false} MixedIsXor(a: bv8, b: bv8)
    ensures Xor(Num(a), Num(b)) == Num(Mixed(a, b))
    decreases Num(a) as int + Num(b) as int
  {
    hide Xor, Num, Mixed, Half, Low;
    NumOrder(a, b);
    MixedHalves(a, b);
    if Num(a) == 0 && Num(b) == 0 {
      XorUnit(0);
    } else {
      MixedIsXor(Half(a), Half(b));
      MixedStep(a, b);
    }
  }

  lemma MixedStep(a: bv8, b: bv8)
    requires Xor(Num(Half(a)), Num(Half(b))) == Num(Half(Mixed(a, b)))
    ensures Xor(Num(a), Num(b)) == Num(Mixed(a, b))
  {
    hide Xor, Num, Mixed, Half, Low;
    MixedHalves(a, b);
    HalfIs(a);
    HalfIs(b);
    HalfIs(Mixed(a, b));
    XorByHalves(Num(a), Num(b), Num(Mixed(a, b)));
  }

  lemma XorByHalves(x: nat, y: nat, m: nat)
    requires Xor(x / 2, y / 2) == m / 2 && m % 2 == (x % 2 + y % 2) % 2
    ensures Xor(x, y) == m
  {
    hide Xor;
    XorBits(x, y);
    Same(Xor(x, y), m);
  }

  // The shift register by bytes, highest first, for computing with.
  datatype Register = Register(b3: bv8, b2: bv8, b1: bv8, b0: bv8)

  function NatOf(r: Register): nat {
    Word(Num(r.b0), Num(r.b1), Num(r.b2), Num(r.b3))
  }

  function Tapped(r: Register): Register {
    Register(Mixed(r.b3, 0xed), Mixed(r.b2, 0xb8), Mixed(r.b1, 0x83), Mixed(r.b0, 0x20))
  }

  function Shifted(r: Register): Register {
    Register(Half(r.b3), Carried(r.b2, r.b3), Carried(r.b1, r.b2), Carried(r.b0, r.b1))
  }

  // One zero bit.
  function Step(r: Register): Register {
    if Low(r.b0) == 1 then Tapped(Shifted(r)) else Shifted(r)
  }

  lemma ShiftedIs(r: Register)
    ensures NatOf(Shifted(r)) == NatOf(r) / 2 && (Low(r.b0) == 1 <==> NatOf(r) % 2 == 1)
  {
    LowIs(r.b0);
    hide Num, Half, Carried, Low;
    HalfIs(r.b3);
    CarriedIs(r.b2, r.b3);
    CarriedIs(r.b1, r.b2);
    CarriedIs(r.b0, r.b1);
    HalfIs(r.b0);
  }

  lemma LowIs(a: bv8)
    ensures Low(a) == 1 <==> Num(Low(a)) == 1
  {
  }

  lemma TappedIs(r: Register)
    ensures NatOf(Tapped(r)) == Xor(POLY, NatOf(r))
  {
    PolyBytes();
    hide Xor, Num, Mixed, Word;
    MixedIsXor(r.b3, 0xed);
    MixedIsXor(r.b2, 0xb8);
    MixedIsXor(r.b1, 0x83);
    MixedIsXor(r.b0, 0x20);
    XorWords(Num(r.b0), Num(r.b1), Num(r.b2), Num(r.b3), Num(0x20), Num(0x83), Num(0xb8), Num(0xed));
    XorCommutes(POLY, NatOf(r));
  }

  lemma PolyBytes()
    ensures Word(Num(0x20), Num(0x83), Num(0xb8), Num(0xed)) == POLY
  {
  }

  lemma StepIs(r: Register)
    ensures NatOf(Step(r)) == ZeroBit(NatOf(r))
  {
    hide Xor, NatOf, Shifted, Tapped, Low;
    ShiftedIs(r);
    TappedIs(Shifted(r));
    XorUnit(NatOf(Shifted(r)));
  }

  function Steps(r: Register, n: nat): Register
    decreases n
  {
    if n == 0 then r else Steps(Step(r), n - 1)
  }

  // Zero bits are steps of the register.
  lemma {:induction false} StepsAre(r: Register, n: nat, k: nat)
    ensures Zeros(NatOf(r), n + k) == Zeros(NatOf(Steps(r, n)), k)
    decreases n
  {
    hide ZeroBit, NatOf, Step, Zeros;
    if n > 0 {
      StepIs(r);
      OneStep(NatOf(r), n - 1 + k);
      StepsAre(Step(r), n - 1, k);
    }
  }

  lemma OneStep(c: nat, k: nat)
    ensures Zeros(c, k + 1) == Zeros(ZeroBit(c), k)
  {
    hide ZeroBit;
  }

  lemma FourOn(r: Register, r': Register, n: nat)
    requires r' == Step(Step(Step(Step(r))))
    ensures Steps(r, n + 4) == Steps(r', n)
  {
    hide Step;
    assert Steps(r, n + 4) == Steps(Step(r), n + 3);
    assert Steps(Step(r), n + 3) == Steps(Step(Step(r)), n + 2);
    assert Steps(Step(Step(r)), n + 2) == Steps(Step(Step(Step(r))), n + 1);
  }

  lemma NoSteps(r: Register)
    ensures Steps(r, 0) == r
  {
  }

  lemma OnesSteps()
    ensures Steps(Register(0xff, 0xff, 0xff, 0xff), 32) == Register(0xde, 0xbb, 0x20, 0xe3)
  {
    hide Steps;
    FourOn(Register(0xff, 0xff, 0xff, 0xff), Register(0xb2, 0x42, 0x0d, 0xe3), 28);
    FourOn(Register(0xb2, 0x42, 0x0d, 0xe3), Register(0x2d, 0xfd, 0x10, 0x72), 24);
    FourOn(Register(0x2d, 0xfd, 0x10, 0x72), Register(0x39, 0xb1, 0xf1, 0xcf), 20);
    FourOn(Register(0x39, 0xb1, 0xf1, 0xcf), Register(0xbe, 0x26, 0xed, 0x00), 16);
    FourOn(Register(0xbe, 0x26, 0xed, 0x00), Register(0x0b, 0xe2, 0x6e, 0xd0), 12);
    FourOn(Register(0x0b, 0xe2, 0x6e, 0xd0), Register(0x00, 0xbe, 0x26, 0xed), 8);
    FourOn(Register(0x00, 0xbe, 0x26, 0xed), Register(0x86, 0xd8, 0x30, 0xba), 4);
    FourOn(Register(0x86, 0xd8, 0x30, 0xba), Register(0xde, 0xbb, 0x20, 0xe3), 0);
    NoSteps(Register(0xde, 0xbb, 0x20, 0xe3));
  }

  // A register of ones after 32 zero bits.
  lemma OnesShifted()
    ensures Zeros(0xffff_ffff, 32) == 0xdebb_20e3
  {
    RegisterEnds();
    hide Zeros, NatOf;
    StepsAre(Register(0xff, 0xff, 0xff, 0xff), 32, 0);
    OnesSteps();
    ZerosNone(0xdebb_20e3);
  }

  lemma RegisterEnds()
    ensures NatOf(Register(0xff, 0xff, 0xff, 0xff)) == 0xffff_ffff && NatOf(Register(0xde, 0xbb, 0x20, 0xe3)) == 0xdebb_20e3
  {
  }

  lemma ZerosNone(c: nat)
    ensures Zeros(c, 0) == c
  {
  }

  // The four bytes of a checksum, as they are sent behind the data.
  function Bytes4(c: nat): seq<byte> {
    [c % 256, c / 256 % 256, c / 0x1_0000 % 256, c / 0x100_0000 % 256]
  }

  // Data followed by its own checksum always has the same checksum: the register ends in the
  // state that a register of ones reaches by 32 zero bits.
  lemma Residue(s: seq<byte>)
    ensures Crc(0, s) < 0x1_0000_0000 && Crc(0, s + Bytes4(Crc(0, s))) == 0x2144_df1c
  {
    hide Xor, Zeros, Update, Word, ByteOf, Pow2;
    XorUnit(ONES);
    FoldBound(ONES, s);
    WordBound();
    var r := Fold(ONES, s);
    XorBound(r, ONES, 32);
    var c := Xor(r, ONES);
    var b := Bytes4(c);
    ByteNames(c);
    WordOfBytes(c);
    FoldFour(ONES, s, b[0], b[1], b[2], b[3]);
    FourUpdates(r, b[0], b[1], b[2], b[3]);
    XorAssoc(r, r, ONES);
    XorUnit(r);
    OnesShifted();
    ResidueWord();
  }

  lemma ResidueWord()
    ensures Xor(0xdebb_20e3, ONES) == 0x2144_df1c
  {
    ResidueBytes();
    hide Xor, Num, Mixed, Word;
    MixedIsXor(0xe3, 0xff);
    MixedIsXor(0x20, 0xff);
    MixedIsXor(0xbb, 0xff);
    MixedIsXor(0xde, 0xff);
    XorWords(Num(0xe3), Num(0x20), Num(0xbb), Num(0xde), Num(0xff), Num(0xff), Num(0xff), Num(0xff));
  }

  lemma ResidueBytes()
    ensures Word(Num(0xe3), Num(0x20), Num(0xbb), Num(0xde)) == 0xdebb_20e3 && Word(Num(0xff), Num(0xff), Num(0xff), Num(0xff)) == ONES
    ensures Word(Num(Mixed(0xe3, 0xff)), Num(Mixed(0x20, 0xff)), Num(Mixed(0xbb, 0xff)), Num(Mixed(0xde, 0xff))) == 0x2144_df1c
  {
  }

  lemma FoldFour(c: nat, s: seq<byte>, b0: byte, b1: byte, b2: byte, b3: byte)
    ensures Fold(c, s + [b0, b1, b2, b3]) == Update(Update(Update(Update(Fold(c, s), b0), b1), b2), b3)
  {
    hide Update;
    var t := s + [b0, b1, b2, b3];
    assert t[..|s|] == s && t[..|s| + 4] == t;
    FoldStep(c, t, |s|);
    FoldStep(c, t, |s| + 1);
    FoldStep(c, t, |s| + 2);
    FoldStep(c, t, |s| + 3);
  }

  // ---- the same on a big-endian machine ----

  // One byte, with the register's bytes swapped.
  method DoOneBig(table: array2<nat>, c: nat, b: byte, ghost x: nat) returns (r: nat)
    requires Made(table) && x < 0x1_0000_0000 && c == Swap(x)
    ensures Update(x, b) < 0x1_0000_0000 && r == Swap(Update(x, b))
  {
    hide Xor, Zeros, Update, Swap, Entries;
    BigIndex(x, b);
    LookupStep(x, b);
    Entry(table, 0, Xor(x, b) % 256);
    SwapLinear(Zeros(Xor(x, b) % 256, 8), x / 256);
    r := Xor(table[4, Xor(c / 0x100_0000, b)], c * 256 % 0x1_0000_0000);
  }

  lemma BigIndex(x: nat, b: byte)
    requires x < 0x1_0000_0000
    ensures Xor(Swap(x) / 0x100_0000, b) == Xor(x, b) % 256 && Swap(x) * 256 % 0x1_0000_0000 == Swap(x / 256)
  {
    hide Xor, ByteOf, Swap, Word;
    LowByte(x, b);
    SwapBytes(x);
    var b0, b1, b2, b3 := ByteOf(x, 0), ByteOf(x, 1), ByteOf(x, 2), ByteOf(x, 3);
    WordOfBytes(x);
    WordShifts(b0, b1, b2, b3);
    SwapWord(b1, b2, b3, 0);
  }

  lemma WordShifts(b0: byte, b1: byte, b2: byte, b3: byte)
    ensures Word(b0, b1, b2, b3) / 256 == Word(b1, b2, b3, 0)
    ensures Word(b3, b2, b1, b0) * 256 % 0x1_0000_0000 == Word(0, b3, b2, b1)
  {
  }

  // The low byte of a mixed register.
  lemma LowByte(x: nat, b: byte)
    ensures Xor(x % 256, b) == Xor(x, b) % 256
  {
    hide Xor, Times;
    SplitByte(x);
    LowByteOf(x, x / 256, x % 256, b);
  }

  lemma LowByteOf(x: nat, h: nat, low: nat, b: byte)
    requires low < 256 && x == Xor(Times(h, 256), low)
    ensures Xor(low, b) == Xor(x, b) % 256
  {
    hide Xor, Times;
    WordBound();
    TimesMonotone(0, h, 256);
    TimesOne(256);
    XorAssoc(Times(h, 256), low, b);
    XorBound(low, b, 8);
    XorDisjoint(h, Xor(low, b), 8);
    DivTimes(h, 256, Xor(low, b));
  }

  // A word as a big-endian machine reads it.
  method DoFourBig(table: array2<nat>, c: nat, b0: byte, b1: byte, b2: byte, b3: byte, ghost x: nat) returns (r: nat)
    requires Made(table) && x < 0x1_0000_0000 && c == Swap(x)
    ensures var u := Update(Update(Update(Update(x, b0), b1), b2), b3); u < 0x1_0000_0000 && r == Swap(u)
  {
    hide Xor, Zeros, Update, Swap, Entries, Word, Pow2;
    BytesOfWord(b3, b2, b1, b0);
    SwapWord(b0, b1, b2, b3);
    SwapLinear(x, Word(b0, b1, b2, b3));
    ghost var y := Xor(x, Word(b0, b1, b2, b3));
    FourUpdates(x, b0, b1, b2, b3);
    var z := Xor(c, Word(b3, b2, b1, b0));
    SwapBytes(y);
    FourLookups(y);
    Entry(table, 0, z % 256);
    Entry(table, 1, z / 256 % 256);
    Entry(table, 2, z / 0x1_0000 % 256);
    Entry(table, 3, z / 0x100_0000);
    FourSwaps(Zeros(y % 256, 32), Zeros(y / 256 % 256, 24), Zeros(y / 0x1_0000 % 256, 16), Zeros(y / 0x100_0000, 8));
    r := Xor(Xor(Xor(table[4, z % 256], table[5, z / 256 % 256]), table[6, z / 0x1_0000 % 256]), table[7, z / 0x100_0000]);
  }

  lemma SwapBytes(y: nat)
    requires y < 0x1_0000_0000
    ensures var z := Swap(y);
            z % 256 == y / 0x100_0000 && z / 256 % 256 == y / 0x1_0000 % 256 && z / 0x1_0000 % 256 == y / 256 % 256 && z / 0x100_0000 == y % 256
  {
    ByteNames(y);
    ByteNames(Swap(y));
    hide Word, Swap, ByteOf;
    WordOfBytes(y);
    BytesOfWord(ByteOf(y, 3), ByteOf(y, 2), ByteOf(y, 1), ByteOf(y, 0));
    WordOfBytes(Swap(y));
  }

  lemma FourSwaps(a: nat, b: nat, c: nat, d: nat)
    requires a < 0x1_0000_0000 && b < 0x1_0000_0000 && c < 0x1_0000_0000 && d < 0x1_0000_0000
    ensures var u := Xor(Xor(Xor(a, b), c), d); u < 0x1_0000_0000 && Xor(Xor(Xor(Swap(d), Swap(c)), Swap(b)), Swap(a)) == Swap(u)
  {
    hide Xor, Swap;
    SwapLinear(a, b);
    SwapLinear(Xor(a, b), c);
    SwapLinear(Xor(Xor(a, b), c), d);
    var p, q, s, t := Swap(a), Swap(b), Swap(c), Swap(d);
    // d c b a is a b c d
    XorCommutes(t, s);
    XorCommutes(Xor(s, t), q);
    XorAssoc(q, s, t);
    XorCommutes(Xor(Xor(q, s), t), p);
    XorAssoc(p, Xor(q, s), t);
    XorAssoc(p, q, s);
  }

  // crc32_big.
  method CrcBig(table: array2<nat>, crc0: word, buf: seq<byte>, address: nat) returns (crc: nat)
    requires Made(table)
    ensures crc == Crc(crc0, buf)
  {
    hide Xor, Fold, Made, Crc, Swap, Turned;
    ghost var start := Xor(crc0, ONES);
    var c := Xor(Swap(crc0), ONES);
    TurnedStart(crc0, buf);
    var pos := 0;
    while pos < |buf| && (address + pos) % 4 != 0
      invariant 0 <= pos <= |buf| && Turned(c, start, buf, pos)
    {
      c := NextByteBig(table, c, buf, pos, start);
      pos := pos + 1;
    }
    while |buf| - pos >= 32
      invariant 0 <= pos <= |buf| && Turned(c, start, buf, pos)
    {
      for i := 0 to 8
        invariant Turned(c, start, buf, pos + 4 * i)
      {
        c := NextWordBig(table, c, buf, pos + 4 * i, start);
      }
      pos := pos + 32;
    }
    while |buf| - pos >= 4
      invariant 0 <= pos <= |buf| && Turned(c, start, buf, pos)
    {
      c := NextWordBig(table, c, buf, pos, start);
      pos := pos + 4;
    }
    while pos < |buf|
      invariant 0 <= pos <= |buf| && Turned(c, start, buf, pos)
    {
      c := NextByteBig(table, c, buf, pos, start);
      pos := pos + 1;
    }
    TurnedEnd(crc0, c, buf);
    crc := Swap(Xor(c, ONES));
  }

  // The register holds the checksum of the first pos bytes with its bytes swapped.
  ghost predicate Turned(c: nat, start: nat, buf: seq<byte>, pos: int) {
    0 <= pos <= |buf| && start < 0x1_0000_0000 && Fold(start, buf[..pos]) < 0x1_0000_0000 && c == Swap(Fold(start, buf[..pos]))
  }

  lemma TurnedStart(crc0: word, buf: seq<byte>)
    ensures Xor(crc0, ONES) < 0x1_0000_0000 && Turned(Xor(Swap(crc0), ONES), Xor(crc0, ONES), buf, 0)
  {
    hide Xor, Fold, Swap;
    WordBound();
    XorBound(crc0, ONES, 32);
    SwapOnes();
    SwapLinear(crc0, ONES);
    FoldNone(Xor(crc0, ONES), buf);
  }

  lemma TurnedEnd(crc0: word, c: nat, buf: seq<byte>)
    requires Turned(c, Xor(crc0, ONES), buf, |buf|)
    ensures Xor(c, ONES) < 0x1_0000_0000 && Swap(Xor(c, ONES)) == Crc(crc0, buf)
  {
    hide Xor, Fold, Crc, Swap;
    assert buf[..|buf|] == buf;
    SwapTwice(Fold(Xor(crc0, ONES), buf));
    SwapTwice(ONES);
    SwapLinear(c, ONES);
    SwapOnes();
    CrcIs(crc0, buf);
  }

  lemma SwapOnes()
    ensures Swap(ONES) == ONES
  {
  }

  method NextByteBig(table: array2<nat>, c: nat, buf: seq<byte>, pos: nat, ghost start: nat) returns (r: nat)
    requires Made(table) && pos < |buf| && Turned(c, start, buf, pos)
    ensures Turned(r, start, buf, pos + 1)
  {
    hide Fold, Made, Update, Swap;
    FoldStep(start, buf, pos);
    r := DoOneBig(table, c, buf[pos], Fold(start, buf[..pos]));
  }

  method NextWordBig(table: array2<nat>, c: nat, buf: seq<byte>, pos: nat, ghost start: nat) returns (r: nat)
    requires Made(table) && pos + 4 <= |buf| && Turned(c, start, buf, pos)
    ensures Turned(r, start, buf, pos + 4)
  {
    hide Fold, Made, Update, Swap;
    FoldStep(start, buf, pos);
    FoldStep(start, buf, pos + 1);
    FoldStep(start, buf, pos + 2);
    FoldStep(start, buf, pos + 3);
    r := DoFourBig(table, c, buf[pos], buf[pos + 1], buf[pos + 2], buf[pos + 3], Fold(start, buf[..pos]));
  }

  // A buffer may be missing.
  datatype Buffer = Null | Bytes(s: seq<byte>)

  // crc32: on every kind of machine the same.
  method Checksum(table: array2<nat>, crc0: word, buf: Buffer, byFour: bool, littleEndian: bool, address: nat) returns (crc: nat)
    requires Made(table)
    ensures crc == if buf.Null? then 0 else Crc(crc0, buf.s)
  {
    if buf.Null? {
      return 0;
    }
    if byFour {
      if littleEndian {
        crc := CrcLittle(table, crc0, buf.s, address);
      } else {
        crc := CrcBig(table, crc0, buf.s, address);
      }
    } else {
      crc := CrcBytes(table, crc0, buf.s);
    }
  }

  // ---- combining two checksums ----

  // The matrix of k zero bits.
  ghost predicate Operator(mat: seq<nat>, k: nat) {
    |mat| == 32 && forall i :: 0 <= i < 32 ==> mat[i] == Zeros(Pow2(i), k)
  }

  // Applied to any register it does what k zero bits do.
  lemma {:induction false} OperatorApplies(mat: seq<nat>, k: nat, v: nat, i: nat)
    requires Operator(mat, k) && i <= 32 && v < Pow2(32 - i)
    ensures Times(v, Pow2(i)) >= 0 && MatVec(mat, v, i) == Zeros(Times(v, Pow2(i)), k)
    decreases v
  {
    TimesMonotone(0, v, Pow2(i));
    TimesOne(Pow2(i));
    hide Xor, Zeros, Times;
    if v == 0 {
      ZerosOfZero(k);
    } else {
      HalfFits(v, 32 - i);
      OperatorApplies(mat, k, v / 2, i + 1);
      BitAndRest(v, i);
      var bit, rest := Times(v % 2, Pow2(i)), Times(v / 2, Pow2(i + 1));
      ZerosLinear(bit, rest, k);
      if v % 2 == 0 {
        ZerosOfZero(k);
      }
    }
  }

  lemma BitAndRest(v: nat, i: nat)
    ensures Times(v % 2, Pow2(i)) == (if v % 2 == 1 then Pow2(i) else 0) && Times(v / 2, Pow2(i + 1)) >= 0
    ensures Times(v, Pow2(i)) == Xor(Times(v % 2, Pow2(i)), Times(v / 2, Pow2(i + 1)))
  {
    hide Xor, Times;
    var bit, rest := Times(v % 2, Pow2(i)), Times(v / 2, Pow2(i + 1));
    TimesOne(Pow2(i));
    XorDisjoint(v / 2, bit, i + 1);
    XorCommutes(bit, rest);
    TimesDouble(v / 2, Pow2(i));
    TimesAdd(2 * (v / 2), v % 2, Pow2(i));
  }

  lemma OperatorOn(mat: seq<nat>, k: nat, v: nat)
    requires Operator(mat, k) && v < 0x1_0000_0000
    ensures v < Pow2(32) && MatVec(mat, v, 0) == Zeros(v, k)
  {
    hide Zeros, Operator, Times;
    WordBound();
    OperatorApplies(mat, k, v, 0);
    TimesUnit(v);
  }

  // gf2_matrix_square: twice as many zero bits.
  method Square(square: array<nat>, mat: array<nat>, ghost k: nat)
    requires square != mat && square.Length == mat.Length == 32 && Operator(mat[..], k)
    modifies square
    ensures Operator(square[..], 2 * k)
  {
    hide Zeros, Pow2;
    WordBound();
    for n := 0 to 32
      invariant mat[..] == old(mat[..]) && forall i :: 0 <= i < n ==> square[i] == Zeros(Pow2(i), 2 * k)
    {
      UnitBound(n, k);
      OperatorOn(mat[..], k, mat[n]);
      ZerosAdd(Pow2(n), k, k);
      square[n] := MatrixTimes(mat, mat[n]);
    }
  }

  lemma UnitBound(n: nat, k: nat)
    requires n < 32
    ensures Pow2(n) < 0x1_0000_0000 && Zeros(Pow2(n), k) < 0x1_0000_0000
  {
    WordBound();
    Pow2Monotone(n, 31);
    ZerosBound(Pow2(n), k);
  }

  // The operator for one zero bit: the polynomial, then the bits moved down by one.
  method OneZero(odd: array<nat>)
    requires odd.Length == 32
    modifies odd
    ensures Operator(odd[..], 1)
  {
    hide Zeros, Pow2;
    UnitStep(0);
    odd[0] := 0xedb8_8320;
    var row := 1;
    for n := 1 to 32
      invariant row == Pow2(n - 1)
      invariant forall i :: 0 <= i < n ==> odd[i] == Zeros(Pow2(i), 1)
    {
      UnitStep(n);
      odd[n] := row;
      row := row * 2;
    }
  }

  lemma UnitStep(n: nat)
    ensures n == 0 ==> Zeros(Pow2(n), 1) == POLY && Pow2(n) == 1
    ensures n > 0 ==> Zeros(Pow2(n), 1) == Pow2(n - 1) && Pow2(n) == 2 * Pow2(n - 1)
  {
    NextZero(Pow2(n), 0);
    XorUnit(POLY);
    hide Xor;
  }

  // Half a round of the loop: the operator is doubled and, when the lowest bit of the length
  // is set, applied.
  method HalfRound(dst: array<nat>, src: array<nat>, crc: word, len: nat, ghost k: nat) returns (crc': word, len': nat)
    requires dst != src && dst.Length == src.Length == 32 && Operator(src[..], k) && len > 0
    modifies dst
    ensures Operator(dst[..], 2 * k) && Operator(src[..], k) && len' == len / 2
    ensures Times(2 * len', 2 * k) >= 0 && Times(len, 2 * k) >= 0 && Zeros(crc', Times(2 * len', 2 * k)) == Zeros(crc, Times(len, 2 * k))
  {
    hide Zeros, Operator, Times;
    Square(dst, src, k);
    crc' := crc;
    if len % 2 == 1 {
      OperatorOn(dst[..], 2 * k, crc);
      ZerosBound(crc, 2 * k);
      OperatorSize(dst[..], 2 * k);
      crc' := MatrixTimes(dst, crc);
    }
    len' := len / 2;
    BinaryStep(crc, len, 2 * k);
  }

  lemma OperatorSize(mat: seq<nat>, k: nat)
    requires Operator(mat, k)
    ensures |mat| == 32
  {
  }

  // The lowest bit of the length accounts for one application.
  lemma BinaryStep(c: nat, len: nat, k: nat)
    ensures Times(2 * (len / 2), k) >= 0 && Times(len, k) >= 0
    ensures Zeros(c, Times(len, k)) == Zeros(if len % 2 == 1 then Zeros(c, k) else c, Times(2 * (len / 2), k))
  {
    hide Zeros, Times;
    TimesMonotone(0, 2 * (len / 2), k);
    TimesMonotone(0, len, k);
    TimesOne(k);
    TimesAdd(2 * (len / 2), len % 2, k);
    if len % 2 == 1 {
      ZerosAdd(c, k, Times(2 * (len / 2), k));
    }
  }

  // crc32_combine_.
  method Combine(crc1: word, crc2: word, len2: int) returns (crc: nat)
    ensures len2 <= 0 ==> crc == crc1
    ensures len2 > 0 ==> crc == Xor(Zeros(crc1, 8 * len2), crc2)
  {
    if len2 <= 0 {
      return crc1;
    }
    hide Zeros, Operator, Times, Xor;
    var even, odd := new nat[32], new nat[32];
    OneZero(odd);
    Square(even, odd, 1);
    Square(odd, even, 2);
    var c: word, len: nat := crc1, len2;
    ghost var k := 4;
    EightTimes(len2);
    while true
      invariant k > 0 && len > 0 && Operator(odd[..], k) && Times(len, 2 * k) >= 0 && Zeros(c, Times(len, 2 * k)) == Zeros(crc1, 8 * len2)
      decreases len
    {
      c, len := HalfRound(even, odd, c, len, k);
      TimesDouble(len, 2 * k);
      if len == 0 {
        NoneLeft(c, 2 * k);
        break;
      }
      c, len := HalfRound(odd, even, c, len, 2 * k);
      TimesDouble(len, 4 * k);
      k := 4 * k;
      if len == 0 {
        NoneLeft(c, k);
        break;
      }
    }
    crc := Xor(c, crc2);
  }

  lemma NoneLeft(c: nat, k: nat)
    ensures Times(2 * 0, k) == 0 && Times(0, k) == 0 && Zeros(c, 0) == c
  {
  }

  lemma EightTimes(n: nat)
    ensures Times(n, 8) == 8 * n
  {
  }

  // crc32_combine: from the checksums of two byte strings and the length of the second, the
  // checksum of the one followed by the other.
  method CrcCombine(crc1: word, crc2: word, len2: int, ghost s: seq<byte>, ghost t: seq<byte>) returns (crc: nat)
    requires crc1 == Crc(0, s) && crc2 == Crc(0, t) && len2 == |t|
    ensures crc == Crc(0, s + t)
  {
    hide Zeros, Crc, Xor;
    CrcOfConcatenation(s, t);
    if t == [] {
      assert s + t == s;
    }
    crc := Combine(crc1, crc2, len2);
  }
}
