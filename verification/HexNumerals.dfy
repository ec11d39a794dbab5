// Hexadecimal numbers: what is written with %lX and read with strtoul, against the plain
// meaning of a digit as its place among the sixteen.
module HexNumerals {
  import opened Rotations

  const UPPER := "0123456789ABCDEF"
  const LOWER := "0123456789abcdef"

  // ---- what a numeral is ----

  // The digit of value d, in either case.
  function Glyph(d: nat, lower: bool): (c: byte)
    requires d < 16
  {
    if lower then LOWER[d] as int else UPPER[d] as int
  }

  function Upper(n: nat): nat {
    n / 16
  }

  function Lowest(n: nat): (d: nat)
    ensures d < 16
  {
    n % 16
  }

  // The last |cases| digits of n, leading zeros included, each in the case asked for.
  function Written(n: nat, cases: seq<bool>): (s: seq<byte>)
    ensures |s| == |cases|
  {
    if cases == [] then [] else Written(Upper(n), cases[..|cases| - 1]) + [Glyph(Lowest(n), cases[|cases| - 1])]
  }

  function Power16(k: nat): nat {
    if k == 0 then 1 else 16 * Power16(k - 1)
  }

  // A spelling of n: enough digits, in any cases.
  ghost predicate Spells(size: seq<byte>, n: nat) {
    exists cases: seq<bool> :: SpellsIn(size, n, cases)
  }

  ghost predicate SpellsIn(size: seq<byte>, n: nat, cases: seq<bool>) {
    cases != [] && n < Power16(|cases|) && size == Written(n, cases)
  }

  // ---- writing ----

  function HexDigit(d: nat): byte
    requires d < 16
  {
    if d < 10 then 48 + d else 55 + d
  }

  // The format %lX.
  function Hex(n: nat): (s: seq<byte>)
    ensures |s| > 0
  {
    if n < 16 then [HexDigit(n)] else Hex(Upper(n)) + [HexDigit(Lowest(n))]
  }

  lemma DigitIsGlyph(d: nat)
    requires d < 16
    ensures HexDigit(d) == Glyph(d, false)
  {
  }

  // Written in upper case with as many digits as it takes.
  lemma {:induction false} HexIsWritten(n: nat) returns (cases: seq<bool>)
    ensures SpellsIn(Hex(n), n, cases) && forall i :: 0 <= i < |cases| ==> !cases[i]
  {
    hide HexDigit, Glyph;
    DigitIsGlyph(Lowest(n));
    if n < 16 {
      cases := [false];
      assert Written(Upper(n), cases[..0]) == [];
      assert Power16(1) == 16 * Power16(0);
    } else {
      var front := HexIsWritten(Upper(n));
      cases := front + [false];
      assert cases[..|front|] == front;
    }
  }

  lemma HexSpells(n: nat)
    ensures Spells(Hex(n), n)
  {
    var cases := HexIsWritten(n);
  }

  lemma HexIsShort(n: nat)
    requires n <= 65536
    ensures |Hex(n)| <= 5
  {
    var n1 := n / 16;
    var n2 := n1 / 16;
    var n3 := n2 / 16;
    var n4 := n3 / 16;
    assert |Hex(n4)| == 1;
    assert |Hex(n3)| <= 2;
    assert |Hex(n2)| <= 3;
    assert |Hex(n1)| <= 4;
  }

  // ---- reading ----

  predicate IsHex(c: int) {
    48 <= c <= 57 || 65 <= c <= 70 || 97 <= c <= 102
  }

  function DigitValue(c: int): nat
    requires IsHex(c)
  {
    if c <= 57 then c - 48 else if c <= 70 then c - 55 else c - 87
  }

  ghost predicate AllHex(ds: seq<int>) {
    forall i :: 0 <= i < |ds| ==> IsHex(ds[i])
  }

  // strtoul with base 16.
  function HexValue(ds: seq<int>): nat
    requires forall i :: 0 <= i < |ds| ==> IsHex(ds[i])
  {
    if ds == [] then 0 else 16 * HexValue(ds[..|ds| - 1]) + DigitValue(ds[|ds| - 1])
  }

  // Exactly the twenty-two glyphs are digits, and a digit's value is its place.
  lemma DigitIsPlace(c: int)
    ensures IsHex(c) <==> exists d: nat, lower: bool :: d < 16 && c == Glyph(d, lower)
    ensures IsHex(c) ==> DigitValue(c) < 16 && (c == Glyph(DigitValue(c), false) || c == Glyph(DigitValue(c), true))
  {
    if IsHex(c) {
      var d := DigitValue(c);
      assert c == Glyph(d, 97 <= c);
    }
  }

  lemma GlyphIsRead(d: nat, lower: bool)
    requires d < 16
    ensures IsHex(Glyph(d, lower)) && DigitValue(Glyph(d, lower)) == d
  {
  }

  lemma Parts(n: nat, p: nat)
    ensures n == 16 * Upper(n) + Lowest(n) && (n < 16 * p ==> Upper(n) < p)
  {
  }

  // Every spelling of every number is read as that number.
  lemma {:induction false} WrittenIsRead(n: nat, cases: seq<bool>)
    requires n < Power16(|cases|)
    ensures AllHex(Written(n, cases)) && HexValue(Written(n, cases)) == n
  {
    hide IsHex, DigitValue, Glyph, Upper, Lowest;
    if cases != [] {
      var k := |cases| - 1;
      Parts(n, Power16(k));
      WrittenIsRead(Upper(n), cases[..k]);
      GlyphIsRead(Lowest(n), cases[k]);
      assert Written(n, cases)[..k] == Written(Upper(n), cases[..k]);
    }
  }

  lemma SpellingIsRead(size: seq<byte>, n: nat)
    requires Spells(size, n)
    ensures size != [] && AllHex(size) && HexValue(size) == n
  {
    var cases :| SpellsIn(size, n, cases);
    WrittenIsRead(n, cases);
    hide Written, HexValue, IsHex;
  }

  lemma {:induction false} HexBound(ds: seq<int>)
    requires AllHex(ds)
    ensures HexValue(ds) < Power16(|ds|)
  {
    if ds != [] {
      HexBound(ds[..|ds| - 1]);
    }
  }

  lemma {:induction false} Power16Grows(j: nat, k: nat)
    requires j <= k
    ensures 1 <= Power16(j) <= Power16(k)
    decreases k
  {
    if j < k {
      Power16Grows(j, k - 1);
    } else if k > 0 {
      Power16Grows(j - 1, k - 1);
    }
  }

  lemma Power16Sixteen()
    ensures Power16(16) == 0x1_0000_0000_0000_0000
  {
    assert Power16(2) == 256;
    assert Power16(4) == 65536;
    assert Power16(6) == 256 * Power16(4);
    assert Power16(8) == 256 * Power16(6);
    assert Power16(10) == 256 * Power16(8);
    assert Power16(12) == 256 * Power16(10);
    assert Power16(14) == 256 * Power16(12);
    assert Power16(16) == 256 * Power16(14);
  }

  // What is read from a front of the digits is smaller, but for zero.
  lemma {:induction false} FrontIsLess(ds: seq<int>, k: nat)
    requires AllHex(ds) && 0 < k < |ds|
    ensures AllHex(ds[..k]) && HexValue(ds[..k]) <= HexValue(ds)
    ensures HexValue(ds[..k]) == HexValue(ds) <==> HexValue(ds) == 0
  {
    hide IsHex, DigitValue;
    var front := ds[..|ds| - 1];
    if k < |front| {
      FrontIsLess(front, k);
      assert front[..k] == ds[..k];
    }
  }
}
