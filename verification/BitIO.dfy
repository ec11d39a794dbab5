// The bit stream: bsW fills a 32-bit buffer from the top and moves whole bytes out of it;
// GET_BITS refills a 32-bit buffer from the bottom one byte at a time.
module BitIO {
  import opened Powers
  import opened Bits
  import opened Rotations

  // The bits of a byte string.
  function BytesToBits(s: seq<byte>): (t: seq<bit>)
    ensures |t| == 8 * |s|
  {
    if s == [] then [] else BytesToBits(s[..|s| - 1]) + ToBits(s[|s| - 1], 8)
  }

  lemma BytesMore(s: seq<byte>, c: byte)
    ensures BytesToBits(s + [c]) == BytesToBits(s) + ToBits(c, 8)
  {
    assert (s + [c])[..|s|] == s;
  }

  lemma {:induction false} BytesFront(s: seq<byte>)
    requires s != []
    ensures BytesToBits(s) == ToBits(s[0], 8) + BytesToBits(s[1..])
  {
    var k := |s| - 1;
    if k == 0 {
      assert BytesToBits([]) == [];
      assert s[..0] == [] && s[1..] == [];
    } else {
      BytesFront(s[..k]);
      assert s[..k][1..] == s[1..][..k - 1] && s[1..][k - 1] == s[k];
      assert ToBits(s[0], 8) + (BytesToBits(s[1..][..k - 1]) + ToBits(s[k], 8)) == ToBits(s[0], 8) + BytesToBits(s[1..][..k - 1]) + ToBits(s[k], 8);
    }
  }

  // ---- writing ----

  // The buffer holds the pending bits at its top end.
  ghost predicate Top(buff: nat, pend: seq<bit>) {
    |pend| <= 32 && buff == Times(Value(pend), Pow2(32 - |pend|))
  }

  // The top byte of the buffer, and the buffer once it is shifted out.
  lemma TopByte(buff: nat, pend: seq<bit>, live: nat)
    requires Top(buff, pend) && live == |pend| >= 8
    ensures 0 <= buff / 0x100_0000 < 256 && ToBits(buff / 0x100_0000, 8) == pend[..8]
    ensures Top(buff * 256 % 0x1_0000_0000, pend[8..])
  {
    hide Value, Pow2, ToBits, Times;
    var hi, lo, k := pend[..8], pend[8..], 32 - live;
    assert pend == hi + lo;
    ValueAppend(hi, lo);
    BitsOfValue(hi);
    Powers24();
    var a, c, q := Value(hi), Value(lo), Pow2(k);
    var low := Times(c, q);
    TopSplit(a, c, |lo|, k);
    TopShift(buff, a, low);
    TimesAssoc(c, k, 8);
  }

  lemma Powers24()
    ensures Pow2(8) == 256 && Pow2(24) == 0x100_0000
  {
    Pow2Values();
    assert Pow2(24) == 16 * Pow2(20);
  }

  lemma TopSplit(a: nat, c: nat, m: nat, k: nat)
    requires m + k == 24 && c < Pow2(m)
    ensures Times(Times(a, Pow2(m)) + c, Pow2(k)) == Times(a, 0x100_0000) + Times(c, Pow2(k))
    ensures 0 <= Times(c, Pow2(k)) < 0x100_0000
  {
    hide Times, Pow2;
    Powers24();
    TimesAdd(Times(a, Pow2(m)), c, Pow2(k));
    TimesAssoc(a, m, k);
    TimesPow(m, k);
    TimesSmaller(c, Pow2(m), Pow2(k));
    TimesMonotone(0, c, Pow2(k));
    TimesOne(Pow2(k));
  }

  lemma TopShift(buff: nat, a: nat, low: nat)
    requires buff == Times(a, 0x100_0000) + low && low < 0x100_0000
    ensures buff / 0x100_0000 == a && buff * 256 % 0x1_0000_0000 == Times(low, 256)
  {
    DivTimes(a, 0x100_0000, low);
    DivTimes(a, 0x1_0000_0000, 256 * low);
  }

  lemma TimesSmaller(a: int, b: int, p: int)
    requires a < b && 0 < p
    ensures Times(a, p) < Times(b, p)
  {
    TimesIncreasing(b, a, p);
  }

  // Entering n more bits below the pending ones.
  lemma TopMore(buff: nat, pend: seq<bit>, n: nat, v: nat)
    requires Top(buff, pend) && |pend| + n <= 32 && v < Pow2(n)
    ensures Top(buff + Times(v, Pow2(32 - |pend| - n)), pend + ToBits(v, n))
  {
    hide Value, ToBits, Times, Pow2;
    var t, k := ToBits(v, n), 32 - |pend| - n;
    ValueAppend(pend, t);
    ValueOfBits(v, n);
    TimesAdd(Times(Value(pend), Pow2(n)), v, Pow2(k));
    TimesAssoc(Value(pend), n, k);
  }

  class BitWriter {
    var bsBuff: nat
    var bsLive: int
    var zbits: seq<byte>
    ghost var pend: seq<bit>

    ghost predicate Valid()
      reads this
    {
      bsLive == |pend| && Top(bsBuff, pend)
    }

    // All bits written so far.
    ghost function Written(): seq<bit>
      reads this
    {
      BytesToBits(zbits) + pend
    }

    // BZ2_bsInitWrite
    constructor ()
      ensures Valid() && Written() == []
    {
      bsBuff, bsLive, zbits, pend := 0, 0, [], [];
    }

    // bsNEEDW
    method NeedW()
      requires Valid()
      modifies this
      ensures Valid() && Written() == old(Written()) && bsLive < 8
    {
      hide Top, BytesToBits, ToBits;
      while bsLive >= 8
        invariant Valid() && Written() == old(Written())
      {
        TopByte(bsBuff, pend, bsLive);
        BytesMore(zbits, bsBuff / 0x100_0000);
        assert BytesToBits(zbits) + pend == BytesToBits(zbits) + pend[..8] + pend[8..];
        zbits := zbits + [bsBuff / 0x100_0000];
        bsBuff := bsBuff * 256 % 0x1_0000_0000;
        bsLive := bsLive - 8;
        pend := pend[8..];
      }
    }

    // bsW: the bits of v follow everything written before.
    method W(n: nat, v: nat)
      requires Valid() && n <= 24 && v < Pow2(n)
      modifies this
      ensures Valid() && Written() == old(Written()) + ToBits(v, n)
    {
      hide Top, BytesToBits, ToBits, Times;
      NeedW();
      TopMore(bsBuff, pend, n, v);
      TimesMonotone(0, v, Pow2(32 - bsLive - n));
      TimesOne(Pow2(32 - bsLive - n));
      assert BytesToBits(zbits) + (pend + ToBits(v, n)) == BytesToBits(zbits) + pend + ToBits(v, n);
      bsBuff := bsBuff + Times(v, Pow2(32 - bsLive - n));
      bsLive := bsLive + n;
      pend := pend + ToBits(v, n);
    }

    // The bytes completed so far leave the buffer; numZ becomes zero.
    method Take() returns (z: seq<byte>)
      modifies this`zbits
      ensures z == old(zbits) && BytesToBits(z) + Written() == old(Written())
      ensures old(Valid()) ==> Valid() && |Written()| <= 32
    {
      hide ToBits, Value, Times;
      z := zbits;
      zbits := [];
      assert [] + pend == pend;
    }

    // bsFinishWrite: the last byte is filled up with zero bits.
    method FinishWrite()
      requires Valid()
      modifies this
      ensures exists pad: nat :: pad < 8 && BytesToBits(zbits) == old(Written()) + ToBits(0, pad)
    {
      hide Top, BytesToBits, ToBits, Times;
      NeedW();
      ghost var pad := (8 - bsLive) % 8;
      TopMore(bsBuff, pend, pad, 0);
      TimesOne(Pow2(32 - bsLive - pad));
      assert BytesToBits(zbits) + (pend + ToBits(0, pad)) == BytesToBits(zbits) + pend + ToBits(0, pad);
      pend := pend + ToBits(0, pad);
      if bsLive > 0 {
        TopByte(bsBuff, pend, 8);
        BytesMore(zbits, bsBuff / 0x100_0000);
        assert pend[..8] == pend;
        zbits := zbits + [bsBuff / 0x100_0000];
        bsBuff := bsBuff * 256 % 0x1_0000_0000;
        bsLive := bsLive - 8;
      } else {
        assert pend == [];
        assert BytesToBits(zbits) + pend == BytesToBits(zbits);
      }
    }
  }

  // ---- reading ----

  // The buffer holds the pending bits at its bottom end, with used-up ones, worth g, above.
  ghost predicate Bottom(buff: nat, pend: seq<bit>, g: nat) {
    |pend| <= 32 && buff == Times(g, Pow2(|pend|)) + Value(pend) && buff < 0x1_0000_0000
  }

  // Taking the n oldest pending bits.
  lemma BottomTake(buff: nat, pend: seq<bit>, g: nat, n: nat) returns (h: nat)
    requires Bottom(buff, pend, g) && n <= |pend|
    ensures buff / Pow2(|pend| - n) % Pow2(n) == Value(pend[..n])
    ensures Bottom(buff, pend[n..], h)
  {
    hide Value, Pow2, Times;
    var hi, lo, m := pend[..n], pend[n..], |pend| - n;
    assert pend == hi + lo;
    ValueAppend(hi, lo);
    var a, c := Value(hi), Value(lo);
    TimesMonotone(0, g, Pow2(n));
    TimesOne(Pow2(n));
    h := Times(g, Pow2(n)) + a;
    TimesAssoc(g, n, m);
    TimesAdd(Times(g, Pow2(n)), a, Pow2(m));
    DivTimes(h, Pow2(m), c);
    DivTimes(g, Pow2(n), a);
  }

  // Shifting one more byte in.
  lemma BottomMore(buff: nat, pend: seq<bit>, g: nat, c: byte) returns (h: nat)
    requires Bottom(buff, pend, g) && |pend| + 8 <= 32
    ensures Bottom((buff * 256 + c) % 0x1_0000_0000, pend + ToBits(c, 8), h)
  {
    hide Value, Pow2, Times, ToBits;
    var m := |pend| + 8;
    var t := ToBits(c, 8);
    Powers24();
    ValueOfBits(c, 8);
    ValueAppend(pend, t);
    TimesAssoc(g, |pend|, 8);
    TimesAdd(Times(g, Pow2(|pend|)), Value(pend), 256);
    Times256(buff);
    var v := Value(pend + t);
    assert buff * 256 + c == Times(g, Pow2(m)) + v;
    h := ModSplit(g, m, v);
  }

  lemma Times256(x: int)
    ensures Times(x, 256) == x * 256
  {
  }

  // Reducing modulo 2^32 only touches what lies above the pending bits.
  lemma ModSplit(g: nat, m: nat, v: nat) returns (h: nat)
    requires m <= 32 && v < Pow2(m)
    ensures (Times(g, Pow2(m)) + v) % 0x1_0000_0000 == Times(h, Pow2(m)) + v < 0x1_0000_0000
  {
    hide Times, Pow2;
    var k := 32 - m;
    var q, r := g / Pow2(k), g % Pow2(k);
    h := r;
    TimesIs(q, Pow2(k), g);
    TimesAdd(Times(q, Pow2(k)), r, Pow2(m));
    TimesAssoc(q, k, m);
    Pow2Values();
    TimesAdd(r, 1, Pow2(m));
    TimesOne(Pow2(m));
    TimesMonotone(r + 1, Pow2(k), Pow2(m));
    TimesPow(k, m);
    TimesMonotone(0, r, Pow2(m));
    DivTimes(q, Pow2(32), Times(r, Pow2(m)) + v);
  }

  // The bits of everything still to be offered.
  function SupplyBits(supply: seq<seq<byte>>): seq<bit> {
    if supply == [] then [] else BytesToBits(supply[0]) + SupplyBits(supply[1..])
  }

  // The decoder's input side.  Running out of input suspends the decoder in the middle of
  // GET_BITS until the caller comes back with more; supply lists the pieces the caller will
  // bring, which may be empty, and the suspension is modelled as going on with the next one.
  class BitReader {
    var bsBuff: nat
    var bsLive: nat
    var nextIn: seq<byte>
    var supply: seq<seq<byte>>
    ghost var pend: seq<bit>
    ghost var spent: nat

    ghost predicate Valid()
      reads this
    {
      bsLive == |pend| && Bottom(bsBuff, pend, spent)
    }

    // The bits still to be read.
    ghost function Stream(): seq<bit>
      reads this
    {
      pend + (BytesToBits(nextIn) + SupplyBits(supply))
    }

    constructor (pieces: seq<seq<byte>>)
      ensures Valid() && Stream() == SupplyBits(pieces)
    {
      bsBuff, bsLive, nextIn, supply, pend, spent := 0, 0, [], pieces, [], 0;
      new;
      assert BytesToBits([]) == [];
    }

    // The caller comes back with the next piece of input.
    method Resume()
      requires Valid() && |nextIn| == 0 && |supply| > 0
      modifies this
      ensures Valid() && Stream() == old(Stream()) && pend == old(pend) && |supply| == |old(supply)| - 1
    {
      hide Bottom, BytesToBits;
      BytesNone(nextIn);
      SupplyFront(supply);
      nextIn, supply := supply[0], supply[1..];
    }

    // GET_BITS: the next n bits of the stream, or nothing if there are not that many; how the
    // input was cut into pieces makes no difference.
    method GetBits(n: nat) returns (ok: bool, v: nat)
      requires Valid() && n <= 24
      modifies this
      ensures Valid() && (ok <==> n <= |old(Stream())|)
      ensures ok ==> v == Value(old(Stream())[..n]) && Stream() == old(Stream())[n..]
      ensures !ok ==> Stream() == old(Stream())
    {
      hide Bottom, ToBits, BytesToBits, SupplyBits, Value, Times, Pow2;
      ghost var all := Stream();
      while bsLive < n
        invariant Valid() && Stream() == all
        decreases |supply|, |nextIn|
      {
        if |nextIn| == 0 {
          if |supply| == 0 {
            BytesNone(nextIn);
            SupplyNone(supply);
            return false, 0;
          }
          Resume();
          continue;
        }
        BottomRoom(bsBuff, pend, spent);
        var c := nextIn[0];
        ghost var h := BottomMore(bsBuff, pend, spent, c);
        BytesFront(nextIn);
        Reassoc(pend, ToBits(c, 8), BytesToBits(nextIn[1..]), SupplyBits(supply));
        bsBuff := (bsBuff * 256 + c) % 0x1_0000_0000;
        bsLive := bsLive + 8;
        pend := pend + ToBits(c, 8);
        spent := h;
        nextIn := nextIn[1..];
      }
      ghost var h := BottomTake(bsBuff, pend, spent, n);
      v := bsBuff / Pow2(bsLive - n) % Pow2(n);
      assert all[..n] == pend[..n] && all[n..] == pend[n..] + (BytesToBits(nextIn) + SupplyBits(supply));
      bsLive := bsLive - n;
      pend := pend[n..];
      spent := h;
      ok := true;
    }
  }

  lemma BottomRoom(buff: nat, pend: seq<bit>, g: nat)
    requires Bottom(buff, pend, g)
    ensures |pend| <= 32
  {
  }

  lemma Reassoc(a: seq<bit>, b: seq<bit>, c: seq<bit>, d: seq<bit>)
    ensures a + ((b + c) + d) == (a + b) + (c + d)
  {
  }

  lemma SupplyFront(supply: seq<seq<byte>>)
    requires |supply| > 0
    ensures SupplyBits(supply) == BytesToBits(supply[0]) + SupplyBits(supply[1..])
    ensures [] + SupplyBits(supply) == SupplyBits(supply)
  {
  }

  lemma SupplyNone(supply: seq<seq<byte>>)
    requires |supply| == 0
    ensures SupplyBits(supply) == []
  {
  }

  // However a byte string is cut into pieces, its bits are the same.
  lemma {:induction false} SupplyWhole(supply: seq<seq<byte>>)
    ensures SupplyBits(supply) == BytesToBits(Flatten(supply))
  {
    if supply != [] {
      SupplyWhole(supply[1..]);
      BytesConcat(supply[0], Flatten(supply[1..]));
    }
  }

  function Flatten(supply: seq<seq<byte>>): seq<byte> {
    if supply == [] then [] else supply[0] + Flatten(supply[1..])
  }

  lemma BytesNone(s: seq<byte>)
    requires |s| == 0
    ensures BytesToBits(s) == []
  {
  }

  lemma {:induction false} BytesConcat(s: seq<byte>, t: seq<byte>)
    ensures BytesToBits(s + t) == BytesToBits(s) + BytesToBits(t)
  {
    if t == [] {
      assert s + t == s;
    } else {
      var k := |t| - 1;
      BytesConcat(s, t[..k]);
      assert (s + t)[..|s| + k] == s + t[..k];
    }
  }
}
