// What surrounds the block bodies: the stream header, the header of every block with its
// checksum and start row, and the trailer.
module Container {
  import opened Powers
  import opened Bits
  import opened BitIO
  import opened Rotations
  import opened SideInfo
  import opened CodingTables

  const HDR: seq<byte> := [0x42, 0x5a, 0x68]
  const HDR_0: byte := 0x30
  const BLOCK_MAGIC: seq<byte> := [0x31, 0x41, 0x59, 0x26, 0x53, 0x59]
  const END_MAGIC: seq<byte> := [0x17, 0x72, 0x45, 0x38, 0x50, 0x90]

  function StreamHeader(level: nat): seq<bit>
    requires 1 <= level <= 9
  {
    BytesToBits(HDR + [HDR_0 + level])
  }

  // The bit after the checksum says that the block is not randomised.
  function BlockHeader(crc: nat, origPtr: nat): seq<bit> {
    BytesToBits(BLOCK_MAGIC) + (ToBits(crc, 32) + (Bit(false) + ToBits(origPtr, 24)))
  }

  function Trailer(combined: nat): seq<bit> {
    BytesToBits(END_MAGIC) + ToBits(combined, 32)
  }

  // ---- writing ----

  method PutBytes(w: BitWriter, s: seq<byte>)
    requires w.Valid()
    modifies w
    ensures w.Valid() && w.Written() == old(w.Written()) + BytesToBits(s)
  {
    hide BitWriter.Valid, BitWriter.Written, ToBits, BytesToBits, Pow2;
    NoBits();
    ghost var start := w.Written();
    assert s[..0] == [] && start + [] == start;
    for i := 0 to |s|
      invariant w.Valid() && w.Written() == start + BytesToBits(s[..i])
    {
      BytesMore(s[..i], s[i]);
      assert s[..i + 1] == s[..i] + [s[i]];
      Join(start, BytesToBits(s[..i]), ToBits(s[i], 8));
      w.W(8, s[i]);
    }
    assert s[..|s|] == s;
  }

  lemma NoBits()
    ensures BytesToBits([]) == [] && Pow2(8) == 256 && Pow2(32) == 0x1_0000_0000 && Pow2(1) == 2 && Pow2(24) == 0x100_0000
  {
    Pow2Values();
    Powers24();
  }

  lemma LastBit(v: nat, n: nat)
    requires n > 0
    ensures ToBits(v, n) == ToBits(v / 2, n - 1) + [v % 2] && Pow2(n) == 2 * Pow2(n - 1)
  {
  }

  // The number left when the bits below p are dropped.
  function High(v: nat, p: nat): (q: nat)
    requires p > 0
  {
    DivNat(v, p);
    v / p
  }

  lemma DivNat(v: nat, p: nat)
    requires p > 0
    ensures v / p >= 0
  {
  }

  // The bits of a number are those of its high part and those of its low part.
  lemma {:induction false} ToBitsSplit(v: nat, m: nat, n: nat)
    ensures ToBits(v, m + n) == ToBits(High(v, Pow2(n)), m) + ToBits(v, n)
    decreases n, 1
  {
    if n == 0 {
      assert ToBits(v, 0) == [];
      assert ToBits(v, m) + [] == ToBits(v, m);
    } else {
      SplitStep(v, m, n);
    }
  }

  lemma SplitStep(v: nat, m: nat, n: nat)
    requires n > 0
    ensures ToBits(v, m + n) == ToBits(High(v, Pow2(n)), m) + ToBits(v, n)
    decreases n, 0
  {
    hide ToBits, Pow2, High;
    ToBitsSplit(v / 2, m, n - 1);
    LastBit(v, m + n);
    LastBit(v, n);
    HighHalf(v, Pow2(n - 1));
    Join(ToBits(High(v, Pow2(n)), m), ToBits(v / 2, n - 1), [v % 2]);
  }

  lemma HighHalf(v: nat, p: nat)
    requires p > 0
    ensures High(v, 2 * p) == High(v / 2, p)
  {
    Halving(v, p);
  }

  // Only the low bits matter.
  lemma {:induction false} ToBitsLow(v: nat, n: nat)
    ensures ToBits(v % Pow2(n), n) == ToBits(v, n)
  {
    if n > 0 {
      var p := Pow2(n - 1);
      ToBitsLow(v / 2, n - 1);
      var q, r := v / 2 / p, v / 2 % p;
      TimesIs(q, p, v / 2);
      TimesDouble(q, p);
      DivTimes(q, 2 * p, 2 * r + v % 2);
    }
  }

  // bsPutUInt32.
  method PutUInt32(w: BitWriter, u: nat)
    requires w.Valid() && u < 0x1_0000_0000
    modifies w
    ensures w.Valid() && w.Written() == old(w.Written()) + ToBits(u, 32)
  {
    hide BitWriter.Valid, BitWriter.Written, ToBits, Pow2;
    FourBytes(u);
    ghost var start := w.Written();
    w.W(8, u / 0x100_0000 % 256);
    w.W(8, u / 0x1_0000 % 256);
    w.W(8, u / 256 % 256);
    w.W(8, u % 256);
    FourJoin(start, ToBits(u / 0x100_0000 % 256, 8), ToBits(u / 0x1_0000 % 256, 8), ToBits(u / 256 % 256, 8), ToBits(u % 256, 8));
  }

  lemma FourJoin(s: seq<bit>, a: seq<bit>, b: seq<bit>, c: seq<bit>, d: seq<bit>)
    ensures s + a + b + c + d == s + (a + b + c + d)
  {
  }

  lemma FourBytes(u: nat)
    requires u < 0x1_0000_0000
    ensures Pow2(8) == 256
    ensures ToBits(u, 32) == ToBits(u / 0x100_0000 % 256, 8) + ToBits(u / 0x1_0000 % 256, 8) + ToBits(u / 256 % 256, 8) + ToBits(u % 256, 8)
  {
    Pow2Values();
    hide Pow2, ToBits;
    ToBitsSplit(u, 24, 8);
    ToBitsSplit(u / 256, 16, 8);
    ToBitsSplit(u / 256 / 256, 8, 8);
    ToBitsLow(u / 0x100_0000, 8);
    ToBitsLow(u / 0x1_0000, 8);
    ToBitsLow(u / 256, 8);
    ToBitsLow(u, 8);
  }

  method PutBlockHeader(w: BitWriter, crc: nat, origPtr: nat)
    requires w.Valid() && crc < 0x1_0000_0000 && origPtr < 0x100_0000
    modifies w
    ensures w.Valid() && w.Written() == old(w.Written()) + BlockHeader(crc, origPtr)
  {
    hide BitWriter.Valid, BitWriter.Written, ToBits, BytesToBits, Bit, Pow2;
    NoBits();
    ghost var start := w.Written();
    PutBytes(w, BLOCK_MAGIC);
    PutUInt32(w, crc);
    PutBit(w, false);
    w.W(24, origPtr);
    HeaderJoin(start, BytesToBits(BLOCK_MAGIC), ToBits(crc, 32), Bit(false), ToBits(origPtr, 24));
  }

  lemma HeaderJoin(s: seq<bit>, a: seq<bit>, b: seq<bit>, c: seq<bit>, d: seq<bit>)
    ensures s + a + b + c + d == s + (a + (b + (c + d)))
  {
  }

  method PutTrailer(w: BitWriter, combined: nat)
    requires w.Valid() && combined < 0x1_0000_0000
    modifies w
    ensures w.Valid() && w.Written() == old(w.Written()) + Trailer(combined)
  {
    hide BitWriter.Valid, BitWriter.Written, ToBits, BytesToBits;
    ghost var start := w.Written();
    PutBytes(w, END_MAGIC);
    PutUInt32(w, combined);
    Join(start, BytesToBits(END_MAGIC), ToBits(combined, 32));
  }

  // ---- reading ----

  // Bytes that must be exactly these.
  function ParseMatch(bits: seq<bit>, want: seq<byte>): Parsed<()>
    decreases |want|
  {
    if want == [] then Done((), bits)
    else if |bits| < 8 then Starved
    else if Value(bits[..8]) != want[0] then Corrupt
    else ParseMatch(bits[8..], want[1..])
  }

  // The number in the next n bits.
  function ParseNumber(bits: seq<bit>, n: nat): Parsed<nat> {
    if |bits| < n then Starved else Done(Value(bits[..n]), bits[n..])
  }

  datatype Header = ABlock(crc: nat, randomised: nat, origPtr: nat) | TheEnd(combined: nat)

  function ParseHeader(bits: seq<bit>, level: nat): Parsed<Header> {
    if |bits| < 8 then Starved
    else if Value(bits[..8]) == END_MAGIC[0] then ParseTrailer(bits[8..])
    else if Value(bits[..8]) != BLOCK_MAGIC[0] then Corrupt
    else ParseBlockHeader(bits[8..], level)
  }

  function ParseTrailer(bits: seq<bit>): Parsed<Header> {
    var m := ParseMatch(bits, END_MAGIC[1..]);
    if !m.Done? then Failing(m)
    else
      var c := ParseNumber(m.rest, 32);
      if c.Done? then Done(TheEnd(c.value), c.rest) else Starved
  }

  function ParseBlockHeader(bits: seq<bit>, level: nat): Parsed<Header> {
    var m := ParseMatch(bits, BLOCK_MAGIC[1..]);
    if !m.Done? then Failing(m)
    else
      var c := ParseNumber(m.rest, 32);
      if !c.Done? then Starved
      else
        var x := ParseNumber(c.rest, 1);
        if !x.Done? then Starved
        else
          var o := ParseNumber(x.rest, 24);
          if !o.Done? then Starved
          else if o.value > 10 + 100000 * level then Corrupt
          else Done(ABlock(c.value, x.value, o.value), o.rest)
  }

  // The stream header gives the block size.
  function ParseStart(bits: seq<bit>): Parsed<nat> {
    var m := ParseMatch(bits, HDR);
    if !m.Done? then Failing(m)
    else
      var l := ParseNumber(m.rest, 8);
      if !l.Done? then Starved
      else if l.value < HDR_0 + 1 || l.value > HDR_0 + 9 then Corrupt
      else Done(l.value - HDR_0, l.rest)
  }

  lemma {:induction false} MatchParses(s: seq<byte>, t: seq<bit>)
    ensures ParseMatch(BytesToBits(s) + t, s) == Done((), t)
  {
    hide Value, ToBits;
    if s == [] {
      assert [] + t == t;
    } else {
      BytesFront(s);
      Join(ToBits(s[0], 8), BytesToBits(s[1..]), t);
      NoBits();
      NumberFirst(s[0], 8, BytesToBits(s[1..]) + t);
      MatchParses(s[1..], t);
    }
    hide Pow2, BytesToBits;
  }

  lemma NumberParses(v: nat, n: nat, t: seq<bit>)
    requires v < Pow2(n)
    ensures ParseNumber(ToBits(v, n) + t, n) == Done(v, t)
  {
    NumberFirst(v, n, t);
  }

  lemma FirstByte(s: seq<byte>, t: seq<bit>)
    requires s != []
    ensures var bits := BytesToBits(s) + t;
            |bits| >= 8 && Value(bits[..8]) == s[0] && bits[8..] == BytesToBits(s[1..]) + t
  {
    hide Value, ToBits, BytesToBits, Pow2;
    BytesFront(s);
    Join(ToBits(s[0], 8), BytesToBits(s[1..]), t);
    NoBits();
    NumberFirst(s[0], 8, BytesToBits(s[1..]) + t);
  }

  lemma StartParses(level: nat, t: seq<bit>)
    requires 1 <= level <= 9
    ensures ParseStart(StreamHeader(level) + t) == Done(level, t)
  {
    hide ToBits, BytesToBits, Pow2, Value, ParseMatch;
    NoBits();
    var last: byte := HDR_0 + level;
    BytesMore(HDR, last);
    Join(BytesToBits(HDR), ToBits(last, 8), t);
    MatchParses(HDR, ToBits(last, 8) + t);
    NumberParses(last, 8, t);
  }

  lemma TrailerParses(combined: nat, level: nat, t: seq<bit>)
    requires combined < 0x1_0000_0000
    ensures ParseHeader(Trailer(combined) + t, level) == Done(TheEnd(combined), t)
  {
    hide ToBits, BytesToBits, Pow2, Value, ParseMatch;
    NoBits();
    Join(BytesToBits(END_MAGIC), ToBits(combined, 32), t);
    FirstByte(END_MAGIC, ToBits(combined, 32) + t);
    MatchParses(END_MAGIC[1..], ToBits(combined, 32) + t);
    NumberParses(combined, 32, t);
  }

  lemma HeaderParses(crc: nat, origPtr: nat, level: nat, t: seq<bit>)
    requires crc < 0x1_0000_0000 && origPtr < 0x100_0000 && origPtr <= 10 + 100000 * level
    ensures ParseHeader(BlockHeader(crc, origPtr) + t, level) == Done(ABlock(crc, 0, origPtr), t)
  {
    hide ToBits, BytesToBits, Pow2, Value, ParseMatch, Bit, ParseNumber;
    NoBits();
    var o := ToBits(origPtr, 24) + t;
    var x := Bit(false) + o;
    var c := ToBits(crc, 32) + x;
    HeaderNest(BytesToBits(BLOCK_MAGIC), ToBits(crc, 32), Bit(false), ToBits(origPtr, 24), t);
    FirstByte(BLOCK_MAGIC, c);
    MatchParses(BLOCK_MAGIC[1..], c);
    NumberParses(crc, 32, x);
    OneBit(false);
    NumberParses(0, 1, o);
    NumberParses(origPtr, 24, t);
  }

  lemma HeaderNest(a: seq<bit>, b: seq<bit>, c: seq<bit>, d: seq<bit>, t: seq<bit>)
    ensures (a + (b + (c + d))) + t == a + (b + (c + (d + t)))
  {
  }

  method ReceiveMatch(r: BitReader, want: seq<byte>) returns (p: Ending)
    requires r.Valid()
    modifies r
    ensures r.Valid() && ParseMatch(old(r.Stream()), want) == Result(p, (), r.Stream())
  {
    hide BitReader.Valid, BitReader.Stream, Value;
    assert want[0..] == want;
    for i := 0 to |want|
      invariant r.Valid() && ParseMatch(old(r.Stream()), want) == ParseMatch(r.Stream(), want[i..])
    {
      assert want[i..][0] == want[i] && want[i..][1..] == want[i + 1..];
      var ok, uc := r.GetBits(8);
      if !ok {
        return OutOfInput;
      }
      if uc != want[i] {
        return Refused;
      }
    }
    p := Received;
  }

  // Four or three bytes, most significant first.
  method ReceiveNumber(r: BitReader, bytes: nat) returns (ok: bool, v: nat)
    requires r.Valid() && bytes <= 4
    modifies r
    ensures r.Valid() && ParseNumber(old(r.Stream()), 8 * bytes) == if ok then Done(v, r.Stream()) else Starved
  {
    hide BitReader.Valid, BitReader.Stream, Value, Pow2;
    ghost var bits := r.Stream();
    v := 0;
    NoValue(bits);
    for i := 0 to bytes
      invariant r.Valid() && 8 * i <= |bits| && r.Stream() == bits[8 * i..] && v == Value(bits[..8 * i])
    {
      var uc;
      ok, uc := r.GetBits(8);
      if !ok {
        return;
      }
      NextByte(bits, i, uc);
      v := (v * 256 + uc) % 0x1_0000_0000;
    }
    ok := true;
  }

  lemma NoValue(bits: seq<bit>)
    ensures Value(bits[..0]) == 0 && bits[0..] == bits
  {
  }

  lemma NextByte(bits: seq<bit>, i: nat, uc: nat)
    requires i < 4 && 8 * i + 8 <= |bits| && uc == Value(bits[8 * i..][..8])
    ensures Value(bits[..8 * i + 8]) == Value(bits[..8 * i]) * 256 + uc < 0x1_0000_0000
    ensures bits[8 * i..][8..] == bits[8 * i + 8..]
  {
    hide Pow2, Value;
    NoBits();
    var a, b := bits[..8 * i], bits[8 * i..][..8];
    assert bits[..8 * i + 8] == a + b;
    ValueAppend(a, b);
    Times256(Value(a));
    Pow2Monotone(8 * i + 8, 32);
  }

  method ReceiveStart(r: BitReader) returns (p: Ending, level: nat)
    requires r.Valid()
    modifies r
    ensures r.Valid() && ParseStart(old(r.Stream())) == Result(p, level, r.Stream())
  {
    hide BitReader.Valid, BitReader.Stream, Value, ParseMatch;
    level := 0;
    p := ReceiveMatch(r, HDR);
    if p != Received {
      return;
    }
    var ok;
    ok, level := r.GetBits(8);
    if !ok {
      return OutOfInput, level;
    }
    if level < HDR_0 + 1 || level > HDR_0 + 9 {
      return Refused, level;
    }
    level := level - HDR_0;
  }

  method ReceiveHeader(r: BitReader, level: nat) returns (p: Ending, h: Header)
    requires r.Valid()
    modifies r
    ensures r.Valid() && ParseHeader(old(r.Stream()), level) == Result(p, h, r.Stream())
  {
    hide BitReader.Valid, BitReader.Stream, Value, ParseMatch, ParseNumber;
    h := TheEnd(0);
    var ok, uc := r.GetBits(8);
    if !ok {
      return OutOfInput, h;
    }
    if uc == END_MAGIC[0] {
      p := ReceiveMatch(r, END_MAGIC[1..]);
      if p != Received {
        return;
      }
      var combined;
      ok, combined := ReceiveNumber(r, 4);
      return if ok then Received else OutOfInput, TheEnd(combined);
    }
    if uc != BLOCK_MAGIC[0] {
      return Refused, h;
    }
    p, h := ReceiveBlockHeader(r, level);
  }

  method ReceiveBlockHeader(r: BitReader, level: nat) returns (p: Ending, h: Header)
    requires r.Valid()
    modifies r
    ensures r.Valid() && ParseBlockHeader(old(r.Stream()), level) == Result(p, h, r.Stream())
  {
    hide BitReader.Valid, BitReader.Stream, Value, ParseMatch;
    h := TheEnd(0);
    p := ReceiveMatch(r, BLOCK_MAGIC[1..]);
    if p != Received {
      return;
    }
    var ok, crc := ReceiveNumber(r, 4);
    if !ok {
      return OutOfInput, h;
    }
    var randomised, origPtr;
    ok, randomised := r.GetBits(1);
    if !ok {
      return OutOfInput, h;
    }
    ok, origPtr := ReceiveNumber(r, 3);
    if !ok {
      return OutOfInput, h;
    }
    if origPtr > 10 + 100000 * level {
      return Refused, h;
    }
    h := ABlock(crc, randomised, origPtr);
  }
}
