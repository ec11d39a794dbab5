// What a decompressor makes of any bits at all: the bytes it gives out, and how it ends.
module StreamMeaning {
  import opened Bits
  import opened BitIO
  import opened Rotations
  import opened RunLength
  import opened BlockOutput
  import opened SideInfo
  import opened Container
  import opened Payload
  import opened BlockCodec
  import opened BlockInput
  import opened Locality
  import opened StreamFormat
  import RoundTrip

  // The end of the stream with what follows it; bad data; a bad stream header; missing input;
  // or input the model does not follow: a randomised block, or more selectors than their
  // array has places.
  datatype End = Ends(rest: seq<bit>) | Bad | BadMagic | Short | Outside

  datatype Told = Told(bytes: seq<byte>, end: End)

  function Before(s: seq<byte>, t: Told): Told {
    Told(s + t.bytes, t.end)
  }

  function Failed<T>(p: Parsed<T>): End
    requires !p.Done?
  {
    match p
    case Corrupt => Bad
    case Starved => Short
    case Overrun => Outside
  }

  // The blocks from here to the trailer, when the blocks so far have the checksum combined.
  ghost function Blocks(bits: seq<bit>, level: nat, combined: bv32, step: (bv32, byte) -> bv32): Told
    decreases |bits|, 1
  {
    HeaderLocal(bits, [], level);
    var h := ParseHeader(bits, level);
    if !h.Done? then Told([], Failed(h))
    else if h.value.TheEnd? then Told([], if Num(combined) == h.value.combined then Ends(h.rest) else Bad)
    else if h.value.randomised != 0 then Told([], Outside)
    else BlockThen(h.value.crc, h.value.origPtr, h.rest, level, combined, step)
  }

  // A block and the blocks behind it.
  ghost function BlockThen(crc: nat, orig: nat, bits: seq<bit>, level: nat, combined: bv32, step: (bv32, byte) -> bv32): Told
    decreases |bits|, 2
  {
    BlockLocal(bits, [], level, orig);
    var c := ParseBlock(bits, level, orig);
    if !c.Done? then Told([], Failed(c))
    else
      var e := BlockOut(c.value, orig);
      var calculated := Finalise(FoldCrc(step, 0xffff_ffff, e.bytes));
      if e.corrupt || Num(calculated) != crc then Told(e.bytes, Bad)
      else Before(e.bytes, Blocks(c.rest, level, Combine(combined, calculated), step))
  }

  // A whole stream.
  ghost function Meaning(bits: seq<bit>, step: (bv32, byte) -> bv32): Told {
    var s := ParseStart(bits);
    if !s.Done? then Told([], if s.Corrupt? then BadMagic else Failed(s))
    else Blocks(s.rest, s.value, 0, step)
  }

  // ---- more input ----

  // b is what a becomes when t follows the input: nothing given out is taken back, and only
  // an end for want of input changes.
  ghost predicate Onward(a: Told, b: Told, t: seq<bit>) {
    if a.end.Short? then a.bytes <= b.bytes
    else b == Told(a.bytes, if a.end.Ends? then Ends(a.end.rest + t) else a.end)
  }

  lemma OnwardBefore(s: seq<byte>, a: Told, b: Told, t: seq<bit>)
    requires Onward(a, b, t)
    ensures Onward(Before(s, a), Before(s, b), t)
  {
    if a.end.Short? {
      assert s + a.bytes == (s + b.bytes)[..|s| + |a.bytes|];
    }
  }

  // More input never changes what has already been decided.
  lemma {:induction false} BlocksOnward(bits: seq<bit>, t: seq<bit>, level: nat, combined: bv32, step: (bv32, byte) -> bv32)
    ensures Onward(Blocks(bits, level, combined, step), Blocks(bits + t, level, combined, step), t)
    decreases |bits|, 1
  {
    hide ParseHeader, BlockThen, Num;
    HeaderLocal(bits, t, level);
    HeaderLocal(bits, [], level);
    var h := ParseHeader(bits, level);
    if h.Done? && h.value.ABlock? && h.value.randomised == 0 {
      BlockOnward(h.value.crc, h.value.origPtr, h.rest, t, level, combined, step);
    }
  }

  lemma BlockOnward(crc: nat, orig: nat, bits: seq<bit>, t: seq<bit>, level: nat, combined: bv32, step: (bv32, byte) -> bv32)
    ensures Onward(BlockThen(crc, orig, bits, level, combined, step), BlockThen(crc, orig, bits + t, level, combined, step), t)
    decreases |bits|, 2
  {
    hide ParseBlock, BlockOut, Finalise, FoldCrc, Num, Combine, Blocks, Onward;
    BlockLocal(bits, t, level, orig);
    BlockLocal(bits, [], level, orig);
    ShortOnward(BlockThen(crc, orig, bits + t, level, combined, step), t);
    var c := ParseBlock(bits, level, orig);
    if c.Done? {
      var e := BlockOut(c.value, orig);
      var calculated := Finalise(FoldCrc(step, 0xffff_ffff, e.bytes));
      BadOnward(e.bytes, t);
      if !e.corrupt && Num(calculated) == crc {
        var next := Combine(combined, calculated);
        BlocksOnward(c.rest, t, level, next, step);
        OnwardBefore(e.bytes, Blocks(c.rest, level, next, step), Blocks(c.rest + t, level, next, step), t);
      }
    } else {
      FailedOnward(Failed(c), t);
    }
  }

  lemma ShortOnward(b: Told, t: seq<bit>)
    ensures Onward(Told([], Short), b, t)
  {
  }

  lemma BadOnward(s: seq<byte>, t: seq<bit>)
    ensures Onward(Told(s, Bad), Told(s, Bad), t)
  {
  }

  lemma FailedOnward(end: End, t: seq<bit>)
    requires !end.Ends?
    ensures end.Short? || Onward(Told([], end), Told([], end), t)
  {
  }

  lemma MeaningOnward(bits: seq<bit>, t: seq<bit>, step: (bv32, byte) -> bv32)
    ensures Onward(Meaning(bits, step), Meaning(bits + t, step), t)
  {
    hide ParseStart, Blocks;
    StartLocal(bits, t);
    var s := ParseStart(bits);
    if s.Done? {
      BlocksOnward(s.rest, t, s.value, 0, step);
    }
  }

  // ---- what a compressor sends ----

  lemma HeaderThen(it: Item, crc: nat, level: nat, step: (bv32, byte) -> bv32, t: seq<bit>)
    requires ItemOk(it, level, step) && crc < 0x1_0000_0000
    ensures Proper(it.body)
    ensures ParseHeader(BlockHeader(crc, it.orig) + (BodyBits(it.body) + t), level) == Done(ABlock(crc, 0, it.orig), BodyBits(it.body) + t)
  {
    hide RoundTrip.Sent, Stored, Plain, Runs, FoldCrc, ParseHeader, BlockHeader, BodyBits, Proper;
    SentBounds(it.b, it.ptr, it.orig, it.body.inUse, it.body.ss);
    HeaderParses(crc, it.orig, level, BodyBits(it.body) + t);
  }

  // A sent block under any checksum: with its own it stands for its input, with any other it
  // is refused once its bytes are out.
  lemma ItemMeans(it: Item, crc: nat, level: nat, combined: bv32, step: (bv32, byte) -> bv32, t: seq<bit>)
    requires ItemOk(it, level, step) && crc < 0x1_0000_0000
    ensures Proper(it.body) && Runs(it.rs)
    ensures Blocks(BlockHeader(crc, it.orig) + (BodyBits(it.body) + t), level, combined, step)
         == if crc == Num(it.crc) then Before(PlainItem(it), Blocks(t, level, Combine(combined, it.crc), step)) else Told(PlainItem(it), Bad)
  {
    HeaderThen(it, crc, level, step, t);
    ItemParses(it, level, step, t);
    ItemChecksum(it, level, step);
    hide RoundTrip.Sent, Stored, Runs, FoldCrc, ParseHeader, ParseBlock, BlockHeader, BodyBits, Proper, ItemOk, Num, Combine, Finalise, LastColumn, BlockOut, Plain;
  }

  lemma ItemChecksum(it: Item, level: nat, step: (bv32, byte) -> bv32)
    requires ItemOk(it, level, step)
    ensures Runs(it.rs) && it.crc == Finalise(FoldCrc(step, 0xffff_ffff, PlainItem(it)))
  {
  }

  lemma BeforeTwice(a: seq<byte>, b: seq<byte>, t: Told)
    ensures Before(a, Before(b, t)) == Before(a + b, t) && Before([], t) == t
  {
    assert a + (b + t.bytes) == (a + b) + t.bytes;
    assert [] + t.bytes == t.bytes;
  }

  // The blocks of a stream from block j on, with anything behind them.
  lemma {:induction false} ItemsMean(items: seq<Item>, j: nat, level: nat, step: (bv32, byte) -> bv32, t: seq<bit>)
    requires Items(items, level, step) && j <= |items|
    ensures forall k :: 0 <= k < |items| ==> Proper(items[k].body) && Runs(items[k].rs)
    ensures Before(PlainItems(items[..j]), Blocks(ItemsBits(items, j) + t, level, CombinedCrc(items[..j]), step))
         == Before(PlainItems(items), Blocks(t, level, CombinedCrc(items), step))
    decreases |items| - j
  {
    hide ItemOk, Proper, Runs, PlainItems, PlainItem, CombinedCrc, Blocks, Before, BlockHeader, BodyBits, Num, Combine;
    ItemsShape(items, level, step);
    if j == |items| {
      assert items[..j] == items && [] + t == t;
    } else {
      var it, more := items[j], ItemsBits(items, j + 1) + t;
      ItemsMean(items, j + 1, level, step, t);
      NextTotals(items, j);
      Join(ItemBits(it), ItemsBits(items, j + 1), t);
      Join(BlockHeader(Num(it.crc), it.orig), BodyBits(it.body), more);
      ItemMeans(it, Num(it.crc), level, CombinedCrc(items[..j]), step, more);
      BeforeTwice(PlainItems(items[..j]), PlainItem(it), Blocks(more, level, CombinedCrc(items[..j + 1]), step));
    }
  }

  lemma NoItems(items: seq<Item>)
    ensures CombinedCrc(items[..0]) == 0 && PlainItems(items[..0]) == []
  {
  }

  // The stream header and the blocks, with anything behind them.
  lemma FrontMeans(items: seq<Item>, level: nat, step: (bv32, byte) -> bv32, t: seq<bit>)
    requires Items(items, level, step)
    ensures forall k :: 0 <= k < |items| ==> Proper(items[k].body) && Runs(items[k].rs)
    ensures Meaning(StreamHeader(level) + (ItemsBits(items, 0) + t), step) == Before(PlainItems(items), Blocks(t, level, CombinedCrc(items), step))
  {
    hide ItemOk, Proper, Runs, PlainItems, CombinedCrc, Blocks, Before, StreamHeader, ParseStart;
    ItemsMean(items, 0, level, step, t);
    StartParses(level, ItemsBits(items, 0) + t);
    NoItems(items);
    BeforeTwice([], [], Blocks(ItemsBits(items, 0) + t, level, 0, step));
  }

  // A complete stream means the input of its blocks, whatever follows it; with another
  // combined checksum it is refused in the end.
  lemma StreamMeans(items: seq<Item>, combined: nat, level: nat, step: (bv32, byte) -> bv32, t: seq<bit>)
    requires Items(items, level, step) && combined < 0x1_0000_0000
    ensures forall k :: 0 <= k < |items| ==> Proper(items[k].body) && Runs(items[k].rs)
    ensures Meaning(StreamHeader(level) + (ItemsBits(items, 0) + (Trailer(combined) + t)), step)
         == Told(PlainItems(items), if combined == Num(CombinedCrc(items)) then Ends(t) else Bad)
  {
    hide ItemOk, Proper, Runs, PlainItems, CombinedCrc, Trailer, ParseHeader, BlockThen, Meaning, Num, ItemsBits, StreamHeader;
    FrontMeans(items, level, step, Trailer(combined) + t);
    TrailerParses(combined, level, t);
    assert PlainItems(items) + [] == PlainItems(items);
  }

  // A stream cut off in the middle of a block or of the trailer: the blocks before it are
  // given out and more input is asked for.
  lemma CutBlock(items: seq<Item>, it: Item, level: nat, step: (bv32, byte) -> bv32, part: seq<bit>, lost: seq<bit>)
    requires Items(items, level, step) && ItemOk(it, level, step) && lost != []
    requires Proper(it.body) && part + lost == ItemBits(it)
    ensures forall k :: 0 <= k < |items| ==> Proper(items[k].body) && Runs(items[k].rs)
    ensures Meaning(StreamHeader(level) + (ItemsBits(items, 0) + part), step) == Told(PlainItems(items), Short)
  {
    hide ItemOk, Proper, Runs, PlainItems, CombinedCrc, Meaning, Num, ItemsBits, StreamHeader, Blocks, ItemBits;
    FrontMeans(items, level, step, part);
    BlockCut(it, level, CombinedCrc(items), step, part, lost);
    assert PlainItems(items) + [] == PlainItems(items);
  }

  lemma CutTrailer(items: seq<Item>, level: nat, step: (bv32, byte) -> bv32, part: seq<bit>, lost: seq<bit>)
    requires Items(items, level, step) && lost != [] && part + lost == Trailer(Num(CombinedCrc(items)))
    ensures forall k :: 0 <= k < |items| ==> Proper(items[k].body) && Runs(items[k].rs)
    ensures Meaning(StreamHeader(level) + (ItemsBits(items, 0) + part), step) == Told(PlainItems(items), Short)
  {
    hide ItemOk, Proper, Runs, PlainItems, CombinedCrc, Meaning, Num, ItemsBits, StreamHeader, ParseHeader, BlockThen, Trailer;
    FrontMeans(items, level, step, part);
    TrailerParses(Num(CombinedCrc(items)), level, []);
    assert Trailer(Num(CombinedCrc(items))) + [] == part + lost;
    HeaderLocal(part, lost, level);
    assert PlainItems(items) + [] == PlainItems(items);
  }

  // Part of a block gives nothing.
  lemma BlockCut(it: Item, level: nat, combined: bv32, step: (bv32, byte) -> bv32, part: seq<bit>, lost: seq<bit>)
    requires ItemOk(it, level, step) && lost != [] && Proper(it.body) && part + lost == ItemBits(it)
    ensures Blocks(part, level, combined, step) == Told([], Short)
  {
    hide ParseHeader, ParseBlock, BlockHeader, BodyBits, Proper, ItemOk, LastColumn, BlockOut, Num;
    HeaderThen(it, Num(it.crc), level, step, []);
    assert BlockHeader(Num(it.crc), it.orig) + (BodyBits(it.body) + []) == part + lost by {
      assert BodyBits(it.body) + [] == BodyBits(it.body);
    }
    HeaderLocal(part, lost, level);
    var h := ParseHeader(part, level);
    if h.Done? {
      assert h.rest + lost == BodyBits(it.body) + [];
      ItemParses(it, level, step, []);
      BlockLocal(h.rest, lost, level, it.orig);
    }
  }

  // ---- the smallest file ----

  // What an empty input becomes.
  function EmptyFile(level: nat): seq<byte>
    requires 1 <= level <= 9
  {
    [0x42, 0x5a, 0x68, 0x30 + level, 0x17, 0x72, 0x45, 0x38, 0x50, 0x90, 0, 0, 0, 0]
  }

  lemma NoChecksum()
    ensures BytesToBits([0, 0, 0, 0]) == ToBits(0, 32) && Num(CombinedCrc([])) == 0
  {
    hide ToBits, BytesToBits;
    NoBits();
    BytesMore([], 0);
    BytesMore([0], 0);
    BytesMore([0, 0], 0);
    BytesMore([0, 0, 0], 0);
    assert [] + [0] == [0] && [0] + [0] == [0, 0] && [0, 0] + [0] == [0, 0, 0] && [0, 0, 0] + [0] == [0, 0, 0, 0];
    assert [] + ToBits(0, 8) == ToBits(0, 8);
    Zeros(8, 8);
    Zeros(16, 8);
    Zeros(24, 8);
  }

  lemma {:induction false} Zeros(m: nat, n: nat)
    ensures ToBits(0, m) + ToBits(0, n) == ToBits(0, m + n)
  {
    if n == 0 {
      assert ToBits(0, m) + [] == ToBits(0, m);
    } else {
      Zeros(m, n - 1);
      Join(ToBits(0, m), ToBits(0, n - 1), [0]);
      assert ToBits(0, n) == ToBits(0, n - 1) + [0] && ToBits(0, m + n) == ToBits(0, m + n - 1) + [0];
    }
  }

  // These fourteen bytes are the whole stream of no blocks, and they mean the empty input.
  lemma EmptyFileMeans(level: nat, step: (bv32, byte) -> bv32)
    requires 1 <= level <= 9
    ensures Complete(BytesToBits(EmptyFile(level)), level, [], step)
    ensures Meaning(BytesToBits(EmptyFile(level)), step) == Told([], Ends([]))
  {
    hide ToBits, BytesToBits, Meaning, CombinedCrc, Num;
    var head, magic, crc := HDR + [HDR_0 + level], END_MAGIC, [0, 0, 0, 0];
    assert EmptyFile(level) == head + (magic + crc);
    BytesConcat(head, magic + crc);
    BytesConcat(magic, crc);
    NoChecksum();
    NoBlocks();
    var bits := BytesToBits(EmptyFile(level));
    EmptyComplete(bits, level, step);
    assert Trailer(0) + [] == Trailer(0);
    StreamMeans([], 0, level, step, []);
  }

  lemma NoBlocks()
    ensures ItemsBits([], 0) == [] && PlainItems([]) == []
    ensures forall t: seq<bit> :: [] + t == t
  {
  }

  lemma EmptyComplete(bits: seq<bit>, level: nat, step: (bv32, byte) -> bv32)
    requires 1 <= level <= 9 && bits == StreamHeader(level) + Trailer(Num(CombinedCrc([])))
    ensures Complete(bits, level, [], step)
  {
    hide StreamHeader, Trailer, CombinedCrc, Num, ToBits;
    assert [] + Trailer(Num(CombinedCrc([]))) == Trailer(Num(CombinedCrc([])));
    NoPadding(bits);
    assert bits == StreamBits(level, []) + ToBits(0, 0);
  }

  lemma NoPadding(bits: seq<bit>)
    ensures bits + ToBits(0, 0) == bits
  {
  }
}
