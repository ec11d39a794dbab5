// One block through the whole compressor, BZ2_compressBlock, and back through the whole of
// BZ2_decompress.
module BlockCodec {
  import opened Bits
  import opened BitIO
  import opened Rotations
  import opened RunLength
  import opened BlockOutput
  import opened ByteMap
  import opened MtfEncoder
  import opened SideInfo
  import opened Container
  import opened Payload
  import opened RoundTrip
  import opened BlockInput
  import opened Perms
  import Counting
  import SymbolGroups
  import TableChoice
  import Mtf

  // A transmitted block: the runs it stands for, its bytes, how they were sorted, and what
  // was sent.
  datatype Item = Item(rs: seq<RunLength.Run>, b: seq<byte>, ptr: seq<int>, orig: nat, body: Body, crc: bv32)

  ghost predicate ItemOk(it: Item, level: nat, step: (bv32, byte) -> bv32) {
    && 1 <= level <= 9 && 0 < |it.b| <= 100000 * level && Proper(it.body)
    && Sent(it.b, it.ptr, it.orig, it.body.inUse, it.body.ss, [])
    && Runs(it.rs) && it.b == Stored(it.rs) && it.crc == Finalise(FoldCrc(step, 0xffff_ffff, Plain(it.rs)))
  }

  // BZ_FINALISE_CRC.
  function Finalise(crc: bv32): bv32 {
    !crc
  }

  function Num(c: bv32): (n: nat)
    ensures n < 0x1_0000_0000
  {
    c as nat
  }

  ghost function ItemBits(it: Item): seq<bit>
    requires Proper(it.body)
  {
    BlockHeader(Num(it.crc), it.orig) + BodyBits(it.body)
  }

  // The checksum of all blocks so far is turned left by one and the block's own mixed in.
  function Combine(combined: bv32, crc: bv32): bv32 {
    ((combined << 1) | (combined >> 31)) ^ crc
  }

  // ---- compressing ----

  method Copy(bytes: seq<byte>) returns (block: array<byte>)
    ensures fresh(block) && block.Length == |bytes| + 34 && block[..|bytes|] == bytes
  {
    block := new byte[|bytes| + 34];
    for i := 0 to |bytes|
      invariant block[..i] == bytes[..i]
    {
      block[i] := bytes[i];
    }
    assert bytes[..|bytes|] == bytes;
  }

  lemma SymbolsClosed(b: seq<byte>, ptr: seq<int>, orig: int, inUse: seq<bool>, ss: seq<int>, nInUse: int)
    requires Sent(b, ptr, orig, inUse, ss, []) && nInUse == UsedBelow(inUse, 256) > 0
    ensures TableChoice.InAlphabet(ss, nInUse + 2) && Mtf.Closed(ss, nInUse + 1) && |inUse| == 256
  {
    var col := Column(b, ptr, inUse);
    assert ss == Mtf.Encode(StartList(), col, 0, nInUse + 1);
    ColumnDrawn(b, ptr, inUse, nInUse);
    Mtf.EncodeCloses(StartList(), col, 0, nInUse + 1);
    hide Mtf.Encode, Column;
  }

  lemma ColumnDrawn(b: seq<byte>, ptr: seq<int>, inUse: seq<bool>, nInUse: int)
    requires b != [] && SortedOrder(b, ptr) && AllUsed(inUse, b) && nInUse == UsedBelow(inUse, 256) > 0
    ensures 1 <= nInUse <= 256 && Mtf.Drawn(Column(b, ptr, inUse), StartList()[..nInUse])
  {
    var col := Column(b, ptr, inUse);
    forall i | 0 <= i < |col| ensures col[i] in StartList()[..nInUse] {
      assert StartList()[..nInUse][col[i]] == col[i];
    }
  }

  lemma SentBounds(b: seq<byte>, ptr: seq<int>, orig: int, inUse: seq<bool>, ss: seq<int>)
    requires Sent(b, ptr, orig, inUse, ss, [])
    ensures 0 <= orig < |b|
  {
  }

  // A block's header and body.
  method SendItem(w: BitWriter, bytes: seq<byte>, inUse: seq<bool>, crc: bv32, level: nat, workFactor: int, ghost rs: seq<RunLength.Run>,
                  ghost step: (bv32, byte) -> bv32)
    returns (ghost it: Item)
    requires w.Valid() && 1 <= level <= 9 && 0 < |bytes| <= 100000 * level && |inUse| == 256 && AllUsed(inUse, bytes)
    requires Runs(rs) && bytes == Stored(rs) && crc == Finalise(FoldCrc(step, 0xffff_ffff, Plain(rs)))
    modifies w
    ensures w.Valid() && ItemOk(it, level, step) && it.rs == rs && it.crc == crc && w.Written() == old(w.Written()) + ItemBits(it)
  {
    hide BitWriter.Valid, BitWriter.Written, AllUsed, UsedBelow, Sent, Runs, Stored, Plain, FoldCrc, Proper, Counting.Count, BlockHeader, BodyBits,
         TableChoice.InAlphabet, Mtf.Closed;
    var block := Copy(bytes);
    var origPtr, ss, nInUse, freq;
    ghost var ptr;
    origPtr, ss, nInUse, freq, ptr := EncodeBlock(block, |bytes|, inUse, workFactor);
    SentBounds(bytes, ptr, origPtr, inUse, ss);
    SymbolsClosed(bytes, ptr, origPtr, inUse, ss, nInUse);
    ghost var start := w.Written();
    PutBlockHeader(w, Num(crc), origPtr);
    ghost var body := SendMtfValues(w, inUse, nInUse, ss, freq);
    it := Item(rs, bytes, ptr, origPtr, body, crc);
    Join(start, BlockHeader(Num(crc), origPtr), BodyBits(body));
  }

  // ---- decompressing ----

  lemma SentBlock(b: seq<byte>, ptr: seq<int>, orig: int, inUse: seq<bool>, ss: seq<int>)
    requires Sent(b, ptr, orig, inUse, ss, [])
    ensures b != [] && SortedOrder(b, ptr) && 0 <= orig < |b| == |ptr| && ptr[orig] == 0 && IsPerm(ptr, |b|)
    ensures AllUsed(inUse, b) && AllUsed(inUse, LastColumn(b, ptr)) && Column(b, ptr, inUse) == Compact(inUse, LastColumn(b, ptr))
  {
    SortedIsPerm(b, ptr);
    hide Mtf.Encode, LastColumn, Compact;
  }

  // The symbols of a sent block become its last column.
  lemma ColumnParses(it: Item, level: nat, step: (bv32, byte) -> bv32, t: seq<bit>)
    requires ItemOk(it, level, step)
    ensures IsPerm(it.ptr, |it.b|) && it.orig < |it.b|
    ensures ParseBlock(BodyBits(it.body) + t, level, it.orig) == Done(LastColumn(it.b, it.ptr), t)
  {
    hide Stored, Plain, Runs, FoldCrc, BodyBits, ParseFront, Proper, Sent, LastColumn, Compact, Named,
         SymbolGroups.Hear, Mtf.Decode, SymbolGroups.SymbolBits, UsedBelow, FrontOk;
    SentBlock(it.b, it.ptr, it.orig, it.body.inUse, it.body.ss);
    var col := LastColumn(it.b, it.ptr);
    SentDecodes(it.b, it.ptr, it.orig, it.body.inUse, it.body.ss, [], 100000 * level);
    BodyParses(it.body, t);
    NamedCompact(it.body.inUse, col);
  }

  // A sent block is received as what it stands for: its column, and the input of its runs.
  lemma ItemParses(it: Item, level: nat, step: (bv32, byte) -> bv32, t: seq<bit>)
    requires ItemOk(it, level, step)
    ensures Runs(it.rs) && IsPerm(it.ptr, |it.b|) && it.orig < |it.b|
    ensures ParseBlock(BodyBits(it.body) + t, level, it.orig) == Done(LastColumn(it.b, it.ptr), t)
    ensures BlockOut(LastColumn(it.b, it.ptr), it.orig) == Expansion(Plain(it.rs), false)
  {
    hide Stored, Plain, Runs, FoldCrc, BodyBits, ParseBlock, Proper, Sent, LastColumn, Expand, Counting.Unrank, Message, Read, Links;
    ColumnParses(it, level, step, t);
    SentBlock(it.b, it.ptr, it.orig, it.body.inUse, it.body.ss);
    ColumnStandsForBlock(it.b, it.ptr, it.orig);
    var col := LastColumn(it.b, it.ptr);
    UnrankLinks(col);
    ExpandStored(it.rs, Read(col, Counting.Unrank(col), it.orig, |col|));
  }
}
