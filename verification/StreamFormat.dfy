// A whole stream: its blocks between header and trailer, and the compressor writing it one
// block at a time.
module StreamFormat {
  import opened Bits
  import opened BitIO
  import opened Rotations
  import opened RunLength
  import opened BlockOutput
  import opened ByteMap
  import opened SideInfo
  import opened Container
  import opened Payload
  import opened BlockCodec
  import opened BlockSize
  import RoundTrip

  ghost predicate Items(items: seq<Item>, level: nat, step: (bv32, byte) -> bv32) {
    1 <= level <= 9 && forall i :: 0 <= i < |items| ==> ItemOk(items[i], level, step)
  }

  // The blocks from block i on.
  ghost function ItemsBits(items: seq<Item>, i: nat): seq<bit>
    requires i <= |items| && forall k :: 0 <= k < |items| ==> Proper(items[k].body)
    decreases |items| - i
  {
    if i == |items| then [] else ItemBits(items[i]) + ItemsBits(items, i + 1)
  }

  ghost function CombinedCrc(items: seq<Item>): bv32 {
    if items == [] then 0 else Combine(CombinedCrc(items[..|items| - 1]), items[|items| - 1].crc)
  }

  // The input that the blocks stand for.
  ghost function PlainItems(items: seq<Item>): seq<byte>
    requires forall k :: 0 <= k < |items| ==> Runs(items[k].rs)
  {
    if items == [] then [] else PlainItems(items[..|items| - 1]) + PlainItem(items[|items| - 1])
  }

  ghost function PlainItem(it: Item): seq<byte>
    requires Runs(it.rs)
  {
    Plain(it.rs)
  }

  lemma ItemsShape(items: seq<Item>, level: nat, step: (bv32, byte) -> bv32)
    requires Items(items, level, step)
    ensures forall k :: 0 <= k < |items| ==> Proper(items[k].body) && Runs(items[k].rs)
  {
    hide Proper, Runs, RoundTrip.Sent, FoldCrc, Stored, Plain;
  }

  ghost function StreamBits(level: nat, items: seq<Item>): seq<bit>
    requires 1 <= level <= 9 && forall k :: 0 <= k < |items| ==> Proper(items[k].body)
  {
    StreamHeader(level) + (ItemsBits(items, 0) + Trailer(Num(CombinedCrc(items))))
  }

  lemma NextTotals(items: seq<Item>, i: nat)
    requires i < |items| && forall k :: 0 <= k < |items| ==> Runs(items[k].rs)
    ensures CombinedCrc(items[..i + 1]) == Combine(CombinedCrc(items[..i]), items[i].crc)
    ensures PlainItems(items[..i + 1]) == PlainItems(items[..i]) + PlainItem(items[i])
  {
    hide Runs, PlainItem;
    assert items[..i + 1][..i] == items[..i];
  }

  lemma {:induction false} ItemsMore(items: seq<Item>, it: Item, i: nat)
    requires i <= |items| && (forall k :: 0 <= k < |items| ==> Proper(items[k].body)) && Proper(it.body)
    ensures forall k :: 0 <= k < |items + [it]| ==> Proper((items + [it])[k].body)
    ensures ItemsBits(items + [it], i) == ItemsBits(items, i) + ItemBits(it)
    decreases |items| - i
  {
    hide Proper, ItemBits;
    var more := items + [it];
    if i == |items| {
      assert ItemsBits(more, i + 1) == [];
      assert ItemBits(it) + [] == ItemBits(it);
      assert [] + ItemBits(it) == ItemBits(it);
    } else {
      ItemsMore(items, it, i + 1);
      Join(ItemBits(items[i]), ItemsBits(items, i + 1), ItemBits(it));
    }
  }

  // One more block.
  lemma ItemAdded(items: seq<Item>, it: Item, level: nat, step: (bv32, byte) -> bv32)
    requires Items(items, level, step) && ItemOk(it, level, step)
    ensures Items(items + [it], level, step)
    ensures forall k :: 0 <= k < |items| ==> Proper(items[k].body) && Runs(items[k].rs)
    ensures forall k :: 0 <= k < |items + [it]| ==> Proper((items + [it])[k].body) && Runs((items + [it])[k].rs)
    ensures CombinedCrc(items + [it]) == Combine(CombinedCrc(items), it.crc)
    ensures PlainItems(items + [it]) == PlainItems(items) + PlainItem(it)
  {
    hide ItemOk, Combine, PlainItem;
    ItemsShape(items, level, step);
    ItemsShape(items + [it], level, step);
    assert (items + [it])[..|items|] == items;
    hide Proper, Runs;
  }

  lemma NothingStored(rs: seq<RunLength.Run>)
    requires Runs(rs) && Stored(rs) == []
    ensures Plain(rs) == []
  {
  }

  // bits is what has been written before block number blockNo: nothing, or the header and
  // the blocks so far.
  ghost predicate Upto(bits: seq<bit>, level: nat, items: seq<Item>, step: (bv32, byte) -> bv32, blockNo: int) {
    && Items(items, level, step)
    && (ItemsShape(items, level, step);
        if blockNo <= 1 then bits == [] && items == [] else bits == StreamHeader(level) + ItemsBits(items, 0))
  }

  // A whole stream, its last byte filled up with zero bits.
  ghost predicate Complete(bits: seq<bit>, level: nat, items: seq<Item>, step: (bv32, byte) -> bv32) {
    && Items(items, level, step)
    && (ItemsShape(items, level, step); exists pad: nat :: pad < 8 && bits == StreamBits(level, items) + ToBits(0, pad))
  }

  lemma UptoHeader(level: nat, items: seq<Item>, step: (bv32, byte) -> bv32, bits: seq<bit>)
    requires Upto(bits, level, items, step, 1)
    ensures 1 <= level <= 9 && bits == [] && items == [] && Upto(bits + StreamHeader(level), level, items, step, 2)
  {
    assert bits + StreamHeader(level) == StreamHeader(level) + [];
  }

  lemma UptoItem(level: nat, items: seq<Item>, step: (bv32, byte) -> bv32, bits: seq<bit>, it: Item)
    requires Upto(bits, level, items, step, 2) && ItemOk(it, level, step)
    ensures Proper(it.body) && Upto(bits + ItemBits(it), level, items + [it], step, 2)
  {
    hide Proper, ItemBits, StreamHeader, PlainItems, CombinedCrc, RoundTrip.Sent, Stored, Plain, Runs, FoldCrc;
    ItemAdded(items, it, level, step);
    ItemsMore(items, it, 0);
    Join(StreamHeader(level), ItemsBits(items, 0), ItemBits(it));
  }

  lemma UptoEnd(level: nat, items: seq<Item>, step: (bv32, byte) -> bv32, bits: seq<bit>, pad: nat)
    requires Upto(bits, level, items, step, 2) && pad < 8
    ensures Complete(bits + Trailer(Num(CombinedCrc(items))) + ToBits(0, pad), level, items, step)
  {
    hide ItemOk, Trailer, StreamHeader, CombinedCrc, ToBits;
    ItemsShape(items, level, step);
    hide Proper, Runs;
    Join(StreamHeader(level), ItemsBits(items, 0), Trailer(Num(CombinedCrc(items))));
  }

  // ---- how long a stream can get ----

  // No input of n bytes needs more bits than this, however it is divided into blocks.
  function StreamRoom(n: nat): nat {
    119 + 61027 * n
  }

  lemma {:induction false} ItemsShort(items: seq<Item>, level: nat, step: (bv32, byte) -> bv32)
    requires Items(items, level, step)
    ensures forall k :: 0 <= k < |items| ==> Proper(items[k].body) && Runs(items[k].rs)
    ensures |items| <= |PlainItems(items)| && |ItemsBits(items, 0)| <= 27 * |PlainItems(items)| + 61000 * |items|
  {
    hide ItemOk, Proper, Runs, ItemBits, PlainItem;
    ItemsShape(items, level, step);
    if items != [] {
      var n := |items| - 1;
      var front, it := items[..n], items[n];
      ItemsShort(front, level, step);
      ItemsMore(front, it, 0);
      assert front + [it] == items;
      ItemByInput(it, level, step);
    }
  }

  lemma ItemByInput(it: Item, level: nat, step: (bv32, byte) -> bv32)
    requires ItemOk(it, level, step)
    ensures Proper(it.body) && Runs(it.rs)
    ensures |PlainItem(it)| > 0 && |ItemBits(it)| <= 27 * |PlainItem(it)| + 61000
  {
    BlockByInput(it, level, step);
  }

  lemma UptoShort(bits: seq<bit>, level: nat, items: seq<Item>, step: (bv32, byte) -> bv32, blockNo: int)
    requires Upto(bits, level, items, step, blockNo)
    ensures (forall k :: 0 <= k < |items| ==> Runs(items[k].rs)) && |bits| <= StreamRoom(|PlainItems(items)|)
  {
    hide ItemOk, Proper, Runs, ItemsBits, PlainItems;
    ItemsShort(items, level, step);
  }

  lemma CompleteShort(bits: seq<bit>, level: nat, items: seq<Item>, step: (bv32, byte) -> bv32)
    requires Complete(bits, level, items, step)
    ensures (forall k :: 0 <= k < |items| ==> Runs(items[k].rs)) && |bits| <= StreamRoom(|PlainItems(items)|)
  {
    hide ItemOk, Proper, Runs, ItemsBits, PlainItems, Trailer, CombinedCrc, ToBits;
    ItemsShort(items, level, step);
    TrailerLength(Num(CombinedCrc(items)));
  }

  // The blocks have become those of the stored runs too: one more, unless nothing was stored.
  ghost predicate Grown(items: seq<Item>, items': seq<Item>, rs: seq<RunLength.Run>) {
    && Runs(rs) && (forall k :: 0 <= k < |items| ==> Runs(items[k].rs)) && (forall k :: 0 <= k < |items'| ==> Runs(items'[k].rs))
    && PlainItems(items') == PlainItems(items) + Plain(rs)
    && if Stored(rs) == [] then items' == items
       else |items'| == |items| + 1 && items'[..|items|] == items && items'[|items|].b == Stored(rs)
  }

  lemma GrownNothing(items: seq<Item>, rs: seq<RunLength.Run>)
    requires Runs(rs) && Stored(rs) == [] && forall k :: 0 <= k < |items| ==> Runs(items[k].rs)
    ensures Grown(items, items, rs)
  {
    NothingStored(rs);
    hide Runs, PlainItems;
    assert PlainItems(items) + [] == PlainItems(items);
  }

  lemma UptoAny(bits: seq<bit>, level: nat, items: seq<Item>, step: (bv32, byte) -> bv32, n: int, m: int)
    requires Upto(bits, level, items, step, n) && n > 1 && m > 1
    ensures Upto(bits, level, items, step, m) && forall k :: 0 <= k < |items| ==> Runs(items[k].rs)
  {
    ItemsShape(items, level, step);
    hide ItemOk, Proper, Runs;
  }

  method StartStream(w: BitWriter, level: nat, ghost items: seq<Item>, ghost step: (bv32, byte) -> bv32, ghost start: seq<bit>)
    requires w.Valid() && Upto(start + w.Written(), level, items, step, 1) && 1 <= level <= 9
    modifies w
    ensures w.Valid() && Upto(start + w.Written(), level, items, step, 2) && items == []
    ensures |w.Written()| == |old(w.Written())| + 32
  {
    hide BitWriter.Valid, BitWriter.Written, Upto, BytesToBits;
    UptoHeader(level, items, step, start + w.Written());
    Join(start, w.Written(), StreamHeader(level));
    PutBytes(w, HDR + [HDR_0 + level]);
  }

  method AddItem(w: BitWriter, bytes: seq<byte>, inUse: seq<bool>, crc: bv32, level: nat, workFactor: int,
                 ghost start: seq<bit>, ghost items: seq<Item>, ghost rs: seq<RunLength.Run>, ghost step: (bv32, byte) -> bv32)
    returns (ghost items': seq<Item>)
    requires w.Valid() && Upto(start + w.Written(), level, items, step, 2)
    requires 1 <= level <= 9 && 0 < |bytes| <= 100000 * level && |inUse| == 256 && AllUsed(inUse, bytes)
    requires Runs(rs) && bytes == Stored(rs) && crc == Finalise(FoldCrc(step, 0xffff_ffff, Plain(rs)))
    modifies w
    ensures w.Valid() && Upto(start + w.Written(), level, items', step, 2)
    ensures CombinedCrc(items') == Combine(CombinedCrc(items), crc) && Grown(items, items', rs)
    ensures |w.Written()| <= |old(w.Written())| + BlockRoom(|bytes|)
  {
    hide BitWriter.Valid, BitWriter.Written, Upto, AllUsed, Stored, FoldCrc, Combine, ItemOk, ItemBits, Finalise, CombinedCrc, PlainItems, Runs, Plain;
    ghost var before := w.Written();
    ghost var it := SendItem(w, bytes, inUse, crc, level, workFactor, rs, step);
    UptoItem(level, items, step, start + before, it);
    BlockShort(it, level, step);
    ItemBytes(it, level, step);
    Join(start, before, ItemBits(it));
    UptoItems(start + before, level, items, step);
    ItemAdded(items, it, level, step);
    items' := items + [it];
    assert items'[..|items|] == items;
  }

  lemma UptoItems(bits: seq<bit>, level: nat, items: seq<Item>, step: (bv32, byte) -> bv32)
    requires Upto(bits, level, items, step, 2)
    ensures Items(items, level, step)
  {
  }

  lemma ItemBytes(it: Item, level: nat, step: (bv32, byte) -> bv32)
    requires ItemOk(it, level, step)
    ensures it.b == Stored(it.rs)
  {
    hide Stored;
  }

  lemma TrailerLength(combined: nat)
    ensures |Trailer(combined)| == 80
  {
  }

  method FinishStream(w: BitWriter, level: nat, ghost items: seq<Item>, combined: bv32, ghost step: (bv32, byte) -> bv32, ghost start: seq<bit>)
    returns (z: seq<byte>)
    requires w.Valid() && Upto(start + w.Written(), level, items, step, 2) && combined == CombinedCrc(items)
    modifies w
    ensures Complete(start + BytesToBits(z), level, items, step)
    ensures |old(w.Written())| + 80 <= 8 * |z| <= |old(w.Written())| + 87
  {
    hide BitWriter.Valid, BitWriter.Written, Upto, Complete, BytesToBits, ToBits, Trailer, CombinedCrc, Num;
    ghost var before := w.Written();
    TrailerLength(Num(combined));
    PutTrailer(w, Num(combined));
    ghost var closed := w.Written();
    w.FinishWrite();
    ghost var pad: nat :| pad < 8 && BytesToBits(w.zbits) == closed + ToBits(0, pad);
    UptoEnd(level, items, step, start + before, pad);
    Join(start, before, Trailer(Num(combined)));
    Join(start, closed, ToBits(0, pad));
    z := w.Take();
  }

  // BZ2_compressBlock: the stream header in front of the first block, the block unless it is
  // empty, the trailer behind the last one.  start is what has left the buffer earlier.
  method CompressBlock(w: BitWriter, bytes: seq<byte>, inUse: seq<bool>, crc: bv32, blockNo: int, last: bool, level: nat, workFactor: int,
                       combined: bv32, ghost start: seq<bit>, ghost items: seq<Item>, ghost rs: seq<RunLength.Run>, ghost step: (bv32, byte) -> bv32)
    returns (z: seq<byte>, combined': bv32, ghost items': seq<Item>)
    requires w.Valid() && blockNo >= 1 && Upto(start + w.Written(), level, items, step, blockNo) && combined == CombinedCrc(items)
    requires 1 <= level <= 9 && |bytes| <= 100000 * level && |inUse| == 256 && AllUsed(inUse, bytes)
    requires Runs(rs) && bytes == Stored(rs) && crc == Finalise(FoldCrc(step, 0xffff_ffff, Plain(rs)))
    modifies w
    ensures combined' == CombinedCrc(items') && Grown(items, items', rs)
    ensures if last then Complete(start + BytesToBits(z), level, items', step)
            else w.Valid() && Upto(start + BytesToBits(z) + w.Written(), level, items', step, blockNo + 1) && |w.Written()| <= 32
    ensures 8 * |z| <= |old(w.Written())| + BlockRoom(|bytes|) + 119 && (last ==> |z| >= 10)
  {
    hide BitWriter.Valid, BitWriter.Written, Upto, Complete, AllUsed, Stored, Plain, FoldCrc, Combine, CombinedCrc, Trailer, ItemOk, ItemBits,
         BytesToBits, ToBits, Num, Finalise, Grown, StreamHeader;
    combined', items' := combined, items;
    if |bytes| > 0 {
      combined' := Combine(combined', crc);
    }
    ghost var all := start + w.Written();
    if blockNo == 1 {
      StartStream(w, level, items, step, start);
    } else {
      UptoAny(all, level, items, step, blockNo, 2);
    }
    if |bytes| > 0 {
      items' := AddItem(w, bytes, inUse, crc, level, workFactor, start, items, rs, step);
    } else {
      GrownNothing(items, rs);
    }
    if last {
      z := FinishStream(w, level, items', combined', step, start);
    } else {
      UptoAny(start + w.Written(), level, items', step, 2, blockNo + 1);
      z := w.Take();
      Join(start, BytesToBits(z), w.Written());
    }
  }
}
