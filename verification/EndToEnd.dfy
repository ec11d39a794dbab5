// The two programs together: whatever calls the compressor's caller makes, and however the
// compressed bytes and the output buffers are cut up, the decompressor gives back the input.
module EndToEnd {
  import opened Bits
  import opened BitIO
  import opened Rotations
  import opened RunLength
  import opened SideInfo
  import opened Container
  import opened Payload
  import opened ByteMap
  import opened BlockOutput
  import opened CodingTables
  import opened BlockCodec
  import opened BlockInput
  import opened StreamFormat
  import opened CompressStream
  import opened StreamMeaning
  import RoundTrip
  import Decompressor

  // One call of BZ2_bzCompress: more input on offer, the room for output, the action.
  datatype Step = Step(more: seq<byte>, room: nat, action: Action)

  // All input offered.
  function Offered(script: seq<Step>): seq<byte> {
    if script == [] then [] else Offered(script[..|script| - 1]) + script[|script| - 1].more
  }

  lemma OfferedMore(script: seq<Step>, i: nat)
    requires i < |script|
    ensures Offered(script[..i + 1]) == Offered(script[..i]) + script[i].more
  {
    assert script[..i + 1][..i] == script[..i];
  }

  lemma NothingOffered(script: seq<Step>)
    ensures [] + [] == Offered(script[..0])
  {
  }

  // How many calls are BZ_FLUSH.
  function Flushes(script: seq<Step>): nat {
    if script == [] then 0 else Flushes(script[..|script| - 1]) + if script[|script| - 1].action.Flush? then 1 else 0
  }

  lemma FlushesMore(script: seq<Step>, i: nat)
    requires i < |script|
    ensures Flushes(script[..i + 1]) == Flushes(script[..i]) + if script[i].action.Flush? then 1 else 0
  {
    assert script[..i + 1][..i] == script[..i];
  }

  // Every call is BZ_RUN.
  predicate OnlyRuns(script: seq<Step>) {
    forall i :: 0 <= i < |script| ==> script[i].action.Run?
  }

  // Any sequence of calls, up to the one that returns BZ_STREAM_END if there is one.  But for
  // one block a flush and the last one, every block has been full and stands for at least four
  // fifths of nblockMAX bytes of input, whatever the sizes of the buffers.
  method Play(s: EState, script: seq<Step>) returns (ended: bool, calls: nat)
    requires s.Valid() && s.Settled() && s.consumed == [] && s.nextIn == [] && s.mode.Running? && s.calls == []
    modifies s, s.block, s.used, s.w
    ensures s.Valid() && s.Settled() && calls <= |script| && s.consumed + s.nextIn == Offered(script[..calls])
    ensures ended ==> s.Drained() && s.Ended() && s.nextIn == []
    ensures !ended ==> calls == |script|
    ensures OnlyRuns(script) ==> !ended && s.mode.Running?
    ensures 4 * (s.nblockMAX * (|s.items| - Flushes(script[..calls]) - Last(s))) <= 5 * |s.consumed|
  {
    hide EState.Valid, EState.Drained, EState.Ended, EState.Settled, EState.Owing, Offered, Flushes, Filled, Shorts;
    NothingOffered(script);
    NothingShort(s, script);
    ended, calls := false, 0;
    while calls < |script| && !ended
      invariant calls <= |script| && s.Valid() && s.Settled() && s.consumed + s.nextIn == Offered(script[..calls])
      invariant ended ==> s.Drained() && s.Ended() && s.nextIn == []
      invariant OnlyRuns(script) ==> !ended && s.mode.Running?
      invariant Shorts(s.calls, s.nblockMAX) + Owed(s) <= Flushes(script[..calls]) + Last(s)
      decreases |script| - calls
    {
      OfferedMore(script, calls);
      FlushesMore(script, calls);
      assert s.consumed + (s.nextIn + script[calls].more) == (s.consumed + s.nextIn) + script[calls].more;
      Offer(s, script[calls].more, script[calls].room);
      var action := script[calls].action;
      ghost var all, calls0 := s.consumed + s.nextIn, s.calls;
      var ret := s.Compress(action);
      FewShorts(calls0, s.calls, s.nblockMAX, if action.Flush? then !s.Owing() else action.Finish? && s.Ended());
      assert s.consumed + s.nextIn == all;
      calls := calls + 1;
      ended := ret == StreamEnd;
    }
    s.BlocksFew();
    AtMost(s.nblockMAX, |s.items| - Flushes(script[..calls]) - Last(s), |s.calls| - Shorts(s.calls, s.nblockMAX));
  }

  // Whether the last block, which need not be full, has been handed over,
  ghost function Last(s: EState): nat
    reads s
  {
    if s.Ended() then 1 else 0
  }

  // and whether that of a flush has yet to be.
  ghost function Owed(s: EState): nat
    reads s
  {
    if s.Owing() then 1 else 0
  }

  lemma NothingShort(s: EState, script: seq<Step>)
    requires s.mode.Running? && s.calls == []
    ensures Shorts(s.calls, s.nblockMAX) + Owed(s) <= Flushes(script[..0]) + Last(s)
  {
  }

  lemma AtMost(max: int, a: int, b: int)
    requires a <= b && max >= 0
    ensures max * a <= max * b
  {
  }

  // The caller adds to what it offers and brings a new output buffer.
  method Offer(s: EState, more: seq<byte>, room: nat)
    requires s.Valid() && s.Settled()
    modifies s`nextIn, s`availOut
    ensures s.Valid() && s.Settled() && s.nextIn == old(s.nextIn) + more && s.availOut == room
    ensures Owed(s) == old(Owed(s)) && Last(s) == old(Last(s))
  {
    hide EState.BlockSide, EState.Accounted, EState.OutputSide, EState.ControlSide;
    s.nextIn := s.nextIn + more;
    s.availOut := room;
  }

  // BZ_FINISH again and again, each time with a new output buffer, up to the call that
  // returns BZ_STREAM_END.  No call is wasted: a call that does not end the stream fills its
  // buffer, so buffers with more room than the stream can need do end it.
  method FinishOff(s: EState, rooms: seq<nat>) returns (ended: bool)
    requires s.Valid() && s.Settled()
    modifies s, s.block, s.used, s.w
    ensures s.Valid() && s.consumed + s.nextIn == old(s.consumed + s.nextIn)
    ensures ended ==> s.Drained() && s.Ended() && s.nextIn == []
    ensures old(s.Finishable()) && !ended ==> |s.delivered| == |old(s.delivered)| + RoundTrip.Sum(rooms)
    ensures old(s.Finishable()) && 8 * RoundTrip.Sum(rooms) > StreamRoom(|old(s.consumed + s.nextIn)|) ==> ended
    ensures Filled(old(s.calls), s.calls, s.nblockMAX, s.Ended())
  {
    hide EState.Valid, EState.Drained, EState.Ended, EState.Settled, RoundTrip.Sum, Filled;
    ended := false;
    ghost var calls0 := s.calls;
    FilledNone(calls0, s.nblockMAX, s.Ended());
    ghost var all, d0 := s.consumed + s.nextIn, |s.delivered|;
    var i := 0;
    RoundTrip.SumNone(rooms);
    while i < |rooms| && !ended
      invariant i <= |rooms| && s.Valid() && s.Settled() && s.consumed + s.nextIn == all
      invariant ended ==> s.Drained() && s.Ended() && s.nextIn == []
      invariant old(s.Finishable()) && !ended ==> s.Finishable() && |s.delivered| == d0 + RoundTrip.Sum(rooms[..i])
      invariant Filled(calls0, s.calls, s.nblockMAX, s.Ended())
      decreases |rooms| - i
    {
      RoundTrip.SumStep(rooms, i);
      Offer(s, [], rooms[i]);
      ghost var calls', over := s.calls, s.Ended();
      var ret := s.Compress(Finish);
      if !over {
        FilledThen(calls0, calls', s.calls, s.nblockMAX, s.Ended(), s.Ended());
      }
      i := i + 1;
      ended := ret == StreamEnd;
    }
    if !ended {
      assert rooms[..|rooms|] == rooms;
      s.DeliveredShort();
    }
  }

  // A complete stream with anything behind it means its input.
  lemma StreamFollowed(z: seq<byte>, pieces: seq<seq<byte>>, extra: seq<byte>, level: nat, items: seq<Item>, step: (bv32, byte) -> bv32)
    requires Complete(BytesToBits(z), level, items, step) && Flatten(pieces) == z + extra
    ensures forall k :: 0 <= k < |items| ==> Runs(items[k].rs)
    ensures Meaning(SupplyBits(pieces), step).bytes == PlainItems(items) && Meaning(SupplyBits(pieces), step).end.Ends?
  {
    hide ItemOk, BytesToBits, ToBits, StreamHeader, Trailer, ItemsBits, Meaning, PlainItems, CombinedCrc, Num, Proper, Runs, SupplyBits, Flatten;
    ItemsShape(items, level, step);
    var combined := Num(CombinedCrc(items));
    var pad: nat :| pad < 8 && BytesToBits(z) == StreamBits(level, items) + ToBits(0, pad);
    var t := ToBits(0, pad) + BytesToBits(extra);
    SupplyWhole(pieces);
    BytesConcat(z, extra);
    StreamNest(StreamHeader(level), ItemsBits(items, 0), Trailer(combined), ToBits(0, pad), BytesToBits(extra));
    StreamMeans(items, combined, level, step, t);
  }

  lemma StreamNest(a: seq<bit>, b: seq<bit>, c: seq<bit>, p: seq<bit>, t: seq<bit>)
    ensures ((a + (b + c)) + p) + t == a + (b + (c + (p + t)))
  {
  }

  // The decompressor on a delivered stream, cut into any pieces and followed by anything.
  method Restore(s: EState, pieces: seq<seq<byte>>, small: bool, rooms: seq<nat>, ghost extra: seq<byte>) returns (ret: Decompressor.DRet, out: seq<byte>)
    requires s.Valid() && s.Drained() && s.Ended() && Flatten(pieces) == s.delivered + extra
    ensures ret == Decompressor.StreamEnd ==> out == s.consumed && |out| <= RoundTrip.Sum(rooms)
    ensures ret == Decompressor.OutputFull ==> out < s.consumed && |out| == RoundTrip.Sum(rooms)
    ensures ret == Decompressor.StreamEnd || ret == Decompressor.OutputFull
  {
    hide EState.Valid, EState.Drained, EState.Ended, Complete, SupplyBits, Runs, PlainItems, BitReader.Valid, BitReader.Stream,
         RoundTrip.Sum, Flatten, BytesToBits, Meaning;
    s.StreamIsComplete();
    StreamFollowed(s.delivered, pieces, extra, s.level, s.items, s.step);
    var r := new BitReader(pieces);
    ret, out := Decompressor.Decompress(r, s.step, small, rooms);
  }

  // The front part of a stream means part of its input and asks for more, unless only padding
  // is missing.
  lemma PartFollowed(z: seq<byte>, part: seq<byte>, lost: seq<byte>, pieces: seq<seq<byte>>, level: nat, items: seq<Item>, step: (bv32, byte) -> bv32)
    requires Complete(BytesToBits(z), level, items, step) && z == part + lost && Flatten(pieces) == part
    ensures forall k :: 0 <= k < |items| ==> Runs(items[k].rs)
    ensures var m := Meaning(SupplyBits(pieces), step); m.bytes <= PlainItems(items) && (m.end.Short? || (m.end.Ends? && m.bytes == PlainItems(items)))
  {
    hide BytesToBits, Meaning, PlainItems, Runs, SupplyBits, Flatten, Complete;
    FlattenFront(z, []);
    FlattenNone();
    assert [z] + [] == [z] && z + [] == z;
    StreamFollowed(z, [z], [], level, items, step);
    SupplyWhole([z]);
    SupplyWhole(pieces);
    BytesConcat(part, lost);
    MeaningOnward(SupplyBits(pieces), BytesToBits(lost), step);
  }

  lemma FlattenNone()
    ensures Flatten([]) == []
  {
  }

  // A delivered stream cut off anywhere: no error and no wrong byte.
  method RestorePart(s: EState, ghost lost: seq<byte>, pieces: seq<seq<byte>>, small: bool, rooms: seq<nat>) returns (ret: Decompressor.DRet, out: seq<byte>)
    requires s.Valid() && s.Drained() && s.Ended() && s.delivered == Flatten(pieces) + lost
    ensures out <= s.consumed && (ret == Decompressor.StreamEnd ==> out == s.consumed)
    ensures ret == Decompressor.StreamEnd || ret == Decompressor.NeedInput || (ret == Decompressor.OutputFull && |out| == RoundTrip.Sum(rooms))
  {
    hide EState.Valid, EState.Drained, EState.Ended, Complete, SupplyBits, Runs, PlainItems, BitReader.Valid, BitReader.Stream,
         RoundTrip.Sum, Flatten, BytesToBits, Meaning;
    s.StreamIsComplete();
    PartFollowed(s.delivered, Flatten(pieces), lost, pieces, s.level, s.items, s.step);
    var r := new BitReader(pieces);
    ret, out := Decompressor.Decompress(r, s.step, small, rooms);
  }

  // A single block through both programs, without the stream around it.
  method BlockRoundTrip(bytes: seq<byte>, inUse: seq<bool>, crc: bv32, level: nat, workFactor: int, d: DState, small: bool, rooms: seq<nat>, ghost rs: seq<RunLength.Run>)
    returns (out: seq<byte>, finished: bool)
    requires 1 <= level <= 9 && 0 < |bytes| <= 100000 * level && |inUse| == 256 && AllUsed(inUse, bytes)
    requires Runs(rs) && bytes == Stored(rs) && crc == Finalise(FoldCrc(d.step, 0xffff_ffff, Plain(rs))) && Prepared(d, level, small)
    modifies d, d.tt, d.ll16, d.ll4, d.cftab
    ensures out <= Plain(rs) && (finished <==> RoundTrip.Sum(rooms) >= |Plain(rs)|)
    ensures if finished then out == Plain(rs) && Finalise(d.calculatedBlockCRC) == crc else |out| == RoundTrip.Sum(rooms)
  {
    hide BitReader.Valid, BitReader.Stream, BitWriter.Valid, BitWriter.Written, BytesToBits, ToBits, ParseHeader, ParseBlock, BlockHeader, BodyBits, ItemBits, ItemOk,
         Stored, Plain, FoldCrc, RoundTrip.Sum, RoundTrip.Emitting, Prepared, BlockOut, AllUsed, Num, Finalise, SupplyBits;
    out, finished := [], false;
    var w := new BitWriter();
    ghost var it := SendItem(w, bytes, inUse, crc, level, workFactor, rs, d.step);
    ghost var bits := w.Written();
    w.FinishWrite();
    ghost var pad: nat :| pad < 8 && BytesToBits(w.zbits) == bits + ToBits(0, pad);
    var r := new BitReader([w.zbits]);
    SupplyOne(w.zbits);
    ItemNest(it, level, d.step, ToBits(0, pad));
    var p, h := ReceiveHeader(r, level);
    if p != Received || !h.ABlock? {
      return;
    }
    ItemParses(it, level, d.step, ToBits(0, pad));
    ghost var b;
    p, b := ReceiveBlock(r, d, h.origPtr, small, level);
    if p != Received {
      return;
    }
    var end, avail, used;
    RoundTrip.SumNone(rooms);
    out, end, avail, used := RoundTrip.Emit(d, small, 0, rooms, 0, b, Expansion(Plain(rs), false));
    finished := end == RoundTrip.Finished;
    RoundTrip.SumPart(rooms, used);
    assert rooms[..|rooms|] == rooms;
  }

  lemma SupplyOne(z: seq<byte>)
    ensures SupplyBits([z]) == BytesToBits(z)
  {
    assert [z][1..] == [] && BytesToBits(z) + [] == BytesToBits(z);
  }

  lemma ItemNest(it: Item, level: nat, step: (bv32, byte) -> bv32, t: seq<bit>)
    requires ItemOk(it, level, step)
    ensures Proper(it.body) && ParseHeader([] + ItemBits(it) + t, level) == Done(ABlock(Num(it.crc), 0, it.orig), BodyBits(it.body) + t)
  {
    hide ParseHeader, BodyBits, BlockHeader, Proper, ItemOk, Num;
    HeaderThen(it, Num(it.crc), level, step, t);
    Join(BlockHeader(Num(it.crc), it.orig), BodyBits(it.body), t);
    assert [] + ItemBits(it) == ItemBits(it);
  }

  // Compress by any script of calls, then by finishing calls unless the script reached the
  // end of the stream; decompress from any pieces of what was delivered into any buffers: the
  // output is the input offered, all of it when the buffers have room for it.  After a script
  // that only runs, finishing calls with enough room in all do reach the end.
  method CompressAndRestore(level: nat, workFactor: int, step: (bv32, byte) -> bv32, script: seq<Step>, last: seq<nat>, cuts: seq<nat>, small: bool, rooms: seq<nat>)
    returns (ended: bool, calls: nat, ret: Decompressor.DRet, out: seq<byte>)
    requires 1 <= level <= 9
    ensures calls <= |script| && (OnlyRuns(script) ==> calls == |script|)
    ensures OnlyRuns(script) && 8 * RoundTrip.Sum(last) > StreamRoom(|Offered(script)|) ==> ended
    ensures ended ==> out <= Offered(script[..calls]) && (ret == Decompressor.StreamEnd ==> out == Offered(script[..calls]))
    ensures ended && RoundTrip.Sum(rooms) >= |Offered(script[..calls])| ==> ret == Decompressor.StreamEnd
    ensures ended && RoundTrip.Sum(rooms) < |Offered(script[..calls])| ==> ret == Decompressor.OutputFull && |out| == RoundTrip.Sum(rooms)
  {
    hide EState.Valid, EState.Drained, EState.Ended, EState.Settled, RoundTrip.Sum, Flatten, Offered;
    var s := new EState(level, workFactor, step);
    ret, out := Decompressor.NeedInput, [];
    ended, calls := Play(s, script);
    if !ended {
      assert script[..|script|] == script;
      ended := FinishOff(s, last);
    }
    if ended {
      var pieces := Cut(s.delivered, cuts);
      assert s.delivered + [] == s.delivered;
      assert s.consumed + [] == s.consumed;
      ret, out := Restore(s, pieces, small, rooms, []);
    }
  }

  // Pieces of the given lengths, as far as the bytes reach, and the remainder.
  method Cut(z: seq<byte>, cuts: seq<nat>) returns (pieces: seq<seq<byte>>)
    ensures Flatten(pieces) == z
  {
    pieces := [z];
    assert Flatten([z]) == z by {
      assert [z][1..] == [];
      assert z + [] == z;
    }
    var i := |cuts|;
    while i > 0
      invariant 0 <= i <= |cuts| && |pieces| > 0 && Flatten(pieces) == z
    {
      i := i - 1;
      var n := if cuts[i] <= |pieces[0]| then cuts[i] else |pieces[0]|;
      var head, tail := pieces[0][..n], pieces[0][n..];
      CutFront(pieces, n);
      pieces := [head, tail] + pieces[1..];
    }
  }

  lemma CutFront(pieces: seq<seq<byte>>, n: nat)
    requires |pieces| > 0 && n <= |pieces[0]|
    ensures Flatten([pieces[0][..n], pieces[0][n..]] + pieces[1..]) == Flatten(pieces)
  {
    hide Flatten;
    var head, tail, rest := pieces[0][..n], pieces[0][n..], pieces[1..];
    FlattenFront(tail, rest);
    FlattenFront(head, [tail] + rest);
    assert [head, tail] + rest == [head] + ([tail] + rest);
    assert pieces == [pieces[0]] + rest;
    FlattenFront(pieces[0], rest);
    assert head + (tail + Flatten(rest)) == (head + tail) + Flatten(rest);
    assert head + tail == pieces[0];
  }

  lemma FlattenFront(a: seq<byte>, rest: seq<seq<byte>>)
    ensures Flatten([a] + rest) == a + Flatten(rest)
  {
    assert ([a] + rest)[1..] == rest;
  }
}
