// A whole stream through the decompressor, whatever the input: header, blocks one after the
// other, trailer, with every checksum compared.
module Decompressor {
  import opened Bits
  import opened BitIO
  import opened Rotations
  import opened RunLength
  import opened BlockOutput
  import opened SideInfo
  import opened CodingTables
  import opened Container
  import opened BlockCodec
  import opened BlockInput
  import opened StreamMeaning
  import Locality
  import RoundTrip
  import InverseTables

  // What the last call returned.  BZ_OK is OutputFull or NeedInput, as the caller has no
  // room or no input left; Unfollowed is where the model does not follow the program.
  datatype DRet = StreamEnd | OutputFull | NeedInput | DataError | DataErrorMagic | Unfollowed

  // The return value that says how the input ends.
  ghost predicate Answers(ret: DRet, end: End, rest: seq<bit>) {
    match ret
    case StreamEnd => end == Ends(rest)
    case OutputFull => false
    case NeedInput => end.Short?
    case DataError => end.Bad?
    case DataErrorMagic => end.BadMagic?
    case Unfollowed => end.Outside?
  }

  // out is what has been given out of t when the decompressor stops.
  ghost predicate Stops(ret: DRet, out: seq<byte>, t: Told, rest: seq<bit>) {
    if ret == OutputFull then out <= t.bytes && (|out| < |t.bytes| || t.end.Bad?)
    else out == t.bytes && Answers(ret, t.end, rest)
  }

  function Reason(p: Ending): (ret: DRet)
    requires p != Received
    ensures ret != OutputFull
  {
    match p
    case Refused => DataError
    case OutOfInput => NeedInput
    case PastArray => Unfollowed
  }

  lemma ReasonAnswers<T>(p: Ending, x: Parsed<T>, rest: seq<bit>)
    requires p != Received && x == match p case Refused => Corrupt case OutOfInput => Starved case PastArray => Overrun
    ensures Stops(Reason(p), [], Told([], Failed(x)), rest)
  {
  }

  lemma StopsBefore(ret: DRet, s: seq<byte>, out: seq<byte>, t: Told, rest: seq<bit>)
    requires Stops(ret, out, t, rest)
    ensures Stops(ret, s + out, Before(s, t), rest)
  {
    if ret == OutputFull {
      assert s + out == (s + t.bytes)[..|s| + |out|];
    }
  }

  // A block that expands to e, followed by what comes after it.
  ghost function Checked(e: Expansion, crc: nat, bits: seq<bit>, level: nat, combined: bv32, step: (bv32, byte) -> bv32): Told {
    var calculated := Finalise(FoldCrc(step, 0xffff_ffff, e.bytes));
    if e.corrupt || Num(calculated) != crc then Told(e.bytes, Bad)
    else Before(e.bytes, Blocks(bits, level, Combine(combined, calculated), step))
  }

  lemma StopsInside(out: seq<byte>, e: Expansion, crc: nat, bits: seq<bit>, level: nat, combined: bv32, step: (bv32, byte) -> bv32)
    requires out <= e.bytes && (|out| < |e.bytes| || e.corrupt)
    ensures Stops(OutputFull, out, Checked(e, crc, bits, level, combined, step), bits)
  {
    hide Blocks, Finalise, Num, FoldCrc, Combine;
    var t := Checked(e, crc, bits, level, combined, step);
    assert out == t.bytes[..|out|];
  }

  // Output and checksum of a received block.  next says that the block is complete and right.
  method Give(r: BitReader, d: DState, small: bool, level: nat, crc: nat, combined: bv32, avail0: nat, rooms: seq<nat>, used0: nat,
              ghost b: seq<byte>, ghost e: Expansion)
    returns (next: bool, ret: DRet, out: seq<byte>, combined': bv32, avail: nat, used: nat)
    requires RoundTrip.Emitting(d, b, small, e, []) && used0 <= |rooms| && d.capacity == 100000 * level && 1 <= level <= 9
    modifies d
    ensures used0 <= used <= |rooms| && |out| + avail + RoundTrip.Sum(rooms[..used0]) == avail0 + RoundTrip.Sum(rooms[..used])
    ensures next ==> Checked(e, crc, r.Stream(), level, combined, d.step) == Before(out, Blocks(r.Stream(), level, combined', d.step)) && Prepared(d, level, small)
    ensures !next ==> Stops(ret, out, Checked(e, crc, r.Stream(), level, combined, d.step), r.Stream())
    ensures !next && ret == OutputFull ==> avail == 0 && used == |rooms|
  {
    hide BitReader.Stream, RoundTrip.Emitting, RoundTrip.Holds, RoundTrip.Sum, Blocks, Finalise, Num, FoldCrc, Combine, Prepared;
    next, ret, combined' := false, OutputFull, combined;
    var end;
    out, end, avail, used := RoundTrip.Emit(d, small, avail0, rooms, used0, b, e);
    match end
    case Full =>
      StopsInside(out, e, crc, r.Stream(), level, combined, d.step);
    case CutShort =>
      ret := DataError;
    case Finished =>
      PreparedAgain(d, level, small, b);
      var calculated := Finalise(d.calculatedBlockCRC);
      if Num(calculated) != crc {
        ret := DataError;
        return;
      }
      combined' := Combine(combined, calculated);
      next := true;
  }

  // One block once its header has been read.
  method OneBlock(r: BitReader, d: DState, small: bool, level: nat, crc: nat, origPtr: nat, combined: bv32, avail0: nat, rooms: seq<nat>, used0: nat)
    returns (next: bool, ret: DRet, out: seq<byte>, combined': bv32, avail: nat, used: nat)
    requires r.Valid() && Prepared(d, level, small) && used0 <= |rooms|
    modifies r, d, d.tt, d.ll16, d.ll4, d.cftab
    ensures r.Valid() && used0 <= used <= |rooms| && |out| + avail + RoundTrip.Sum(rooms[..used0]) == avail0 + RoundTrip.Sum(rooms[..used])
    ensures var t := BlockThen(crc, origPtr, old(r.Stream()), level, combined, d.step);
            if next then t == Before(out, Blocks(r.Stream(), level, combined', d.step)) && Prepared(d, level, small) && |r.Stream()| <= |old(r.Stream())|
            else Stops(ret, out, t, r.Stream()) && (ret == OutputFull ==> avail == 0 && used == |rooms|)
  {
    hide BitReader.Valid, BitReader.Stream, ParseBlock, BlockOut, RoundTrip.Emitting, RoundTrip.Sum, Blocks, Finalise, Num, FoldCrc, Combine, Prepared, Stops,
         Reason;
    CapacityIs(d, level, small);
    BlockRest(r.Stream(), level, origPtr);
    ghost var c := ParseBlock(r.Stream(), level, origPtr);
    var p;
    ghost var b;
    p, b := ReceiveBlock(r, d, origPtr, small, level);
    if p != Received {
      next, ret, out, combined', avail, used := false, Reason(p), [], combined, avail0, used0;
      ReasonAnswers(p, c, r.Stream());
      return;
    }
    next, ret, out, combined', avail, used := Give(r, d, small, level, crc, combined, avail0, rooms, used0, b, BlockOut(c.value, origPtr));
  }

  lemma BlockRest(bits: seq<bit>, level: nat, orig: nat)
    ensures var c := ParseBlock(bits, level, orig); c.Done? ==> |c.rest| <= |bits|
  {
    hide ParseBlock;
    Locality.BlockLocal(bits, [], level, orig);
  }

  lemma CapacityIs(d: DState, level: nat, small: bool)
    requires Prepared(d, level, small)
    ensures d.capacity == 100000 * level && 1 <= level <= 9
  {
  }

  // What the stream header, or its failure, says.
  lemma StartSays(bits: seq<bit>, step: (bv32, byte) -> bv32, p: Ending, level: nat, rest: seq<bit>)
    requires ParseStart(bits) == Result(p, level, rest)
    ensures p == Received ==> 1 <= level <= 9 && Meaning(bits, step) == Before([], Blocks(rest, level, 0, step))
    ensures p != Received ==> Stops(if p == Refused then DataErrorMagic else Reason(p), [], Meaning(bits, step), rest)
  {
    hide Blocks, ParseMatch, ParseNumber;
    if p == Received {
      BeforeTwice([], [], Blocks(rest, level, 0, step));
    }
  }

  // What a header, or its failure, says.
  lemma HeaderSays(bits: seq<bit>, level: nat, combined: bv32, step: (bv32, byte) -> bv32, p: Ending, h: Header, rest: seq<bit>)
    requires ParseHeader(bits, level) == Result(p, h, rest)
    ensures p != Received ==> Stops(Reason(p), [], Blocks(bits, level, combined, step), rest)
    ensures p == Received && h.TheEnd? ==>
              Stops(if Num(combined) == h.combined then StreamEnd else DataError, [], Blocks(bits, level, combined, step), rest)
    ensures p == Received && h.ABlock? && h.randomised != 0 ==> Stops(Unfollowed, [], Blocks(bits, level, combined, step), rest)
    ensures p == Received && h.ABlock? && h.randomised == 0 ==>
              Blocks(bits, level, combined, step) == BlockThen(h.crc, h.origPtr, rest, level, combined, step)
    ensures p == Received ==> |rest| < |bits|
  {
    hide ParseHeader, BlockThen, Num, Locality.Local;
    Locality.HeaderLocal(bits, [], level);
  }

  // BZ2_bzDecompress, called again and again: rooms lists the sizes of the output buffers
  // the caller brings, and the input arrives in the reader's pieces.  Unless the buffers fill
  // up first, the output is what the input means and the return value says how it ends.
  method Decompress(r: BitReader, step: (bv32, byte) -> bv32, small: bool, rooms: seq<nat>) returns (ret: DRet, out: seq<byte>)
    requires r.Valid()
    modifies r
    ensures r.Valid() && Stops(ret, out, Meaning(old(r.Stream()), step), r.Stream())
    ensures |out| <= RoundTrip.Sum(rooms) && (ret == OutputFull ==> |out| == RoundTrip.Sum(rooms))
  {
    hide BitReader.Valid, BitReader.Stream, ParseHeader, ParseStart, Meaning, Blocks, BlockThen, Before, Prepared, RoundTrip.Sum, InverseTables.Cells, Num, Stops,
         Reason;
    out := [];
    ghost var all, bits := Meaning(r.Stream(), step), r.Stream();
    var p, level := ReceiveStart(r);
    StartSays(bits, step, p, level, r.Stream());
    if p != Received {
      ret := if p == Refused then DataErrorMagic else Reason(p);
      return;
    }
    var d := new DState(step, level, small);
    Fresh(d, level, small);
    var combined: bv32, avail, used := 0, 0, 0;
    RoundTrip.SumNone(rooms);
    while true
      invariant r.Valid() && fresh(d) && fresh(d.tt) && fresh(d.ll16) && fresh(d.ll4) && fresh(d.cftab)
      invariant Prepared(d, level, small) && d.step == step
      invariant all == Before(out, Blocks(r.Stream(), level, combined, step))
      invariant used <= |rooms| && |out| + avail == RoundTrip.Sum(rooms[..used])
      decreases |r.Stream()|
    {
      ghost var before, from := out, r.Stream();
      ghost var t := Blocks(from, level, combined, step);
      var h;
      p, h := ReceiveHeader(r, level);
      HeaderSays(from, level, combined, step, p, h, r.Stream());
      var next, more := false, [];
      if p != Received {
        ret := Reason(p);
      } else if h.TheEnd? {
        ret := if Num(combined) == h.combined then StreamEnd else DataError;
      } else if h.randomised != 0 {
        ret := Unfollowed;
      } else {
        next, ret, more, combined, avail, used := OneBlock(r, d, small, level, h.crc, h.origPtr, combined, avail, rooms, used);
      }
      out := out + more;
      if !next {
        StopsBefore(ret, before, more, t, r.Stream());
        RoundTrip.SumPart(rooms, used);
        assert rooms[..|rooms|] == rooms;
        return;
      }
      BeforeTwice(before, more, Blocks(r.Stream(), level, combined, step));
    }
  }

  lemma Fresh(d: DState, level: nat, small: bool)
    requires d.Distinct() && d.cftab.Length == 257 && d.capacity == 100000 * level && 1 <= level <= 9
    requires if small then d.ll16.Length == d.capacity && InverseTables.Cells(d.ll16[..], d.ll4[..]) else d.tt.Length == d.capacity
    ensures Prepared(d, level, small)
  {
  }
}
