// What the decompressor makes of any bits in place of a block: the column they stand for, or
// why there is none, and the bytes a column and a start row expand to.
module BlockInput {
  import opened Bits
  import opened BitIO
  import opened Rotations
  import opened Counting
  import opened RunLength
  import opened BlockOutput
  import opened ByteMap
  import opened MtfEncoder
  import opened SideInfo
  import opened CodingTables
  import opened SymbolGroups
  import opened Payload
  import opened RoundTrip
  import Inverse
  import InverseTables
  import Mtf
  import MtfDecoder

  // ---- the meaning of a block ----

  // The column the symbols stand for.  A symbol that cannot be right is an error even when
  // the symbols after it are missing.
  ghost function ParseColumn(f: Front, bits: seq<bit>, room: nat): (p: Parsed<seq<byte>>)
    requires FrontOk(f)
    ensures p.Done? ==> |p.value| <= room
  {
    hide Hear, UsedBelow, Mtf.Decode, FrontOk, Named;
    HeardDecodes(f, bits, room);
    var h := Hear(f.lens, f.sel, UsedBelow(f.inUse, 256) + 1, 0, bits);
    var d := Mtf.Decode(StartList(), h.ss, room, UsedBelow(f.inUse, 256) + 1);
    if d.DataError? then Corrupt
    else if !h.end.Done? then Failing(h.end)
    else Done(Named(f.inUse, d.out), h.end.rest)
  }

  lemma HeardDecodes(f: Front, bits: seq<bit>, room: nat)
    requires FrontOk(f)
    ensures |f.inUse| == 256 && 1 <= UsedBelow(f.inUse, 256) <= 256 && (forall g :: 0 <= g < |f.sel| ==> f.sel[g] < |f.lens|)
    ensures var h := Hear(f.lens, f.sel, UsedBelow(f.inUse, 256) + 1, 0, bits);
            && Mtf.InRange(h.ss, UsedBelow(f.inUse, 256) + 1) && !h.end.Overrun?
            && var d := Mtf.Decode(StartList(), h.ss, room, UsedBelow(f.inUse, 256) + 1);
               && (h.end.Done? ==> !d.NeedInput?) && (!h.end.Done? ==> !d.Ok?)
               && (d.Ok? ==> |d.out| <= room && forall i :: 0 <= i < |d.out| ==> d.out[i] < UsedBelow(f.inUse, 256))
  {
    hide Hear, UsedBelow, Mtf.Decode, Mtf.Closed;
    var n := UsedBelow(f.inUse, 256);
    var h := Hear(f.lens, f.sel, n + 1, 0, bits);
    LengthsSized(f.lens, n);
    HeardCloses(f.lens, f.sel, n + 1, 0, bits);
    var d := Mtf.Decode(StartList(), h.ss, room, n + 1);
    if h.end.Done? {
      Mtf.ClosedDecodes(StartList(), h.ss, room, n + 1);
    } else {
      Mtf.OpenWaits(StartList(), h.ss, room, n + 1);
    }
    if d.Ok? {
      Mtf.DecodeDrawn(StartList(), h.ss, room, n + 1);
      DrawnBelow(d.out, n);
    }
  }

  lemma LengthsSized(lens: seq<seq<byte>>, n: nat)
    requires forall t :: 0 <= t < |lens| ==> ProperLengths(lens[t], n + 2)
    ensures forall t :: 0 <= t < |lens| ==> |lens[t]| == n + 2
  {
    forall t | 0 <= t < |lens| ensures |lens[t]| == n + 2 {
      assert ProperLengths(lens[t], n + 2);
    }
  }

  lemma DrawnBelow(s: seq<byte>, n: nat)
    requires n <= 256 && Mtf.Drawn(s, StartList()[..n])
    ensures forall i :: 0 <= i < |s| ==> s[i] < n
  {
    forall i | 0 <= i < |s| ensures s[i] < n {
      assert s[i] in StartList()[..n];
    }
  }

  // A whole body, with the better check of the start row now that the length is known.
  ghost function ParseBlock(bits: seq<bit>, level: nat, orig: nat): (p: Parsed<seq<byte>>)
    ensures p.Done? ==> orig < |p.value| <= 100000 * level
  {
    hide ParseFront, ParseColumn;
    var f := ParseFront(bits);
    if !f.Done? then Failing(f)
    else
      var c := ParseColumn(f.value, f.rest, 100000 * level);
      if c.Done? && orig >= |c.value| then Corrupt else c
  }

  lemma UnrankLinks(col: seq<byte>)
    ensures IsUnrank(col, Unrank(col)) && |Unrank(col)| == |col| && Links(Unrank(col))
  {
    UnrankIsPerm(col, Unrank(col));
  }

  // The block read along the links from the start row, whether or not they form one cycle.
  ghost function BlockText(col: seq<byte>, orig: nat): (b: seq<byte>)
    requires orig < |col|
    ensures |b| == |col|
  {
    UnrankLinks(col);
    Message(col, Unrank(col), orig)
  }

  // The bytes of the block's runs; a count missing at the end reads as the symbol one past it.
  ghost function BlockOut(col: seq<byte>, orig: nat): Expansion
    requires orig < |col|
  {
    UnrankLinks(col);
    Expand(BlockText(col, orig), Read(col, Unrank(col), orig, |col|))
  }

  // ---- receiving ----

  // makeMaps_d
  method Names(inUse: seq<bool>) returns (names: seq<byte>)
    requires |inUse| == 256
    ensures |names| == 256 && Lists(inUse, names)
  {
    var seqToUnseq := new int[256](_ => 0);
    var nInUse := MakeMapsD(inUse, seqToUnseq);
    names := seq(256, i requires 0 <= i < 256 reads seqToUnseq => if 0 <= seqToUnseq[i] < 256 then seqToUnseq[i] else 0);
  }

  // The received column in the block's own byte values.
  lemma ColumnNamed(inUse: seq<bool>, names: seq<byte>, tt: seq<int>, unzftab: seq<int>, out: seq<byte>)
    requires Lists(inUse, names) && MtfDecoder.Filled(tt, unzftab, names, out) && forall i :: 0 <= i < |out| ==> out[i] < UsedBelow(inUse, 256)
    ensures |out| <= |tt| && |unzftab| == 256
    ensures forall i :: 0 <= i < |out| ==> tt[i] == Named(inUse, out)[i]
    ensures forall c :: 0 <= c < 256 ==> unzftab[c] == Count(Named(inUse, out), c)
  {
    hide Count, Named;
    NamesAgree(inUse, names, out);
    assert tt[..|out|] == Named(inUse, out);
  }

  // Ready for a block of at most d.capacity bytes.
  ghost predicate Prepared(d: DState, level: nat, small: bool)
    reads d.ll16, d.ll4
  {
    && d.Distinct() && d.cftab.Length == 257 && d.capacity == 100000 * level && 1 <= level <= 9
    && (if small then d.ll16.Length == d.capacity && InverseTables.Cells(d.ll16[..], d.ll4[..]) else d.tt.Length == d.capacity)
  }

  // The symbols become a column, with its histogram.
  method ReceiveColumn(r: BitReader, f: Front, nInUse: nat, tables: seq<Table>, column: array<int>, unzftab: array<int>, room: nat)
    returns (p: Ending, nblock: nat)
    requires r.Valid() && FrontOk(f) && nInUse == UsedBelow(f.inUse, 256)
    requires |tables| == |f.lens| && forall t :: 0 <= t < |f.lens| ==> TableFor(f.lens[t], tables[t])
    requires column != unzftab && unzftab.Length == 256 && room <= column.Length
    modifies r, column, unzftab
    ensures r.Valid()
    ensures match ParseColumn(f, old(r.Stream()), room)
            case Done(col, rest) => p == Received && r.Stream() == rest && nblock == |col|
                                    && (forall i :: 0 <= i < nblock ==> column[i] == col[i])
                                    && (forall i :: nblock <= i < column.Length ==> column[i] == old(column[i]))
                                    && (forall c :: 0 <= c < 256 ==> unzftab[c] == Count(col, c))
            case Corrupt => p == Refused
            case Starved => p == OutOfInput
            case Overrun => false
  {
    hide BitReader.Valid, BitReader.Stream, Hear, UsedBelow, Mtf.Decode, Named, Count, MtfDecoder.Filled, TableFor, Lists, Hearing;
    HeardDecodes(f, r.Stream(), room);
    var names := Names(f.inUse);
    var g := new SymbolReader(f.sel, tables, f.lens);
    ghost var h := Hear(f.lens, f.sel, nInUse + 1, 0, r.Stream());
    HearingStart(g, r, h, nInUse + 1);
    ghost var d := Mtf.Decode(StartList(), h.ss, room, nInUse + 1);
    p, nblock := DecodeSymbols(g, r, nInUse, names, room, column, unzftab, h);
    if d.Ok? {
      ColumnNamed(f.inUse, names, column[..], unzftab[..], d.out);
    }
  }

  method DecodeSymbols(g: SymbolReader, r: BitReader, nInUse: nat, names: seq<byte>, room: nat, column: array<int>, unzftab: array<int>, ghost h: Heard)
    returns (p: Ending, nblock: nat)
    requires column != unzftab && unzftab.Length == 256 && |names| == 256 && room <= column.Length
    requires 1 <= nInUse <= 256 && Mtf.InRange(h.ss, nInUse + 1) && Hearing(g, r, h.ss, 0, h.end, nInUse + 1)
    modifies g, r, column, unzftab
    ensures r.Valid()
    ensures match Mtf.Decode(StartList(), h.ss, room, nInUse + 1)
            case Ok(out, _) => p == Received && nblock == |out| && h.end == Done((), r.Stream())
                               && MtfDecoder.Filled(column[..], unzftab[..], names, out) && (forall i :: nblock <= i < column.Length ==> column[i] == old(column[i]))
            case DataError => p == Refused
            case NeedInput => MtfDecoder.Missing(p, h.end)
  {
    hide BitReader.Valid, BitReader.Stream, Mtf.Decode, MtfDecoder.Filled, Hearing, Mtf.InRange, MtfDecoder.Missing;
    var n;
    p, n := MtfDecoder.DecodeColumn(g, r, nInUse, names, room, column, unzftab, StartList(), h.ss, h.end);
    nblock := if n < 0 then 0 else n;
  }

  lemma HearingStart(g: SymbolReader, r: BitReader, h: Heard, eob: int)
    requires g.Valid() && r.Valid() && g.Taken() == 0 && h == Hear(g.lens, g.selector, eob, 0, r.Stream())
    ensures Hearing(g, r, h.ss, 0, h.end, eob)
  {
    assert h.ss[0..] == h.ss;
  }

  // A block once its header has been read.
  method ReceiveBlock(r: BitReader, d: DState, origPtr: nat, small: bool, level: nat) returns (p: Ending, ghost b: seq<byte>)
    requires r.Valid() && Prepared(d, level, small)
    modifies r, d, d.tt, d.ll16, d.ll4, d.cftab
    ensures r.Valid()
    ensures match ParseBlock(old(r.Stream()), level, origPtr)
            case Done(col, rest) => p == Received && r.Stream() == rest && Emitting(d, b, small, BlockOut(col, origPtr), [])
            case Corrupt => p == Refused
            case Starved => p == OutOfInput
            case Overrun => p == PastArray
  {
    hide BitReader.Valid, BitReader.Stream, ParseFront, ParseColumn, UsedBelow, TableFor, Count, Emitting, Message, Links, Read, Unrank, IsUnrank, Expand, OwedFrom,
         Holds, Inverse.Walk;
    b := [];
    var f, nInUse, tables;
    p, f, nInUse, tables := ReceiveFront(r);
    if p != Received {
      return;
    }
    var unzftab := new int[256];
    var column := if small then d.ll16 else d.tt;
    ghost var c := ParseColumn(f, r.Stream(), d.capacity);
    var nblock;
    p, nblock := ReceiveColumn(r, f, nInUse, tables, column, unzftab, d.capacity);
    if p != Received {
      return;
    }
    if origPtr >= nblock {
      p := Refused;
      return;
    }
    b := BlockText(c.value, origPtr);
    UnrankLinks(c.value);
    var ok := Install(d, unzftab, nblock, origPtr, small, b, c.value, Unrank(c.value));
    EmittingStart(d, b, small, Read(c.value, Unrank(c.value), origPtr, nblock));
  }

  // After a block the tables are ready for the next one.
  lemma PreparedAgain(d: DState, level: nat, small: bool, b: seq<byte>)
    requires Holds(d, b, small) && d.capacity == 100000 * level && 1 <= level <= 9
    ensures Prepared(d, level, small)
  {
    hide Message, Links, Counting.IsUnrank, FastTable, Inverse.Walk, InverseTables.Cells, InverseTables.Inverted, InverseTables.View, Counting.Below;
  }
}
