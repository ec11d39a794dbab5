// A block between its symbols and its bytes: sorting and move-to-front coding on the way out;
// on the way in either inverse, and run expansion into buffers of any size.
module RoundTrip {
  import opened Powers
  import opened Perms
  import opened Rotations
  import opened Counting
  import opened Inverse
  import opened RunLength
  import opened BlockOutput
  import opened ByteMap
  import opened MtfEncoder
  import InverseTables
  import BlockSort
  import Mtf

  // The transmitted column, its links and the start row stand for the block.
  lemma ColumnStandsForBlock(b: seq<byte>, ptr: seq<int>, orig: int)
    requires b != [] && SortedOrder(b, ptr) && 0 <= orig < |b| && ptr[orig] == 0
    ensures |LastColumn(b, ptr)| == |b| == |Unrank(LastColumn(b, ptr))| && IsUnrank(LastColumn(b, ptr), Unrank(LastColumn(b, ptr)))
    ensures Links(Unrank(LastColumn(b, ptr))) && Message(LastColumn(b, ptr), Unrank(LastColumn(b, ptr)), orig) == b
  {
    var col := LastColumn(b, ptr);
    var link := Unrank(col);
    InversionRestores(b, ptr, orig);
    var m := Message(col, link, orig);
    forall k | 0 <= k < |b| ensures m[k] == b[k] {
      assert Read(col, link, orig, k) == Symbol(col, link, orig, k);
    }
  }

  // What the encoder's symbols decode to, whatever follows them.
  lemma SymbolsDecode(b: seq<byte>, ptr: seq<int>, inUse: seq<bool>, eob: int, rest: seq<int>, room: nat)
    requires b != [] && IsPerm(ptr, |b|) && AllUsed(inUse, b) && eob == UsedBelow(inUse, 256) + 1
    requires Mtf.InRange(rest, eob) && |b| <= room < Pow2(21)
    ensures var col := Column(b, ptr, inUse);
            && 2 <= eob <= 257 && Mtf.Drawn(col, StartList()) && Mtf.InRange(Mtf.Encode(StartList(), col, 0, eob) + rest, eob)
            && Mtf.Decode(StartList(), Mtf.Encode(StartList(), col, 0, eob) + rest, room, eob) == Mtf.Ok(col, rest)
  {
    var col, l := Column(b, ptr, inUse), StartList();
    assert col[0] < UsedBelow(inUse, 256);
    forall i | 0 <= i < |col| ensures col[i] in l[..eob - 1] {
      assert l[..eob - 1][col[i]] == col[i];
    }
    Mtf.DecodeEncode(l, col, 0, rest, room, eob);
    assert Repeat(l[0], 0) + col == col;
  }

  // The decoder holds block b and owes its expansion.
  ghost predicate Holds(d: DState, b: seq<byte>, small: bool)
    reads d, d.tt, d.ll16, d.ll4, d.cftab
  {
    && d.Loaded() && Message(d.col, d.link, d.origPtr) == b && IsUnrank(d.col, d.link)
    && (if small then d.ReadySmall() else d.ReadyFast())
  }

  // ss is what the encoder sends for block b sorted as ptr, with rest behind it.
  ghost predicate Sent(b: seq<byte>, ptr: seq<int>, orig: int, inUse: seq<bool>, ss: seq<int>, rest: seq<int>) {
    && b != [] && SortedOrder(b, ptr) && 0 <= orig < |b| && ptr[orig] == 0 && AllUsed(inUse, b)
    && Mtf.InRange(rest, UsedBelow(inUse, 256) + 1) && Mtf.Drawn(Column(b, ptr, inUse), StartList())
    && ss == Mtf.Encode(StartList(), Column(b, ptr, inUse), 0, UsedBelow(inUse, 256) + 1) + rest
  }

  lemma SentDecodes(b: seq<byte>, ptr: seq<int>, orig: int, inUse: seq<bool>, ss: seq<int>, rest: seq<int>, room: nat)
    requires Sent(b, ptr, orig, inUse, ss, rest) && |b| <= room <= 900000
    ensures var eob := UsedBelow(inUse, 256) + 1;
            && 2 <= eob <= 257 && Mtf.InRange(ss, eob) && IsPerm(ptr, |b|) && AllUsed(inUse, b)
            && Mtf.Decode(StartList(), ss, room, eob) == Mtf.Ok(Column(b, ptr, inUse), rest)
  {
    hide Column, Mtf.Encode, Mtf.Decode, Mtf.Drawn, Mtf.InRange, SortedOrder, Pow2;
    RoomForBlocks();
    SortedIsPerm(b, ptr);
    SymbolsDecode(b, ptr, inUse, UsedBelow(inUse, 256) + 1, rest, room);
  }

  lemma RoomForBlocks()
    ensures 900000 < Pow2(21)
  {
    Pow2Values();
    assert Pow2(21) == 2 * Pow2(20);
  }

  lemma SortedIsPerm(b: seq<byte>, ptr: seq<int>)
    requires b != [] && SortedOrder(b, ptr)
    ensures IsPerm(ptr, |b|)
  {
  }

  // A received column: its counts become either inverse, and the block is owed.
  method Install(d: DState, unzftab: array<int>, nblock: int, origPtr: int, small: bool,
                 ghost b: seq<byte>, ghost col: seq<byte>, ghost link: seq<int>)
    returns (ok: bool)
    requires d.Distinct() && d.cftab.Length == 257 && d.capacity <= 900000 && nblock == |b| <= d.capacity && 0 <= origPtr < nblock
    requires if small then d.ll16.Length == d.capacity && InverseTables.Cells(d.ll16[..], d.ll4[..]) else d.tt.Length == d.capacity
    requires unzftab.Length == 256 && unzftab != d.cftab && unzftab != d.tt && unzftab != d.ll16 && unzftab != d.ll4
    requires |col| == nblock == |link| && Links(link) && IsUnrank(col, link) && Message(col, link, origPtr) == b
    requires forall c :: 0 <= c < 256 ==> unzftab[c] == Count(col, c)
    requires forall i :: 0 <= i < nblock ==> (if small then d.ll16[i] else d.tt[i]) == col[i]
    modifies d, d.tt, d.ll16, d.ll4, d.cftab
    ensures ok && Holds(d, b, small) && d.Owed() == OwedFrom(b, Read(col, link, origPtr, nblock), 0)
    ensures d.calculatedBlockCRC == 0xffff_ffff
  {
    hide Count, Message, Links, IsUnrank, Rank, Expand, OwedFrom, Walk, Read, FastTable, SmallTable, InverseTables.Cells;
    d.nblock, d.origPtr := nblock, origPtr;
    d.col, d.link := col, link;
    if small {
      ok := d.StartSmall(unzftab);
    } else {
      ok := d.StartFast(unzftab);
    }
    NothingOut(d.stateOutCh, d.From(0));
  }

  lemma NothingOut(ch: byte, e: Expansion)
    ensures Then(Repeat(ch, 0), e) == e
  {
    assert Repeat(ch, 0) + e.bytes == e.bytes;
  }

  // ---- emitting the block through buffers of any size ----

  function Sum(rooms: seq<nat>): nat {
    if rooms == [] then 0 else Sum(rooms[..|rooms| - 1]) + rooms[|rooms| - 1]
  }

  lemma SumStep(rooms: seq<nat>, i: nat)
    requires i < |rooms|
    ensures Sum(rooms[..i + 1]) == Sum(rooms[..i]) + rooms[i]
  {
    assert rooms[..i + 1][..i] == rooms[..i];
  }

  lemma {:induction false} SumPart(rooms: seq<nat>, i: nat)
    requires i <= |rooms|
    ensures Sum(rooms[..i]) <= Sum(rooms)
    decreases |rooms| - i
  {
    if i == |rooms| {
      assert rooms[..i] == rooms;
    } else {
      SumPart(rooms, i + 1);
      SumStep(rooms, i);
    }
  }

  // out has been emitted of the expansion e, and the rest is still owed.
  ghost predicate Emitting(d: DState, b: seq<byte>, small: bool, e: Expansion, out: seq<byte>)
    reads d, d.tt, d.ll16, d.ll4, d.cftab
  {
    && Holds(d, b, small) && Then(out, d.Owed()) == e
    && d.calculatedBlockCRC == FoldCrc(d.step, 0xffff_ffff, out)
  }

  lemma ThenChain(out: seq<byte>, more: seq<byte>, e: Expansion)
    ensures Then(out, Then(more, e)) == Then(out + more, e)
  {
    assert out + (more + e.bytes) == (out + more) + e.bytes;
  }

  // When the last symbol has been used up and no run is open, nothing is owed.
  lemma AllOut(d: DState, b: seq<byte>, small: bool, e: Expansion, out: seq<byte>)
    requires Emitting(d, b, small, e, out) && d.nblockUsed == d.nblock + 1 && d.stateOutLen == 0
    ensures e == Expansion(out, false)
  {
    hide Message, FoldCrc, FastTable, SmallTable, Walk;
    var m := Message(d.col, d.link, d.origPtr);
    assert m[d.nblock..] == [];
    NothingOut(d.stateOutCh, d.From(d.nblock));
    assert out + [] == out;
  }

  // As long as the block is not finished, a byte or the report of corruption is owed.
  lemma StillOwed(d: DState, b: seq<byte>, small: bool, e: Expansion, out: seq<byte>)
    requires Emitting(d, b, small, e, out) && !(d.nblockUsed == d.nblock + 1 && d.stateOutLen == 0)
    ensures out <= e.bytes && (|out| < |e.bytes| || e.corrupt)
  {
    hide Message, FoldCrc, FastTable, SmallTable, Walk;
    var j := d.nblockUsed - 1;
    if d.stateOutLen == 0 && j < d.nblock {
      SomethingOwed(Message(d.col, d.link, d.origPtr)[j..], d.Sym(d.nblock));
    }
  }

  lemma SomethingOwed(s: seq<byte>, g: byte)
    requires s != []
    ensures Expand(s, g).bytes != []
  {
  }

  method EmitOnce(d: DState, small: bool, room: nat, ghost b: seq<byte>, ghost e: Expansion, ghost out0: seq<byte>)
    returns (corrupt: bool, more: seq<byte>)
    requires Emitting(d, b, small, e, out0)
    modifies d
    ensures |more| <= room
    ensures !corrupt ==> Emitting(d, b, small, e, out0 + more) && (|more| < room ==> d.nblockUsed == d.nblock + 1 && d.stateOutLen == 0)
    ensures corrupt ==> e == Expansion(out0 + more, true)
  {
    hide Message, FoldCrc, FastTable, SmallTable, Walk, Links, IsUnrank, Expand, DState.FastAt, DState.SmallAt, DState.Standing, DState.From, DState.Sym;
    ghost var crc := d.calculatedBlockCRC;
    if small {
      corrupt, more := d.UnRleSmall(room);
    } else {
      corrupt, more := d.UnRleFast(room);
    }
    if !corrupt {
      ThenChain(out0, more, d.Owed());
      FoldCrcAppend(d.step, 0xffff_ffff, out0, more);
    }
  }

  // How emitting a block ends: all of it is out, the caller's buffers are full, or the block
  // stops in the middle of a run.
  datatype Emission = Finished | Full | CutShort

  // However the caller sizes the output buffers, no byte is lost or repeated, corruption is
  // reported exactly when the block expands to it, and the checksum is that of the bytes
  // emitted.  avail is the room left in the current buffer; each later call brings the next
  // one of rooms.
  method Emit(d: DState, small: bool, avail0: nat, rooms: seq<nat>, used0: nat, ghost b: seq<byte>, ghost e: Expansion)
    returns (out: seq<byte>, end: Emission, avail: nat, used: nat)
    requires Emitting(d, b, small, e, []) && used0 <= |rooms|
    modifies d
    ensures used0 <= used <= |rooms| && |out| + avail + Sum(rooms[..used0]) == avail0 + Sum(rooms[..used])
    ensures end == Finished ==> e == Expansion(out, false) && d.calculatedBlockCRC == FoldCrc(d.step, 0xffff_ffff, out) && Holds(d, b, small)
    ensures end == Full ==> avail == 0 && used == |rooms| && out <= e.bytes && (|out| < |e.bytes| || e.corrupt)
    ensures end == CutShort ==> e == Expansion(out, true)
  {
    hide *;
    out, end, avail, used := [], Full, avail0, used0;
    while true
      invariant used0 <= used <= |rooms| && Emitting(d, b, small, e, out)
      invariant |out| + avail + Sum(rooms[..used0]) == avail0 + Sum(rooms[..used])
      decreases |rooms| - used
    {
      var corrupt, more := EmitOnce(d, small, avail, b, e, out);
      out := out + more;
      avail := avail - |more|;
      if corrupt {
        end := CutShort;
        return;
      }
      if d.nblockUsed == d.nblock + 1 && d.stateOutLen == 0 {
        EmittedSo(d, b, small, e, out);
        AllOut(d, b, small, e, out);
        end := Finished;
        return;
      }
      StillOwed(d, b, small, e, out);
      if used == |rooms| {
        return;
      }
      SumStep(rooms, used);
      avail := rooms[used];
      used := used + 1;
    }
  }

  lemma SumNone(rooms: seq<nat>)
    ensures Sum(rooms[..0]) == 0
  {
  }

  lemma EmittedSo(d: DState, b: seq<byte>, small: bool, e: Expansion, out: seq<byte>)
    requires Emitting(d, b, small, e, out)
    ensures d.calculatedBlockCRC == FoldCrc(d.step, 0xffff_ffff, out) && Holds(d, b, small)
  {
  }

  lemma EmittingStart(d: DState, b: seq<byte>, small: bool, g: byte)
    requires Holds(d, b, small) && d.calculatedBlockCRC == 0xffff_ffff && d.Owed() == OwedFrom(b, g, 0)
    ensures Emitting(d, b, small, Expand(b, g), [])
  {
    hide Expand, DState.FastAt, DState.SmallAt, DState.Standing, IsUnrank, Message, Links;
    FoldNothing(d.step, 0xffff_ffff);
    assert b[0..] == b;
    var e := d.Owed();
    assert [] + e.bytes == e.bytes;
  }

  // The compressor's half: sorting, then move-to-front coding of the last column.
  method EncodeBlock(block: array<byte>, nblock: int, inUse: seq<bool>, workFactor: int)
    returns (origPtr: int, ss: seq<int>, nInUse: int, freq: seq<int>, ghost ptr: seq<int>)
    requires 0 < nblock <= 900000 && block.Length == nblock + 34 && |inUse| == 256 && AllUsed(inUse, block[..nblock])
    modifies block
    ensures Sent(old(block[..nblock]), ptr, origPtr, inUse, ss, [])
    ensures nInUse == UsedBelow(inUse, 256) > 0 && 1 <= |ss| <= nblock + 1 && |freq| == nInUse + 2
    ensures forall c :: 0 <= c < |freq| ==> freq[c] == Count(ss, c)
  {
    hide Column, Mtf.Encode, Mtf.Drawn, Compact, AllUsed, Sent, UsedBelow, Count, SortedOrder, IsPerm;
    var p, eclass, quadrant := new int[nblock], new int[nblock], new int[nblock + 34];
    var ftab, bh := new int[65537], new bool[32 * (3 + nblock / 32)];
    origPtr := BlockSort.Sort(p, eclass, block, quadrant, ftab, bh, nblock, workFactor);
    ptr := p[..];
    SortedIsPerm(block[..nblock], ptr);
    var mtfv, mtfFreq := new int[nblock + 1], new int[258];
    var nMTF;
    nMTF, nInUse := GenerateMtfValues(block[..nblock], p[..], inUse, mtfv, mtfFreq);
    ss := mtfv[..nMTF];
    SomeUsed(inUse, block[..nblock]);
    freq := mtfFreq[..nInUse + 2];
    SentFrom(block[..nblock], ptr, origPtr, inUse, ss, nInUse);
  }

  lemma SomeUsed(inUse: seq<bool>, b: seq<byte>)
    requires AllUsed(inUse, b) && b != []
    ensures 0 < UsedBelow(inUse, 256) <= 256
  {
    UsedMonotone(inUse, b[0], 256);
  }

  lemma SentFrom(b: seq<byte>, ptr: seq<int>, orig: int, inUse: seq<bool>, ss: seq<int>, nInUse: int)
    requires b != [] && SortedOrder(b, ptr) && 0 <= orig < |b| == |ptr| && ptr[orig] == 0 && AllUsed(inUse, b)
    requires nInUse == UsedBelow(inUse, 256) && Mtf.Drawn(Column(b, ptr, inUse), StartList())
    requires ss == Mtf.Encode(StartList(), Column(b, ptr, inUse), 0, nInUse + 1)
    ensures Sent(b, ptr, orig, inUse, ss, [])
  {
    hide Mtf.Encode, Column, SortedOrder, Mtf.Drawn;
    assert ss + [] == ss;
  }
}
