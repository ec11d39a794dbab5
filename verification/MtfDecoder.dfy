// The symbol loop of BZ2_decompress: each symbol is read off the bit stream when it is wanted,
// and run lengths and list positions become a column of bytes, through the sliding list.
module MtfDecoder {
  import opened Powers
  import opened BitIO
  import opened Rotations
  import opened Counting
  import opened RunLength
  import opened Mtf
  import opened SlidingMtf
  import opened SymbolGroups
  import CodingTables
  import SideInfo

  // ---- run lengths ----

  // k digits of the run at pos have been added up in es, one short.
  ghost predicate Summing(ss: seq<int>, pos: int, k: nat, es: int, N: int) {
    && 0 <= pos && pos + k <= |ss| && k <= 21 && N == Pow2(k) && es + 1 == RunValue(ss[pos..pos + k])
    && (forall i :: pos <= i < pos + k ==> ss[i] == RUNA || ss[i] == RUNB)
  }

  lemma SummingStep(ss: seq<int>, pos: int, k: nat, es: int, N: int, m: nat)
    requires Summing(ss, pos, k, es, N) && m == k + 1 <= 21 && pos + k < |ss| && (ss[pos + k] == RUNA || ss[pos + k] == RUNB)
    ensures Summing(ss, pos, m, es + (if ss[pos + k] == RUNA then N else 2 * N), N * 2)
  {
    RunValueAppend(ss[pos..pos + k], ss[pos + k]);
    assert ss[pos..pos + m] == ss[pos..pos + k] + [ss[pos + k]];
  }

  lemma SummingDone(ss: seq<int>, pos: int, k: nat, es: int, N: int)
    requires Summing(ss, pos, k, es, N)
    ensures pos + k == |ss| || ss[pos + k] >= 2 ==> DigitRun(ss[pos..]) == k && RunValue(ss[pos..][..k]) == es + 1
    ensures k == 21 && pos + k < |ss| && 0 <= ss[pos + k] < 2 ==> DigitRun(ss[pos..]) > 21
  {
    var ds, tail := ss[pos..pos + k], ss[pos + k..];
    assert ss[pos..] == ds + tail && ss[pos..][..k] == ds;
    if tail == [] || tail[0] >= 2 {
      DigitRunIs(ds, tail);
    }
    if k == 21 && tail != [] && 0 <= tail[0] < 2 {
      assert forall i :: 0 <= i < 22 ==> 0 <= ss[pos..][i] < 2;
    }
  }

  // Why reading a symbol failed.
  ghost predicate Missing(p: CodingTables.Ending, end: SideInfo.Parsed<()>) {
    p != CodingTables.Received && end == CodingTables.Result(p, (), [])
  }

  // The do-while over one run, which starts with symbol number start.  N is checked before
  // each digit, and the symbol after the run is read with it.
  method ReadRun(g: SymbolReader, r: BitReader, first: int, ghost ss: seq<int>, ghost start: int, ghost end: SideInfo.Parsed<()>, ghost eob: int)
    returns (p: CodingTables.Ending, es: int, nextSym: int, ghost pos: int)
    requires Held(g, r, ss, start, end, eob, first) && (first == RUNA || first == RUNB) && eob >= 2 && InRange(ss, eob)
    modifies g, r
    ensures r.Valid() && 0 <= start < |ss|
    ensures var k := DigitRun(ss[start..]);
            && (k > 21 ==> p == CodingTables.Refused)
            && (k <= 21 && start + k == |ss| ==> p != CodingTables.Received && Missing(p, end))
            && (k <= 21 && start + k < |ss| ==>
                  p == CodingTables.Received && pos == start + k && Held(g, r, ss, pos, end, eob, nextSym) && es == RunValue(ss[start..][..k]))
  {
    hide Summing, RunValue, DigitRun, Pow2, Held, Missing, InRange, Hear, SymbolReader.Valid, SymbolReader.Taken, BitReader.Valid, BitReader.Stream;
    var N := 1;
    ghost var k := 0;
    es := -1;
    pos := start;
    nextSym := first;
    HeldAt(g, r, ss, start, end, eob, first);
    InRangeAt(ss, eob);
    SummingStart(ss, start);
    while true
      invariant pos == start + k < |ss| && (nextSym == RUNA || nextSym == RUNB) && nextSym == ss[pos]
      invariant Held(g, r, ss, pos, end, eob, nextSym) && r.Valid()
      invariant Summing(ss, start, k, es, N)
      decreases |ss| - pos
    {
      SummingDone(ss, start, k, es, N);
      SummingBounds(ss, start, k, es, N);
      if N >= 2 * 1024 * 1024 {
        return CodingTables.Refused, es, nextSym, pos;
      }
      ghost var m := k + 1;
      SummingStep(ss, start, k, es, N, m);
      if nextSym == RUNA {
        es := es + (0 + 1) * N;
      } else if nextSym == RUNB {
        es := es + (1 + 1) * N;
      }
      N := N * 2;
      k := m;
      ghost var last := pos;
      pos := pos + 1;
      SummingDone(ss, start, k, es, N);
      SummingBounds(ss, start, k, es, N);
      p, nextSym := Proceed(g, r, ss, last, pos, end, eob, nextSym);
      if p != CodingTables.Received {
        return;
      }
      HeldAt(g, r, ss, pos, end, eob, nextSym);
      if nextSym != RUNA && nextSym != RUNB {
        break;
      }
    }
    es := es + 1;
  }

  lemma InRangeAt(ss: seq<int>, eob: int)
    requires InRange(ss, eob)
    ensures forall i :: 0 <= i < |ss| ==> 0 <= ss[i] <= eob
  {
  }

  lemma SummingStart(ss: seq<int>, start: int)
    requires 0 <= start < |ss|
    ensures Summing(ss, start, 0, -1, 1)
  {
    assert ss[start..start] == [];
  }

  lemma HeldAt(g: SymbolReader, r: BitReader, ss: seq<int>, pos: int, end: SideInfo.Parsed<()>, eob: int, sym: int)
    requires Held(g, r, ss, pos, end, eob, sym)
    ensures 0 <= pos < |ss| && sym == ss[pos] && r.Valid()
  {
  }

  // The symbol after one that is not the end marker.
  method Proceed(g: SymbolReader, r: BitReader, ghost ss: seq<int>, ghost pos: int, ghost next: int, ghost end: SideInfo.Parsed<()>, ghost eob: int, sym: int)
    returns (p: CodingTables.Ending, v: int)
    requires Held(g, r, ss, pos, end, eob, sym) && sym != eob && next == pos + 1
    modifies g, r
    ensures r.Valid() && 0 <= pos && next <= |ss|
    ensures next < |ss| ==> p == CodingTables.Received && Held(g, r, ss, next, end, eob, v)
    ensures next == |ss| ==> Missing(p, end) && p != CodingTables.Received
  {
    hide Hearing;
    p, v := Listen(g, r, ss, next, end, eob);
  }

  // The first symbol.
  method Begin(g: SymbolReader, r: BitReader, ghost ss: seq<int>, ghost end: SideInfo.Parsed<()>, ghost eob: int) returns (p: CodingTables.Ending, v: int)
    requires Hearing(g, r, ss, 0, end, eob)
    modifies g, r
    ensures r.Valid()
    ensures |ss| > 0 ==> p == CodingTables.Received && Held(g, r, ss, 0, end, eob, v)
    ensures |ss| == 0 ==> Missing(p, end) && p != CodingTables.Received
  {
    hide Hearing;
    p, v := Listen(g, r, ss, 0, end, eob);
  }

  lemma SummingBounds(ss: seq<int>, pos: int, k: nat, es: int, N: int)
    requires Summing(ss, pos, k, es, N)
    ensures k <= 21 && (N >= 0x20_0000 <==> k == 21)
  {
    assert Pow2(21) == 0x20_0000 by {
      Pow2Values();
      assert Pow2(21) == 2 * Pow2(20);
    }
    Pow2Monotone(k, 21);
    if k < 21 {
      Pow2Monotone(k, 20);
      Pow2Values();
    }
  }

  // ---- the whole column ----

  // out has been read from ss before pos; l is the list now.
  ghost predicate Midway(ss: seq<int>, pos: int, l0: seq<byte>, l: seq<byte>, out: seq<byte>, room: int, eob: int) {
    && 0 <= pos <= |ss| && |out| <= room && |l| == |l0| == 256 && 2 <= eob <= 257 && InRange(ss, eob)
    && Decode(l0, ss, room, eob) == Prepend(out, Decode(l, ss[pos..], room - |out|, eob))
  }

  lemma MidwayStart(ss: seq<int>, l: seq<byte>, room: int, eob: int)
    requires |l| == 256 && 2 <= eob <= 257 && InRange(ss, eob) && 0 <= room
    ensures Midway(ss, 0, l, l, [], room, eob)
  {
    assert ss[0..] == ss;
    hide Decode;
    var p := Decode(l, ss, room, eob);
    assert p.Ok? ==> [] + p.out == p.out;
  }

  lemma PrependTwice(a: seq<byte>, b: seq<byte>, p: Parsed)
    ensures Prepend(a, Prepend(b, p)) == Prepend(a + b, p)
  {
    if p.Ok? {
      assert a + (b + p.out) == (a + b) + p.out;
    }
  }

  lemma MidwayStop(ss: seq<int>, pos: int, l0: seq<byte>, l: seq<byte>, out: seq<byte>, room: int, eob: int)
    requires Midway(ss, pos, l0, l, out, room, eob)
    ensures pos == |ss| ==> Decode(l0, ss, room, eob) == NeedInput
    ensures pos < |ss| ==> ss[pos] == RUNA || ss[pos] == RUNB || 2 <= ss[pos] <= eob
    ensures pos < |ss| && ss[pos] == eob ==> Decode(l0, ss, room, eob) == Ok(out, ss[pos + 1..])
    ensures pos < |ss| && ss[pos] >= 2 && ss[pos] != eob && |out| == room ==> Decode(l0, ss, room, eob) == DataError
  {
    assert out + [] == out;
    if pos < |ss| {
      assert ss[pos..][0] == ss[pos] && ss[pos..][1..] == ss[pos + 1..];
    }
  }

  lemma MidwayMove(ss: seq<int>, pos: int, l0: seq<byte>, l: seq<byte>, out: seq<byte>, room: int, eob: int, next: int, k: int)
    requires Midway(ss, pos, l0, l, out, room, eob) && pos < |ss| && next == pos + 1
    requires 2 <= ss[pos] < eob && k == ss[pos] - 1 && |out| < room
    ensures Midway(ss, next, l0, MoveToFront(l, k), out + [l[k]], room, eob)
  {
    assert ss[pos..][0] == ss[pos] && ss[pos..][1..] == ss[next..];
    var p := Decode(MoveToFront(l, k), ss[next..], room - |out| - 1, eob);
    assert Decode(l, ss[pos..], room - |out|, eob) == Prepend([l[k]], p);
    hide Decode, MoveToFront;
    PrependTwice(out, [l[k]], p);
  }

  lemma MidwayRun(ss: seq<int>, pos: int, l0: seq<byte>, l: seq<byte>, out: seq<byte>, room: int, eob: int, next: int, es: int)
    requires Midway(ss, pos, l0, l, out, room, eob) && 0 <= pos < next < |ss| && (ss[pos] == RUNA || ss[pos] == RUNB)
    requires next == pos + DigitRun(ss[pos..]) <= pos + 21 && es == RunValue(ss[pos..][..next - pos])
    ensures es >= 0
    ensures |out| + es > room ==> Decode(l0, ss, room, eob) == DataError
    ensures |out| + es <= room ==> Midway(ss, next, l0, l, out + Repeat(l[0], es), room, eob)
  {
    hide Decode, RunValue, DigitRun, Digits, Repeat;
    var tail := ss[pos..];
    assert tail[0] == ss[pos] && tail[next - pos..] == ss[next..];
    DigitsOfValue(tail[..next - pos]);
    RunHead(l, tail, room - |out|, eob, next - pos, es);
    if |out| + es <= room {
      PrependTwice(out, Repeat(l[0], es), Decode(l, ss[next..], room - |out| - es, eob));
    }
  }

  lemma RunHead(l: seq<byte>, ss: seq<int>, room: nat, eob: int, k: int, es: nat)
    requires 2 <= eob <= |l| + 1 && l != [] && InRange(ss, eob) && ss != [] && 0 <= ss[0] < 2
    requires k == DigitRun(ss) <= 21 && k < |ss| && es == RunValue(ss[..k])
    ensures Decode(l, ss, room, eob) == if es > room then DataError else Prepend(Repeat(l[0], es), Decode(l, ss[k..], room - es, eob))
  {
    hide RunValue, DigitRun, Repeat;
  }

  lemma MidwayBadRun(ss: seq<int>, pos: int, l0: seq<byte>, l: seq<byte>, out: seq<byte>, room: int, eob: int)
    requires Midway(ss, pos, l0, l, out, room, eob) && 0 <= pos < |ss| && (ss[pos] == RUNA || ss[pos] == RUNB)
    ensures DigitRun(ss[pos..]) > 21 ==> Decode(l0, ss, room, eob) == DataError
    ensures DigitRun(ss[pos..]) <= 21 && pos + DigitRun(ss[pos..]) == |ss| ==> Decode(l0, ss, room, eob) == NeedInput
  {
    assert ss[pos..][0] == ss[pos];
  }

  // The column so far, in the block's own byte values, with a count of every value.
  ghost predicate Filled(tt: seq<int>, unzftab: seq<int>, names: seq<byte>, out: seq<byte>) {
    && |names| == 256 && |unzftab| == 256 && |out| <= |tt|
    && (forall i :: 0 <= i < |out| ==> tt[i] == names[out[i]])
    && (forall c :: 0 <= c < 256 ==> unzftab[c] == Count(tt[..|out|], c))
  }

  lemma FilledOne(tt: seq<int>, unzftab: seq<int>, names: seq<byte>, out: seq<byte>, c: byte)
    requires Filled(tt, unzftab, names, out) && |out| < |tt|
    ensures Filled(tt[|out| := names[c]], unzftab[names[c] := unzftab[names[c]] + 1], names, out + [c])
  {
    var t, n := tt[|out| := names[c]], |out|;
    assert t[..n + 1][..n] == tt[..n];
    var u := unzftab[names[c] := unzftab[names[c]] + 1];
    forall d | 0 <= d < 256 ensures u[d] == Count(t[..n + 1], d) {
    }
  }

  // Counts run ahead of the column by the copies still to be stored.
  ghost predicate Filling(tt: seq<int>, unzftab: seq<int>, names: seq<byte>, out: seq<byte>, c: byte, more: int) {
    && |names| == 256 && |unzftab| == 256 && 0 <= more
    && Filled(tt, unzftab[names[c] := unzftab[names[c]] - more], names, out)
  }

  lemma FillingOne(tt: seq<int>, unzftab: seq<int>, names: seq<byte>, out: seq<byte>, c: byte, more: int, less: int)
    requires Filling(tt, unzftab, names, out, c, more) && |out| < |tt| && less == more - 1 >= 0
    ensures Filling(tt[|out| := names[c]], unzftab, names, out + [c], c, less)
  {
    var u := unzftab[names[c] := unzftab[names[c]] - more];
    FilledOne(tt, u, names, out, c);
    assert u[names[c] := u[names[c]] + 1] == unzftab[names[c] := unzftab[names[c]] - less];
  }

  lemma FillingEnds(tt: seq<int>, unzftab: seq<int>, names: seq<byte>, out: seq<byte>, c: byte, es: int)
    requires |names| == 256 && |unzftab| == 256 && es >= 0
    ensures Filled(tt, unzftab, names, out) ==> Filling(tt, unzftab[names[c] := unzftab[names[c]] + es], names, out, c, es)
    ensures Filling(tt, unzftab, names, out, c, 0) ==> Filled(tt, unzftab, names, out)
  {
    assert unzftab[names[c] := unzftab[names[c]] - 0] == unzftab;
    assert unzftab[names[c] := unzftab[names[c]] + es][names[c] := unzftab[names[c]]] == unzftab;
  }

  lemma RepeatOneMore(c: byte, m: nat)
    ensures Repeat(c, m) + [c] == Repeat(c, m + 1)
  {
  }

  // es copies of one byte, unless the block overflows first.
  method FillRun(tt: array<int>, unzftab: array<int>, names: seq<byte>, c: byte, es: int, nblock0: int, nblockMAX: int, ghost out: seq<byte>)
    returns (ok: bool, nblock: int)
    requires tt != unzftab && unzftab.Length == 256 && |names| == 256 && Filled(tt[..], unzftab[..], names, out)
    requires nblock0 == |out| <= nblockMAX <= tt.Length && es >= 0
    modifies tt, unzftab
    ensures ok <==> nblock0 + es <= nblockMAX
    ensures ok ==> nblock == nblock0 + es && Filled(tt[..], unzftab[..], names, out + Repeat(c, es))
    ensures nblock0 <= nblock && forall i :: nblock <= i < tt.Length ==> tt[i] == old(tt[i])
  {
    var uc := names[c];
    FillingEnds(tt[..], unzftab[..], names, out, c, es);
    ghost var u := unzftab[..];
    unzftab[uc] := unzftab[uc] + es;
    assert unzftab[..] == u[uc := u[uc] + es];
    u := unzftab[..];
    var left := es;
    nblock := nblock0;
    ghost var done := 0;
    assert out + Repeat(c, 0) == out;
    hide Filling, Filled;
    while left > 0
      invariant 0 <= left && 0 <= done == es - left && nblock == nblock0 + done <= nblockMAX && unzftab[..] == u
      invariant Filling(tt[..], u, names, out + Repeat(c, done), c, left)
      invariant forall i :: nblock <= i < tt.Length ==> tt[i] == old(tt[i])
    {
      if nblock >= nblockMAX {
        return false, nblock;
      }
      ghost var so_far, t, less := out + Repeat(c, done), tt[..], left - 1;
      FillingOne(t, u, names, so_far, c, left, less);
      RepeatOneMore(c, done);
      assert so_far + [c] == out + Repeat(c, done + 1);
      tt[nblock] := uc;
      assert tt[..] == t[|so_far| := uc];
      nblock := nblock + 1;
      left := left - 1;
      done := done + 1;
    }
    FillingEnds(tt[..], u, names, out + Repeat(c, es), c, 0);
    ok := true;
  }

  // The whole loop.  ss is what there is to hear and end how it ends; the column is what ss
  // decodes to, and errors in the symbols come before a failure to read further ones.
  method DecodeColumn(g: SymbolReader, r: BitReader, nInUse: int, names: seq<byte>, nblockMAX: int, tt: array<int>, unzftab: array<int>,
                      ghost l0: seq<byte>, ghost ss: seq<int>, ghost end: SideInfo.Parsed<()>)
    returns (p: CodingTables.Ending, nblock: int)
    requires tt != unzftab && unzftab.Length == 256 && |names| == 256 && 0 <= nblockMAX <= tt.Length
    requires 1 <= nInUse <= 256 && InRange(ss, nInUse + 1) && Hearing(g, r, ss, 0, end, nInUse + 1)
    requires |l0| == 256 && forall i :: 0 <= i < 256 ==> l0[i] == i
    modifies tt, unzftab, g, r
    ensures r.Valid()
    ensures match Decode(l0, ss, nblockMAX, nInUse + 1)
            case Ok(out, rest) => p == CodingTables.Received && nblock == |out| && rest == [] && end == SideInfo.Done((), r.Stream())
                                  && Filled(tt[..], unzftab[..], names, out) && (forall i :: nblock <= i < tt.Length ==> tt[i] == old(tt[i]))
            case DataError => p == CodingTables.Refused
            case NeedInput => Missing(p, end)
  {
    hide *;
    var eob := nInUse + 1;
    var mtfa, mtfbase := new byte[4096], new int[16];
    InitList(mtfa, mtfbase, l0);
    ClearCounts(unzftab);
    ghost var l, out: seq<byte> := l0, [];
    MidwayStart(ss, l0, nblockMAX, eob);
    NothingFilled(tt[..], unzftab[..], names);
    nblock := 0;
    ghost var pos := 0;
    var nextSym;
    p, nextSym := Begin(g, r, ss, end, eob);
    if p != CodingTables.Received {
      MissingNow(ss, 0, l0, l, out, nblockMAX, eob, p, end);
      return;
    }
    while true
      invariant r.Valid() && Held(g, r, ss, pos, end, eob, nextSym) && nblock == |out| <= nblockMAX && |l| == 256
      invariant Midway(ss, pos, l0, l, out, nblockMAX, eob) && Filled(tt[..], unzftab[..], names, out)
      invariant Shows(mtfa[..], mtfbase[..], l) && mtfbase[0] > 0
      invariant forall i :: nblock <= i < tt.Length ==> tt[i] == old(tt[i])
      decreases |ss| - pos
    {
      HeldAt(g, r, ss, pos, end, eob, nextSym);
      MidwayStop(ss, pos, l0, l, out, nblockMAX, eob);
      if nextSym == eob {
        HeldLast(g, r, ss, pos, end, eob, nextSym);
        return CodingTables.Received, nblock;
      }
      if nextSym == RUNA || nextSym == RUNB {
        p, nblock, nextSym, pos, out := OneRun(g, r, nextSym, names, mtfa, mtfbase, nblock, nblockMAX, tt, unzftab, l0, l, out, ss, pos, end, eob);
        if p != CodingTables.Received {
          return;
        }
      } else {
        if nblock >= nblockMAX {
          return CodingTables.Refused, nblock;
        }
        var k := nextSym - 1;
        ghost var next := pos + 1;
        MidwayMove(ss, pos, l0, l, out, nblockMAX, eob, next, k);
        var uc := Access(mtfa, mtfbase, k, l);
        FilledOne(tt[..], unzftab[..], names, out, uc);
        unzftab[names[uc]] := unzftab[names[uc]] + 1;
        tt[nblock] := names[uc];
        nblock := nblock + 1;
        l, out := MoveToFront(l, k), out + [uc];
        p, nextSym := Proceed(g, r, ss, pos, next, end, eob, nextSym);
        if p != CodingTables.Received {
          MissingNow(ss, next, l0, l, out, nblockMAX, eob, p, end);
          return;
        }
        pos := next;
      }
    }
  }

  method ClearCounts(unzftab: array<int>)
    requires unzftab.Length == 256
    modifies unzftab
    ensures forall c :: 0 <= c < 256 ==> unzftab[c] == 0
  {
    for i := 0 to 256
      invariant forall c :: 0 <= c < i ==> unzftab[c] == 0
    {
      unzftab[i] := 0;
    }
  }

  lemma NothingFilled(tt: seq<int>, unzftab: seq<int>, names: seq<byte>)
    requires |names| == 256 == |unzftab| && forall c :: 0 <= c < 256 ==> unzftab[c] == 0
    ensures Filled(tt, unzftab, names, [])
  {
    assert tt[..0] == [];
  }

  lemma MissingNow(ss: seq<int>, pos: int, l0: seq<byte>, l: seq<byte>, out: seq<byte>, room: int, eob: int, p: CodingTables.Ending, end: SideInfo.Parsed<()>)
    requires Midway(ss, pos, l0, l, out, room, eob) && pos == |ss| && Missing(p, end)
    ensures Decode(l0, ss, room, eob) == NeedInput
  {
    MidwayStop(ss, pos, l0, l, out, room, eob);
  }

  lemma HeldLast(g: SymbolReader, r: BitReader, ss: seq<int>, pos: int, end: SideInfo.Parsed<()>, eob: int, sym: int)
    requires Held(g, r, ss, pos, end, eob, sym) && sym == eob
    ensures 0 <= pos < |ss| && pos + 1 == |ss| && end == SideInfo.Done((), r.Stream()) && ss[pos + 1..] == []
  {
  }

  // One run of the front symbol.
  method OneRun(g: SymbolReader, r: BitReader, first: int, names: seq<byte>, mtfa: array<byte>, mtfbase: array<int>, nblock0: int, nblockMAX: int,
                tt: array<int>, unzftab: array<int>, ghost l0: seq<byte>, ghost l: seq<byte>, ghost out: seq<byte>,
                ghost ss: seq<int>, ghost start: int, ghost end: SideInfo.Parsed<()>, ghost eob: int)
    returns (p: CodingTables.Ending, nblock: int, nextSym: int, ghost pos: int, ghost out': seq<byte>)
    requires tt != unzftab && unzftab.Length == 256 && |names| == 256 && mtfa.Length == 4096 && mtfbase.Length == 16
    requires nblock0 == |out| <= nblockMAX <= tt.Length && Held(g, r, ss, start, end, eob, first) && (first == RUNA || first == RUNB)
    requires Midway(ss, start, l0, l, out, nblockMAX, eob) && Filled(tt[..], unzftab[..], names, out)
    requires Shows(mtfa[..], mtfbase[..], l) && mtfbase[0] > 0
    modifies tt, unzftab, g, r
    ensures r.Valid()
    ensures p == CodingTables.Received ==>
              start < pos && nblock == |out'| <= nblockMAX && Held(g, r, ss, pos, end, eob, nextSym)
              && Midway(ss, pos, l0, l, out', nblockMAX, eob) && Filled(tt[..], unzftab[..], names, out')
              && nblock0 <= nblock && (forall i :: nblock <= i < tt.Length ==> tt[i] == old(tt[i]))
    ensures p != CodingTables.Received ==>
              |l0| == 256 && 2 <= eob <= 257 && InRange(ss, eob)
              && match Decode(l0, ss, nblockMAX, eob)
                 case Ok(_, _) => false
                 case DataError => p == CodingTables.Refused
                 case NeedInput => Missing(p, end)
  {
    hide *;
    HeldAt(g, r, ss, start, end, eob, first);
    MidwayBadRun(ss, start, l0, l, out, nblockMAX, eob);
    MidwayRange(ss, start, l0, l, out, nblockMAX, eob);
    FirstAt(mtfa[..], mtfbase[..], l, 0);
    DigitsStart(ss, start);
    out', nblock := out, nblock0;
    var es;
    p, es, nextSym, pos := ReadRun(g, r, first, ss, start, end, eob);
    if p != CodingTables.Received {
      return;
    }
    MidwayRun(ss, start, l0, l, out, nblockMAX, eob, pos, es);
    var ok;
    ok, nblock := FillRun(tt, unzftab, names, mtfa[mtfbase[0]], es, nblock0, nblockMAX, out);
    if !ok {
      p := CodingTables.Refused;
      return;
    }
    out' := out + Repeat(l[0], es);
  }

  lemma MidwayRange(ss: seq<int>, pos: int, l0: seq<byte>, l: seq<byte>, out: seq<byte>, room: int, eob: int)
    requires Midway(ss, pos, l0, l, out, room, eob)
    ensures InRange(ss, eob) && |l| == 256 == |l0| && 2 <= eob <= 257
  {
  }

  lemma DigitsStart(ss: seq<int>, start: int)
    requires 0 <= start < |ss| && (ss[start] == RUNA || ss[start] == RUNB)
    ensures 0 < DigitRun(ss[start..]) && start + DigitRun(ss[start..]) <= |ss|
  {
  }
}
