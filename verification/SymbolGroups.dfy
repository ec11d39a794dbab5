// The symbols of a block on the wire: groups of fifty, each sent with the code table its
// selector names, and read back bit by bit with the decoder's tables.
module SymbolGroups {
  import opened Powers
  import opened Bits
  import opened BitIO
  import opened Rotations
  import opened CodingTables
  import opened SideInfo
  import CanonicalCodes
  import Mtf

  const G_SIZE := 50

  function Group(i: nat): nat {
    i / G_SIZE
  }

  // Selectors for n symbols.
  function Groups(n: nat): nat {
    (n + G_SIZE - 1) / G_SIZE
  }

  lemma GroupCount(n: nat, i: nat)
    requires i < n
    ensures Group(i) < Groups(n)
  {
  }

  lemma GroupIs(g: nat, i: nat)
    requires G_SIZE * g <= i < G_SIZE * g + G_SIZE
    ensures Group(i) == g
  {
  }

  // Every group has a selector, every selector a table, every symbol a code.
  ghost predicate Sendable(lens: seq<seq<byte>>, sel: seq<byte>, ss: seq<int>) {
    && (forall t :: 0 <= t < |lens| ==> CanonicalCodes.Fits(lens[t]) && forall v :: 0 <= v < |lens[t]| ==> 1 <= lens[t][v] <= 20)
    && |sel| == Groups(|ss|)
    && (forall g :: 0 <= g < |sel| ==> sel[g] < |lens|)
    && (forall i, t :: 0 <= i < |ss| && 0 <= t < |lens| ==> 0 <= ss[i] < |lens[t]|)
  }

  lemma SendableAt(lens: seq<seq<byte>>, sel: seq<byte>, ss: seq<int>, i: nat)
    requires Sendable(lens, sel, ss) && i < |ss|
    ensures Group(i) < |sel| && sel[Group(i)] < |lens| && 0 <= ss[i] < |lens[sel[Group(i)]]|
    ensures 1 <= lens[sel[Group(i)]][ss[i]] <= 20
    ensures CanonicalCodes.Fits(lens[sel[Group(i)]])
    ensures CanonicalCodes.Code(lens[sel[Group(i)]], ss[i]) < Pow2(lens[sel[Group(i)]][ss[i]])
  {
    GroupCount(|ss|, i);
    hide CanonicalCodes.Code, Group, Groups;
    var t: int := sel[Group(i)];
    assert CanonicalCodes.Fits(lens[t]);
  }

  function CodeBits(len: seq<byte>, v: int): seq<bit>
    requires 0 <= v < |len|
  {
    ToBits(CanonicalCodes.Code(len, v), len[v])
  }

  ghost function SymbolBits(lens: seq<seq<byte>>, sel: seq<byte>, ss: seq<int>, i: nat): seq<bit>
    requires Sendable(lens, sel, ss) && i <= |ss|
    decreases |ss| - i
  {
    if i == |ss| then []
    else
      SendableAt(lens, sel, ss, i);
      CodeBits(lens[sel[Group(i)]], ss[i]) + SymbolBits(lens, sel, ss, i + 1)
  }

  // ---- sending ----

  // code holds the codes of every table.
  ghost predicate Coded(lens: seq<seq<byte>>, code: seq<seq<int>>) {
    && |code| == |lens|
    && (forall t :: 0 <= t < |lens| ==> |code[t]| == |lens[t]| && forall v :: 0 <= v < |lens[t]| ==> code[t][v] == CanonicalCodes.Code(lens[t], v))
  }

  lemma CodedAt(lens: seq<seq<byte>>, code: seq<seq<int>>, t: int, v: int)
    requires Coded(lens, code) && 0 <= t < |lens| && 0 <= v < |lens[t]|
    ensures t < |code| && v < |code[t]| && code[t][v] == CanonicalCodes.Code(lens[t], v)
  {
  }

  // One symbol through its group's table.
  method SendSymbol(w: BitWriter, lens: seq<seq<byte>>, code: seq<seq<int>>, selector: seq<byte>, mtfv: seq<int>, selCtr: nat, i: nat)
    requires w.Valid() && Sendable(lens, selector, mtfv) && Coded(lens, code) && i < |mtfv| && selCtr == Group(i)
    modifies w
    ensures w.Valid() && w.Written() + SymbolBits(lens, selector, mtfv, i + 1) == old(w.Written()) + SymbolBits(lens, selector, mtfv, i)
  {
    SendableAt(lens, selector, mtfv, i);
    hide Sendable, Coded, BitWriter.Valid, BitWriter.Written, ToBits, Pow2, CanonicalCodes.Code, CanonicalCodes.Fits;
    CodedAt(lens, code, selector[selCtr], mtfv[i]);
    Join(w.Written(), CodeBits(lens[selector[selCtr]], mtfv[i]), SymbolBits(lens, selector, mtfv, i + 1));
    w.W(lens[selector[selCtr]][mtfv[i]], code[selector[selCtr]][mtfv[i]]);
  }

  // One group.
  method SendGroup(w: BitWriter, lens: seq<seq<byte>>, code: seq<seq<int>>, selector: seq<byte>, mtfv: seq<int>, selCtr: nat, gs: nat, ge: int)
    requires w.Valid() && Sendable(lens, selector, mtfv) && Coded(lens, code)
    requires gs == G_SIZE * selCtr && gs <= ge < |mtfv| && ge < gs + G_SIZE
    modifies w
    ensures w.Valid() && w.Written() + SymbolBits(lens, selector, mtfv, ge + 1) == old(w.Written()) + SymbolBits(lens, selector, mtfv, gs)
  {
    hide Sendable, Coded, BitWriter.Valid, BitWriter.Written, SymbolBits, Group;
    ghost var all := w.Written() + SymbolBits(lens, selector, mtfv, gs);
    var i := gs;
    while i <= ge
      invariant gs <= i <= ge + 1
      invariant w.Valid() && w.Written() + SymbolBits(lens, selector, mtfv, i) == all
    {
      GroupIs(selCtr, i);
      SendSymbol(w, lens, code, selector, mtfv, selCtr, i);
      i := i + 1;
    }
  }

  method SendSymbols(w: BitWriter, nGroups: int, lens: seq<seq<byte>>, code: seq<seq<int>>, selector: seq<byte>, mtfv: seq<int>)
    returns (selCtr: nat)
    requires w.Valid() && Sendable(lens, selector, mtfv) && Coded(lens, code) && nGroups == |lens|
    modifies w
    ensures w.Valid() && w.Written() == old(w.Written()) + SymbolBits(lens, selector, mtfv, 0)
    ensures selCtr == |selector|
  {
    hide Sendable, Coded, BitWriter.Valid, BitWriter.Written, SymbolBits, Group, Groups, Marks;
    AllSent(lens, selector, mtfv);
    MarksStart(|mtfv|);
    ghost var all := w.Written() + SymbolBits(lens, selector, mtfv, 0);
    selCtr := 0;
    var gs := 0;
    while gs < |mtfv|
      invariant 0 <= gs <= |mtfv| && Marks(|mtfv|, selCtr, gs)
      invariant w.Valid() && w.Written() + SymbolBits(lens, selector, mtfv, gs) == all
      decreases |mtfv| - gs
    {
      var ge := gs + G_SIZE - 1;
      if ge >= |mtfv| {
        ge := |mtfv| - 1;
      }
      SendableAt(lens, selector, mtfv, gs);
      MarksMove(|mtfv|, selCtr, gs, ge);
      assert selector[selCtr] < nGroups;
      SendGroup(w, lens, code, selector, mtfv, selCtr, gs, ge);
      gs := ge + 1;
      selCtr := selCtr + 1;
    }
    MarksEnd(|mtfv|, selCtr, gs);
    assert w.Written() + [] == w.Written();
  }

  lemma AllSent(lens: seq<seq<byte>>, sel: seq<byte>, ss: seq<int>)
    requires Sendable(lens, sel, ss)
    ensures SymbolBits(lens, sel, ss, |ss|) == [] && |sel| == Groups(|ss|)
  {
  }

  // Group selCtr starts at gs, or all n symbols have been sent.
  ghost predicate Marks(n: nat, selCtr: nat, gs: nat) {
    gs <= n && (if gs < n then gs == G_SIZE * selCtr else n <= G_SIZE * selCtr < n + G_SIZE)
  }

  lemma MarksStart(n: nat)
    ensures Marks(n, 0, 0)
  {
  }

  lemma MarksMove(n: nat, selCtr: nat, gs: nat, ge: nat)
    requires Marks(n, selCtr, gs) && gs < n && ge == if gs + G_SIZE - 1 >= n then n - 1 else gs + G_SIZE - 1
    ensures gs == G_SIZE * selCtr && Group(gs) == selCtr && Marks(n, selCtr + 1, ge + 1)
  {
  }

  lemma MarksEnd(n: nat, selCtr: nat, gs: nat)
    requires Marks(n, selCtr, gs) && gs == n
    ensures Groups(n) == selCtr
  {
  }

  // ---- receiving ----

  // The one way a bit string can be read with a code table.
  ghost function NextSymbol(len: seq<byte>, bits: seq<bit>): (r: CanonicalCodes.Outcome)
    ensures CanonicalCodes.Decoded(len, bits, r)
  {
    if exists s :: CanonicalCodes.Matches(len, s, bits) then
      var s :| CanonicalCodes.Matches(len, s, bits);
      CanonicalCodes.Symbol(s, len[s])
    else if |bits| <= 20 then CanonicalCodes.NeedInput
    else CanonicalCodes.DataError
  }

  lemma NextIs(len: seq<byte>, bits: seq<bit>, r: CanonicalCodes.Outcome)
    requires CanonicalCodes.Decoded(len, bits, r)
    ensures r == NextSymbol(len, bits)
  {
    hide CanonicalCodes.Matches;
    var u := NextSymbol(len, bits);
    CanonicalCodes.MatchesFit(len, bits);
    if r.Symbol? {
      if len[r.value] <= len[u.value] {
        CanonicalCodes.MatchUnique(len, r.value, u.value, bits);
      } else {
        CanonicalCodes.MatchUnique(len, u.value, r.value, bits);
      }
    }
  }

  // The symbols up to the end-of-block one, and how reading them ends: with what follows, or
  // why there is no further symbol.
  datatype Heard = Heard(ss: seq<int>, end: Parsed<()>)

  function AfterHeard(ss: seq<int>, h: Heard): Heard {
    Heard(ss + h.ss, h.end)
  }

  ghost function Hear(lens: seq<seq<byte>>, sel: seq<byte>, eob: int, i: nat, bits: seq<bit>): Heard
    requires forall g :: 0 <= g < |sel| ==> sel[g] < |lens|
    decreases G_SIZE * |sel| - i
  {
    if Group(i) >= |sel| then Heard([], Corrupt)
    else
      match NextSymbol(lens[sel[Group(i)]], bits)
      case NeedInput => Heard([], Starved)
      case DataError => Heard([], Corrupt)
      case Symbol(v, used) =>
        if v == eob then Heard([v], Done((), bits[used..]))
        else AfterHeard([v], Hear(lens, sel, eob, i + 1, bits[used..]))
  }

  // What was sent is read back, whatever follows it.
  lemma {:induction false} SymbolsParse(lens: seq<seq<byte>>, sel: seq<byte>, ss: seq<int>, eob: int, i: nat, t: seq<bit>)
    requires Sendable(lens, sel, ss) && Mtf.Closed(ss, eob) && i < |ss|
    requires forall g :: 0 <= g < |sel| ==> sel[g] < |lens|
    ensures Hear(lens, sel, eob, i, SymbolBits(lens, sel, ss, i) + t) == Heard(ss[i..], Done((), t))
    decreases |ss| - i
  {
    hide Sendable, Group, NextSymbol, CodeBits;
    SendableAt(lens, sel, ss, i);
    var len, v := lens[sel[Group(i)]], ss[i];
    var more := SymbolBits(lens, sel, ss, i + 1) + t;
    Join(CodeBits(len, v), SymbolBits(lens, sel, ss, i + 1), t);
    CodeNext(len, v, more);
    if i + 1 < |ss| {
      SymbolsParse(lens, sel, ss, eob, i + 1, t);
      assert ss[i..] == [v] + ss[i + 1..];
    } else {
      AllSent(lens, sel, ss);
      assert [] + t == t;
      assert ss[i..] == [v];
    }
  }

  lemma CodeNext(len: seq<byte>, v: int, t: seq<bit>)
    requires CanonicalCodes.Fits(len) && 0 <= v < |len|
    ensures NextSymbol(len, CodeBits(len, v) + t) == CanonicalCodes.Symbol(v, len[v])
    ensures (CodeBits(len, v) + t)[len[v]..] == t
  {
    hide CanonicalCodes.Code;
    var bits := CodeBits(len, v) + t;
    assert CanonicalCodes.Code(len, v) < Pow2(len[v]);
    ValueOfBits(CanonicalCodes.Code(len, v), len[v]);
    assert bits[..len[v]] == CodeBits(len, v);
    NextIs(len, bits, CanonicalCodes.Symbol(v, len[v]));
  }

  // A table as BZ2_hbCreateDecodeTables leaves it.
  datatype Table = Table(minLen: int, limit: seq<int>, base: seq<int>, perm: seq<int>)

  ghost predicate TableFor(len: seq<byte>, t: Table) {
    exists maxLen :: CanonicalCodes.Tables(len, t.minLen, maxLen, t.limit, t.base, t.perm)
  }

  // The state of GET_MTF_VAL.
  class SymbolReader {
    const selector: seq<byte>
    const tables: seq<Table>
    ghost const lens: seq<seq<byte>>
    var groupNo: int
    var groupPos: int
    var gSel: int

    ghost predicate Valid()
      reads this
    {
      && |tables| == |lens| && (forall t :: 0 <= t < |lens| ==> TableFor(lens[t], tables[t]))
      && (forall g :: 0 <= g < |selector| ==> selector[g] < |lens|)
      && -1 <= groupNo && 0 <= groupPos < G_SIZE && (groupNo == -1 ==> groupPos == 0)
      && (groupPos > 0 ==> groupNo < |selector| && gSel == selector[groupNo])
    }

    // Symbols read so far.
    ghost function Taken(): int
      reads this
    {
      G_SIZE * (groupNo + 1) - groupPos
    }

    constructor (selector: seq<byte>, tables: seq<Table>, ghost lens: seq<seq<byte>>)
      requires |tables| == |lens| && (forall t :: 0 <= t < |lens| ==> TableFor(lens[t], tables[t]))
      requires forall g :: 0 <= g < |selector| ==> selector[g] < |lens|
      ensures Valid() && Taken() == 0 && this.selector == selector && this.tables == tables && this.lens == lens
    {
      this.selector, this.tables, this.lens := selector, tables, lens;
      groupNo, groupPos, gSel := -1, 0, 0;
    }

    // GET_MTF_VAL: the next symbol, by the table of its group.
    method Next(r: BitReader) returns (p: Ending, v: int)
      requires Valid() && r.Valid()
      modifies this, r
      ensures r.Valid()
      ensures if Group(old(Taken())) >= |selector| then p == Refused
              else match NextSymbol(lens[selector[Group(old(Taken()))]], old(r.Stream()))
                   case NeedInput => p == OutOfInput
                   case DataError => p == Refused
                   case Symbol(u, used) => p == Received && v == u && r.Stream() == old(r.Stream())[used..] && Valid() && Taken() == old(Taken()) + 1
    {
      hide NextSymbol, TableFor, BitReader.Valid, BitReader.Stream;
      v := 0;
      NextGroup(groupNo, groupPos);
      if groupPos == 0 {
        groupNo := groupNo + 1;
        if groupNo >= |selector| {
          return Refused, v;
        }
        groupPos := G_SIZE;
        gSel := selector[groupNo];
      }
      groupPos := groupPos - 1;
      p, v := ReadSymbol(r, tables[gSel], lens[gSel]);
    }
  }

  lemma NextGroup(groupNo: int, groupPos: int)
    requires -1 <= groupNo && 0 <= groupPos < G_SIZE && (groupNo == -1 ==> groupPos == 0)
    ensures Group(G_SIZE * (groupNo + 1) - groupPos) == if groupPos == 0 then groupNo + 1 else groupNo
  {
  }

  // The code is read a bit at a time from the shortest length on.
  method ReadSymbol(r: BitReader, t: Table, ghost len: seq<byte>) returns (p: Ending, v: int)
    requires r.Valid() && TableFor(len, t)
    modifies r
    ensures r.Valid()
    ensures match NextSymbol(len, old(r.Stream()))
            case NeedInput => p == OutOfInput
            case DataError => p == Refused
            case Symbol(u, used) => p == Received && v == u && r.Stream() == old(r.Stream())[used..]
  {
    ghost var maxLen :| CanonicalCodes.Tables(len, t.minLen, maxLen, t.limit, t.base, t.perm);
    ghost var bits := r.Stream();
    hide *;
    v := 0;
    CanonicalCodes.TablesShape(len, t.minLen, maxLen, t.limit, t.base, t.perm);
    var zn: nat := t.minLen;
    var ok, first := r.GetBits(zn);
    if !ok {
      StartStarved(len, t, maxLen, bits);
      return OutOfInput, v;
    }
    StartRead(len, t, maxLen, bits, first);
    var zvec: int := first;
    while true
      invariant t.minLen <= zn <= 21 && zn <= |bits| && CanonicalCodes.Reading(len, t.minLen, maxLen, bits, zn, zvec)
      invariant r.Valid() && r.Stream() == bits[zn..]
      decreases |bits| - zn
    {
      if zn > 20 {
        ReadTooLong(len, t, maxLen, bits, zn, zvec);
        return Refused, v;
      }
      if zvec <= t.limit[zn] {
        break;
      }
      var next := zn + 1;
      CanonicalCodes.ReadingPast(len, t.minLen, maxLen, t.limit, t.base, t.perm, bits, zn, zvec, next);
      var zj;
      ok, zj := GetBit(r);
      if !ok {
        PastStarved(len, bits, next);
        return OutOfInput, v;
      }
      assert bits[zn..][0] == bits[zn] && bits[zn..][1..] == bits[next..];
      zvec := 2 * zvec + zj;
      zn := next;
    }
    CanonicalCodes.ReadingHit(len, t.minLen, maxLen, t.limit, t.base, t.perm, bits, zn, zvec);
    var k := zvec - t.base[zn];
    if k < 0 || k >= 258 {
      return Refused, v;
    }
    v := t.perm[k];
    ReadOne(len, bits, v, zn);
    p := Received;
  }

  lemma StartStarved(len: seq<byte>, t: Table, maxLen: int, bits: seq<bit>)
    requires CanonicalCodes.Tables(len, t.minLen, maxLen, t.limit, t.base, t.perm) && t.minLen > |bits|
    ensures NextSymbol(len, bits) == CanonicalCodes.NeedInput
  {
    hide CanonicalCodes.Matches;
    CanonicalCodes.ReadingStart(len, t.minLen, maxLen, bits);
    NextIs(len, bits, CanonicalCodes.NeedInput);
  }

  lemma StartRead(len: seq<byte>, t: Table, maxLen: int, bits: seq<bit>, first: int)
    requires CanonicalCodes.Tables(len, t.minLen, maxLen, t.limit, t.base, t.perm) && 0 <= t.minLen <= |bits|
    requires first == Value(bits[..t.minLen])
    ensures CanonicalCodes.Reading(len, t.minLen, maxLen, bits, t.minLen, first)
  {
    CanonicalCodes.ReadingStart(len, t.minLen, maxLen, bits);
  }

  lemma ReadTooLong(len: seq<byte>, t: Table, maxLen: int, bits: seq<bit>, n: nat, v: int)
    requires CanonicalCodes.Tables(len, t.minLen, maxLen, t.limit, t.base, t.perm)
    requires CanonicalCodes.Reading(len, t.minLen, maxLen, bits, n, v) && n > 20
    ensures NextSymbol(len, bits) == CanonicalCodes.DataError
  {
    CanonicalCodes.NoLongCode(len, t.minLen, maxLen, bits, n, v);
    hide CanonicalCodes.Matches;
    NextIs(len, bits, CanonicalCodes.DataError);
  }

  lemma PastStarved(len: seq<byte>, bits: seq<bit>, n: nat)
    requires |bits| < n <= 21 && forall s :: CanonicalCodes.Matches(len, s, bits) ==> 0 <= s < |len| && n <= len[s] <= |bits|
    ensures NextSymbol(len, bits) == CanonicalCodes.NeedInput
  {
    hide CanonicalCodes.Matches;
    NextIs(len, bits, CanonicalCodes.NeedInput);
  }

  lemma ReadOne(len: seq<byte>, bits: seq<bit>, v: int, n: int)
    requires CanonicalCodes.Matches(len, v, bits) && 0 <= v < |len| && n == len[v]
    ensures NextSymbol(len, bits) == CanonicalCodes.Symbol(v, n)
  {
    NextIs(len, bits, CanonicalCodes.Symbol(v, n));
  }

  // In the alphabet, and closed by the end marker exactly when reading succeeds.
  ghost predicate Rounded(h: Heard, eob: int) {
    Mtf.InRange(h.ss, eob) && !h.end.Overrun? && (if h.end.Done? then Mtf.Closed(h.ss, eob) else eob !in h.ss)
  }

  lemma RoundedEnds(v: int, rest: seq<bit>, eob: int)
    requires 0 <= v <= eob
    ensures Rounded(Heard([], Corrupt), eob) && Rounded(Heard([], Starved), eob) && (v == eob ==> Rounded(Heard([v], Done((), rest)), eob))
  {
  }

  lemma RoundedMore(v: int, h: Heard, eob: int)
    requires Rounded(h, eob) && 0 <= v < eob
    ensures Rounded(AfterHeard([v], h), eob)
  {
  }

  lemma NextInRange(len: seq<byte>, bits: seq<bit>)
    ensures var n := NextSymbol(len, bits); n.Symbol? ==> 0 <= n.value < |len| && 0 <= n.used <= |bits|
  {
    hide NextSymbol;
  }

  lemma {:induction false} HeardCloses(lens: seq<seq<byte>>, sel: seq<byte>, eob: nat, i: nat, bits: seq<bit>)
    requires (forall g :: 0 <= g < |sel| ==> sel[g] < |lens|) && forall t :: 0 <= t < |lens| ==> |lens[t]| == eob + 1
    ensures Rounded(Hear(lens, sel, eob, i, bits), eob)
    decreases G_SIZE * |sel| - i
  {
    hide NextSymbol, Group, Rounded, AfterHeard, CanonicalCodes.Decoded, CanonicalCodes.Matches;
    RoundedEnds(0, bits, eob);
    if Group(i) < |sel| {
      var len := lens[sel[Group(i)]];
      var n := NextSymbol(len, bits);
      NextInRange(len, bits);
      if n.Symbol? {
        var rest := bits[n.used..];
        RoundedEnds(n.value, rest, eob);
        if n.value != eob {
          InGroups(i, |sel|);
          HeardCloses(lens, sel, eob, i + 1, rest);
          RoundedMore(n.value, Hear(lens, sel, eob, i + 1, rest), eob);
        }
      }
    }
  }

  lemma InGroups(i: nat, n: nat)
    requires Group(i) < n
    ensures i < G_SIZE * n
  {
  }

  // The reader is at symbol number used of what is heard.
  ghost predicate Hearing(g: SymbolReader, r: BitReader, ss: seq<int>, used: int, end: Parsed<()>, eob: int)
    reads g, r
  {
    g.Valid() && r.Valid() && 0 <= used <= |ss| && 0 <= g.Taken() && Hear(g.lens, g.selector, eob, g.Taken(), r.Stream()) == Heard(ss[used..], end)
  }

  // Symbol number pos has been read and is sym.
  ghost predicate Held(g: SymbolReader, r: BitReader, ss: seq<int>, pos: int, end: Parsed<()>, eob: int, sym: int)
    reads g, r
  {
    && 0 <= pos < |ss| && sym == ss[pos] && r.Valid()
    && (if sym == eob then pos + 1 == |ss| && end == Done((), r.Stream()) else Hearing(g, r, ss, pos + 1, end, eob))
  }

  // One step along what is heard.
  method Listen(g: SymbolReader, r: BitReader, ghost ss: seq<int>, ghost used: int, ghost end: Parsed<()>, ghost eob: int)
    returns (p: Ending, v: int)
    requires Hearing(g, r, ss, used, end, eob)
    modifies g, r
    ensures r.Valid()
    ensures used < |ss| ==> p == Received && Held(g, r, ss, used, end, eob, v)
    ensures used == |ss| ==> p != Received && end == Result(p, (), [])
  {
    hide NextSymbol, TableFor, BitReader.Valid, BitReader.Stream, Group, SymbolReader.Valid, SymbolReader.Taken;
    ghost var tail := ss[used..];
    p, v := g.Next(r);
    if p == Received {
      assert ss[used] == tail[0] && ss[used + 1..] == tail[1..];
    }
  }
}
