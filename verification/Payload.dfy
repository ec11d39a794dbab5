// The body of a block on the wire, sendMTFValues and its reading back: byte map, selectors,
// code lengths, symbols.
module Payload {
  import opened Bits
  import opened BitIO
  import opened Rotations
  import opened ByteMap
  import opened Counting
  import opened SideInfo
  import opened CodingTables
  import opened SymbolGroups
  import CanonicalCodes
  import HuffmanTree
  import Selectors
  import TableChoice
  import Mtf

  // What a block's body tells.
  datatype Body = Body(inUse: seq<bool>, lens: seq<seq<byte>>, sel: seq<byte>, ss: seq<int>)

  // The lengths of every table from table t on.
  ghost function AllLengths(lens: seq<seq<byte>>, alphaSize: int, t: nat): seq<bit>
    requires t <= |lens| && forall u :: 0 <= u < |lens| ==> ProperLengths(lens[u], alphaSize)
    decreases |lens| - t
  {
    if t == |lens| then []
    else
      assert ProperLengths(lens[t], alphaSize);
      LengthBits(lens[t]) + AllLengths(lens, alphaSize, t + 1)
  }

  // What an encoder may send.
  ghost predicate Proper(b: Body) {
    && |b.inUse| == 256 && UsedBelow(b.inUse, 256) > 0
    && 2 <= |b.lens| <= 6 && 0 < |b.sel| <= MAX_SELECTORS
    && (forall t :: 0 <= t < |b.lens| ==> ProperLengths(b.lens[t], UsedBelow(b.inUse, 256) + 2))
    && Sendable(b.lens, b.sel, b.ss) && Mtf.Closed(b.ss, UsedBelow(b.inUse, 256) + 1)
    && Mtf.Drawn(b.sel, Selectors.StartList(|b.lens|))
  }

  ghost predicate ProperLengths(len: seq<byte>, alphaSize: int) {
    |len| == alphaSize > 0 && forall v :: 0 <= v < alphaSize ==> 1 <= len[v] <= 20
  }

  ghost function BodyBits(b: Body): seq<bit>
    requires Proper(b)
  {
    MapBits(b.inUse) + (SelectorBits(|b.lens|, Selectors.Codes(Selectors.StartList(|b.lens|), b.sel))
                        + (AllLengths(b.lens, UsedBelow(b.inUse, 256) + 2, 0) + SymbolBits(b.lens, b.sel, b.ss, 0)))
  }

  // ---- sending ----

  method CodesOf(lens: seq<seq<byte>>, alphaSize: int) returns (code: seq<seq<int>>)
    requires alphaSize <= 258 && forall t :: 0 <= t < |lens| ==> ProperLengths(lens[t], alphaSize)
    ensures Coded(lens, code)
  {
    code := [];
    hide CanonicalCodes.Code;
    for t := 0 to |lens|
      invariant |code| == t
      invariant forall u :: 0 <= u < t ==> |code[u]| == |lens[u]| && forall v :: 0 <= v < |lens[u]| ==> code[u][v] == CanonicalCodes.Code(lens[u], v)
    {
      var minLen, maxLen := Extremes(lens[t]);
      var a := new int[258];
      CanonicalCodes.AssignCodes(a, lens[t], minLen, maxLen);
      code := code + [a[..alphaSize]];
    }
  }

  method Extremes(len: seq<byte>) returns (minLen: int, maxLen: int)
    requires len != [] && |len| <= 258 && forall v :: 0 <= v < |len| ==> 1 <= len[v] <= 20
    ensures CanonicalCodes.Spans(len, minLen, maxLen)
  {
    minLen, maxLen := 32, 0;
    for i := 0 to |len|
      invariant i == 0 ==> minLen == 32 && maxLen == 0
      invariant i > 0 ==> 1 <= minLen <= maxLen <= 20 && minLen in len[..i]
      invariant forall v :: 0 <= v < i ==> minLen <= len[v] <= maxLen
    {
      if len[i] > maxLen {
        maxLen := len[i];
      }
      if len[i] < minLen {
        minLen := len[i];
      }
    }
    Occurs(len, minLen);
  }

  lemma Occurs(len: seq<byte>, n: int)
    requires n in len
    ensures Count(len, n) > 0
  {
    var k :| 0 <= k < |len| && len[k] == n;
    CountBefore(len, k);
  }

  method SendAllLengths(w: BitWriter, lens: seq<seq<byte>>, ghost alphaSize: int)
    requires w.Valid() && forall t :: 0 <= t < |lens| ==> ProperLengths(lens[t], alphaSize)
    modifies w
    ensures w.Valid() && w.Written() == old(w.Written()) + AllLengths(lens, alphaSize, 0)
  {
    hide BitWriter.Valid, BitWriter.Written, LengthBits;
    ghost var all := w.Written() + AllLengths(lens, alphaSize, 0);
    for t := 0 to |lens|
      invariant w.Valid() && w.Written() + AllLengths(lens, alphaSize, t) == all
    {
      Join(w.Written(), LengthBits(lens[t]), AllLengths(lens, alphaSize, t + 1));
      SendLengths(w, lens[t]);
    }
    assert w.Written() + [] == w.Written();
  }

  // Full codes fit, so everything the encoder chose can be sent.
  lemma ChosenIsProper(b: Body)
    requires |b.inUse| == 256 && UsedBelow(b.inUse, 256) > 0 && 2 <= |b.lens| <= 6 && 0 < |b.sel| <= MAX_SELECTORS && |b.sel| == Groups(|b.ss|)
    requires TableChoice.FullCodes(b.lens, UsedBelow(b.inUse, 256) + 2) && (forall g :: 0 <= g < |b.sel| ==> b.sel[g] < |b.lens|)
    requires TableChoice.InAlphabet(b.ss, UsedBelow(b.inUse, 256) + 2) && Mtf.Closed(b.ss, UsedBelow(b.inUse, 256) + 1)
    ensures Proper(b)
  {
    hide CanonicalCodes.Fits, Groups, Mtf.Closed, HuffmanTree.Kraft;
    forall t | 0 <= t < |b.lens| ensures CanonicalCodes.Fits(b.lens[t]) {
      CanonicalCodes.FitsIffKraft(b.lens[t], 17);
    }
    forall g | 0 <= g < |b.sel| ensures b.sel[g] in Selectors.StartList(|b.lens|) {
      assert Selectors.StartList(|b.lens|)[b.sel[g]] == b.sel[g];
    }
  }

  // sendMTFValues.
  method SendMtfValues(w: BitWriter, inUse: seq<bool>, nInUse: int, mtfv: seq<int>, mtfFreq: seq<int>) returns (ghost b: Body)
    requires w.Valid() && |inUse| == 256 && 0 < nInUse == UsedBelow(inUse, 256) && |mtfFreq| == nInUse + 2
    requires 0 < |mtfv| <= 900001 && TableChoice.InAlphabet(mtfv, nInUse + 2) && Mtf.Closed(mtfv, nInUse + 1)
    requires forall v :: 0 <= v < |mtfFreq| ==> mtfFreq[v] == Count(mtfv, v)
    modifies w
    ensures w.Valid() && Proper(b) && b.inUse == inUse && b.ss == mtfv && w.Written() == old(w.Written()) + BodyBits(b)
    ensures TableChoice.Chosen(mtfv, mtfFreq, b.lens, b.sel)
  {
    hide BitWriter.Valid, BitWriter.Written, Count, Groups, UsedBelow, Sendable, Coded, SymbolBits, MapBits, SelectorBits, CanonicalCodes.Fits,
         Mtf.Closed, Mtf.Drawn, Selectors.Codes, TableChoice.Chosen;
    var lens, selector := TableChoice.ChooseTables(mtfv, mtfFreq);
    b := Body(inUse, lens, selector, mtfv);
    SomeGroups(|mtfv|);
    ChosenIsProper(b);
    var selectorMtf := Selectors.EncodeSelectors(selector, |lens|);
    var code := CodesOf(lens, nInUse + 2);
    ghost var start := w.Written();
    SendMap(w, inUse);
    SendSelectors(w, |lens|, selectorMtf);
    SendAllLengths(w, lens, nInUse + 2);
    var selCtr := SendSymbols(w, |lens|, lens, code, selector, mtfv);
    ChainFour(start, MapBits(inUse), SelectorBits(|lens|, selectorMtf), AllLengths(lens, nInUse + 2, 0), SymbolBits(lens, selector, mtfv, 0));
    assert selCtr == |selector|;
  }

  lemma SomeGroups(n: nat)
    requires n > 0
    ensures Groups(n) > 0
  {
  }

  lemma ChainFour(s: seq<bit>, a: seq<bit>, b: seq<bit>, c: seq<bit>, d: seq<bit>)
    ensures s + a + b + c + d == s + (a + (b + (c + d)))
  {
  }

  // ---- reading ----

  function ParseAllLengths(bits: seq<bit>, n: nat, alphaSize: nat): (p: Parsed<seq<seq<byte>>>)
    ensures p.Done? ==> |p.value| == n && forall t :: 0 <= t < n ==> |p.value[t]| == alphaSize && forall v :: 0 <= v < alphaSize ==> 1 <= p.value[t][v] <= 20
    decreases n
  {
    if n == 0 then Done([], bits)
    else
      var p := ParseLengths(bits, alphaSize);
      if p.Done? then AfterNumbers([p.value], ParseAllLengths(p.rest, n - 1, alphaSize))
      else Failing(p)
  }

  // What precedes the symbols: the used bytes, the code lengths and the selectors.
  datatype Front = Front(inUse: seq<bool>, lens: seq<seq<byte>>, sel: seq<byte>)

  ghost predicate FrontOk(f: Front) {
    && |f.inUse| == 256 && 0 < UsedBelow(f.inUse, 256) && 2 <= |f.lens| <= 6
    && (forall t :: 0 <= t < |f.lens| ==> ProperLengths(f.lens[t], UsedBelow(f.inUse, 256) + 2))
    && (forall g :: 0 <= g < |f.sel| ==> f.sel[g] < |f.lens|)
  }

  ghost function ParseFront(bits: seq<bit>): (p: Parsed<Front>)
    ensures p.Done? ==> FrontOk(p.value)
  {
    hide ParseMap, ParseSelectors, ParseAllLengths, UsedBelow;
    var m := ParseMap(bits);
    if !m.Done? then Failing(m)
    else if UsedBelow(m.value, 256) == 0 then Corrupt
    else ParseCoding(m.value, m.rest)
  }

  ghost function ParseCoding(inUse: seq<bool>, bits: seq<bit>): (p: Parsed<Front>)
    requires |inUse| == 256 && 0 < UsedBelow(inUse, 256)
    ensures p.Done? ==> FrontOk(p.value)
  {
    hide ParseSelectors, ParseAllLengths, UsedBelow, Selectors.Apply;
    var c := ParseSelectors(bits);
    if !c.Done? then Failing(c)
    else
      var l := ParseAllLengths(c.rest, c.value.nGroups, UsedBelow(inUse, 256) + 2);
      if !l.Done? then Failing(l)
      else
        Selectors.ApplyInList(Selectors.StartList(|l.value|), c.value.ms, |l.value|);
        Done(Front(inUse, l.value, Selectors.Apply(Selectors.StartList(|l.value|), c.value.ms)), l.rest)
  }

  lemma {:induction false} AllLengthsParse(lens: seq<seq<byte>>, t: nat, alphaSize: nat, more: seq<bit>)
    requires t <= |lens| && forall u :: 0 <= u < |lens| ==> ProperLengths(lens[u], alphaSize)
    ensures ParseAllLengths(AllLengths(lens, alphaSize, t) + more, |lens| - t, alphaSize) == Done(lens[t..], more)
    decreases |lens| - t
  {
    hide LengthBits, ParseLengths;
    if t == |lens| {
      assert [] + more == more;
    } else {
      AllLengthsParse(lens, t + 1, alphaSize, more);
      Join(LengthBits(lens[t]), AllLengths(lens, alphaSize, t + 1), more);
      LengthsParse(lens[t], AllLengths(lens, alphaSize, t + 1) + more);
      assert lens[t..] == [lens[t]] + lens[t + 1..];
    }
  }

  function FrontOf(b: Body): Front {
    Front(b.inUse, b.lens, b.sel)
  }

  // Every body is read back as it was sent, whatever follows it.
  lemma BodyParses(b: Body, t: seq<bit>)
    requires Proper(b)
    ensures FrontOk(FrontOf(b)) && ParseFront(BodyBits(b) + t) == Done(FrontOf(b), SymbolBits(b.lens, b.sel, b.ss, 0) + t)
    ensures Hear(b.lens, b.sel, UsedBelow(b.inUse, 256) + 1, 0, SymbolBits(b.lens, b.sel, b.ss, 0) + t) == Heard(b.ss, Done((), t))
  {
    hide ParseMap, ParseSelectors, ParseAllLengths, Hear, MapBits, SelectorBits, SymbolBits, Sendable, Mtf.Closed, UsedBelow, Mtf.Drawn,
         Selectors.Codes, Selectors.Apply, AllLengths;
    var ms := Selectors.Codes(Selectors.StartList(|b.lens|), b.sel);
    var symbols := SymbolBits(b.lens, b.sel, b.ss, 0) + t;
    var coded := AllLengths(b.lens, UsedBelow(b.inUse, 256) + 2, 0) + symbols;
    var chosen := SelectorBits(|b.lens|, ms) + coded;
    Nested(MapBits(b.inUse), SelectorBits(|b.lens|, ms), AllLengths(b.lens, UsedBelow(b.inUse, 256) + 2, 0), SymbolBits(b.lens, b.sel, b.ss, 0), t);
    MapParses(b.inUse, chosen);
    SelectorsParse(|b.lens|, ms, coded);
    AllLengthsParse(b.lens, 0, UsedBelow(b.inUse, 256) + 2, symbols);
    assert b.lens[0..] == b.lens;
    Selectors.ApplyCodes(Selectors.StartList(|b.lens|), b.sel);
    ProperSelectors(b);
    SymbolsParse(b.lens, b.sel, b.ss, UsedBelow(b.inUse, 256) + 1, 0, t);
    assert b.ss[0..] == b.ss;
  }

  lemma ProperSelectors(b: Body)
    requires Proper(b)
    ensures |b.ss| > 0 && forall g :: 0 <= g < |b.sel| ==> b.sel[g] < |b.lens|
  {
  }

  lemma Nested(a: seq<bit>, b: seq<bit>, c: seq<bit>, d: seq<bit>, t: seq<bit>)
    ensures (a + (b + (c + d))) + t == a + (b + (c + (d + t)))
  {
  }

  method ReceiveAllLengths(r: BitReader, nGroups: nat, alphaSize: nat) returns (p: Ending, lens: seq<seq<byte>>)
    requires r.Valid()
    modifies r
    ensures r.Valid() && ParseAllLengths(old(r.Stream()), nGroups, alphaSize) == Result(p, lens, r.Stream())
  {
    hide BitReader.Valid, BitReader.Stream, ParseLengths;
    ghost var want := ParseAllLengths(r.Stream(), nGroups, alphaSize);
    lens := [];
    NumbersAfterNumbers([], [], want);
    for t := 0 to nGroups
      invariant r.Valid() && want == AfterNumbers(lens, ParseAllLengths(r.Stream(), nGroups - t, alphaSize))
    {
      var len;
      p, len := ReceiveLengths(r, alphaSize);
      if p != Received {
        return;
      }
      NumbersAfterNumbers(lens, [len], ParseAllLengths(r.Stream(), nGroups - t - 1, alphaSize));
      lens := lens + [len];
    }
    assert lens + [] == lens;
    p := Received;
  }

  // The decoding tables of every code.
  method TablesFrom(lens: seq<seq<byte>>, alphaSize: nat) returns (tables: seq<Table>)
    requires 0 < alphaSize <= 258 && forall t :: 0 <= t < |lens| ==> ProperLengths(lens[t], alphaSize)
    ensures |tables| == |lens| && forall t :: 0 <= t < |lens| ==> TableFor(lens[t], tables[t])
  {
    hide CanonicalCodes.Tables;
    tables := [];
    for t := 0 to |lens|
      invariant |tables| == t && forall u :: 0 <= u < t ==> TableFor(lens[u], tables[u])
    {
      var minLen, maxLen := Extremes(lens[t]);
      var limit, base, perm := new int[23], new int[23], new int[258];
      CanonicalCodes.CreateDecodeTables(limit, base, perm, lens[t], minLen, maxLen);
      var table := Table(minLen, limit[..], base[..], perm[..]);
      assert CanonicalCodes.Tables(lens[t], table.minLen, maxLen, table.limit, table.base, table.perm);
      tables := tables + [table];
    }
  }

  method CountUsed(inUse: seq<bool>) returns (nInUse: int)
    requires |inUse| == 256
    ensures nInUse == UsedBelow(inUse, 256)
  {
    nInUse := 0;
    for i := 0 to 256
      invariant nInUse == UsedBelow(inUse, i)
    {
      if inUse[i] {
        nInUse := nInUse + 1;
      }
    }
  }

  method ReceiveFront(r: BitReader) returns (p: Ending, f: Front, nInUse: nat, tables: seq<Table>)
    requires r.Valid()
    modifies r
    ensures r.Valid() && ParseFront(old(r.Stream())) == Result(p, f, r.Stream())
    ensures p == Received ==> FrontOk(f) && nInUse == UsedBelow(f.inUse, 256) && |tables| == |f.lens| && forall t :: 0 <= t < |f.lens| ==> TableFor(f.lens[t], tables[t])
  {
    hide BitReader.Valid, BitReader.Stream, ParseMap, ParseSelectors, ParseAllLengths, UsedBelow, TableFor, Selectors.Apply;
    f, nInUse, tables := Front([], [], []), 0, [];
    var ok, inUse := ReceiveMap(r);
    if !ok {
      p := OutOfInput;
      return;
    }
    nInUse := CountUsed(inUse);
    if nInUse == 0 {
      p := Refused;
      return;
    }
    p, f, tables := ReceiveCoding(r, inUse, nInUse);
  }

  method ReceiveCoding(r: BitReader, inUse: seq<bool>, nInUse: nat) returns (p: Ending, f: Front, tables: seq<Table>)
    requires r.Valid() && |inUse| == 256 && 0 < nInUse == UsedBelow(inUse, 256)
    modifies r
    ensures r.Valid() && ParseCoding(inUse, old(r.Stream())) == Result(p, f, r.Stream())
    ensures p == Received ==> f.inUse == inUse && |tables| == |f.lens| && forall t :: 0 <= t < |f.lens| ==> TableFor(f.lens[t], tables[t])
  {
    hide BitReader.Valid, BitReader.Stream, ParseSelectors, ParseAllLengths, UsedBelow, TableFor, Selectors.Apply;
    f, tables := Front([], [], []), [];
    var selectorMtf := new int[MAX_SELECTORS];
    var nGroups, nSelectors, lens;
    p, nGroups, nSelectors := ReceiveSelectors(r, selectorMtf);
    if p != Received {
      return;
    }
    var ms := selectorMtf[..nSelectors];
    var selector := Selectors.DecodeSelectors(ms, nGroups);
    p, lens := ReceiveAllLengths(r, nGroups, nInUse + 2);
    if p != Received {
      return;
    }
    f := Front(inUse, lens, selector);
    tables := TablesFrom(lens, nInUse + 2);
  }
}
