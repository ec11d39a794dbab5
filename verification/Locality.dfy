// Reading never looks ahead: what has been read off some bits stays the same when more bits
// follow, and only missing input can be made up for.  This is what lets the decoder stop in
// the middle of anything and go on when more input arrives.
module Locality {
  import opened Bits
  import opened Rotations
  import opened SideInfo
  import opened CodingTables
  import opened Container
  import opened SymbolGroups
  import opened Payload
  import opened ByteMap
  import opened MtfEncoder
  import opened BlockInput
  import CanonicalCodes
  import Selectors
  import Mtf

  function Longer<T>(p: Parsed<T>, t: seq<bit>): Parsed<T> {
    if p.Done? then Done(p.value, p.rest + t) else p
  }

  // p has been read off n bits and q off the same bits followed by t.
  ghost predicate Local<T>(p: Parsed<T>, q: Parsed<T>, n: nat, t: seq<bit>) {
    (p.Done? ==> |p.rest| <= n) && (!p.Starved? ==> q == Longer(p, t))
  }

  lemma Cut(bits: seq<bit>, t: seq<bit>, n: nat)
    requires n <= |bits|
    ensures (bits + t)[n..] == bits[n..] + t && (bits + t)[..n] == bits[..n]
  {
  }

  // ---- headers ----

  lemma {:induction false} MatchLocal(bits: seq<bit>, t: seq<bit>, want: seq<byte>)
    ensures Local(ParseMatch(bits, want), ParseMatch(bits + t, want), |bits|, t)
    decreases |want|
  {
    hide Value;
    if want != [] && |bits| >= 8 {
      Cut(bits, t, 8);
      MatchLocal(bits[8..], t, want[1..]);
    }
  }

  lemma NumberLocal(bits: seq<bit>, t: seq<bit>, n: nat)
    ensures Local(ParseNumber(bits, n), ParseNumber(bits + t, n), |bits|, t)
  {
    hide Value;
    if |bits| >= n {
      Cut(bits, t, n);
    }
  }

  lemma StartLocal(bits: seq<bit>, t: seq<bit>)
    ensures Local(ParseStart(bits), ParseStart(bits + t), |bits|, t)
  {
    hide Value, ParseMatch, ParseNumber;
    MatchLocal(bits, t, HDR);
    var m := ParseMatch(bits, HDR);
    if m.Done? {
      NumberLocal(m.rest, t, 8);
    }
  }

  lemma TrailerLocal(bits: seq<bit>, t: seq<bit>)
    ensures Local(ParseTrailer(bits), ParseTrailer(bits + t), |bits|, t)
  {
    hide Value, ParseMatch, ParseNumber;
    MatchLocal(bits, t, END_MAGIC[1..]);
    var m := ParseMatch(bits, END_MAGIC[1..]);
    if m.Done? {
      NumberLocal(m.rest, t, 32);
      NumberFails(m.rest, 32);
    }
  }

  lemma NumberFails(bits: seq<bit>, n: nat)
    ensures ParseNumber(bits, n).Done? || ParseNumber(bits, n).Starved?
  {
  }

  lemma BlockHeaderLocal(bits: seq<bit>, t: seq<bit>, level: nat)
    ensures Local(ParseBlockHeader(bits, level), ParseBlockHeader(bits + t, level), |bits|, t)
  {
    hide Value, ParseMatch, ParseNumber;
    MatchLocal(bits, t, BLOCK_MAGIC[1..]);
    var m := ParseMatch(bits, BLOCK_MAGIC[1..]);
    if m.Done? {
      NumberLocal(m.rest, t, 32);
      NumberFails(m.rest, 32);
      var c := ParseNumber(m.rest, 32);
      if c.Done? {
        NumberLocal(c.rest, t, 1);
        NumberFails(c.rest, 1);
        var x := ParseNumber(c.rest, 1);
        if x.Done? {
          NumberLocal(x.rest, t, 24);
          NumberFails(x.rest, 24);
        }
      }
    }
  }

  // A header takes at least its first byte.
  lemma HeaderLocal(bits: seq<bit>, t: seq<bit>, level: nat)
    ensures Local(ParseHeader(bits, level), ParseHeader(bits + t, level), |bits|, t)
    ensures ParseHeader(bits, level).Done? ==> |ParseHeader(bits, level).rest| < |bits|
  {
    hide Value, ParseTrailer, ParseBlockHeader;
    if |bits| >= 8 {
      Cut(bits, t, 8);
      TrailerLocal(bits[8..], t);
      BlockHeaderLocal(bits[8..], t, level);
    }
  }

  // ---- the map ----

  lemma FlagsLocal(bits: seq<bit>, t: seq<bit>, n: nat)
    ensures Local(ParseFlags(bits, n), ParseFlags(bits + t, n), |bits|, t)
    ensures ParseFlags(bits, n).Done? ==> |ParseFlags(bits, n).value| == n
  {
    if |bits| >= n {
      Cut(bits, t, n);
      assert ParseFlags(bits, n).value == ParseFlags(bits + t, n).value;
    }
  }

  lemma {:induction false} RowsLocal(bits: seq<bit>, t: seq<bit>, used: seq<bool>, i: nat)
    requires |used| == 16 && i <= 16
    ensures Local(ParseRows(bits, used, i), ParseRows(bits + t, used, i), |bits|, t)
    decreases 16 - i
  {
    hide ParseFlags;
    if i < 16 {
      FlagsLocal(bits, t, 16);
      var row := if used[i] then ParseFlags(bits, 16) else Done(seq(16, _ => false), bits);
      if row.Done? {
        RowsLocal(row.rest, t, used, i + 1);
      }
    }
  }

  lemma MapLocal(bits: seq<bit>, t: seq<bit>)
    ensures Local(ParseMap(bits), ParseMap(bits + t), |bits|, t)
  {
    hide ParseFlags, ParseRows;
    FlagsLocal(bits, t, 16);
    var rows := ParseFlags(bits, 16);
    if rows.Done? {
      RowsLocal(rows.rest, t, rows.value, 0);
    }
  }

  // ---- selectors and lengths ----

  lemma {:induction false} UnaryLocal(bits: seq<bit>, t: seq<bit>, j: nat, limit: nat)
    ensures Local(ParseUnary(bits, j, limit), ParseUnary(bits + t, j, limit), |bits|, t)
    decreases |bits|
  {
    if bits != [] {
      Cut(bits, t, 1);
      if bits[0] != 0 && j + 1 < limit {
        UnaryLocal(bits[1..], t, j + 1, limit);
      }
    }
  }

  lemma {:induction false} UnariesLocal(bits: seq<bit>, t: seq<bit>, n: nat, limit: nat, room: nat)
    ensures Local(ParseUnaries(bits, n, limit, room), ParseUnaries(bits + t, n, limit, room), |bits|, t)
    decreases n
  {
    hide ParseUnary;
    if n > 0 {
      UnaryLocal(bits, t, 0, limit);
      var p := ParseUnary(bits, 0, limit);
      if p.Done? && room > 0 {
        UnariesLocal(p.rest, t, n - 1, limit, room - 1);
      }
    }
  }

  lemma SelectorsLocal(bits: seq<bit>, t: seq<bit>)
    ensures Local(ParseSelectors(bits), ParseSelectors(bits + t), |bits|, t)
  {
    hide Value, ParseUnaries;
    if |bits| >= 3 {
      Cut(bits, t, 3);
      if |bits| >= 18 {
        Cut(bits[3..], t, 15);
        Cut(bits, t, 18);
        UnariesLocal(bits[18..], t, Value(bits[3..][..15]), Value(bits[..3]), MAX_SELECTORS);
      }
    }
  }

  lemma {:induction false} StepsLocal(bits: seq<bit>, t: seq<bit>, curr: int)
    ensures Local(ParseSteps(bits, curr), ParseSteps(bits + t, curr), |bits|, t)
    decreases |bits|
  {
    if 1 <= curr <= 20 && bits != [] {
      Cut(bits, t, 1);
      if |bits| > 1 && bits[0] != 0 {
        Cut(bits, t, 2);
        StepsLocal(bits[2..], t, if bits[1] == 0 then curr + 1 else curr - 1);
      }
    }
  }

  lemma {:induction false} LengthsFromLocal(bits: seq<bit>, t: seq<bit>, curr: int, n: nat)
    ensures Local(ParseLengthsFrom(bits, curr, n), ParseLengthsFrom(bits + t, curr, n), |bits|, t)
    decreases n
  {
    hide ParseSteps;
    if n > 0 {
      StepsLocal(bits, t, curr);
      var p := ParseSteps(bits, curr);
      if p.Done? {
        LengthsFromLocal(p.rest, t, p.value, n - 1);
      }
    }
  }

  lemma LengthsLocal(bits: seq<bit>, t: seq<bit>, n: nat)
    ensures Local(ParseLengths(bits, n), ParseLengths(bits + t, n), |bits|, t)
  {
    hide Value, ParseLengthsFrom;
    if |bits| >= 5 {
      Cut(bits, t, 5);
      LengthsFromLocal(bits[5..], t, Value(bits[..5]), n);
    }
  }

  lemma {:induction false} AllLengthsLocal(bits: seq<bit>, t: seq<bit>, n: nat, alphaSize: nat)
    ensures Local(ParseAllLengths(bits, n, alphaSize), ParseAllLengths(bits + t, n, alphaSize), |bits|, t)
    decreases n
  {
    hide ParseLengths;
    if n > 0 {
      LengthsLocal(bits, t, alphaSize);
      var p := ParseLengths(bits, alphaSize);
      if p.Done? {
        AllLengthsLocal(p.rest, t, n - 1, alphaSize);
      }
    }
  }

  lemma CodingLocal(inUse: seq<bool>, bits: seq<bit>, t: seq<bit>)
    requires |inUse| == 256 && 0 < UsedBelow(inUse, 256)
    ensures Local(ParseCoding(inUse, bits), ParseCoding(inUse, bits + t), |bits|, t)
  {
    hide ParseSelectors, ParseAllLengths, UsedBelow, Selectors.Apply;
    SelectorsLocal(bits, t);
    var c := ParseSelectors(bits);
    if c.Done? {
      AllLengthsLocal(c.rest, t, c.value.nGroups, UsedBelow(inUse, 256) + 2);
    }
  }

  lemma FrontLocal(bits: seq<bit>, t: seq<bit>)
    ensures Local(ParseFront(bits), ParseFront(bits + t), |bits|, t)
  {
    hide ParseMap, ParseCoding, UsedBelow;
    MapLocal(bits, t);
    var m := ParseMap(bits);
    if m.Done? && UsedBelow(m.value, 256) > 0 {
      CodingLocal(m.value, m.rest, t);
    }
  }

  // ---- symbols ----

  lemma NextLocal(len: seq<byte>, bits: seq<bit>, t: seq<bit>)
    requires forall v :: 0 <= v < |len| ==> len[v] <= 20
    ensures var n := NextSymbol(len, bits); n.NeedInput? || NextSymbol(len, bits + t) == n
  {
    hide CanonicalCodes.Code;
    var n, longer := NextSymbol(len, bits), bits + t;
    if !n.NeedInput? {
      forall v | 0 <= v < |len| && len[v] <= |bits|
        ensures CanonicalCodes.Matches(len, v, bits) == CanonicalCodes.Matches(len, v, longer)
      {
        Cut(bits, t, len[v]);
      }
      hide Value;
      NextIs(len, longer, n);
    }
  }

  // h has been heard off n bits and k off the same bits followed by t.
  ghost predicate HeardOn(h: Heard, k: Heard, n: nat, t: seq<bit>) {
    && (h.end.Done? ==> |h.end.rest| <= n)
    && (if h.end.Starved? then h.ss <= k.ss else k == Heard(h.ss, Longer(h.end, t)))
  }

  lemma HeardOnMore(v: int, h: Heard, k: Heard, n: nat, m: nat, t: seq<bit>)
    requires HeardOn(h, k, n, t) && n <= m
    ensures HeardOn(AfterHeard([v], h), AfterHeard([v], k), m, t)
  {
    if h.end.Starved? {
      assert [v] + h.ss == ([v] + k.ss)[..1 + |h.ss|];
    }
  }

  lemma HeardOnEnds(v: int, rest: seq<bit>, n: nat, k: Heard, t: seq<bit>)
    requires |rest| <= n
    ensures HeardOn(Heard([], Starved), k, n, t) && HeardOn(Heard([], Corrupt), Heard([], Corrupt), n, t)
    ensures HeardOn(Heard([v], Done((), rest)), Heard([v], Done((), rest + t)), n, t)
  {
  }

  lemma {:induction false} HearLocal(lens: seq<seq<byte>>, sel: seq<byte>, eob: int, i: nat, bits: seq<bit>, t: seq<bit>)
    requires (forall g :: 0 <= g < |sel| ==> sel[g] < |lens|) && forall u, v :: 0 <= u < |lens| && 0 <= v < |lens[u]| ==> lens[u][v] <= 20
    ensures HeardOn(Hear(lens, sel, eob, i, bits), Hear(lens, sel, eob, i, bits + t), |bits|, t)
    decreases G_SIZE * |sel| - i
  {
    hide NextSymbol, Group, HeardOn, AfterHeard;
    HeardOnEnds(0, bits, |bits|, Hear(lens, sel, eob, i, bits + t), t);
    if Group(i) < |sel| {
      var len := lens[sel[Group(i)]];
      NextLocal(len, bits, t);
      NextInRange(len, bits);
      var n := NextSymbol(len, bits);
      if n.Symbol? {
        Cut(bits, t, n.used);
        var rest := bits[n.used..];
        HeardOnEnds(n.value, rest, |bits|, Hear(lens, sel, eob, i, bits + t), t);
        if n.value != eob {
          InGroups(i, |sel|);
          HearLocal(lens, sel, eob, i + 1, rest, t);
          HeardOnMore(n.value, Hear(lens, sel, eob, i + 1, rest), Hear(lens, sel, eob, i + 1, rest + t), |rest|, |bits|, t);
        }
      }
    }
  }

  // ---- blocks ----

  lemma ColumnLocal(f: Front, bits: seq<bit>, t: seq<bit>, room: nat)
    requires FrontOk(f)
    ensures Local(ParseColumn(f, bits, room), ParseColumn(f, bits + t, room), |bits|, t)
  {
    hide Hear, Mtf.Decode, UsedBelow, FrontOk, Named, HeardOn;
    HeardDecodes(f, bits, room);
    HeardDecodes(f, bits + t, room);
    var eob := UsedBelow(f.inUse, 256) + 1;
    LengthsSmall(f);
    HearLocal(f.lens, f.sel, eob, 0, bits, t);
    ErrorsStay(Hear(f.lens, f.sel, eob, 0, bits), Hear(f.lens, f.sel, eob, 0, bits + t), |bits|, t, room, eob);
  }

  // What an error in the symbols is stays one when more symbols are heard.
  lemma ErrorsStay(h: Heard, k: Heard, n: nat, t: seq<bit>, room: nat, eob: int)
    requires HeardOn(h, k, n, t) && 2 <= eob <= 257 && Mtf.InRange(h.ss, eob) && Mtf.InRange(k.ss, eob)
    ensures h.end.Done? ==> |h.end.rest| <= n
    ensures !h.end.Starved? ==> k == Heard(h.ss, Longer(h.end, t))
    ensures Mtf.Decode(StartList(), h.ss, room, eob).DataError? ==> Mtf.Decode(StartList(), k.ss, room, eob).DataError?
  {
    hide Mtf.Decode;
    if h.end.Starved? && Mtf.Decode(StartList(), h.ss, room, eob).DataError? {
      assert k.ss == h.ss + k.ss[|h.ss|..];
      Mtf.DecodeMore(StartList(), h.ss, k.ss[|h.ss|..], room, eob);
    }
  }

  lemma LengthsSmall(f: Front)
    requires FrontOk(f)
    ensures forall u, v :: 0 <= u < |f.lens| && 0 <= v < |f.lens[u]| ==> f.lens[u][v] <= 20
  {
    hide UsedBelow;
    forall u, v | 0 <= u < |f.lens| && 0 <= v < |f.lens[u]| ensures f.lens[u][v] <= 20 {
      assert ProperLengths(f.lens[u], UsedBelow(f.inUse, 256) + 2);
    }
  }

  lemma BlockLocal(bits: seq<bit>, t: seq<bit>, level: nat, orig: nat)
    ensures Local(ParseBlock(bits, level, orig), ParseBlock(bits + t, level, orig), |bits|, t)
  {
    hide ParseFront, ParseColumn, FrontOk;
    FrontLocal(bits, t);
    var f := ParseFront(bits);
    if f.Done? {
      ColumnLocal(f.value, f.rest, t, 100000 * level);
    }
  }
}
