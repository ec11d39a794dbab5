// How many bits a block can take: what makes the room behind the block in arr2 enough for
// its compressed form, and what bounds a whole stream by its input.
module BlockSize {
  import opened Bits
  import opened BitIO
  import opened Rotations
  import opened RunLength
  import opened ByteMap
  import opened SideInfo
  import opened CodingTables
  import opened SymbolGroups
  import opened Payload
  import opened BlockCodec
  import BlockOutput
  import RoundTrip
  import MtfEncoder
  import Mtf
  import Selectors

  // ---- the parts of a body ----

  lemma {:induction false} RowsShort(inUse: seq<bool>, i: nat)
    requires |inUse| == 256 && i <= 16
    ensures |UsedRows(inUse, i)| <= 16 * (16 - i)
    decreases 16 - i
  {
    hide RowUsed, Row;
    if i < 16 {
      RowsShort(inUse, i + 1);
    }
  }

  lemma {:induction false} UnaryLength(j: nat)
    ensures |Unary(j)| == j + 1
  {
    if j > 0 {
      UnaryLength(j - 1);
    }
  }

  lemma {:induction false} UnariesShort(ms: seq<int>, i: nat, limit: nat)
    requires i <= |ms| && forall k :: 0 <= k < |ms| ==> 0 <= ms[k] < limit <= 6
    ensures |UnaryFrom(ms, i)| <= 6 * (|ms| - i)
    decreases |ms| - i
  {
    hide Unary;
    if i < |ms| {
      UnaryLength(ms[i]);
      UnariesShort(ms, i + 1, limit);
    }
  }

  lemma {:induction false} StepsLength(curr: int, to: int)
    ensures |Steps(curr, to)| == 1 + 2 * (if curr < to then to - curr else curr - to)
    decreases if curr < to then to - curr else curr - to
  {
    if curr < to {
      StepsLength(curr + 1, to);
    } else if curr > to {
      StepsLength(curr - 1, to);
    }
  }

  lemma {:induction false} StepsShort(curr: int, len: seq<byte>, i: nat)
    requires i <= |len| && 1 <= curr <= 20 && forall v :: 0 <= v < |len| ==> 1 <= len[v] <= 20
    ensures |StepsFrom(curr, len, i)| <= 39 * (|len| - i)
    decreases |len| - i
  {
    hide Steps;
    if i < |len| {
      StepsLength(curr, len[i]);
      StepsShort(len[i], len, i + 1);
    }
  }

  lemma {:induction false} LengthsShort(lens: seq<seq<byte>>, alphaSize: int, t: nat)
    requires t <= |lens| && alphaSize <= 258 && forall u :: 0 <= u < |lens| ==> ProperLengths(lens[u], alphaSize)
    ensures |AllLengths(lens, alphaSize, t)| <= 10067 * (|lens| - t)
    decreases |lens| - t
  {
    hide StepsFrom, ToBits;
    if t < |lens| {
      assert ProperLengths(lens[t], alphaSize);
      StepsShort(lens[t][0], lens[t], 0);
      LengthsShort(lens, alphaSize, t + 1);
    }
  }

  lemma {:induction false} SymbolsShort(lens: seq<seq<byte>>, sel: seq<byte>, ss: seq<int>, i: nat)
    requires Sendable(lens, sel, ss) && i <= |ss|
    ensures |SymbolBits(lens, sel, ss, i)| <= 20 * (|ss| - i)
    decreases |ss| - i
  {
    hide Sendable, Group;
    if i < |ss| {
      SendableAt(lens, sel, ss, i);
      SymbolsShort(lens, sel, ss, i + 1);
    }
  }

  // A body of n symbols: the map, six unary digits for each group of fifty, six tables of
  // 258 lengths, and twenty bits for each symbol.
  function BodyRoom(n: nat): nat {
    272 + 18 + 6 * Groups(n) + 6 * 10067 + 20 * n
  }

  lemma BodyShort(b: Body)
    requires Proper(b)
    ensures |BodyBits(b)| <= BodyRoom(|b.ss|)
  {
    hide Mtf.Closed, UsedBelow, AllLengths, SymbolBits, UnaryFrom, UsedRows, ToBits, Groups, Selectors.Codes;
    RowsShort(b.inUse, 0);
    UnariesShort(Selectors.Codes(Selectors.StartList(|b.lens|), b.sel), 0, |b.lens|);
    LengthsShort(b.lens, UsedBelow(b.inUse, 256) + 2, 0);
    SymbolsShort(b.lens, b.sel, b.ss, 0);
  }

  // ---- a block ----

  // A block of n bytes.
  function BlockRoom(n: nat): nat {
    21 * n + 61000
  }

  // A block has at most one symbol for every byte and the end marker, so with its header it
  // needs no more than this.
  lemma BlockShort(it: Item, level: nat, step: (bv32, byte) -> bv32)
    requires ItemOk(it, level, step)
    ensures 105 <= |ItemBits(it)| <= BlockRoom(|it.b|)
  {
    hide Stored, Plain, Runs, BlockOutput.FoldCrc, BodyBits, RoundTrip.Sent, Proper, Mtf.Encode, Groups, ToBits, BytesToBits;
    SymbolsFew(it.b, it.ptr, it.orig, it.body.inUse, it.body.ss);
    BodyShort(it.body);
    GroupsFew(|it.body.ss|);
  }

  lemma GroupsFew(n: nat)
    ensures 50 * Groups(n) <= n + 49
  {
  }

  lemma SymbolsFew(b: seq<byte>, ptr: seq<int>, orig: int, inUse: seq<bool>, ss: seq<int>)
    requires RoundTrip.Sent(b, ptr, orig, inUse, ss, [])
    ensures |ss| <= |b| + 1
  {
    hide Mtf.Encode, Mtf.Drawn;
    Mtf.EncodeShort(MtfEncoder.StartList(), MtfEncoder.Column(b, ptr, inUse), 0, UsedBelow(inUse, 256) + 1);
  }

  // The stored form of runs is at most a quarter longer than the input they stand for.
  lemma {:induction false} StoredShort(rs: seq<RunLength.Run>)
    requires forall i :: 0 <= i < |rs| ==> 1 <= rs[i].len <= 255
    ensures 4 * |Stored(rs)| <= 5 * |Plain(rs)|
  {
    hide PairBytes;
    if rs != [] {
      PairShort(rs[0]);
      StoredShort(rs[1..]);
    }
  }

  lemma PairShort(r: RunLength.Run)
    requires 1 <= r.len <= 255
    ensures 4 * |PairBytes(r)| <= 5 * r.len
  {
  }

  // A block's bits, by the input it stands for.
  lemma BlockByInput(it: Item, level: nat, step: (bv32, byte) -> bv32)
    requires ItemOk(it, level, step)
    ensures |Plain(it.rs)| > 0 && |ItemBits(it)| <= 27 * |Plain(it.rs)| + 61000
  {
    hide Stored, Plain, BlockOutput.FoldCrc, ItemBits, RoundTrip.Sent, Proper;
    BlockShort(it, level, step);
    StoredShort(it.rs);
  }
}
