// The decompressor after a block's column has arrived: building either inverse table and
// expanding runs into output buffers of any size, stopping and resuming anywhere.
module BlockOutput {
  import opened Rotations
  import opened Counting
  import opened Inverse
  import opened InverseTables
  import opened RunLength

  // The checksum register after a sequence of bytes; the table step is a parameter.
  function FoldCrc(step: (bv32, byte) -> bv32, crc: bv32, s: seq<byte>): bv32 {
    if s == [] then crc else step(FoldCrc(step, crc, s[..|s| - 1]), s[|s| - 1])
  }

  lemma FoldNothing(step: (bv32, byte) -> bv32, crc: bv32)
    ensures FoldCrc(step, crc, []) == crc
  {
  }

  lemma FoldCrcStep(step: (bv32, byte) -> bv32, crc: bv32, s: seq<byte>, c: byte)
    ensures FoldCrc(step, crc, s + [c]) == step(FoldCrc(step, crc, s), c)
  {
    assert (s + [c])[..|s|] == s;
  }

  lemma {:induction false} FoldCrcAppend(step: (bv32, byte) -> bv32, crc: bv32, s: seq<byte>, t: seq<byte>)
    ensures FoldCrc(step, crc, s + t) == FoldCrc(step, FoldCrc(step, crc, s), t)
  {
    if t == [] {
      assert s + t == s;
    } else {
      var k := |t| - 1;
      FoldCrcAppend(step, crc, s, t[..k]);
      assert s + t == (s + t[..k]) + [t[k]];
      FoldCrcStep(step, crc, s + t[..k], t[k]);
    }
  }

  ghost predicate Links(link: seq<int>) {
    forall i :: 0 <= i < |link| ==> 0 <= link[i] < |link|
  }

  // The k-th symbol read along the links from row orig, also past the end of the block.
  ghost function Read(col: seq<byte>, link: seq<int>, orig: int, k: nat): byte
    requires Links(link) && 0 <= orig < |link| == |col|
  {
    Symbol(col, link, orig, k)
  }

  // The block a column, its links and a start row stand for.
  ghost function Message(col: seq<byte>, link: seq<int>, orig: int): (m: seq<byte>)
    requires Links(link) && 0 <= orig < |link| == |col|
    ensures |m| == |col| && forall k :: 0 <= k < |m| ==> m[k] == Read(col, link, orig, k)
  {
    seq(|col|, k requires 0 <= k => Read(col, link, orig, k))
  }

  // What expanding from symbol j on yields, when symbol |m| reads as g.
  ghost function OwedFrom(m: seq<byte>, g: byte, j: nat): Expansion {
    if j <= |m| then Expand(m[j..], g) else Expansion([], true)
  }

  lemma OwedStep(m: seq<byte>, g: byte, j: nat)
    requires j < |m|
    ensures j + 1 == |m| || m[j + 1] != m[j] ==>
              OwedFrom(m, g, j) == Then(Repeat(m[j], 1), OwedFrom(m, g, j + 1))
    ensures j + 1 < |m| && m[j + 1] == m[j] && (j + 2 == |m| || m[j + 2] != m[j]) ==>
              OwedFrom(m, g, j) == Then(Repeat(m[j], 2), OwedFrom(m, g, j + 2))
    ensures j + 2 < |m| && m[j + 1] == m[j] && m[j + 2] == m[j] && (j + 3 == |m| || m[j + 3] != m[j]) ==>
              OwedFrom(m, g, j) == Then(Repeat(m[j], 3), OwedFrom(m, g, j + 3))
    ensures j + 3 < |m| && m[j + 1] == m[j] && m[j + 2] == m[j] && m[j + 3] == m[j] ==>
              OwedFrom(m, g, j) ==
              Then(Repeat(m[j], 4 + (if j + 4 < |m| then m[j + 4] else g) as int), OwedFrom(m, g, j + 5))
  {
    var s := m[j..];
    assert s[0] == m[j] && s[1..] == m[j + 1..];
    assert Repeat(m[j], 1) == [m[j]];
    if j + 1 < |m| {
      assert s[1] == m[j + 1] && s[2..] == m[j + 2..];
      if j + 2 < |m| {
        assert s[2] == m[j + 2] && s[3..] == m[j + 3..];
        if j + 3 < |m| {
          assert s[3] == m[j + 3];
          if j + 4 < |m| {
            assert s[4] == m[j + 4] && s[5..] == m[j + 5..];
          }
        }
      }
    }
  }

  // Emitting part of a run moves it from what is owed to what is out.
  lemma ThenSplit(out: seq<byte>, ch: byte, n: nat, left: nat, e: Expansion)
    requires left <= n
    ensures Then(out, Then(Repeat(ch, n), e)) == Then(out + Repeat(ch, n - left), Then(Repeat(ch, left), e))
    ensures left == 0 ==> Then(out, Then(Repeat(ch, n), e)) == Then(out + Repeat(ch, n), e)
  {
    assert Repeat(ch, n) == Repeat(ch, n - left) + Repeat(ch, left);
    assert out + (Repeat(ch, n) + e.bytes) == (out + Repeat(ch, n - left)) + (Repeat(ch, left) + e.bytes);
    if left == 0 {
      assert Repeat(ch, 0) + e.bytes == e.bytes;
    }
  }

  lemma ThenNothing(e: Expansion, ch: byte, n: nat)
    ensures Then([], Then(Repeat(ch, n), e)) == Then(Repeat(ch, n), e)
  {
  }

  // Owing nothing but corruption.
  lemma ThenCorrupt(out: seq<byte>)
    ensures Then(out, Expansion([], true)) == Expansion(out, true)
  {
    assert out + [] == out;
  }

  lemma BucketSymbol(col: seq<byte>, u: seq<int>, r: int, c: byte)
    requires IsUnrank(col, u) && 0 <= r < |col| && Below(col, c) <= r < Below(col, c as int + 1)
    ensures 0 <= u[r] < |col| && col[u[r]] == c
  {
    UnrankRow(col, u, r);
    var d := col[u[r]];
    if d < c {
      BelowMonotone(col, d as int + 1, c);
    } else if c < d {
      BelowMonotone(col, c as int + 1, d);
    }
  }

  ghost predicate FastTable(t: seq<int>, col: seq<byte>, link: seq<int>) {
    |col| == |link| <= |t| && forall r :: 0 <= r < |col| ==> Packed(t[r], col[r], link[r])
  }

  ghost predicate SmallTable(lo: seq<int>, hi: seq<int>, first: seq<int>, col: seq<byte>, link: seq<int>, orig: int, cycle: set<int>) {
    && |col| == |link| <= |lo| && Cells(lo, hi) && |first| == 257
    && Inverted(link, cycle, orig, View(lo, hi, |col|))
    && (forall c :: 0 <= c <= 256 ==> first[c] == Below(col, c))
  }

  // One look-up in the small table.
  method LookSmall(ll16: array<int>, ll4: array<int>, cftab: array<int>, pos: int,
                   ghost col: seq<byte>, ghost link: seq<int>, ghost orig: int, ghost cycle: set<int>)
    returns (c: byte, next: int)
    requires SmallTable(ll16[..], ll4[..], cftab[..], col, link, orig, cycle) && pos in cycle
    requires IsUnrank(col, link)
    ensures 0 <= pos < |link| && 0 <= link[pos] < |col| && c == col[link[pos]] && next == link[pos] && next in cycle
  {
    BelowEnds(col);
    assert cftab[0] == Below(col, 0) && cftab[256] == Below(col, 256);
    c := IndexIntoF(pos, cftab);
    next := GetLL(ll16[..], ll4[..], pos);
    BucketSymbol(col, link, pos, c);
  }

  // From histogram to fast table.
  method PrepareFast(tt: array<int>, cftab: array<int>, unzftab: array<int>, nblock: int, ghost col: seq<byte>, ghost link: seq<int>)
    returns (ok: bool)
    requires IsUnrank(col, link)
    requires cftab.Length == 257 && tt != cftab && |col| == nblock <= tt.Length
    requires unzftab.Length == 256 && unzftab != cftab && unzftab != tt
    requires forall i :: 0 <= i < nblock ==> tt[i] == col[i]
    requires forall c :: 0 <= c < 256 ==> unzftab[c] == Count(col, c)
    modifies tt, cftab
    ensures ok && FastTable(tt[..], col, link)
  {
    UnrankUnique(col, link);
    ok := MakeCftab(cftab, unzftab, nblock, col);
    BuildFast(tt, cftab, nblock, col);
  }

  // From histogram to small table.
  method PrepareSmall(ll16: array<int>, ll4: array<int>, cftab: array<int>, unzftab: array<int>, nblock: int, origPtr: int, ghost col: seq<byte>, ghost link: seq<int>)
    returns (ok: bool, ghost cycle: set<int>)
    requires IsUnrank(col, link)
    requires cftab.Length == 257 && ll16 != ll4 && ll16 != cftab && ll4 != cftab
    requires Cells(ll16[..], ll4[..]) && 0 <= origPtr < |col| == nblock <= ll16.Length && nblock < 0x10_0000
    requires unzftab.Length == 256 && unzftab != cftab && unzftab != ll16 && unzftab != ll4
    requires forall i :: 0 <= i < nblock ==> ll16[i] == col[i]
    requires forall c :: 0 <= c < 256 ==> unzftab[c] == Count(col, c)
    modifies ll16, ll4, cftab
    ensures ok && SmallTable(ll16[..], ll4[..], cftab[..], col, link, origPtr, cycle) && origPtr in cycle
  {
    UnrankUnique(col, link);
    ok := MakeCftab(cftab, unzftab, nblock, col);
    var cftabCopy := new int[257](c requires 0 <= c < 257 reads cftab => cftab[c]);
    BuildForward(ll16, ll4, cftabCopy, nblock, col);
    cycle := ReverseCycle(ll16, ll4, origPtr, nblock, col);
  }

  class DState {
    const step: (bv32, byte) -> bv32
    const capacity: nat
    const tt: array<int>
    const ll16: array<int>
    const ll4: array<int>
    const cftab: array<int>

    var nblock: nat
    var origPtr: int
    var tPos: int
    var k0: byte
    var nblockUsed: int
    var stateOutCh: byte
    var stateOutLen: int
    var calculatedBlockCRC: bv32
    // the received column, and the permutation that undoes its stable sort
    ghost var col: seq<byte>
    ghost var link: seq<int>
    ghost var cycle: set<int>

    constructor (step: (bv32, byte) -> bv32, blockSize100k: nat, small: bool)
      requires 1 <= blockSize100k <= 9
      ensures fresh(tt) && fresh(ll16) && fresh(ll4) && fresh(cftab) && Distinct()
      ensures capacity == 100000 * blockSize100k && this.step == step && cftab.Length == 257
      ensures if small then ll16.Length == capacity && Cells(ll16[..], ll4[..]) else tt.Length == capacity
    {
      this.step := step;
      capacity := 100000 * blockSize100k;
      tt := new int[if small then 0 else 100000 * blockSize100k](_ => 0);
      ll16 := new int[if small then 100000 * blockSize100k else 0](_ => 0);
      ll4 := new int[if small then (1 + 100000 * blockSize100k) / 2 else 0](_ => 0);
      cftab := new int[257](_ => 0);
      nblock, origPtr, tPos, k0, nblockUsed := 0, 0, 0, 0, 0;
      stateOutCh, stateOutLen, calculatedBlockCRC := 0, 0, 0xffff_ffff;
      col, link, cycle := [], [], {};
    }

    ghost predicate Distinct() {
      tt != ll16 && tt != ll4 && tt != cftab && ll16 != ll4 && ll16 != cftab && ll4 != cftab
    }

    // A block is loaded: nblock symbols, links among its rows, a start row inside it.
    ghost predicate Loaded()
      reads `nblock, `origPtr, `col, `link
    {
      && Distinct() && cftab.Length == 257
      && |col| == |link| == nblock <= capacity <= 900000 && 0 <= origPtr < nblock && Links(link)
    }

    // The fast table is built and the next read is number k.
    ghost predicate FastAt(k: nat, pos: int)
      reads `nblock, `origPtr, `col, `link, tt
    {
      Loaded() && tt.Length == capacity && FastTable(tt[..], col, link) && pos == Walk(link, origPtr, k + 1)
    }

    // The small table is inverted along the cycle and the next read is number k.
    ghost predicate SmallAt(k: nat, pos: int)
      reads `nblock, `origPtr, `col, `link, `cycle, ll16, ll4, cftab
    {
      && Loaded() && ll16.Length == capacity && SmallTable(ll16[..], ll4[..], cftab[..], col, link, origPtr, cycle)
      && pos == Walk(link, origPtr, k) && pos in cycle
    }

    ghost function Sym(k: nat): byte
      requires Loaded()
      reads `nblock, `origPtr, `col, `link
    {
      Read(col, link, origPtr, k)
    }

    // What expanding from symbol j on yields.
    ghost function From(j: nat): Expansion
      requires Loaded()
      reads `nblock, `origPtr, `col, `link
    {
      OwedFrom(Message(col, link, origPtr), Sym(nblock), j)
    }

    lemma PastEnd(j: nat)
      requires Loaded() && j > nblock
      ensures From(j) == Expansion([], true)
    {
    }

    // The symbol last read is k, or reading has passed the end.
    ghost predicate Standing(used: int, k: byte)
      requires Loaded()
      reads `nblock, `origPtr, `col, `link
    {
      1 <= used <= nblock + 2 && (used <= nblock ==> k == Sym(used - 1))
    }

    ghost predicate ReadyFast()
      reads this, tt
    {
      1 <= nblockUsed <= nblock + 2 && FastAt(nblockUsed, tPos) && Standing(nblockUsed, k0) && 0 <= stateOutLen
    }

    ghost predicate ReadySmall()
      reads this, ll16, ll4, cftab
    {
      1 <= nblockUsed <= nblock + 2 && SmallAt(nblockUsed, tPos) && Standing(nblockUsed, k0) && 0 <= stateOutLen
    }

    // The bytes still to be emitted for this block, and whether corruption will follow.
    ghost function Owed(): Expansion
      requires Loaded() && 0 <= stateOutLen && 1 <= nblockUsed
      reads this
    {
      Then(Repeat(stateOutCh, stateOutLen), From(nblockUsed - 1))
    }

    // BZ_GET_FAST / BZ_GET_FAST_C: the range check never fails on a received block.
    method GetFast(pos: int, ghost k: nat) returns (bad: bool, c: byte, next: int)
      requires FastAt(k, pos)
      ensures !bad && c == Sym(k) && FastAt(k + 1, next)
    {
      bad, c, next := false, 0, pos;
      if pos >= capacity {
        bad := true;
        return;
      }
      Unpack(tt[pos], col[pos], link[pos]);
      next := tt[pos];
      c := next % 256;
      next := next / 256;
    }

    // BZ_GET_SMALL: the symbol is found by searching the first rows, not stored.
    method GetSmall(pos: int, ghost k: nat) returns (bad: bool, c: byte, next: int)
      requires SmallAt(k, pos) && IsUnrank(col, link)
      ensures !bad && c == Sym(k) && SmallAt(k + 1, next)
    {
      bad, c, next := false, 0, pos;
      if pos >= capacity {
        bad := true;
        return;
      }
      c, next := LookSmall(ll16, ll4, cftab, pos, col, link, origPtr, cycle);
    }

    // The end of BZ2_decompress for one block, fast path.
    method StartFast(unzftab: array<int>) returns (ok: bool)
      requires Loaded() && tt.Length == capacity && unzftab.Length == 256 && unzftab != cftab && unzftab != tt
      requires IsUnrank(col, link)
      requires forall i :: 0 <= i < nblock ==> tt[i] == col[i]
      requires forall c :: 0 <= c < 256 ==> unzftab[c] == Count(col, c)
      modifies this, tt, cftab
      ensures ok && ReadyFast()
      ensures col == old(col) && origPtr == old(origPtr) && nblock == old(nblock) && link == old(link)
      ensures stateOutLen == 0 && nblockUsed == 1 && calculatedBlockCRC == 0xffff_ffff
    {
      ok := PrepareFast(tt, cftab, unzftab, nblock, col, link);
      Unpack(tt[origPtr], col[origPtr], link[origPtr]);
      var pos := tt[origPtr] / 256;
      assert pos == link[Walk(link, origPtr, 0)];
      var bad, c;
      bad, c, pos := GetFast(pos, 0);
      stateOutLen, stateOutCh, calculatedBlockCRC := 0, 0, 0xffff_ffff;
      k0, tPos, nblockUsed := c, pos, 1;
    }

    // The same for the small path.
    method StartSmall(unzftab: array<int>) returns (ok: bool)
      requires Loaded() && ll16.Length == capacity && Cells(ll16[..], ll4[..])
      requires unzftab.Length == 256 && unzftab != cftab && unzftab != ll16 && unzftab != ll4
      requires IsUnrank(col, link)
      requires forall i :: 0 <= i < nblock ==> ll16[i] == col[i]
      requires forall c :: 0 <= c < 256 ==> unzftab[c] == Count(col, c)
      modifies this, ll16, ll4, cftab
      ensures ok && ReadySmall()
      ensures col == old(col) && origPtr == old(origPtr) && nblock == old(nblock) && link == old(link)
      ensures stateOutLen == 0 && nblockUsed == 1 && calculatedBlockCRC == 0xffff_ffff
    {
      ghost var rows;
      ok, rows := PrepareSmall(ll16, ll4, cftab, unzftab, nblock, origPtr, col, link);
      cycle := rows;
      var bad, c, pos;
      bad, c, pos := GetSmall(origPtr, 0);
      stateOutLen, stateOutCh, calculatedBlockCRC := 0, 0, 0xffff_ffff;
      k0, tPos, nblockUsed := c, pos, 1;
    }

    // The look-ahead of unRLE_obuf_to_output_FAST: from the symbol k0 read last, the length
    // of the run that starts there and the position after it.  A run of one, which the
    // program handles by jumping to its emission, is returned as a run of one.
    method NextRunFast(used0: int, pos0: int, k0: byte)
      returns (bad: bool, len: int, used: int, pos: int, k: byte)
      requires Loaded() && 1 <= used0 <= nblock && FastAt(used0, pos0) && Standing(used0, k0)
      ensures Loaded() && !bad && 1 <= len && used0 < used <= nblock + 2 && FastAt(used, pos) && Standing(used, k)
      ensures From(used0 - 1) == Then(Repeat(k0, len), From(used - 1))
    {
      hide FastAt, SmallAt, Then, Repeat, Expand, OwedFrom, Read, Message, Links;
      OwedStep(Message(col, link, origPtr), Sym(nblock), used0 - 1);
      var k1;
      len, used, pos, k := 1, used0, pos0, k0;
      bad, k1, pos := GetFast(pos, used);
      if bad { return; }
      used := used + 1;
      if k1 != k {
        k := k1;
        return;
      }
      if used == nblock + 1 { return; }

      len := 2;
      bad, k1, pos := GetFast(pos, used);
      if bad { return; }
      used := used + 1;
      if used == nblock + 1 { return; }
      if k1 != k {
        k := k1;
        return;
      }

      len := 3;
      bad, k1, pos := GetFast(pos, used);
      if bad { return; }
      used := used + 1;
      if used == nblock + 1 { return; }
      if k1 != k {
        k := k1;
        return;
      }

      bad, k1, pos := GetFast(pos, used);
      if bad { return; }
      used := used + 1;
      len := k1 as int + 4;
      bad, k, pos := GetFast(pos, used);
      used := used + 1;
    }

    // The same look-ahead in unRLE_obuf_to_output_SMALL.
    method NextRunSmall(used0: int, pos0: int, k0: byte)
      returns (bad: bool, len: int, used: int, pos: int, k: byte)
      requires Loaded() && 1 <= used0 <= nblock && SmallAt(used0, pos0) && IsUnrank(col, link) && Standing(used0, k0)
      ensures Loaded() && !bad && 1 <= len && used0 < used <= nblock + 2 && SmallAt(used, pos) && Standing(used, k)
      ensures From(used0 - 1) == Then(Repeat(k0, len), From(used - 1))
    {
      hide FastAt, SmallAt, Then, Repeat, Expand, OwedFrom, Read, Message, Links;
      OwedStep(Message(col, link, origPtr), Sym(nblock), used0 - 1);
      var k1;
      len, used, pos, k := 1, used0, pos0, k0;
      bad, k1, pos := GetSmall(pos, used);
      if bad { return; }
      used := used + 1;
      if used == nblock + 1 { return; }
      if k1 != k {
        k := k1;
        return;
      }

      len := 2;
      bad, k1, pos := GetSmall(pos, used);
      if bad { return; }
      used := used + 1;
      if used == nblock + 1 { return; }
      if k1 != k {
        k := k1;
        return;
      }

      len := 3;
      bad, k1, pos := GetSmall(pos, used);
      if bad { return; }
      used := used + 1;
      if used == nblock + 1 { return; }
      if k1 != k {
        k := k1;
        return;
      }

      bad, k1, pos := GetSmall(pos, used);
      if bad { return; }
      used := used + 1;
      len := k1 as int + 4;
      bad, k, pos := GetSmall(pos, used);
      used := used + 1;
    }

    // The innermost loop: emit copies of ch while there is room.
    method EmitRun(ch: byte, len0: int, avail0: nat, out0: seq<byte>, crc0: bv32, ghost start: bv32)
      returns (len: int, avail: nat, out: seq<byte>, crc: bv32)
      requires 0 <= len0 && crc0 == FoldCrc(step, start, out0)
      ensures 0 <= len <= len0 && avail == avail0 - (len0 - len) && (avail == 0 || len == 0)
      ensures out == out0 + Repeat(ch, len0 - len)
      ensures crc == FoldCrc(step, start, out)
    {
      len, avail, out, crc := len0, avail0, out0, crc0;
      while avail != 0 && len != 0
        invariant 0 <= len <= len0 && avail == avail0 - (len0 - len)
        invariant out == out0 + Repeat(ch, len0 - len)
        invariant crc == FoldCrc(step, start, out)
      {
        FoldCrcStep(step, start, out, ch);
        out := out + [ch];
        crc := step(crc, ch);
        len := len - 1;
        avail := avail - 1;
      }
    }

    // The loop of unRLE_obuf_to_output_FAST on the local copies it makes of the state.
    method ExpandFast(availOut: nat, ch0: byte, len0: int, used0: int, k00: byte, pos0: int, crc0: bv32)
      returns (corrupt: bool, out: seq<byte>, ch: byte, len: int, used: int, k: byte, pos: int, crc: bv32)
      requires Loaded() && 0 <= len0 && 1 <= used0 <= nblock + 2 && FastAt(used0, pos0) && Standing(used0, k00)
      ensures 0 <= len && 1 <= used <= nblock + 2 && FastAt(used, pos) && Standing(used, k)
      ensures Then(Repeat(ch0, len0), From(used0 - 1)) == Then(out, Then(Repeat(ch, len), From(used - 1)))
      ensures crc == FoldCrc(step, crc0, out)
      ensures |out| <= availOut && (!corrupt && |out| < availOut ==> used == nblock + 1 && len == 0)
      ensures corrupt ==> Then(Repeat(ch0, len0), From(used0 - 1)) == Expansion(out, true)
    {
      hide FastAt, Loaded, Standing, FoldCrc, Then, Repeat, Expand, From, Sym, Links;
      ThenNothing(From(used0 - 1), ch0, len0);
      crc, ch, len, used, k, pos := crc0, ch0, len0, used0, k00, pos0;
      var avail := availOut;
      out := [];
      FoldNothing(step, crc0);
      corrupt := false;
      while true
        invariant 0 <= len && 1 <= used <= nblock + 2 && FastAt(used, pos) && Standing(used, k)
        invariant |out| + avail == availOut
        invariant Then(Repeat(ch0, len0), From(used0 - 1)) == Then(out, Then(Repeat(ch, len), From(used - 1)))
        invariant crc == FoldCrc(step, crc0, out)
        decreases nblock + 2 - used
      {
        // finish the existing run, stopping here only while something is left of it
        ghost var was, out0 := len, out;
        len, avail, out, crc := EmitRun(ch, len, avail, out, crc, crc0);
        ThenSplit(out0, ch, was, len, From(used - 1));
        if len > 0 {
          return;
        }
        // only caused by a corrupt data stream
        if used > nblock + 1 {
          PastEnd(used - 1);
          ThenCorrupt(out);
          corrupt := true;
          return;
        }
        // can a new run be started?
        if used == nblock + 1 {
          return;
        }
        ch := k;
        var bad;
        bad, len, used, pos, k := NextRunFast(used, pos, k);
      }
    }

    // The loop of unRLE_obuf_to_output_SMALL: it stops as soon as the room is used up.
    method ExpandSmall(availOut: nat, ch0: byte, len0: int, used0: int, k00: byte, pos0: int, crc0: bv32)
      returns (corrupt: bool, out: seq<byte>, ch: byte, len: int, used: int, k: byte, pos: int, crc: bv32)
      requires Loaded() && 0 <= len0 && 1 <= used0 <= nblock + 2 && SmallAt(used0, pos0) && Standing(used0, k00)
      requires IsUnrank(col, link)
      ensures 0 <= len && 1 <= used <= nblock + 2 && SmallAt(used, pos) && Standing(used, k)
      ensures Then(Repeat(ch0, len0), From(used0 - 1)) == Then(out, Then(Repeat(ch, len), From(used - 1)))
      ensures crc == FoldCrc(step, crc0, out)
      ensures |out| <= availOut && (!corrupt && |out| < availOut ==> used == nblock + 1 && len == 0)
      ensures corrupt ==> Then(Repeat(ch0, len0), From(used0 - 1)) == Expansion(out, true)
    {
      hide SmallAt, Loaded, Standing, FoldCrc, Then, Repeat, Expand, From, Sym, Links, IsUnrank;
      ThenNothing(From(used0 - 1), ch0, len0);
      crc, ch, len, used, k, pos := crc0, ch0, len0, used0, k00, pos0;
      var avail := availOut;
      out := [];
      FoldNothing(step, crc0);
      corrupt := false;
      while true
        invariant 0 <= len && 1 <= used <= nblock + 2 && SmallAt(used, pos) && Standing(used, k)
        invariant |out| + avail == availOut
        invariant Then(Repeat(ch0, len0), From(used0 - 1)) == Then(out, Then(Repeat(ch, len), From(used - 1)))
        invariant crc == FoldCrc(step, crc0, out)
        decreases nblock + 2 - used
      {
        ghost var was, out0 := len, out;
        len, avail, out, crc := EmitRun(ch, len, avail, out, crc, crc0);
        ThenSplit(out0, ch, was, len, From(used - 1));
        if avail == 0 {
          return;
        }
        if used == nblock + 1 {
          return;
        }
        if used > nblock + 1 {
          PastEnd(used - 1);
          ThenCorrupt(out);
          corrupt := true;
          return;
        }
        ch := k;
        var bad;
        bad, len, used, pos, k := NextRunSmall(used, pos, k);
      }
    }

    // unRLE_obuf_to_output_FAST.  Whatever room the caller offers, the bytes emitted
    // followed by the bytes still owed are the bytes owed before: no stop drops or
    // repeats a byte.  When corruption is found this path leaves the state and the caller's
  // counts as they were; out is then what it has put into the buffer.
    method UnRleFast(availOut: nat) returns (corrupt: bool, out: seq<byte>)
      requires Loaded() && ReadyFast()
      modifies `calculatedBlockCRC, `stateOutCh, `stateOutLen, `nblockUsed, `k0, `tPos
      ensures |out| <= availOut && (!corrupt ==> Loaded() && ReadyFast() && old(Owed()) == Then(out, Owed()))
      ensures !corrupt ==> calculatedBlockCRC == FoldCrc(step, old(calculatedBlockCRC), out)
      ensures !corrupt && |out| < availOut ==> nblockUsed == nblock + 1 && stateOutLen == 0
      ensures corrupt ==> old(Owed()) == Expansion(out, true)
    {
      hide FastAt, Standing, FoldCrc, Then, Repeat, Expand, From, Sym, Links;
      var ch, len, used, k, pos, crc;
      corrupt, out, ch, len, used, k, pos, crc :=
        ExpandFast(availOut, stateOutCh, stateOutLen, nblockUsed, k0, tPos, calculatedBlockCRC);
      if !corrupt {
        stateOutCh, stateOutLen, nblockUsed, k0, tPos, calculatedBlockCRC := ch, len, used, k, pos, crc;
      }
    }

    // unRLE_obuf_to_output_SMALL: the same promise.
    method UnRleSmall(availOut: nat) returns (corrupt: bool, out: seq<byte>)
      requires Loaded() && ReadySmall() && IsUnrank(col, link)
      modifies `calculatedBlockCRC, `stateOutCh, `stateOutLen, `nblockUsed, `k0, `tPos
      ensures |out| <= availOut && (!corrupt ==> Loaded() && ReadySmall() && old(Owed()) == Then(out, Owed()))
      ensures !corrupt ==> calculatedBlockCRC == FoldCrc(step, old(calculatedBlockCRC), out)
      ensures !corrupt && |out| < availOut ==> nblockUsed == nblock + 1 && stateOutLen == 0
      ensures corrupt ==> old(Owed()) == Expansion(out, true)
    {
      hide SmallAt, Standing, FoldCrc, Then, Repeat, Expand, From, Sym, Links;
      var ch, len, used, k, pos, crc;
      corrupt, out, ch, len, used, k, pos, crc :=
        ExpandSmall(availOut, stateOutCh, stateOutLen, nblockUsed, k0, tPos, calculatedBlockCRC);
      stateOutCh, stateOutLen, nblockUsed, k0, tPos, calculatedBlockCRC := ch, len, used, k, pos, crc;
    }
  }
}
