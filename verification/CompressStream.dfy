// The streaming compressor: the first run-length stage and the RUN / FLUSH / FINISH state
// machine around it, which hands finished blocks to the block compressor and its bytes to
// the caller.
module CompressStream {
  import opened Rotations
  import opened RunLength
  import opened BitIO
  import opened BlockCodec
  import opened StreamFormat
  import BlockOutput
  import BlockSize
  import ByteMap

  datatype Mode = Idle | Running | Flushing | Finishing
  datatype Phase = Input | Output
  datatype Action = Run | Flush | Finish | Other
  datatype Ret = RunOk | FlushOk | FinishOk | StreamEnd | SequenceError | ParamError

  // One call of the block compressor.
  datatype Call = Call(bytes: seq<byte>, crc: bv32, last: bool)

  const CRC_INIT: bv32 := 0xFFFF_FFFF

  // ---- the block under construction ----

  ghost predicate Lengths(rs: seq<RunLength.Run>) {
    forall i :: 0 <= i < |rs| ==> 1 <= rs[i].len <= 255
  }

  // stored, the bytes of the block so far, are those of the finished runs.
  ghost predicate Current(stored: seq<byte>, inUse: seq<bool>, crc: bv32, rs: seq<RunLength.Run>, step: (bv32, byte) -> bv32) {
    && Runs(rs) && stored == Stored(rs) && |inUse| == 256
    && (forall c :: 0 <= c < 256 ==> (inUse[c] <==> c in stored))
    && crc == BlockOutput.FoldCrc(step, CRC_INIT, Plain(rs))
  }

  // The run not yet stored; symbol 256 means there is none.
  ghost predicate Pending(ch: int, len: int, rs: seq<RunLength.Run>) {
    || (ch == 256 && len == 0)
    || (0 <= ch < 256 && 1 <= len <= 255 && (rs != [] ==> Follows(rs[|rs| - 1], RunLength.Run(ch, len))))
  }

  function PendingBytes(ch: int, len: int): seq<byte> {
    if 0 <= ch < 256 && len >= 0 then Repeat(ch, len) else []
  }

  // A full block leaves a run of one symbol waiting.
  ghost predicate Bounded(nblock: int, max: int, ch: int, len: int) {
    0 <= nblock <= max + 4 && (nblock >= max ==> ch < 256 && len == 1)
  }

  lemma CurrentEmpty(step: (bv32, byte) -> bv32, inUse: seq<bool>)
    requires |inUse| == 256 && forall c :: 0 <= c < 256 ==> !inUse[c]
    ensures Current([], inUse, CRC_INIT, [], step)
  {
  }

  lemma {:induction false} FoldRepeat(step: (bv32, byte) -> bv32, crc: bv32, ch: byte, n: nat)
    ensures n == 0 ==> BlockOutput.FoldCrc(step, crc, Repeat(ch, n)) == crc
    ensures n > 0 ==> BlockOutput.FoldCrc(step, crc, Repeat(ch, n)) == step(BlockOutput.FoldCrc(step, crc, Repeat(ch, n - 1)), ch)
  {
    if n > 0 {
      assert Repeat(ch, n) == Repeat(ch, n - 1) + [ch];
      BlockOutput.FoldCrcStep(step, crc, Repeat(ch, n - 1), ch);
    }
  }

  // The symbols a stored run brings into use.
  function UseRun(inUse: seq<bool>, ch: byte, len: int): seq<bool>
    requires |inUse| == 256 && 1 <= len <= 255
  {
    if len < 4 then inUse[ch := true] else inUse[ch := true][len - 4 := true]
  }

  // Storing the pending run.
  lemma StoreRun(stored: seq<byte>, inUse: seq<bool>, crc: bv32, rs: seq<RunLength.Run>, step: (bv32, byte) -> bv32, ch: int, len: int)
    requires Current(stored, inUse, crc, rs, step) && Pending(ch, len, rs) && ch < 256
    ensures 0 <= ch && 1 <= len <= 255 && |inUse| == 256
    ensures Current(stored + PairBytes(RunLength.Run(ch, len)), UseRun(inUse, ch, len),
                    BlockOutput.FoldCrc(step, crc, Repeat(ch, len)), rs + [RunLength.Run(ch, len)], step)
  {
    hide Stored, Plain, BlockOutput.FoldCrc, PairBytes, UseRun, Repeat, Runs;
    var r := RunLength.Run(ch, len);
    RunsMore(rs, ch, len);
    StoredAppend(rs, r);
    BlockOutput.FoldCrcAppend(step, CRC_INIT, Plain(rs), Repeat(ch, len));
    UsedByRun(stored, inUse, r);
  }

  lemma RunsMore(rs: seq<RunLength.Run>, ch: int, len: int)
    requires Runs(rs) && Pending(ch, len, rs) && ch < 256
    ensures 0 <= ch && 1 <= len <= 255 && Runs(rs + [RunLength.Run(ch, len)]) && forall i :: 0 <= i < |rs| ==> 1 <= rs[i].len <= 255
  {
    var more := rs + [RunLength.Run(ch, len)];
    forall i | 0 <= i < |more| - 1 ensures Follows(more[i], more[i + 1]) {
    }
  }

  lemma UsedByRun(stored: seq<byte>, inUse: seq<bool>, r: RunLength.Run)
    requires |inUse| == 256 && 1 <= r.len <= 255 && forall c :: 0 <= c < 256 ==> (inUse[c] <==> c in stored)
    ensures |UseRun(inUse, r.ch, r.len)| == 256
    ensures forall c :: 0 <= c < 256 ==> (UseRun(inUse, r.ch, r.len)[c] <==> c in stored + PairBytes(r))
  {
    var p := PairBytes(r);
    assert p[0] == r.ch;
    if r.len >= 4 {
      assert p[4] == r.len - 4;
    }
    forall c | 0 <= c < 256 ensures c in p <==> c == r.ch || (r.len >= 4 && c == r.len - 4) {
    }
  }

  // ---- the log of finished blocks ----

  ghost function PlainAll(done: seq<seq<RunLength.Run>>): seq<byte>
    requires forall k {:trigger done[k]} :: 0 <= k < |done| ==> Lengths(done[k])
  {
    if done == [] then []
    else
      assert Lengths(done[|done| - 1]);
      PlainAll(done[..|done| - 1]) + Plain(done[|done| - 1])
  }

  // The call compresses exactly these runs, with their checksum.
  ghost predicate Packs(c: Call, rs: seq<RunLength.Run>, step: (bv32, byte) -> bv32) {
    Runs(rs) && c.bytes == Stored(rs) && c.crc == Finalise(BlockOutput.FoldCrc(step, CRC_INIT, Plain(rs)))
  }

  // Every finished block holds the runs of its share of the input and their checksum; only
  // the last one may be marked last.
  ghost predicate Logged(calls: seq<Call>, done: seq<seq<RunLength.Run>>, step: (bv32, byte) -> bv32) {
    && |calls| == |done|
    && (forall k {:trigger done[k]} {:trigger calls[k]} :: 0 <= k < |calls| ==> Packs(calls[k], done[k], step))
    && (forall k :: 0 <= k < |calls| - 1 ==> !calls[k].last)
  }

  // What a decoder makes of the finished blocks, one after the other.
  ghost function DecodeAll(calls: seq<Call>, g: byte): Expansion {
    if calls == [] then Expansion([], false)
    else
      var e, last := DecodeAll(calls[..|calls| - 1], g), Expand(calls[|calls| - 1].bytes, g);
      Expansion(e.bytes + last.bytes, e.corrupt || last.corrupt)
  }

  // The finished blocks decode to their share of the input, whatever symbol g a decoder
  // reads past the end of a block.
  lemma {:induction false} LogDecodes(calls: seq<Call>, done: seq<seq<RunLength.Run>>, step: (bv32, byte) -> bv32, g: byte)
    requires |calls| == |done| && forall k {:trigger done[k]} :: 0 <= k < |calls| ==> Packs(calls[k], done[k], step)
    ensures forall k {:trigger done[k]} :: 0 <= k < |done| ==> Lengths(done[k])
    ensures DecodeAll(calls, g) == Expansion(PlainAll(done), false)
  {
    if calls != [] {
      var n := |calls| - 1;
      LogDecodes(calls[..n], done[..n], step, g);
      assert Packs(calls[n], done[n], step);
      ExpandStored(done[n], g);
      forall k {:trigger done[k]} | 0 <= k < |done| ensures Lengths(done[k]) {
        assert Packs(calls[k], done[k], step);
      }
      hide Plain, Stored, Expand;
    }
  }

  lemma LogMore(calls: seq<Call>, done: seq<seq<RunLength.Run>>, step: (bv32, byte) -> bv32, rs: seq<RunLength.Run>, c: Call)
    requires Logged(calls, done, step) && Packs(c, rs, step)
    requires forall k :: 0 <= k < |calls| ==> !calls[k].last
    ensures Logged(calls + [c], done + [rs], step)
  {
    hide Packs;
  }

  lemma PlainMore(done: seq<seq<RunLength.Run>>, rs: seq<RunLength.Run>)
    requires (forall k {:trigger done[k]} :: 0 <= k < |done| ==> Lengths(done[k])) && Lengths(rs)
    ensures PlainAll(done + [rs]) == PlainAll(done) + Plain(rs)
  {
    hide Lengths;
    assert (done + [rs])[..|done|] == done;
    hide Plain;
  }

  // The blocks sent stand for the same input as the blocks finished.
  ghost predicate ItemsPlain(items: seq<Item>, done: seq<seq<RunLength.Run>>) {
    && (forall k {:trigger done[k]} :: 0 <= k < |done| ==> Lengths(done[k])) && (forall k :: 0 <= k < |items| ==> Runs(items[k].rs))
    && PlainItems(items) == PlainAll(done)
  }

  lemma ItemsPlainMore(items: seq<Item>, items': seq<Item>, done: seq<seq<RunLength.Run>>, rs: seq<RunLength.Run>)
    requires ItemsPlain(items, done) && Grown(items, items', rs)
    ensures ItemsPlain(items', done + [rs])
  {
    hide PlainItems, PlainAll, Plain;
    PlainMore(done, rs);
    forall k {:trigger (done + [rs])[k]} | 0 <= k < |done + [rs]| ensures Lengths((done + [rs])[k]) {
    }
  }

  // The blocks of the stream are the blocks handed over, but for the empty ones.
  ghost predicate Lists(items: seq<Item>, calls: seq<Call>) {
    if calls == [] then items == []
    else
      var n, front := |items| - 1, calls[..|calls| - 1];
      if calls[|calls| - 1].bytes == [] then Lists(items, front)
      else items != [] && items[n].b == calls[|calls| - 1].bytes && Lists(items[..n], front)
  }

  lemma ListsMore(items: seq<Item>, items': seq<Item>, calls: seq<Call>, c: Call, rs: seq<RunLength.Run>)
    requires Lists(items, calls) && Grown(items, items', rs) && c.bytes == Stored(rs)
    ensures Lists(items', calls + [c])
  {
    hide PlainItems, Plain, Stored, Runs;
    assert (calls + [c])[..|calls|] == calls;
  }

  lemma {:induction false} ListsFew(items: seq<Item>, calls: seq<Call>)
    requires Lists(items, calls)
    ensures |items| <= |calls|
    decreases |calls|
  {
    if calls != [] {
      var front := calls[..|calls| - 1];
      if calls[|calls| - 1].bytes == [] {
        ListsFew(items, front);
      } else {
        ListsFew(items[..|items| - 1], front);
      }
    }
  }

  // ---- when a block is handed over ----

  // Every block handed over between two moments was full, but for the last one if it sealed
  // what was flushed or finished.
  ghost predicate Filled(from: seq<Call>, to: seq<Call>, max: int, sealed: bool) {
    from <= to && forall i {:trigger to[i]} :: |from| <= i < |to| ==> |to[i].bytes| >= max || (sealed && i == |to| - 1)
  }

  lemma FilledNone(calls: seq<Call>, max: int, sealed: bool)
    ensures Filled(calls, calls, max, sealed)
  {
  }

  lemma FilledThen(a: seq<Call>, b: seq<Call>, c: seq<Call>, max: int, sealed: bool, sealed': bool)
    requires Filled(a, b, max, false) && Filled(b, c, max, sealed) && (sealed ==> sealed')
    ensures Filled(a, c, max, sealed')
  {
    forall i {:trigger c[i]} | |a| <= i < |c| ensures |c[i].bytes| >= max || (sealed' && i == |c| - 1) {
      if i < |b| {
        assert c[i] == b[i];
      }
    }
  }

  lemma FilledOne(a: seq<Call>, c: Call, max: int, sealed: bool)
    requires sealed || |c.bytes| >= max
    ensures Filled(a, a + [c], max, sealed)
  {
  }

  // How many blocks were handed over before they were full.
  ghost function Shorts(calls: seq<Call>, max: int): nat {
    if calls == [] then 0 else Shorts(calls[..|calls| - 1], max) + if |calls[|calls| - 1].bytes| < max then 1 else 0
  }

  lemma {:induction false} FewShorts(from: seq<Call>, to: seq<Call>, max: int, sealed: bool)
    requires Filled(from, to, max, sealed)
    ensures Shorts(to, max) <= Shorts(from, max) + if sealed then 1 else 0
    decreases |to|
  {
    if |from| < |to| {
      var n := |to| - 1;
      var front := to[..n];
      assert Filled(from, front, max, false) by {
        assert forall i {:trigger front[i]} :: 0 <= i < n ==> front[i] == to[i];
      }
      FewShorts(from, front, max, false);
      assert |to[n].bytes| >= max || sealed;
    } else {
      assert from == to;
    }
  }

  // Full blocks take their share of the input.
  lemma {:induction false} FullShare(calls: seq<Call>, done: seq<seq<RunLength.Run>>, step: (bv32, byte) -> bv32, max: int)
    requires max >= 0 && |calls| == |done| && forall k {:trigger done[k]} :: 0 <= k < |calls| ==> Packs(calls[k], done[k], step)
    ensures forall k {:trigger done[k]} :: 0 <= k < |done| ==> Lengths(done[k])
    ensures 4 * (max * (|calls| - Shorts(calls, max))) <= 5 * |PlainAll(done)|
  {
    forall k {:trigger done[k]} | 0 <= k < |done| ensures Lengths(done[k]) {
      PacksLengths(calls[k], done[k], step);
    }
    if calls != [] {
      var n := |calls| - 1;
      hide Packs, Lengths;
      FullShare(calls[..n], done[..n], step, max);
      PacksShort(calls[n], done[n], step);
      Shares(max, n - Shorts(calls[..n], max));
    }
  }

  lemma Shares(max: int, k: int)
    ensures max * (k + 1) == max * k + max
  {
  }

  lemma PacksLengths(c: Call, rs: seq<RunLength.Run>, step: (bv32, byte) -> bv32)
    requires Packs(c, rs, step)
    ensures Lengths(rs)
  {
    hide Stored, Plain, BlockOutput.FoldCrc;
  }

  lemma PacksShort(c: Call, rs: seq<RunLength.Run>, step: (bv32, byte) -> bv32)
    requires Packs(c, rs, step)
    ensures Lengths(rs) && 4 * |c.bytes| <= 5 * |Plain(rs)|
  {
    hide Stored, Plain, BlockOutput.FoldCrc;
    BlockSize.StoredShort(rs);
  }

  // ---- what the consumed input has become ----

  ghost predicate Ledger(calls: seq<Call>, done: seq<seq<RunLength.Run>>, runs: seq<RunLength.Run>, consumed: seq<byte>,
                         ch: int, len: int, step: (bv32, byte) -> bv32) {
    && Logged(calls, done, step) && Lengths(runs) && (forall k {:trigger done[k]} :: 0 <= k < |done| ==> Lengths(done[k]))
    && consumed == PlainAll(done) + Plain(runs) + PendingBytes(ch, len)
  }

  lemma LedgerStart(step: (bv32, byte) -> bv32)
    ensures Ledger([], [], [], [], 256, 0, step)
  {
  }

  // The pending run becomes a finished run.
  lemma LedgerStore(calls: seq<Call>, done: seq<seq<RunLength.Run>>, runs: seq<RunLength.Run>, consumed: seq<byte>,
                    ch: int, len: int, step: (bv32, byte) -> bv32)
    requires Ledger(calls, done, runs, consumed, ch, len, step) && 0 <= ch < 256 && 1 <= len <= 255
    ensures Ledger(calls, done, runs + [RunLength.Run(ch, len)], consumed, 256, 0, step)
  {
    hide Logged;
    StoredAppend(runs, RunLength.Run(ch, len));
    assert PlainAll(done) + Plain(runs) + Repeat(ch, len) == PlainAll(done) + (Plain(runs) + Repeat(ch, len)) + [];
  }

  // A new pending run of one symbol.
  lemma LedgerBegin(calls: seq<Call>, done: seq<seq<RunLength.Run>>, runs: seq<RunLength.Run>, consumed: seq<byte>,
                    c: byte, step: (bv32, byte) -> bv32)
    requires Ledger(calls, done, runs, consumed, 256, 0, step)
    ensures Ledger(calls, done, runs, consumed + [c], c, 1, step)
  {
    hide Logged, Plain, PlainAll;
    assert Repeat(c, 1) == [c];
  }

  // One symbol more in the pending run.
  lemma LedgerExtend(calls: seq<Call>, done: seq<seq<RunLength.Run>>, runs: seq<RunLength.Run>, consumed: seq<byte>,
                     ch: int, len: int, step: (bv32, byte) -> bv32)
    requires Ledger(calls, done, runs, consumed, ch, len, step) && 0 <= ch < 256 && 0 <= len
    ensures Ledger(calls, done, runs, consumed + [ch], ch, len + 1, step)
  {
    hide Logged, Plain, PlainAll;
    assert Repeat(ch, len + 1) == Repeat(ch, len) + [ch];
    var base := PlainAll(done) + Plain(runs);
    assert base + Repeat(ch, len) + [ch] == base + (Repeat(ch, len) + [ch]);
  }

  // The current block is handed over and a new one begins.
  lemma LedgerClose(calls: seq<Call>, done: seq<seq<RunLength.Run>>, runs: seq<RunLength.Run>, consumed: seq<byte>,
                    ch: int, len: int, step: (bv32, byte) -> bv32, c: Call)
    requires Ledger(calls, done, runs, consumed, ch, len, step) && Packs(c, runs, step) && forall k :: 0 <= k < |calls| ==> !calls[k].last
    ensures Ledger(calls + [c], done + [runs], [], consumed, ch, len, step)
  {
    LogMore(calls, done, step, runs, c);
    PlainMore(done, runs);
    hide Logged, PlainAll, Packs;
    assert Plain([]) == [];
    assert PlainAll(done) + Plain(runs) + [] == PlainAll(done) + Plain(runs);
    forall k {:trigger (done + [runs])[k]} | 0 <= k < |done + [runs]| ensures Lengths((done + [runs])[k]) {
    }
  }

  lemma CurrentPacks(stored: seq<byte>, inUse: seq<bool>, crc: bv32, rs: seq<RunLength.Run>, step: (bv32, byte) -> bv32, c: Call)
    requires Current(stored, inUse, crc, rs, step) && c.bytes == stored && c.crc == Finalise(crc)
    ensures Packs(c, rs, step)
  {
    hide Stored, Plain, BlockOutput.FoldCrc;
  }

  lemma PacksIs(c: Call, rs: seq<RunLength.Run>, step: (bv32, byte) -> bv32)
    requires Packs(c, rs, step)
    ensures Runs(rs) && c.bytes == Stored(rs) && c.crc == Finalise(BlockOutput.FoldCrc(step, CRC_INIT, Plain(rs)))
  {
  }

  lemma CurrentUsed(stored: seq<byte>, inUse: seq<bool>, crc: bv32, rs: seq<RunLength.Run>, step: (bv32, byte) -> bv32)
    requires Current(stored, inUse, crc, rs, step)
    ensures |inUse| == 256 && ByteMap.AllUsed(inUse, stored)
  {
  }

  lemma SameFront(a: seq<byte>, b: seq<byte>, c: seq<byte>, d: seq<byte>)
    requires a + b == c + d && |a| == |c|
    ensures a == c && b == d
  {
    assert a == (a + b)[..|a|] && c == (c + d)[..|a|];
    assert b == (a + b)[|a|..] && d == (c + d)[|a|..];
  }

  lemma NothingWritten(level: nat, step: (bv32, byte) -> bv32)
    requires 1 <= level <= 9
    ensures BytesToBits([]) + [] == [] && Upto(BytesToBits([]) + [], level, [], step, 1)
    ensures CombinedCrc([]) == 0 && ItemsPlain([], []) && Lists([], [])
  {
  }

  class EState {
    const nblockMAX: int
    const step: (bv32, byte) -> bv32
    const level: nat
    const workFactor: int
    const w: BitWriter
    const block: array<byte>
    const used: array<bool>

    var mode: Mode
    var state: Phase
    var nblock: int
    var blockCRC: bv32
    var blockNo: nat
    var stateInCh: int
    var stateInLen: int
    var availInExpect: int
    var combinedCRC: bv32
    var zbits: seq<byte>
    var stateOutPos: int

    // The caller's buffers: bytes offered and room left, which the caller may change between
    // calls, and everything put into the output buffers so far.
    var nextIn: seq<byte>
    var availOut: nat
    var delivered: seq<byte>

    // What has passed through.
    ghost var runs: seq<RunLength.Run>
    var calls: seq<Call>
    ghost var done: seq<seq<RunLength.Run>>
    ghost var items: seq<Item>
    ghost var produced: seq<byte>
    ghost var consumed: seq<byte>
    ghost var promised: nat

    // ---- what holds between any two steps ----

    ghost predicate Sized()
      reads block, used
    {
      && 1 <= level <= 9 && nblockMAX == 100000 * level - 19 && block.Length >= nblockMAX + 19 && used.Length == 256
    }

    // The block under construction.
    ghost predicate Building()
      reads this`nblock, this`blockCRC, this`stateInCh, this`stateInLen, this`runs, block, used
    {
      && Sized() && 0 <= nblock <= block.Length
      && Current(block[..nblock], used[..], blockCRC, runs, step) && Pending(stateInCh, stateInLen, runs)
    }

    // Everything consumed is in a finished block, in the current one, or in the pending run.
    ghost predicate Accounted()
      reads this`calls, this`done, this`runs, this`consumed, this`stateInCh, this`stateInLen
    {
      Ledger(calls, done, runs, consumed, stateInCh, stateInLen, step)
    }

    // Everything the block compressor put out has been delivered or waits in zbits.
    ghost predicate Conserved()
      reads this`produced, this`delivered, this`zbits, this`stateOutPos
    {
      0 <= stateOutPos <= |zbits| && delivered + zbits[stateOutPos..] == produced
    }

    // What the block compressor put out, with the bits it still holds back, is the stream of
    // the finished blocks.
    ghost predicate Encoded()
      reads this`produced, this`calls, this`done, this`items, this`combinedCRC, w
    {
      && combinedCRC == CombinedCrc(items) && ItemsPlain(items, done) && Lists(items, calls)
      && (if Ended() then Complete(BytesToBits(produced), level, items, step)
          else w.Valid() && |w.Written()| <= 32 && Upto(BytesToBits(produced) + w.Written(), level, items, step, |calls| + 1))
    }

    // ---- adding symbols to the block ----

    method Put(c: byte)
      requires 0 <= nblock < block.Length
      modifies this`nblock, block
      ensures nblock == old(nblock) + 1 && block[..nblock] == old(block[..nblock]) + [c]
    {
      block[nblock] := c;
      nblock := nblock + 1;
    }

    method FoldRun(ch: byte, len: int)
      requires 0 <= len
      modifies this`blockCRC
      ensures blockCRC == BlockOutput.FoldCrc(step, old(blockCRC), Repeat(ch, len))
    {
      ghost var crc := blockCRC;
      FoldRepeat(step, crc, ch, 0);
      for i := 0 to len
        invariant blockCRC == BlockOutput.FoldCrc(step, crc, Repeat(ch, i))
      {
        FoldRepeat(step, crc, ch, i + 1);
        blockCRC := step(blockCRC, ch);
      }
    }

    method StoreBytes(ch: byte, len: int)
      requires Sized() && 1 <= len <= 255 && 0 <= nblock && nblock + 5 <= block.Length
      modifies this`nblock, block, used
      ensures nblock == old(nblock) + (if len < 4 then len else 5)
      ensures block[..nblock] == old(block[..nblock]) + PairBytes(RunLength.Run(ch, len))
      ensures used[..] == UseRun(old(used[..]), ch, len)
    {
      ghost var b := block[..nblock];
      used[ch] := true;
      if len == 1 {
        Put(ch);
        assert b + Repeat(ch, 1) == b + [ch];
      } else if len == 2 {
        Put(ch);
        Put(ch);
        assert b + Repeat(ch, 2) == b + [ch] + [ch];
      } else if len == 3 {
        Put(ch);
        Put(ch);
        Put(ch);
        assert b + Repeat(ch, 3) == b + [ch] + [ch] + [ch];
      } else {
        used[len - 4] := true;
        Put(ch);
        Put(ch);
        Put(ch);
        Put(ch);
        Put(len - 4);
        assert b + (Repeat(ch, 4) + [len - 4]) == b + [ch] + [ch] + [ch] + [ch] + [len - 4];
      }
    }

    // add_pair_to_block: the pending run is stored.
    method AddPairToBlock()
      requires Building() && Accounted() && nblock + 5 <= block.Length && stateInCh < 256
      modifies this`nblock, this`blockCRC, this`runs, block, used
      ensures Sized() && 0 <= nblock <= block.Length && Current(block[..nblock], used[..], blockCRC, runs, step)
      ensures runs == old(runs) + [RunLength.Run(stateInCh, stateInLen)]
      ensures Ledger(calls, done, runs, consumed, 256, 0, step)
      ensures nblock == old(nblock) + (if stateInLen < 4 then stateInLen else 5)
    {
      StoreRun(block[..nblock], used[..], blockCRC, runs, step, stateInCh, stateInLen);
      LedgerStore(calls, done, runs, consumed, stateInCh, stateInLen, step);
      hide *;
      FoldRun(stateInCh, stateInLen);
      StoreBytes(stateInCh, stateInLen);
      runs := runs + [RunLength.Run(stateInCh, stateInLen)];
    }

    // flush_RL
    method FlushRL()
      requires Building() && Accounted() && nblock + 5 <= block.Length
      modifies this`nblock, this`blockCRC, this`runs, this`stateInCh, this`stateInLen, block, used
      ensures Building() && Accounted() && stateInCh == 256 && stateInLen == 0
      ensures nblock == old(nblock) + (if old(stateInCh) == 256 then 0 else if old(stateInLen) < 4 then old(stateInLen) else 5)
    {
      if stateInCh < 256 {
        AddPairToBlock();
      }
      stateInCh := 256;
      stateInLen := 0;
    }

    // Storing a run of one symbol in line.
    method StoreSingle()
      requires Building() && Accounted() && nblock + 5 <= block.Length && stateInCh < 256 && stateInLen == 1
      modifies this`nblock, this`blockCRC, this`runs, block, used
      ensures Sized() && 0 <= nblock <= block.Length && Current(block[..nblock], used[..], blockCRC, runs, step)
      ensures runs == old(runs) + [RunLength.Run(stateInCh, stateInLen)]
      ensures Ledger(calls, done, runs, consumed, 256, 0, step) && nblock == old(nblock) + 1
    {
      StoreRun(block[..nblock], used[..], blockCRC, runs, step, stateInCh, stateInLen);
      LedgerStore(calls, done, runs, consumed, stateInCh, stateInLen, step);
      hide Current, Ledger, Pending, BlockOutput.FoldCrc;
      var ch: byte := stateInCh;
      FoldRepeat(step, blockCRC, ch, 1);
      FoldRepeat(step, blockCRC, ch, 0);
      assert Repeat(ch, 1) == [ch];
      blockCRC := step(blockCRC, ch);
      used[ch] := true;
      Put(ch);
      runs := runs + [RunLength.Run(ch, 1)];
    }

    // ADD_CHAR_TO_BLOCK
    method AddChar(c: byte)
      requires Building() && Accounted() && 0 <= nblock < nblockMAX && (stateInCh == 256 ==> runs == [])
      modifies this`nblock, this`blockCRC, this`runs, this`stateInCh, this`stateInLen, this`consumed, block, used
      ensures Building() && Accounted() && consumed == old(consumed) + [c] && stateInCh < 256
      ensures Bounded(nblock, nblockMAX, stateInCh, stateInLen)
    {
      hide Current, Ledger;
      if c != stateInCh && stateInLen == 1 {
        StoreSingle();
        LedgerBegin(calls, done, runs, consumed, c, step);
        consumed := consumed + [c];
        stateInCh := c;
      } else if c != stateInCh || stateInLen == 255 {
        if stateInCh < 256 {
          AddPairToBlock();
        }
        LedgerBegin(calls, done, runs, consumed, c, step);
        consumed := consumed + [c];
        stateInCh := c;
        stateInLen := 1;
      } else {
        LedgerExtend(calls, done, runs, consumed, c, stateInLen, step);
        consumed := consumed + [c];
        stateInLen := stateInLen + 1;
      }
    }

    // ---- the state machine ----

    // No run is pending.
    predicate EmptyRL()
      reads this`stateInCh, this`stateInLen
    {
      !(stateInCh < 256 && stateInLen > 0)
    }

    ghost predicate Ended()
      reads this`calls
    {
      calls != [] && calls[|calls| - 1].last
    }

    // arr2 holds 100000 * level + 34 words of four bytes; zbits lies behind the block in it.
    ghost predicate Fitting()
      reads this`nblock, this`zbits
    {
      nblock + |zbits| <= 4 * (100000 * level + 34)
    }

    // The block side: filling a block, or a block handed over whose run, if any, waits for
    // the next one.
    ghost predicate BlockSide()
      reads this`state, this`nblock, this`blockCRC, this`stateInCh, this`stateInLen, this`runs, this`zbits, block, used
    {
      && Sized() && 0 <= nblock <= nblockMAX + 5 && Pending(stateInCh, stateInLen, runs)
      && (state.Input? ==> Building() && nblock < nblockMAX && (stateInCh == 256 ==> runs == []))
      && (state.Output? ==> runs == [] && Fitting())
    }

    // The control side: a block handed over without a pending run ends a flush or the
    // stream, and only the stream's last block is marked last.
    ghost predicate ControlSide()
      reads this`mode, this`state, this`stateInCh, this`availInExpect, this`calls, this`promised, this`consumed
    {
      && availInExpect >= 0
      && (Ended() ==> (mode.Finishing? || mode.Idle?) && state.Output? && stateInCh == 256 && availInExpect == 0)
      && (mode.Idle? ==> Ended())
      && (state.Output? && stateInCh == 256 ==> Ended() || (mode.Flushing? && availInExpect == 0))
      && (!mode.Running? ==> |consumed| + availInExpect == promised)
    }

    ghost predicate OutputSide()
      reads this`state, this`zbits, this`stateOutPos, this`calls, this`delivered, this`produced, this`done, this`items, this`combinedCRC, this`blockNo, w
    {
      && Conserved() && Encoded() && blockNo == |calls| + (if state.Input? then 1 else 0)
      && (state.Input? ==> zbits == [] && stateOutPos == 0)
    }

    ghost predicate Valid()
      reads this, block, used, w
    {
      BlockSide() && Accounted() && OutputSide() && ControlSide()
    }

    // Bytes taken from the caller so far and still offered.
    ghost predicate TakenFrom(c0: seq<byte>, in0: seq<byte>)
      reads this`consumed, this`nextIn
    {
      consumed + nextIn == c0 + in0 && |c0| <= |consumed|
    }

    ghost predicate GivenTo(d0: seq<byte>, out0: nat)
      reads this`delivered, this`availOut
    {
      d0 <= delivered && |delivered| + availOut == |d0| + out0
    }

    constructor (blockSize100k: nat, effort: int, fold: (bv32, byte) -> bv32)
      requires 1 <= blockSize100k <= 9
      ensures Valid() && mode.Running? && consumed == [] && delivered == [] && calls == [] && fresh(w) && fresh(block) && fresh(used)
      ensures level == blockSize100k && step == fold && nextIn == [] && Settled()
    {
      hide Current, Ledger, Logged, BlockOutput.FoldCrc, Stored, Plain, Runs, Upto, Complete, BitWriter.Valid, BitWriter.Written, BytesToBits, Lists;
      var writer := new BitWriter();
      level, workFactor, step := blockSize100k, effort, fold;
      nblockMAX := 100000 * blockSize100k - 19;
      w := writer;
      block, used := new byte[100000 * blockSize100k], new bool[256](i => false);
      mode, state := Running, Input;
      nblock, blockCRC, blockNo, combinedCRC := 0, CRC_INIT, 1, 0;
      stateInCh, stateInLen, availInExpect := 256, 0, 0;
      zbits, stateOutPos := [], 0;
      nextIn, availOut := [], 0;
      runs, calls, done, consumed, delivered, promised := [], [], [], [], [], 0;
      items, produced := [], [];
      new;
      assert block[..0] == [];
      CurrentEmpty(step, used[..]);
      LedgerStart(step);
      NothingWritten(level, step);
    }

    // One symbol moves from the caller into the block.
    method TakeOne()
      requires Building() && Accounted() && 0 <= nblock < nblockMAX && (stateInCh == 256 ==> runs == []) && nextIn != []
      modifies this`nblock, this`blockCRC, this`runs, this`stateInCh, this`stateInLen, this`consumed, this`nextIn, block, used
      ensures Building() && Accounted() && stateInCh < 256 && Bounded(nblock, nblockMAX, stateInCh, stateInLen)
      ensures nextIn == old(nextIn)[1..] && consumed == old(consumed) + [old(nextIn)[0]]
    {
      hide *;
      AddChar(nextIn[0]);
      nextIn := nextIn[1..];
    }

    // copy_input_until_stop
    method CopyInput() returns (progress: bool)
      requires Building() && Accounted() && 0 <= nblock < nblockMAX && (stateInCh == 256 ==> runs == []) && availInExpect >= 0
      requires !mode.Running? ==> availInExpect == |nextIn|
      modifies this`nblock, this`blockCRC, this`runs, this`stateInCh, this`stateInLen, this`consumed, this`nextIn,
               this`availInExpect, block, used
      ensures Building() && Accounted() && (stateInCh == 256 ==> runs == [])
      ensures Bounded(nblock, nblockMAX, stateInCh, stateInLen)
      ensures TakenFrom(old(consumed), old(nextIn)) && (progress <==> |consumed| > |old(consumed)|)
      ensures nblock >= nblockMAX || nextIn == []
      ensures !mode.Running? ==> availInExpect == |nextIn|
      ensures mode.Running? ==> availInExpect == old(availInExpect)
      ensures |consumed| + |nextIn| == |old(consumed)| + |old(nextIn)|
      ensures old(stateInCh) < 256 || progress ==> stateInCh < 256
      ensures !progress ==> nblock == old(nblock)
    {
      ghost var c0, in0 := consumed, nextIn;
      hide Current, Ledger;
      progress := false;
      if mode == Running {
        while true
          invariant Building() && Accounted() && (stateInCh == 256 ==> runs == []) && Bounded(nblock, nblockMAX, stateInCh, stateInLen)
          invariant consumed + nextIn == c0 + in0 && |c0| <= |consumed| && (progress <==> |consumed| > |c0|)
          invariant (old(stateInCh) < 256 || progress ==> stateInCh < 256) && (!progress ==> nblock == old(nblock))
          invariant availInExpect == old(availInExpect)
          decreases |nextIn|
        {
          if nblock >= nblockMAX { break; }
          if |nextIn| == 0 { break; }
          progress := true;
          TakeOne();
        }
      } else {
        while true
          invariant Building() && Accounted() && (stateInCh == 256 ==> runs == []) && Bounded(nblock, nblockMAX, stateInCh, stateInLen)
          invariant consumed + nextIn == c0 + in0 && |c0| <= |consumed| && (progress <==> |consumed| > |c0|)
          invariant (old(stateInCh) < 256 || progress ==> stateInCh < 256) && (!progress ==> nblock == old(nblock))
          invariant availInExpect == |nextIn|
          decreases |nextIn|
        {
          if nblock >= nblockMAX { break; }
          if |nextIn| == 0 { break; }
          if availInExpect == 0 { break; }
          progress := true;
          TakeOne();
          availInExpect := availInExpect - 1;
        }
      }
      assert |consumed + nextIn| == |c0 + in0|;
    }

    // copy_output_until_stop
    method CopyOutput() returns (progress: bool)
      requires Conserved()
      modifies this`delivered, this`availOut, this`stateOutPos
      ensures Conserved() && GivenTo(old(delivered), old(availOut)) && (progress <==> |delivered| > |old(delivered)|)
      ensures availOut == 0 || stateOutPos >= |zbits|
    {
      ghost var d0 := delivered;
      progress := false;
      while true
        invariant Conserved() && d0 <= delivered && |delivered| + availOut == |d0| + old(availOut)
        invariant progress <==> |delivered| > |d0|
        decreases availOut
      {
        if availOut == 0 { break; }
        if stateOutPos >= |zbits| { break; }
        progress := true;
        assert zbits[stateOutPos..] == [zbits[stateOutPos]] + zbits[stateOutPos + 1..];
        assert delivered + zbits[stateOutPos..] == delivered + [zbits[stateOutPos]] + zbits[stateOutPos + 1..];
        delivered := delivered + [zbits[stateOutPos]];
        stateOutPos := stateOutPos + 1;
        availOut := availOut - 1;
      }
    }

    // The block goes to the block compressor, whose bytes are put up for delivery.
    method SendBlock(c: Call)
      requires Building() && OutputSide() && state.Input? && !Ended() && nblock <= nblockMAX + 5 && c.bytes == block[..nblock] && Packs(c, runs, step)
      modifies this`zbits, this`items, this`combinedCRC, this`produced, w
      ensures stateOutPos == 0 && Conserved() && Grown(old(items), items, runs) && combinedCRC == CombinedCrc(items)
      ensures if c.last then Complete(BytesToBits(produced), level, items, step)
              else w.Valid() && |w.Written()| <= 32 && Upto(BytesToBits(produced) + w.Written(), level, items, step, |calls| + 2)
      ensures Fitting() && (c.last ==> stateOutPos < |zbits|)
    {
      hide Current, Packs, Upto, Complete, BitWriter.Valid, BitWriter.Written, BytesToBits, ItemsPlain, Lists, Grown, CombinedCrc, Runs, Stored, Plain,
           BlockOutput.FoldCrc, Finalise, ByteMap.AllUsed;
      PacksIs(c, runs, step);
      CurrentUsed(block[..nblock], used[..], blockCRC, runs, step);
      ghost var before := produced;
      assert zbits[stateOutPos..] == [];
      assert delivered + [] == delivered;
      var z, combined;
      ghost var more;
      z, combined, more := StreamFormat.CompressBlock(w, c.bytes, used[..], c.crc, blockNo, c.last, level, workFactor, combinedCRC,
                                                      BytesToBits(produced), items, runs, step);
      BytesConcat(before, z);
      items := more;
      combinedCRC := combined;
      produced := produced + z;
      zbits := z;
      assert zbits[stateOutPos..] == zbits;
    }

    method CloseBlock(last: bool)
      requires Building() && Accounted() && OutputSide() && state.Input? && !Ended() && nblock <= nblockMAX + 5
      modifies this`calls, this`done, this`runs, this`zbits, this`state, this`items, this`combinedCRC, this`produced, w
      ensures Accounted() && OutputSide() && state.Output? && runs == [] && Pending(stateInCh, stateInLen, runs)
      ensures (Ended() <==> last) && Fitting() && (last ==> stateOutPos < |zbits|)
      ensures |calls| == |old(calls)| + 1 && calls == old(calls) + [calls[|old(calls)|]] && |calls[|old(calls)|].bytes| == nblock
    {
      hide Current, Ledger, Packs, Upto, Complete, BitWriter.Valid, BitWriter.Written, BytesToBits, ItemsPlain, Lists, Grown, CombinedCrc, Conserved,
           Stored;
      var c := Call(block[..nblock], Finalise(blockCRC), last);
      CurrentPacks(block[..nblock], used[..], blockCRC, runs, step, c);
      NoneLast();
      LedgerClose(calls, done, runs, consumed, stateInCh, stateInLen, step, c);
      ghost var items0 := items;
      SendBlock(c);
      ItemsPlainMore(items0, items, done, runs);
      PacksIs(c, runs, step);
      ListsMore(items0, items, calls, c, runs);
      done := done + [runs];
      runs := [];
      calls := calls + [c];
      state := Output;
    }

    lemma NoneLast()
      requires Accounted() && !Ended()
      ensures forall k :: 0 <= k < |calls| ==> !calls[k].last
    {
      hide Packs, PlainAll, Lengths;
    }

    method ClearUsed()
      requires used.Length == 256
      modifies used
      ensures forall c :: 0 <= c < 256 ==> !used[c]
    {
      for i := 0 to 256
        invariant forall c :: 0 <= c < i ==> !used[c]
      {
        used[i] := false;
      }
    }

    // prepare_new_block
    method PrepareNewBlock()
      requires Sized() && OutputSide() && state.Output? && stateOutPos >= |zbits| && runs == [] && Pending(stateInCh, stateInLen, [])
      modifies this`nblock, this`zbits, this`stateOutPos, this`blockCRC, this`blockNo, this`state, used
      ensures Building() && OutputSide() && state.Input? && nblock == 0
    {
      hide Current, Encoded;
      assert zbits[stateOutPos..] == [];
      nblock := 0;
      zbits := [];
      stateOutPos := 0;
      blockCRC := CRC_INIT;
      ClearUsed();
      blockNo := blockNo + 1;
      state := Input;
      assert block[..0] == [];
      CurrentEmpty(step, used[..]);
    }

    // Whether the machine rests in a block just handed over.
    ghost function Rank(): nat
      reads this`state
    {
      if state.Input? then 1 else 0
    }

    ghost function Waiting(): nat
      reads this`stateInCh
    {
      if stateInCh == 256 then 0 else 1
    }

    // A block that has been handed over still has bytes to deliver.
    ghost predicate Stocked()
      reads this`mode, this`state, this`stateOutPos, this`zbits
    {
      state.Output? && !mode.Idle? ==> stateOutPos < |zbits|
    }

    // Between calls a flush or finish is left only with bytes to deliver.
    ghost predicate Settled()
      reads this`mode, this`state, this`stateOutPos, this`zbits
    {
      Stocked() && (mode.Flushing? || mode.Finishing? ==> state.Output?)
    }

    // All that was promised for a flush or finish has been taken.
    ghost predicate Sealed()
      reads this`mode, this`availInExpect, this`stateInCh
    {
      !mode.Running? && availInExpect == 0 && stateInCh == 256
    }

    // ... and handed over.
    ghost predicate Closing()
      reads this`mode, this`availInExpect, this`stateInCh, this`state
    {
      Sealed() && state.Output?
    }

    // A flush has been begun and some of its input not yet been handed over.
    ghost predicate Owing()
      reads this`mode, this`availInExpect, this`stateInCh
    {
      mode.Flushing? && !Sealed()
    }

    // A finish can be begun, or be continued with what is on offer.
    ghost predicate Finishable()
      reads this`mode, this`availInExpect, this`nextIn
    {
      mode.Running? || (mode.Finishing? && availInExpect == |nextIn|)
    }

    // How a call leaves the machine: waiting for input, out of room with bytes still to
    // deliver, or, in a flush or finish, with everything delivered.
    ghost predicate AtRest()
      reads this`mode, this`availInExpect, this`stateInCh, this`stateOutPos, this`zbits, this`availOut, this`state, this`calls, this`nextIn
    {
      if mode.Running? then if state.Input? then nextIn == [] else availOut == 0 && stateOutPos < |zbits|
      else
        if availInExpect > 0 || stateInCh < 256 || stateOutPos < |zbits| then availOut == 0 && stateOutPos < |zbits|
        else if mode.Finishing? then Ended() && state.Output?
        else state.Input?
    }

    // The part of handle_compress that runs while output waits.
    method OutputStep() returns (stop: bool, progress: bool)
      requires Valid() && state.Output? && !mode.Idle?
      requires !mode.Running? ==> availInExpect == |nextIn|
      modifies this`delivered, this`availOut, this`stateOutPos, this`nblock, this`zbits, this`blockCRC, this`blockNo, this`state, used
      ensures Valid() && GivenTo(old(delivered), old(availOut)) && (progress <==> |delivered| > |old(delivered)|)
      ensures stop ==> AtRest()
      ensures !stop ==> state.Input? && (!mode.Running? && availInExpect == 0 ==> stateInCh < 256)
      ensures old(Stocked()) ==> progress || (stop && Stocked())
    {
      hide Current, Ledger, Logged, Encoded;
      progress := CopyOutput();
      stop := false;
      if stateOutPos < |zbits| {
        stop := true;
        return;
      }
      if mode == Finishing && availInExpect == 0 && EmptyRL() {
        stop := true;
        return;
      }
      PrepareNewBlock();
      if mode == Flushing && availInExpect == 0 && EmptyRL() {
        stop := true;
        return;
      }
    }

    // The part that runs while a block is being filled.
    method InputStep() returns (stop: bool, progress: bool)
      requires Valid() && state.Input? && !mode.Idle?
      requires !mode.Running? ==> availInExpect == |nextIn|
      modifies this`nblock, this`blockCRC, this`runs, this`stateInCh, this`stateInLen, this`consumed, this`nextIn,
               this`availInExpect, this`calls, this`done, this`zbits, this`state, this`items, this`combinedCRC, this`produced, block, used, w
      ensures Valid() && TakenFrom(old(consumed), old(nextIn)) && (progress <==> |consumed| > |old(consumed)|)
      ensures !mode.Running? ==> availInExpect == |nextIn|
      ensures stop ==> AtRest()
      ensures !stop ==> state.Output?
      ensures !stop && !progress ==> !mode.Running? && availInExpect == 0 && stateInCh == 256
      ensures mode.Finishing? ==> progress || Stocked()
      ensures Filled(old(calls), calls, nblockMAX, Closing()) && old(calls) <= calls && (calls == old(calls) ==> produced == old(produced))
    {
      hide Building, BlockSide, OutputSide, ControlSide, Accounted, Ended, Bounded, Fitting, Filled;
      ghost var total, calls0 := |consumed| + |nextIn|, calls;
      InputOpen();
      progress := CopyInput();
      stop := false;
      RoomLeft();
      if mode != Running && availInExpect == 0 {
        FlushRL();
        CloseBlock(mode == Finishing);
        FilledOne(calls0, calls[|calls0|], nblockMAX, Closing());
        ClosedControl(mode == Finishing, total);
        ClosedBlock();
      } else if nblock >= nblockMAX {
        CloseBlock(false);
        FilledOne(calls0, calls[|calls0|], nblockMAX, Closing());
        ClosedControl(false, total);
        ClosedBlock();
      } else if |nextIn| == 0 {
        stop := true;
        OpenAgain(total);
        FilledNone(calls, nblockMAX, Closing());
      }
    }

    // What filling the block may rely on.
    lemma InputOpen()
      requires Valid() && state.Input? && !mode.Idle?
      ensures Building() && Accounted() && OutputSide() && !Ended() && 0 <= nblock < nblockMAX && (stateInCh == 256 ==> runs == []) && availInExpect >= 0
      ensures !mode.Running? ==> |consumed| + availInExpect == promised
    {
      hide Current, Ledger, Conserved, Encoded;
    }

    lemma RoomLeft()
      requires Building() && Bounded(nblock, nblockMAX, stateInCh, stateInLen)
      ensures Sized() && 0 <= nblock <= nblockMAX + 4 && nblock + 5 <= block.Length && (nblock >= nblockMAX ==> stateInCh < 256 && stateInLen == 1)
      ensures stateInCh == 256 || (0 <= stateInCh < 256 && 1 <= stateInLen <= 255)
    {
      hide Current;
    }

    // The control side once a block has been handed over ...
    lemma ClosedControl(last: bool, total: nat)
      requires state.Output? && !mode.Idle? && (Ended() <==> last) && availInExpect >= 0 && |consumed| + |nextIn| == total
      requires last ==> mode.Finishing? && stateInCh == 256 && availInExpect == 0
      requires stateInCh == 256 ==> last || (mode.Flushing? && availInExpect == 0)
      requires !mode.Running? ==> availInExpect == |nextIn| && total == promised
      ensures ControlSide()
    {
      hide Ended;
    }

    // ... and the block side.
    lemma ClosedBlock()
      requires Sized() && state.Output? && 0 <= nblock <= nblockMAX + 5 && Pending(stateInCh, stateInLen, runs) && runs == [] && Fitting()
      ensures BlockSide()
    {
    }

    // Everything on offer has been taken and the block has room for more.
    lemma OpenAgain(total: nat)
      requires Building() && state.Input? && !mode.Idle? && !Ended() && 0 <= nblock < nblockMAX && (stateInCh == 256 ==> runs == []) && availInExpect >= 0
      requires |consumed| + |nextIn| == total && (!mode.Running? ==> availInExpect == |nextIn| && total == promised)
      ensures BlockSide() && ControlSide()
    {
      hide Current, Ended;
    }

    // Once around the loop of handle_compress.
    method OneRound() returns (stop: bool, progress: bool)
      requires Valid() && !mode.Idle?
      requires !mode.Running? ==> availInExpect == |nextIn|
      modifies this, block, used, w
      ensures Valid() && mode == old(mode) && promised == old(promised)
      ensures TakenFrom(old(consumed), old(nextIn)) && GivenTo(old(delivered), old(availOut))
      ensures progress <==> |consumed| > |old(consumed)| || |delivered| > |old(delivered)|
      ensures !mode.Running? ==> availInExpect == |nextIn|
      ensures stop ==> AtRest()
      ensures !stop ==> |nextIn| < |old(nextIn)| || (|nextIn| == |old(nextIn)| && Waiting() < old(Waiting()))
                        || (|nextIn| == |old(nextIn)| && Waiting() == old(Waiting()) && Rank() < old(Rank()))
      ensures mode.Finishing? && old(Stocked()) ==> progress || Stocked()
      ensures Filled(old(calls), calls, nblockMAX, Closing()) && old(calls) <= calls && (calls == old(calls) ==> produced == old(produced))
      ensures old(Closing()) ==> stop && calls == old(calls) && Sealed()
    {
      hide Valid, AtRest, BlockSide, Accounted, OutputSide, ControlSide, Filled;
      stop, progress := false, false;
      var p;
      FilledNone(calls, nblockMAX, true);
      FilledNone(calls, nblockMAX, false);
      if state == Output {
        stop, progress := OutputStep();
      }
      if state == Input && !stop {
        stop, p := InputStep();
        progress := progress || p;
      }
    }

    method HandleCompress() returns (progress: bool)
      requires Valid() && !mode.Idle?
      requires !mode.Running? ==> availInExpect == |nextIn|
      modifies this, block, used, w
      ensures Valid() && mode == old(mode) && promised == old(promised)
      ensures TakenFrom(old(consumed), old(nextIn)) && GivenTo(old(delivered), old(availOut))
      ensures progress <==> |consumed| > |old(consumed)| || |delivered| > |old(delivered)|
      ensures !progress ==> consumed == old(consumed) && delivered == old(delivered)
      ensures !mode.Running? ==> availInExpect == |nextIn|
      ensures AtRest()
      ensures mode.Finishing? && old(Stocked()) ==> progress || (Stocked() && old(availOut) == 0)
      ensures Filled(old(calls), calls, nblockMAX, Sealed()) && old(calls) <= calls && (calls == old(calls) ==> produced == old(produced))
      ensures old(Closing()) ==> calls == old(calls) && Sealed()
    {
      hide Valid, AtRest, BlockSide, Accounted, OutputSide, ControlSide, Filled;
      ghost var c0, in0, d0, out0 := consumed, nextIn, delivered, availOut;
      FilledNone(calls, nblockMAX, Sealed() && state.Output?);
      progress := false;
      var stop := false;
      while !stop
        invariant Valid() && mode == old(mode) && !mode.Idle? && promised == old(promised)
        invariant TakenFrom(c0, in0) && GivenTo(d0, out0)
        invariant progress <==> |consumed| > |c0| || |delivered| > |d0|
        invariant !mode.Running? ==> availInExpect == |nextIn|
        invariant stop ==> AtRest()
        invariant mode.Finishing? && old(Stocked()) ==> progress || Stocked()
        invariant Filled(old(calls), calls, nblockMAX, Sealed() && (stop || state.Output?))
        invariant old(calls) <= calls && (calls == old(calls) ==> produced == old(produced))
        invariant old(Closing()) ==> calls == old(calls) && Sealed() && (stop || state.Output?)
        decreases !stop, |nextIn|, Waiting(), Rank()
      {
        var p;
        ghost var calls', closing := calls, Closing();
        stop, p := OneRound();
        progress := progress || p;
        if !closing {
          FilledThen(old(calls), calls', calls, nblockMAX, Closing(), Sealed() && (stop || state.Output?));
        }
      }
      if |consumed| == |c0| {
        SameFront(consumed, nextIn, c0, in0);
      }
      if mode == Finishing && !progress && Stocked() {
        RestWaits();
      }
    }

    // Bytes are left waiting only for want of room.
    lemma RestWaits()
      requires Valid() && AtRest() && mode.Finishing? && Stocked()
      ensures availOut == 0
    {
      hide BlockSide, Accounted, Conserved, Encoded;
    }

    // Every byte consumed is in a finished block, and every byte put out is delivered.
    ghost predicate Drained()
      reads this`done, this`consumed, this`delivered, this`items, this`produced
    {
      ItemsPlain(items, done) && consumed == PlainItems(items) && delivered == produced
    }

    lemma DrainedNow()
      requires Valid() && stateInCh == 256 && stateOutPos >= |zbits| && runs == []
      ensures Drained()
    {
      hide Logged, BlockSide, Upto, Complete;
      assert Plain([]) == [];
      assert PlainAll(done) + [] + [] == PlainAll(done);
      assert delivered + [] == delivered;
    }

    // The input consumed is what the finished blocks decode to, then the runs of the block
    // under construction, then the pending run.
    lemma InputIsDecodable(g: byte)
      requires Valid()
      ensures Lengths(runs) && consumed == DecodeAll(calls, g).bytes + Plain(runs) + PendingBytes(stateInCh, stateInLen)
      ensures !DecodeAll(calls, g).corrupt && 0 <= nblock <= nblockMAX + 5
    {
      hide Plain, Packs;
      LogDecodes(calls, done, step, g);
    }

    // Blocks are few: those handed over before they were full apart, each has taken its share
    // of the input.
    lemma BlocksFew()
      requires Valid()
      ensures |items| <= |calls| && nblockMAX >= 0 && 4 * (nblockMAX * (|calls| - Shorts(calls, nblockMAX))) <= 5 * |consumed|
    {
      hide BlockSide, ControlSide, Conserved, Packs, Lengths, Upto, Complete, CombinedCrc, ItemsPlain, Shorts, Lists, PlainAll, Plain;
      ListsFew(items, calls);
      AtLeast();
      FullShare(calls, done, step, nblockMAX);
    }

    lemma AtLeast()
      requires BlockSide()
      ensures nblockMAX >= 0
    {
    }

    lemma RestDrained()
      requires Valid() && AtRest() && !mode.Running? && EmptyRL() && availInExpect == 0 && stateOutPos >= |zbits|
      ensures Drained() && stateInCh == 256
    {
      hide Logged, Current, Conserved, Ledger;
      assert stateInCh == 256;
      DrainedNow();
    }

    // Once the last block is out and everything has been delivered, the caller holds a
    // complete stream for exactly the input consumed.
    lemma StreamIsComplete()
      requires Valid() && Drained() && Ended()
      ensures Complete(BytesToBits(delivered), level, items, step)
      ensures (forall k :: 0 <= k < |items| ==> Runs(items[k].rs)) && consumed == PlainItems(items)
    {
      hide BlockSide, Accounted, ControlSide, Complete, Upto, PlainItems, Runs;
    }

    lemma EmptyIsNone()
      requires Valid()
      ensures EmptyRL() <==> stateInCh == 256
    {
      hide Accounted, OutputSide, ControlSide;
    }

    // A flush or finish begins by promising what is on offer.
    method Promise(m: Mode)
      requires Valid() && Settled() && mode.Running? && (m.Flushing? || m.Finishing?)
      modifies this`mode, this`availInExpect, this`promised
      ensures Valid() && Stocked() && mode == m && availInExpect == |nextIn| && promised == |consumed| + |nextIn|
    {
      hide BlockSide, Accounted, OutputSide;
      availInExpect := |nextIn|;
      mode := m;
      promised := |consumed| + |nextIn|;
    }

    // What has been delivered is bounded by what has been consumed.
    lemma DeliveredShort()
      requires Valid()
      ensures 8 * |delivered| <= StreamRoom(|consumed|)
    {
      hide BlockSide, Logged, ControlSide, Upto, Complete, PlainAll, Plain, Lengths, CombinedCrc, BitWriter.Valid, BitWriter.Written, PlainItems, Runs;
      if Ended() {
        CompleteShort(BytesToBits(produced), level, items, step);
      } else {
        UptoShort(BytesToBits(produced) + w.Written(), level, items, step, |calls| + 1);
      }
    }

    // BZ2_bzCompress
    method Compress(action: Action) returns (ret: Ret)
      requires Valid() && Settled()
      modifies this, block, used, w
      ensures Valid() && Settled() && TakenFrom(old(consumed), old(nextIn)) && GivenTo(old(delivered), old(availOut))
      ensures old(mode).Idle? ==> ret == SequenceError
      ensures ret == ParamError || ret == SequenceError ==> consumed == old(consumed) && delivered == old(delivered)
      ensures action.Run? && old(mode).Running? ==> mode.Running? && (ret == RunOk || ret == ParamError)
      ensures ret == ParamError <==>
                old(mode).Running? && (action.Other? || (action.Run? && consumed == old(consumed) && delivered == old(delivered)))
      ensures ret == SequenceError <==>
                old(mode).Idle? || (old(mode).Flushing? && !(action.Flush? && old(availInExpect) == |old(nextIn)|))
                || (old(mode).Finishing? && !(action.Finish? && old(availInExpect) == |old(nextIn)|))
                || (action.Finish? && !old(mode).Flushing? && consumed == old(consumed) && delivered == old(delivered))
      ensures action.Finish? && old(Finishable()) ==> ret == StreamEnd || Finishable()
      ensures action.Finish? && old(Finishable()) && old(availOut) > 0 ==> ret == FinishOk || ret == StreamEnd
      ensures ret == RunOk && action == Flush ==> Drained() && nextIn == [] && !Ended()
      ensures ret == StreamEnd ==> Drained() && nextIn == [] && Ended() && mode.Idle? && |consumed| == promised
      ensures ret == FlushOk || ret == FinishOk ==> availOut == 0 && |delivered| < |produced|
      ensures action.Run? && old(mode).Running? ==> nextIn == [] || availOut == 0
      ensures action.Run? || action.Other? ==> Filled(old(calls), calls, nblockMAX, false)
      ensures action.Flush? ==> Filled(old(calls), calls, nblockMAX, !Owing())
      ensures action.Flush? && !old(mode).Running? && !old(Owing()) ==> calls == old(calls)
      ensures action.Finish? ==> Filled(old(calls), calls, nblockMAX, Ended())
      ensures old(Ended()) ==> calls == old(calls)
      ensures calls == old(calls) ==> produced == old(produced)
      ensures Owing() ==> old(Owing()) || (action.Flush? && old(mode).Running?)
    {
      hide Valid, BlockSide, Accounted, OutputSide, ControlSide, Drained, EmptyRL, Filled;
      FilledAll();
      if Ended() {
        EndedMode();
      }
      if mode == Idle {
        return SequenceError;
      }
      if mode == Running {
        if action.Run? {
          var progress := HandleCompress();
          return if progress then RunOk else ParamError;
        } else if action == Flush {
          Promise(Flushing);
        } else if action == Finish {
          Promise(Finishing);
        } else {
          return ParamError;
        }
      }
      if mode == Flushing {
        ret := ContinueFlush(action);
      } else {
        ret := ContinueFinish(action);
      }
    }

    lemma FilledAll()
      ensures Filled(calls, calls, nblockMAX, true) && Filled(calls, calls, nblockMAX, false)
    {
    }

    lemma EndedMode()
      requires Valid() && Ended()
      ensures mode.Idle? || (mode.Finishing? && Closing())
    {
      hide BlockSide, Accounted, OutputSide;
    }

    method ContinueFlush(action: Action) returns (ret: Ret)
      requires Valid() && Stocked() && mode.Flushing? && (state.Output? || (action == Flush && availInExpect == |nextIn|))
      modifies this, block, used, w
      ensures Valid() && Settled() && TakenFrom(old(consumed), old(nextIn)) && GivenTo(old(delivered), old(availOut))
      ensures ret == SequenceError ==> consumed == old(consumed) && delivered == old(delivered)
      ensures if action.Flush? && old(availInExpect) == |old(nextIn)| then ret == RunOk || ret == FlushOk else ret == SequenceError
      ensures ret == RunOk ==> action == Flush && Drained() && nextIn == [] && !Ended()
      ensures ret == FlushOk ==> availOut == 0 && |delivered| < |produced|
      ensures Filled(old(calls), calls, nblockMAX, action.Flush? && !Owing())
      ensures old(calls) <= calls && (calls == old(calls) ==> produced == old(produced))
      ensures action.Flush? || (calls == old(calls) && Owing() == old(Owing()))
      ensures old(Closing()) ==> calls == old(calls) && !Owing()
    {
      hide BlockSide, Accounted, OutputSide, Drained, Filled;
      FilledAll();
      if action != Flush {
        return SequenceError;
      }
      if availInExpect != |nextIn| {
        return SequenceError;
      }
      var progress := HandleCompress();
      EmptyIsNone();
      if availInExpect > 0 || !EmptyRL() || stateOutPos < |zbits| {
        WaitingIsOutput();
        return FlushOk;
      }
      RestDrained();
      mode := Running;
      return RunOk;
    }

    lemma WaitingIsOutput()
      requires Valid() && AtRest()
      ensures !mode.Running? && stateOutPos < |zbits| ==> state.Output?
      ensures mode.Finishing? ==> state.Output? && (Sealed() ==> Ended())
      ensures stateOutPos < |zbits| ==> |delivered| < |produced|
    {
      hide BlockSide, Accounted, Encoded;
    }

    method ContinueFinish(action: Action) returns (ret: Ret)
      requires Valid() && Stocked() && mode.Finishing? && (state.Output? || (action == Finish && availInExpect == |nextIn|))
      modifies this, block, used, w
      ensures Valid() && Settled() && TakenFrom(old(consumed), old(nextIn)) && GivenTo(old(delivered), old(availOut))
      ensures ret == StreamEnd || ret == FinishOk || ret == SequenceError
      ensures ret == SequenceError ==> consumed == old(consumed) && delivered == old(delivered)
      ensures action != Finish ==> ret == SequenceError
      ensures action == Finish && old(Finishable()) ==> ret == StreamEnd || Finishable()
      ensures action == Finish && old(Finishable()) && old(availOut) > 0 ==> ret != SequenceError
      ensures ret == StreamEnd ==> Drained() && nextIn == [] && Ended() && mode.Idle? && |consumed| == promised
      ensures ret == FinishOk ==> availOut == 0 && |delivered| < |produced|
      ensures ret == SequenceError <==>
                !action.Finish? || old(availInExpect) != |old(nextIn)| || (consumed == old(consumed) && delivered == old(delivered))
      ensures Filled(old(calls), calls, nblockMAX, action.Finish? && Ended())
      ensures old(calls) <= calls && (calls == old(calls) ==> produced == old(produced))
      ensures action.Finish? || calls == old(calls)
      ensures (old(Ended()) ==> calls == old(calls)) && !Owing()
    {
      hide BlockSide, Accounted, OutputSide, Drained, Filled;
      FilledAll();
      if Ended() {
        EndedMode();
      }
      if action != Finish {
        return SequenceError;
      }
      if availInExpect != |nextIn| {
        return SequenceError;
      }
      var progress := HandleCompress();
      WaitingIsOutput();
      if !progress {
        return SequenceError;
      }
      EmptyIsNone();
      if availInExpect > 0 || !EmptyRL() || stateOutPos < |zbits| {
        return FinishOk;
      }
      RestDrained();
      mode := Idle;
      return StreamEnd;
    }
  }
}
