// The header-bit table of fallbackSort and its word-at-a-time scans.  A cell is one bit;
// 32 consecutive cells starting at a multiple of 32 are one word.
module BitTable {

  // WORD_BH(k) is all ones (v true) or all zeros (v false).
  predicate WordIs(bh: seq<bool>, k: int, v: bool)
    requires 0 <= k && k / 32 * 32 + 32 <= |bh|
  {
    forall i :: k / 32 * 32 <= i < k / 32 * 32 + 32 ==> bh[i] == v
  }

  // The next position from k on whose bit is not v, found bit by bit up to a word
  // boundary, then word by word, then bit by bit.  A sentinel at stop ends every scan.
  method Skip(bh: array<bool>, k0: int, v: bool, ghost stop: int) returns (k: int)
    requires 0 <= k0 <= stop && stop / 32 * 32 + 32 <= bh.Length && bh[stop] != v
    ensures k0 <= k <= stop && bh[k] != v
    ensures forall i :: k0 <= i < k ==> bh[i] == v
  {
    k := k0;
    while bh[k] == v && k % 32 != 0
      invariant k0 <= k <= stop
      invariant forall i :: k0 <= i < k ==> bh[i] == v
      decreases stop - k
    {
      k := k + 1;
    }
    if bh[k] == v {
      while WordIs(bh[..], k, v)
        invariant k0 <= k <= stop && k % 32 == 0
        invariant forall i :: k0 <= i < k ==> bh[i] == v
        decreases stop - k
      {
        WordBeforeStop(bh[..], k, v, stop);
        forall i | k <= i < k + 32 ensures bh[i] == v {
          assert bh[..][i] == v;
        }
        k := k + 32;
      }
      while bh[k] == v
        invariant k0 <= k <= stop
        invariant forall i :: k0 <= i < k ==> bh[i] == v
        decreases stop - k
      {
        k := k + 1;
      }
    }
  }

  // A uniform word cannot contain the sentinel.
  lemma WordBeforeStop(bh: seq<bool>, k: int, v: bool, stop: int)
    requires 0 <= k <= stop && k % 32 == 0 && stop / 32 * 32 + 32 <= |bh| && bh[stop] != v
    requires k / 32 * 32 + 32 <= |bh| && WordIs(bh, k, v)
    ensures k + 32 <= stop
  {
  }
}
