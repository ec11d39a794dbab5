// The two tables the decoder builds from a received column: the packed 32-bit table of
// the fast path, and the 20-bit table of the small path, inverted in place along the one
// cycle that is ever walked.
module InverseTables {
  import opened Rotations
  import opened Perms
  import opened Counting

  // ---- cumulative counts ----

  // BZ2_decompress turns the symbol histogram into first rows; its three range checks
  // (each would report a data error) pass whenever the histogram is the column's.
  method MakeCftab(cftab: array<int>, unzftab: array<int>, nblock: int, ghost col: seq<byte>) returns (ok: bool)
    requires cftab.Length == 257 && unzftab.Length == 256 && cftab != unzftab
    requires |col| == nblock && forall c :: 0 <= c < 256 ==> unzftab[c] == Count(col, c)
    modifies cftab
    ensures ok
    ensures forall c :: 0 <= c <= 256 ==> cftab[c] == Below(col, c)
  {
    for i := 0 to 256 {
      if unzftab[i] < 0 || unzftab[i] > nblock {
        return false;
      }
    }
    BelowEnds(col);
    cftab[0] := 0;
    for i := 1 to 257
      invariant cftab[0] == 0
      invariant forall c :: 1 <= c < i ==> cftab[c] == unzftab[c - 1]
      invariant forall c :: 0 <= c < 256 ==> unzftab[c] == Count(col, c)
    {
      cftab[i] := unzftab[i - 1];
    }
    for i := 1 to 257
      invariant forall c :: 0 <= c < i ==> cftab[c] == Below(col, c)
      invariant forall c :: i <= c <= 256 ==> cftab[c] == Count(col, c - 1)
    {
      BelowStep(col, i - 1);
      cftab[i] := cftab[i] + cftab[i - 1];
    }
    for i := 0 to 257
      invariant forall c :: 0 <= c <= 256 ==> cftab[c] == Below(col, c)
    {
      if cftab[i] < 0 || cftab[i] > nblock {
        return false;
      }
    }
    for i := 1 to 257
      invariant forall c :: 0 <= c <= 256 ==> cftab[c] == Below(col, c)
    {
      BelowStep(col, i - 1);
      if cftab[i - 1] > cftab[i] {
        return false;
      }
    }
    return true;
  }

  // BZ2_indexIntoF: binary search for the bucket a row falls in.
  method IndexIntoF(indx: int, cftab: array<int>) returns (nb: int)
    requires cftab.Length == 257 && cftab[0] <= indx < cftab[256]
    ensures 0 <= nb < 256 && cftab[nb] <= indx < cftab[nb + 1]
  {
    nb := 0;
    var na := 256;
    while na - nb != 1
      invariant 0 <= nb < na <= 256
      invariant cftab[nb] <= indx < cftab[na]
      decreases na - nb
    {
      var mid := (nb + na) / 2;
      if indx >= cftab[mid] {
        nb := mid;
      } else {
        na := mid;
      }
    }
  }

  // ---- the fast table ----

  // word | (i << 8), where the word's upper 24 bits are still clear.
  function OrPointer(word: int, i: int): int
    requires 0 <= word < 256
  {
    word + 256 * i
  }

  // Row r holds the column's symbol in its low byte and the inverse pointer above it.
  ghost predicate Packed(word: int, symbol: byte, pointer: int) {
    word == 256 * pointer + symbol
  }

  lemma Unpack(word: int, symbol: byte, pointer: int)
    requires Packed(word, symbol, pointer)
    ensures word % 256 == symbol && word / 256 == pointer
  {
  }

  function Start(f: int): int {
    if f < 0 then 0 else f
  }

  // The rows reached by the first i symbols hold those symbols' positions; the others hold none.
  ghost predicate Filled(col: seq<byte>, fill: seq<int>, i: int) {
    && |fill| == |col|
    && 0 <= i <= |col|
    && (forall r :: 0 <= r < |col| && fill[r] >= 0 ==> fill[r] < i && Rank(col, fill[r]) == r)
    && (forall k :: 0 <= k < i ==> 0 <= Rank(col, k) < |col| && fill[Rank(col, k)] == k)
  }

  lemma FillStep(col: seq<byte>, fill: seq<int>, i: int)
    requires Filled(col, fill, i) && i < |col|
    ensures 0 <= Rank(col, i) < |col| && fill[Rank(col, i)] < 0
    ensures Filled(col, fill[Rank(col, i) := i], i + 1)
  {
    RankInBucket(col, i);
    var r := Rank(col, i);
    if fill[r] >= 0 {
      RankDistinct(col, fill[r], i);
    }
  }

  // After i symbols: the rows reached carry their pointers, and first has moved on past them.
  ghost predicate Filling(col: seq<byte>, t: seq<int>, first: seq<int>, fill: seq<int>, i: int) {
    && Filled(col, fill, i) && |col| <= |t| && |first| == 257
    && (forall c :: 0 <= c < 256 ==> first[c] == Below(col, c) + Count(col[..i], c))
    && (forall r :: 0 <= r < |col| ==> Packed(t[r], col[r], Start(fill[r])))
  }

  lemma FillingLook(col: seq<byte>, t: seq<int>, first: seq<int>, fill: seq<int>, i: int)
    requires Filling(col, t, first, fill, i) && i < |col|
    ensures t[i] % 256 == col[i] && first[col[i]] == Rank(col, i) && 0 <= Rank(col, i) < |col|
    ensures 0 <= t[Rank(col, i)] < 256
  {
    FillStep(col, fill, i);
    Unpack(t[i], col[i], Start(fill[i]));
  }

  lemma FillingStep(col: seq<byte>, t: seq<int>, first: seq<int>, fill: seq<int>, i: int, uc: int, r: int, word: int, i': int)
    requires Filling(col, t, first, fill, i) && i < |col| && i' == i + 1
    requires uc == col[i] && r == Rank(col, i) && 0 <= r < |col| && word == t[r] + 256 * i && 0 <= t[r] < 256
    ensures Filling(col, t[r := word], first[uc := first[uc] + 1], fill[r := i], i')
  {
    FillStep(col, fill, i);
    CountStepAll(col, i);
    hide Rank, Below;
  }

  method BuildFast(tt: array<int>, cftab: array<int>, nblock: int, ghost col: seq<byte>)
    requires cftab.Length == 257 && tt != cftab && |col| == nblock <= tt.Length
    requires forall i :: 0 <= i < nblock ==> tt[i] == col[i]
    requires forall c :: 0 <= c <= 256 ==> cftab[c] == Below(col, c)
    modifies tt, cftab
    ensures forall r :: 0 <= r < nblock ==> Packed(tt[r], col[r], Unrank(col)[r])
  {
    ghost var fill := seq(nblock, r => -1);
    var i := 0;
    assert Filling(col, tt[..], cftab[..], fill, i);
    hide Filling, Rank, Unrank;
    while i < nblock
      invariant 0 <= i <= nblock
      invariant Filling(col, tt[..], cftab[..], fill, i)
    {
      FillingLook(col, tt[..], cftab[..], fill, i);
      var uc := tt[i] % 256;
      var r := cftab[uc];
      var word := OrPointer(tt[r], i);
      ghost var i' := i + 1;
      FillingStep(col, tt[..], cftab[..], fill, i, uc, r, word, i');
      tt[r] := word;
      cftab[uc] := cftab[uc] + 1;
      fill := fill[r := i];
      i := i + 1;
    }
    FillingDone(col, tt[..], cftab[..], fill, i);
  }

  lemma FillingDone(col: seq<byte>, t: seq<int>, first: seq<int>, fill: seq<int>, i: int)
    requires Filling(col, t, first, fill, i) && i == |col|
    ensures forall r :: 0 <= r < |col| ==> Packed(t[r], col[r], Unrank(col)[r])
  {
    UnrankUnique(col, fill);
  }

  // ---- the small table: 20-bit cells split over a 16-bit array and packed nibbles ----

  ghost predicate Cells(lo: seq<int>, hi: seq<int>) {
    && |lo| <= 2 * |hi|
    && (forall k :: 0 <= k < |lo| ==> 0 <= lo[k] < 0x1_0000)
    && (forall k :: 0 <= k < |hi| ==> 0 <= hi[k] < 256)
  }

  function Nibble(pair: int, i: int): int
    requires 0 <= pair < 256
  {
    if i % 2 == 0 then pair % 16 else pair / 16
  }

  function WithNibble(pair: int, i: int, n: int): (r: int)
    requires 0 <= pair < 256 && 0 <= n < 16
    ensures 0 <= r < 256
    ensures Nibble(r, i) == n && Nibble(r, i + 1) == Nibble(pair, i + 1)
  {
    if i % 2 == 0 then pair / 16 * 16 + n else pair % 16 + n * 16
  }

  // GET_LL
  function GetLL(lo: seq<int>, hi: seq<int>, i: int): int
    requires Cells(lo, hi) && 0 <= i < |lo|
  {
    lo[i] + 0x1_0000 * Nibble(hi[i / 2], i)
  }

  ghost function View(lo: seq<int>, hi: seq<int>, n: nat): (v: seq<int>)
    requires Cells(lo, hi) && n <= |lo|
    ensures |v| == n && forall i :: 0 <= i < n ==> v[i] == GetLL(lo, hi, i)
  {
    seq(n, i requires 0 <= i < n => GetLL(lo, hi, i))
  }

  // SET_LL: cell i becomes n, and the cell sharing its nibble byte keeps its value.
  method SetLL(ll16: array<int>, ll4: array<int>, i: int, n: int, ghost size: nat)
    requires ll16 != ll4 && Cells(ll16[..], ll4[..]) && 0 <= i < size <= ll16.Length && 0 <= n < 0x10_0000
    modifies ll16, ll4
    ensures Cells(ll16[..], ll4[..])
    ensures View(ll16[..], ll4[..], size) == old(View(ll16[..], ll4[..], size))[i := n]
    ensures forall k :: 0 <= k < ll16.Length && k != i ==> ll16[k] == old(ll16[k])
  {
    ghost var before := View(ll16[..], ll4[..], size);
    ll16[i] := n % 0x1_0000;
    ll4[i / 2] := WithNibble(ll4[i / 2], i, n / 0x1_0000);
    forall k | 0 <= k < size ensures GetLL(ll16[..], ll4[..], k) == before[i := n][k] {
      if k != i && k / 2 == i / 2 {
        assert Nibble(ll4[k / 2], k) == Nibble(ll4[k / 2], i + 1);
      }
    }
  }

  // Each symbol's cell receives the row the symbol sorts to: the vector T.
  method BuildForward(ll16: array<int>, ll4: array<int>, cftabCopy: array<int>, nblock: nat, ghost col: seq<byte>)
    requires ll16 != ll4 && Cells(ll16[..], ll4[..]) && cftabCopy.Length == 257 && cftabCopy != ll16 && cftabCopy != ll4
    requires |col| == nblock <= ll16.Length && nblock < 0x10_0000
    requires forall i :: 0 <= i < nblock ==> ll16[i] == col[i]
    requires forall c :: 0 <= c <= 256 ==> cftabCopy[c] == Below(col, c)
    modifies ll16, ll4, cftabCopy
    ensures Cells(ll16[..], ll4[..])
    ensures View(ll16[..], ll4[..], nblock) == Ranks(col)
  {
    var i := 0;
    while i < nblock
      invariant 0 <= i <= nblock
      invariant Cells(ll16[..], ll4[..])
      invariant forall k :: i <= k < nblock ==> ll16[k] == col[k]
      invariant forall c :: 0 <= c < 256 ==> cftabCopy[c] == Below(col, c) + Count(col[..i], c)
      invariant forall k :: 0 <= k < i ==> View(ll16[..], ll4[..], nblock)[k] == Rank(col, k)
    {
      var uc := ll16[i] % 256;
      RankInBucket(col, i);
      SetLL(ll16, ll4, i, cftabCopy[uc], nblock);
      cftabCopy[uc] := cftabCopy[uc] + 1;
      CountStepAll(col, i);
      i := i + 1;
    }
  }

  // path follows the permutation t from its first row, without repeating a row.
  ghost predicate OnCycle(t: seq<int>, path: seq<int>) {
    && |path| > 0
    && (forall a :: 0 <= a < |path| ==> 0 <= path[a] < |t|)
    && (forall a, c :: 0 <= a < c < |path| ==> path[a] != path[c])
    && (forall a :: 0 <= a < |path| - 1 ==> t[path[a]] == path[a + 1])
  }

  ghost predicate Overwritten(path: seq<int>, x: int) {
    exists a :: 0 < a < |path| && path[a] == x
  }

  // Cells after the first row of the path point back; all others still point forward.
  ghost predicate Reversed(t: seq<int>, path: seq<int>, v: seq<int>) {
    && |v| == |t|
    && (forall a :: 0 < a < |path| && 0 <= path[a] < |v| ==> v[path[a]] == path[a - 1])
    && (forall x :: 0 <= x < |v| && !Overwritten(path, x) ==> v[x] == t[x])
  }

  lemma CycleFresh(t: seq<int>, path: seq<int>, j: int)
    requires IsPerm(t, |t|) && OnCycle(t, path) && j == t[path[|path| - 1]]
    ensures 0 <= j < |t| && !Overwritten(path, j)
    ensures |path| <= |t|
  {
    forall a | 0 < a < |path| ensures path[a] != j {
      assert path[a - 1] != path[|path| - 1];
      assert t[path[a - 1]] == path[a];
    }
    Pigeonhole(path, |t|);
  }

  lemma CycleExtend(t: seq<int>, path: seq<int>, v: seq<int>, j: int)
    requires IsPerm(t, |t|) && OnCycle(t, path) && Reversed(t, path, v) && j == t[path[|path| - 1]]
    requires j != path[0]
    ensures 0 <= j < |t|
    ensures OnCycle(t, path + [j]) && Reversed(t, path + [j], v[j := path[|path| - 1]])
  {
    CycleFresh(t, path, j);
    assert forall a :: 0 < a < |path| ==> path[a] != j by {
      forall a | 0 < a < |path| ensures path[a] != j {
        assert Overwritten(path, path[a]);
      }
    }
    ReverseOne(t, path, v, j);
  }

  lemma ReverseOne(t: seq<int>, path: seq<int>, v: seq<int>, j: int)
    requires OnCycle(t, path) && Reversed(t, path, v) && 0 <= j < |t|
    requires forall a :: 0 <= a < |path| ==> path[a] != j
    ensures Reversed(t, path + [j], v[j := path[|path| - 1]])
  {
    var p, w := path + [j], v[j := path[|path| - 1]];
    assert p[|path|] == j;
    assert Overwritten(p, j);
    forall x | 0 <= x < |w| && !Overwritten(p, x) ensures w[x] == t[x] {
      assert x != j;
      forall a | 0 < a < |path| ensures path[a] != x {
        assert p[a] == path[a];
      }
    }
  }

  // The rows reachable from orig, on which the stored pointers agree with u.
  ghost predicate Inverted(u: seq<int>, cycle: set<int>, orig: int, v: seq<int>) {
    && |v| == |u|
    && orig in cycle
    && (forall x :: x in cycle ==> 0 <= x < |u|)
    && (forall x {:trigger u[x]} :: x in cycle ==> v[x] == u[x] && u[x] in cycle)
  }

  ghost function Rows(path: seq<int>): set<int> {
    set x | x in path
  }

  ghost function Ranks(col: seq<byte>): (t: seq<int>)
    ensures |t| == |col| && forall i :: 0 <= i < |col| ==> t[i] == Rank(col, i)
  {
    seq(|col|, i requires 0 <= i < |col| => Rank(col, i))
  }

  lemma RanksIsPerm(col: seq<byte>)
    ensures IsPerm(Ranks(col), |col|)
  {
    forall i, j | 0 <= i < |col| && 0 <= j < |col| && i != j
      ensures Rank(col, i) != Rank(col, j)
    {
      RankDistinct(col, i, j);
    }
    forall i | 0 <= i < |col| ensures 0 <= Rank(col, i) < |col| {
      RankInBucket(col, i);
    }
  }

  lemma CycleClosed(col: seq<byte>, path: seq<int>, v: seq<int>)
    requires OnCycle(Ranks(col), path) && Reversed(Ranks(col), path, v)
    requires path[0] == Ranks(col)[path[|path| - 1]]
    ensures Inverted(Unrank(col), Rows(path), path[0], v[path[0] := path[|path| - 1]])
  {
    var t, u, w := Ranks(col), Unrank(col), v[path[0] := path[|path| - 1]];
    forall x | x in Rows(path) ensures w[x] == u[x] && w[x] in Rows(path) {
      var a :| 0 <= a < |path| && path[a] == x;
      var y := if a == 0 then path[|path| - 1] else path[a - 1];
      assert t[y] == x && w[x] == y;
      assert u[Rank(col, y)] == y;
    }
  }

  // Pointer reversal along the cycle through origPtr.
  method ReverseCycle(ll16: array<int>, ll4: array<int>, origPtr: int, nblock: nat, ghost col: seq<byte>)
    returns (ghost cycle: set<int>)
    requires ll16 != ll4 && Cells(ll16[..], ll4[..]) && |col| == nblock <= ll16.Length && nblock < 0x10_0000
    requires 0 <= origPtr < nblock
    requires View(ll16[..], ll4[..], nblock) == Ranks(col)
    modifies ll16, ll4
    ensures Cells(ll16[..], ll4[..])
    ensures Inverted(Unrank(col), cycle, origPtr, View(ll16[..], ll4[..], nblock))
  {
    ghost var t := Ranks(col);
    RanksIsPerm(col);
    var i := origPtr;
    var j := GetLL(ll16[..], ll4[..], i);
    ghost var path := [origPtr];
    while true
      invariant Cells(ll16[..], ll4[..])
      invariant OnCycle(t, path) && path[0] == origPtr && i == path[|path| - 1]
      invariant Reversed(t, path, View(ll16[..], ll4[..], nblock))
      invariant j == t[i]
      decreases nblock - |path|
    {
      CycleFresh(t, path, j);
      var tmp := GetLL(ll16[..], ll4[..], j);
      if j == origPtr {
        CycleClosed(col, path, View(ll16[..], ll4[..], nblock));
      } else {
        CycleExtend(t, path, View(ll16[..], ll4[..], nblock), j);
        CycleFresh(t, path + [j], t[j]);
      }
      SetLL(ll16, ll4, j, i, nblock);
      i, j := j, tmp;
      if i == origPtr {
        cycle := Rows(path);
        break;
      }
      path := path + [i];
    }
  }
}
