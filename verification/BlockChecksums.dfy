// The combined checksum of a stream in closed form: every block's checksum counts, turned left
// by the block's distance from the last one.
module BlockChecksums {
  import opened BlockCodec
  import opened StreamFormat

  // A word turned left by one place.
  function Once(c: bv32): bv32 {
    (c << 1) | (c >> 31)
  }

  // A word turned left by d places.
  function Turned(c: bv32, d: nat): bv32 {
    if d == 0 then c else Once(Turned(c, d - 1))
  }

  function Mixed(a: bv32, b: bv32): bv32 {
    a ^ b
  }

  // The exclusive or of the first j blocks' checksums, each turned by its distance from the end.
  ghost function Spread(items: seq<Item>, j: nat): bv32
    requires j <= |items|
  {
    if j == 0 then 0 else Mixed(Spread(items, j - 1), Turned(items[j - 1].crc, |items| - j))
  }

  lemma OnceMixed(a: bv32, b: bv32)
    ensures Once(Mixed(a, b)) == Mixed(Once(a), Once(b)) && Once(0) == 0
  {
  }

  lemma {:induction false} MixedTurned(a: bv32, b: bv32, d: nat)
    ensures Turned(Mixed(a, b), d) == Mixed(Turned(a, d), Turned(b, d)) && Turned(0, d) == 0
  {
    hide Once, Mixed;
    if d > 0 {
      MixedTurned(a, b, d - 1);
      OnceMixed(Turned(a, d - 1), Turned(b, d - 1));
    }
  }

  lemma {:induction false} TurnedOnce(c: bv32, d: nat)
    ensures Turned(Once(c), d) == Turned(c, d + 1) == Once(Turned(c, d))
  {
    hide Once;
    if d > 0 {
      TurnedOnce(c, d - 1);
    }
  }

  // One block more turns everything before it once.
  lemma {:induction false} SpreadFront(items: seq<Item>, j: nat)
    requires j < |items|
    ensures Spread(items, j) == Once(Spread(items[..|items| - 1], j))
  {
    hide Turned, Mixed, Once;
    if j == 0 {
      OnceMixed(0, 0);
    } else {
      SpreadFront(items, j - 1);
      var front := items[..|items| - 1];
      TurnedOnce(items[j - 1].crc, |front| - j);
      OnceMixed(Spread(front, j - 1), Turned(items[j - 1].crc, |front| - j));
    }
  }

  lemma CombineIs(combined: bv32, crc: bv32)
    ensures Combine(combined, crc) == Mixed(Once(combined), crc)
  {
  }

  // The running checksum of both programs is that exclusive or.
  lemma {:induction false} CombinedIsSpread(items: seq<Item>)
    ensures CombinedCrc(items) == Spread(items, |items|)
  {
    hide Combine, Once, Mixed;
    if items != [] {
      var n := |items| - 1;
      var front := items[..n];
      CombinedIsSpread(front);
      CombineIs(CombinedCrc(front), items[n].crc);
      SpreadFront(items, n);
    }
  }

  // ---- the same, bit by bit ----

  // Bit k of a word.
  predicate BitAt(c: bv32, k: bv32)
    requires k < 32
  {
    LowBit(Slid(c, k)) == 1
  }

  function Slid(c: bv32, k: bv32): bv32
    requires k < 32
  {
    c >> k
  }

  function LowBit(u: bv32): bv32 {
    u & 1
  }

  // The place to the right of place k, counted around the word.
  function Right(k: bv32): (r: bv32)
    requires k < 32
    ensures r < 32
  {
    if k == 0 then 31 else k - 1
  }

  // The place d places to the right of place k, counted around the word.
  function Back(k: bv32, d: nat): (r: bv32)
    requires k < 32
    ensures r < 32
    decreases d
  {
    if d == 0 then k else Back(Right(k), d - 1)
  }

  lemma OnceBit(c: bv32, k: bv32)
    requires k < 32
    ensures BitAt(Once(c), k) == BitAt(c, Right(k))
  {
  }

  lemma MixedBit(a: bv32, b: bv32, k: bv32)
    requires k < 32
    ensures BitAt(Mixed(a, b), k) == (BitAt(a, k) != BitAt(b, k))
    ensures !BitAt(0, k)
  {
    hide Mixed, LowBit, Slid;
    SlidMixed(a, b, k);
    LowMixed(Slid(a, k), Slid(b, k));
    LowIs(Slid(a, k));
    LowIs(Slid(b, k));
    SlidZero(k);
  }

  function Half(c: bv32): bv32 {
    c >> 1
  }

  lemma HalfMixed(a: bv32, b: bv32)
    ensures Half(Mixed(a, b)) == Mixed(Half(a), Half(b))
  {
  }

  lemma SlidHalf(c: bv32, k: bv32)
    requires 0 < k < 32
    ensures Slid(c, k) == Half(Slid(c, k - 1))
  {
  }

  lemma SlidNone(c: bv32)
    ensures Slid(c, 0) == c
  {
  }

  lemma {:induction false} SlidMixed(a: bv32, b: bv32, k: bv32)
    requires k < 32
    ensures Slid(Mixed(a, b), k) == Mixed(Slid(a, k), Slid(b, k))
    decreases k
  {
    hide Mixed, Slid, Half;
    if k == 0 {
      SlidNone(a);
      SlidNone(b);
      SlidNone(Mixed(a, b));
    } else {
      SlidMixed(a, b, k - 1);
      SlidHalf(a, k);
      SlidHalf(b, k);
      SlidHalf(Mixed(a, b), k);
      HalfMixed(Slid(a, k - 1), Slid(b, k - 1));
    }
  }

  lemma SlidZero(k: bv32)
    requires k < 32
    ensures LowBit(Slid(0, k)) == 0
  {
  }

  lemma LowMixed(a: bv32, b: bv32)
    ensures LowBit(Mixed(a, b)) == Mixed(LowBit(a), LowBit(b))
  {
  }

  lemma LowIs(a: bv32)
    ensures LowBit(a) == 0 || LowBit(a) == 1
    ensures Mixed(0, 0) == 0 && Mixed(0, 1) == 1 && Mixed(1, 0) == 1 && Mixed(1, 1) == 0
  {
  }

  // Turning by d places moves every bit d places to the left.
  lemma {:induction false} TurnedBit(c: bv32, d: nat, k: bv32)
    requires k < 32
    ensures BitAt(Turned(c, d), k) == BitAt(c, Back(k, d))
    decreases d
  {
    hide Once, BitAt, Right;
    if d > 0 {
      OnceBit(Turned(c, d - 1), k);
      TurnedBit(c, d - 1, Right(k));
    }
  }

  // Whether an odd number of the first j blocks have a one where their checksum meets place k.
  ghost predicate OddAt(items: seq<Item>, j: nat, k: bv32)
    requires j <= |items| && k < 32
  {
    j > 0 && OddAt(items, j - 1, k) != BitAt(items[j - 1].crc, Back(k, |items| - j))
  }

  lemma {:induction false} SpreadBit(items: seq<Item>, j: nat, k: bv32)
    requires j <= |items| && k < 32
    ensures BitAt(Spread(items, j), k) == OddAt(items, j, k)
  {
    hide BitAt, Turned, Mixed, Back;
    if j == 0 {
      MixedBit(0, 0, k);
    } else {
      SpreadBit(items, j - 1, k);
      MixedBit(Spread(items, j - 1), Turned(items[j - 1].crc, |items| - j), k);
      TurnedBit(items[j - 1].crc, |items| - j, k);
    }
  }

  // Bit k of the combined checksum is the sum modulo two of one bit from every block: the bit
  // as many places to the right of k as the block is before the last one.
  lemma CombinedBit(items: seq<Item>, k: bv32)
    requires k < 32
    ensures BitAt(CombinedCrc(items), k) == OddAt(items, |items|, k)
  {
    hide *;
    CombinedIsSpread(items);
    SpreadBit(items, |items|, k);
  }

  // ---- the order of the blocks shows ----

  function Swapped(items: seq<Item>, i: nat): (r: seq<Item>)
    requires i + 1 < |items|
    ensures |r| == |items|
  {
    items[i := items[i + 1]][i + 1 := items[i]]
  }

  // What exchanging two checksums changes when d blocks follow the second.
  function Change(a: bv32, b: bv32, d: nat): bv32 {
    Turned(Mixed(Once(Mixed(a, b)), Mixed(a, b)), d)
  }

  lemma {:induction false} SpreadSwapped(items: seq<Item>, i: nat, j: nat)
    requires i + 1 < |items| && j <= |items| && j != i + 1
    ensures Spread(Swapped(items, i), j)
         == if j <= i then Spread(items, j)
            else Mixed(Spread(items, j), Change(items[i].crc, items[i + 1].crc, |items| - 2 - i))
    decreases j
  {
    hide Turned, Mixed, Change;
    if j == 0 {
    } else if j == i + 2 {
      var s, d, a, b := Swapped(items, i), |items| - 2 - i, items[i].crc, items[i + 1].crc;
      SpreadSwapped(items, i, i);
      assert Spread(items, j) == Mixed(Mixed(Spread(items, i), Turned(a, d + 1)), Turned(b, d));
      assert Spread(s, j) == Mixed(Mixed(Spread(s, i), Turned(b, d + 1)), Turned(a, d));
      ChangeIs(a, b, d);
      MixedShuffle(Spread(items, i), Turned(a, d + 1), Turned(b, d + 1), Turned(a, d), Turned(b, d));
    } else if j <= i {
      SpreadSwapped(items, i, j - 1);
    } else {
      SpreadSwapped(items, i, j - 1);
      MixedAside(Spread(items, j - 1), Turned(items[j - 1].crc, |items| - j),
                 Change(items[i].crc, items[i + 1].crc, |items| - 2 - i));
    }
  }

  lemma ChangeIs(a: bv32, b: bv32, d: nat)
    ensures Change(a, b, d) == Mixed(Mixed(Turned(a, d + 1), Turned(b, d + 1)), Mixed(Turned(a, d), Turned(b, d)))
  {
    hide Turned, Mixed, Once;
    var x := Mixed(a, b);
    MixedTurned(Once(x), x, d);
    MixedTurned(a, b, d);
    MixedTurned(a, b, d + 1);
    TurnedOnce(x, d);
  }

  lemma MixedAssoc(r: bv32, a: bv32, b: bv32)
    ensures Mixed(Mixed(r, a), b) == Mixed(r, Mixed(a, b))
  {
  }

  lemma MixedTurn(a: bv32, b: bv32)
    ensures Mixed(a, b) == Mixed(b, a)
  {
  }

  lemma MixedTwice(a: bv32, b: bv32)
    ensures Mixed(a, Mixed(a, b)) == b
  {
  }

  lemma MixedAside(s: bv32, t: bv32, x: bv32)
    ensures Mixed(Mixed(s, x), t) == Mixed(Mixed(s, t), x)
  {
    hide Mixed;
    MixedAssoc(s, x, t);
    MixedTurn(x, t);
    MixedAssoc(s, t, x);
  }

  lemma MixedAgain(a: bv32, p: bv32, b: bv32, q: bv32)
    ensures Mixed(Mixed(a, b), Mixed(p, q)) == Mixed(Mixed(a, p), Mixed(b, q))
  {
    hide Mixed;
    MixedAssoc(Mixed(a, b), p, q);
    MixedAside(a, p, b);
    MixedAssoc(Mixed(a, p), b, q);
  }

  lemma MixedShuffle(s: bv32, a1: bv32, b1: bv32, a: bv32, b: bv32)
    ensures Mixed(Mixed(s, b1), a) == Mixed(Mixed(Mixed(s, a1), b), Mixed(Mixed(a1, b1), Mixed(a, b)))
  {
    hide Mixed;
    MixedAgain(Mixed(s, a1), Mixed(a1, b1), b, Mixed(a, b));
    MixedAssoc(s, a1, Mixed(a1, b1));
    MixedTwice(a1, b1);
    MixedTurn(a, b);
    MixedTwice(b, a);
  }

  lemma MixedSame(s: bv32, x: bv32)
    ensures Mixed(s, x) == s <==> x == 0
  {
  }

  lemma MixedNought(a: bv32, b: bv32)
    ensures Mixed(a, b) == 0 <==> a == b
  {
    hide Mixed;
    MixedTwice(a, b);
    MixedSame(a, Mixed(a, b));
  }

  lemma OnceZero(c: bv32)
    ensures Once(c) == 0 <==> c == 0
  {
  }

  lemma {:induction false} TurnedZero(c: bv32, d: nat)
    ensures Turned(c, d) == 0 <==> c == 0
  {
    hide Once;
    if d > 0 {
      TurnedZero(c, d - 1);
      OnceZero(Turned(c, d - 1));
    }
  }

  lemma ChangeZero(a: bv32, b: bv32, d: nat)
    ensures Change(a, b, d) == 0 <==> Once(Mixed(a, b)) == Mixed(a, b)
  {
    hide Once, Turned, Mixed;
    var x := Mixed(a, b);
    TurnedZero(Mixed(Once(x), x), d);
    MixedNought(Once(x), x);
  }

  // Exchanging two neighbouring blocks leaves the combined checksum alone only when turning by
  // one place does not change the exclusive or of their checksums.
  lemma SwapShows(items: seq<Item>, i: nat)
    requires i + 1 < |items|
    ensures CombinedCrc(Swapped(items, i)) == CombinedCrc(items)
       <==> Once(Mixed(items[i].crc, items[i + 1].crc)) == Mixed(items[i].crc, items[i + 1].crc)
  {
    hide *;
    var s, a, b := Swapped(items, i), items[i].crc, items[i + 1].crc;
    CombinedIsSpread(items);
    CombinedIsSpread(s);
    SpreadSwapped(items, i, |items|);
    MixedSame(Spread(items, |items|), Change(a, b, |items| - 2 - i));
    ChangeZero(a, b, |items| - 2 - i);
  }
}
