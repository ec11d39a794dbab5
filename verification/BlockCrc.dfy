// The checksum of a block: the program's table is the division by the CRC polynomial, and the
// checksum tells apart any two blocks that differ in up to four neighbouring bytes.
module BlockCrc {
  import opened Rotations
  import opened BlockOutput
  import opened BlockCodec
  import opened BlockChecksums

  // BZ2_crc32Table, sixteen entries a row.
  const TABLE: seq<seq<bv32>> := [ROW_0, ROW_1, ROW_2, ROW_3, ROW_4, ROW_5, ROW_6, ROW_7, ROW_8, ROW_9, ROW_A, ROW_B, ROW_C, ROW_D, ROW_E, ROW_F]

  const ROW_0: seq<bv32> := [
    0x00000000, 0x04c11db7, 0x09823b6e, 0x0d4326d9,
    0x130476dc, 0x17c56b6b, 0x1a864db2, 0x1e475005,
    0x2608edb8, 0x22c9f00f, 0x2f8ad6d6, 0x2b4bcb61,
    0x350c9b64, 0x31cd86d3, 0x3c8ea00a, 0x384fbdbd]

  const ROW_1: seq<bv32> := [
    0x4c11db70, 0x48d0c6c7, 0x4593e01e, 0x4152fda9,
    0x5f15adac, 0x5bd4b01b, 0x569796c2, 0x52568b75,
    0x6a1936c8, 0x6ed82b7f, 0x639b0da6, 0x675a1011,
    0x791d4014, 0x7ddc5da3, 0x709f7b7a, 0x745e66cd]

  const ROW_2: seq<bv32> := [
    0x9823b6e0, 0x9ce2ab57, 0x91a18d8e, 0x95609039,
    0x8b27c03c, 0x8fe6dd8b, 0x82a5fb52, 0x8664e6e5,
    0xbe2b5b58, 0xbaea46ef, 0xb7a96036, 0xb3687d81,
    0xad2f2d84, 0xa9ee3033, 0xa4ad16ea, 0xa06c0b5d]

  const ROW_3: seq<bv32> := [
    0xd4326d90, 0xd0f37027, 0xddb056fe, 0xd9714b49,
    0xc7361b4c, 0xc3f706fb, 0xceb42022, 0xca753d95,
    0xf23a8028, 0xf6fb9d9f, 0xfbb8bb46, 0xff79a6f1,
    0xe13ef6f4, 0xe5ffeb43, 0xe8bccd9a, 0xec7dd02d]

  const ROW_4: seq<bv32> := [
    0x34867077, 0x30476dc0, 0x3d044b19, 0x39c556ae,
    0x278206ab, 0x23431b1c, 0x2e003dc5, 0x2ac12072,
    0x128e9dcf, 0x164f8078, 0x1b0ca6a1, 0x1fcdbb16,
    0x018aeb13, 0x054bf6a4, 0x0808d07d, 0x0cc9cdca]

  const ROW_5: seq<bv32> := [
    0x7897ab07, 0x7c56b6b0, 0x71159069, 0x75d48dde,
    0x6b93dddb, 0x6f52c06c, 0x6211e6b5, 0x66d0fb02,
    0x5e9f46bf, 0x5a5e5b08, 0x571d7dd1, 0x53dc6066,
    0x4d9b3063, 0x495a2dd4, 0x44190b0d, 0x40d816ba]

  const ROW_6: seq<bv32> := [
    0xaca5c697, 0xa864db20, 0xa527fdf9, 0xa1e6e04e,
    0xbfa1b04b, 0xbb60adfc, 0xb6238b25, 0xb2e29692,
    0x8aad2b2f, 0x8e6c3698, 0x832f1041, 0x87ee0df6,
    0x99a95df3, 0x9d684044, 0x902b669d, 0x94ea7b2a]

  const ROW_7: seq<bv32> := [
    0xe0b41de7, 0xe4750050, 0xe9362689, 0xedf73b3e,
    0xf3b06b3b, 0xf771768c, 0xfa325055, 0xfef34de2,
    0xc6bcf05f, 0xc27dede8, 0xcf3ecb31, 0xcbffd686,
    0xd5b88683, 0xd1799b34, 0xdc3abded, 0xd8fba05a]

  const ROW_8: seq<bv32> := [
    0x690ce0ee, 0x6dcdfd59, 0x608edb80, 0x644fc637,
    0x7a089632, 0x7ec98b85, 0x738aad5c, 0x774bb0eb,
    0x4f040d56, 0x4bc510e1, 0x46863638, 0x42472b8f,
    0x5c007b8a, 0x58c1663d, 0x558240e4, 0x51435d53]

  const ROW_9: seq<bv32> := [
    0x251d3b9e, 0x21dc2629, 0x2c9f00f0, 0x285e1d47,
    0x36194d42, 0x32d850f5, 0x3f9b762c, 0x3b5a6b9b,
    0x0315d626, 0x07d4cb91, 0x0a97ed48, 0x0e56f0ff,
    0x1011a0fa, 0x14d0bd4d, 0x19939b94, 0x1d528623]

  const ROW_A: seq<bv32> := [
    0xf12f560e, 0xf5ee4bb9, 0xf8ad6d60, 0xfc6c70d7,
    0xe22b20d2, 0xe6ea3d65, 0xeba91bbc, 0xef68060b,
    0xd727bbb6, 0xd3e6a601, 0xdea580d8, 0xda649d6f,
    0xc423cd6a, 0xc0e2d0dd, 0xcda1f604, 0xc960ebb3]

  const ROW_B: seq<bv32> := [
    0xbd3e8d7e, 0xb9ff90c9, 0xb4bcb610, 0xb07daba7,
    0xae3afba2, 0xaafbe615, 0xa7b8c0cc, 0xa379dd7b,
    0x9b3660c6, 0x9ff77d71, 0x92b45ba8, 0x9675461f,
    0x8832161a, 0x8cf30bad, 0x81b02d74, 0x857130c3]

  const ROW_C: seq<bv32> := [
    0x5d8a9099, 0x594b8d2e, 0x5408abf7, 0x50c9b640,
    0x4e8ee645, 0x4a4ffbf2, 0x470cdd2b, 0x43cdc09c,
    0x7b827d21, 0x7f436096, 0x7200464f, 0x76c15bf8,
    0x68860bfd, 0x6c47164a, 0x61043093, 0x65c52d24]

  const ROW_D: seq<bv32> := [
    0x119b4be9, 0x155a565e, 0x18197087, 0x1cd86d30,
    0x029f3d35, 0x065e2082, 0x0b1d065b, 0x0fdc1bec,
    0x3793a651, 0x3352bbe6, 0x3e119d3f, 0x3ad08088,
    0x2497d08d, 0x2056cd3a, 0x2d15ebe3, 0x29d4f654]

  const ROW_E: seq<bv32> := [
    0xc5a92679, 0xc1683bce, 0xcc2b1d17, 0xc8ea00a0,
    0xd6ad50a5, 0xd26c4d12, 0xdf2f6bcb, 0xdbee767c,
    0xe3a1cbc1, 0xe760d676, 0xea23f0af, 0xeee2ed18,
    0xf0a5bd1d, 0xf464a0aa, 0xf9278673, 0xfde69bc4]

  const ROW_F: seq<bv32> := [
    0x89b8fd09, 0x8d79e0be, 0x803ac667, 0x84fbdbd0,
    0x9abc8bd5, 0x9e7d9662, 0x933eb0bb, 0x97ffad0c,
    0xafb010b1, 0xab710d06, 0xa6322bdf, 0xa2f33668,
    0xbcb4666d, 0xb8757bda, 0xb5365d03, 0xb1f740b4]

  // BZ_UPDATE_CRC
  function Entry(x: bv32): bv32
    requires x < 256
  {
    TABLE[Index(x >> 4)][Index(x & 15)]
  }

  function Index(x: bv32): (i: nat)
    requires x < 16
    ensures i < 16
  {
    x as nat
  }

  function Wide(c: byte): (x: bv32)
    ensures x < 256
  {
    (c as bv8) as bv32
  }

  function Update(crc: bv32, c: byte): bv32 {
    (crc << 8) ^ Entry((crc >> 24) ^ Wide(c))
  }

  // What the two programs call the checksum of a block.
  function Checksum(s: seq<byte>): bv32 {
    Finalise(FoldCrc(Update, 0xffff_ffff, s))
  }

  // ---- division by the polynomial ----

  // The CRC polynomial without its highest term.
  function Poly(t: bv32): bv32 {
    t ^ (t << 1) ^ (t << 2) ^ (t << 4) ^ (t << 5) ^ (t << 7) ^ (t << 8) ^ (t << 10) ^ (t << 11) ^ (t << 12) ^ (t << 16)
    ^ (t << 22) ^ (t << 23) ^ (t << 26)
  }

  // One zero bit more behind the remainder.
  function Bit(u: bv32): bv32 {
    Mixed(Shifted(u), Poly(TopBit(u)))
  }

  function Eight(u: bv32): bv32 {
    Bit(Bit(Bit(Bit(Bit(Bit(Bit(Bit(u))))))))
  }

  function Slot(b: bv32, l: bv32): bv32 {
    Eight(b | (l << 24))
  }

  // A row of remainders.
  function Entries(b: bv32): (r: seq<bv32>)
    ensures |r| == 16
  {
    [Slot(b, 0), Slot(b, 1), Slot(b, 2), Slot(b, 3), Slot(b, 4), Slot(b, 5), Slot(b, 6), Slot(b, 7),
     Slot(b, 8), Slot(b, 9), Slot(b, 10), Slot(b, 11), Slot(b, 12), Slot(b, 13), Slot(b, 14), Slot(b, 15)]
  }

  lemma Rows01()
    ensures ROW_0 == Entries(0x0000_0000) && ROW_1 == Entries(0x1000_0000)
  {
  }

  lemma Rows23()
    ensures ROW_2 == Entries(0x2000_0000) && ROW_3 == Entries(0x3000_0000)
  {
  }

  lemma Rows45()
    ensures ROW_4 == Entries(0x4000_0000) && ROW_5 == Entries(0x5000_0000)
  {
  }

  lemma Rows67()
    ensures ROW_6 == Entries(0x6000_0000) && ROW_7 == Entries(0x7000_0000)
  {
  }

  lemma Rows89()
    ensures ROW_8 == Entries(0x8000_0000) && ROW_9 == Entries(0x9000_0000)
  {
  }

  lemma RowsAB()
    ensures ROW_A == Entries(0xA000_0000) && ROW_B == Entries(0xB000_0000)
  {
  }

  lemma RowsCD()
    ensures ROW_C == Entries(0xC000_0000) && ROW_D == Entries(0xD000_0000)
  {
  }

  lemma RowsEF()
    ensures ROW_E == Entries(0xE000_0000) && ROW_F == Entries(0xF000_0000)
  {
  }

  lemma RowIs(h: bv32)
    requires h < 16
    ensures TABLE[Index(h)] == Entries(h << 28)
  {
    hide Entries;
    Rows01();
    Rows23();
    Rows45();
    Rows67();
    Rows89();
    RowsAB();
    RowsCD();
    RowsEF();
    IndexIs(h);
  }

  lemma IndexIs(h: bv32)
    requires h < 16
    ensures h == 0 ==> Index(h) == 0
    ensures h == 1 ==> Index(h) == 1
    ensures h == 2 ==> Index(h) == 2
    ensures h == 3 ==> Index(h) == 3
    ensures h == 4 ==> Index(h) == 4
    ensures h == 5 ==> Index(h) == 5
    ensures h == 6 ==> Index(h) == 6
    ensures h == 7 ==> Index(h) == 7
    ensures h == 8 ==> Index(h) == 8
    ensures h == 9 ==> Index(h) == 9
    ensures h == 10 ==> Index(h) == 10
    ensures h == 11 ==> Index(h) == 11
    ensures h == 12 ==> Index(h) == 12
    ensures h == 13 ==> Index(h) == 13
    ensures h == 14 ==> Index(h) == 14
    ensures h == 15 ==> Index(h) == 15
  {
  }

  lemma ColumnIs(b: bv32, l: bv32)
    requires l < 16
    ensures Entries(b)[Index(l)] == Slot(b, l)
  {
    hide Slot, Index;
    IndexIs(l);
  }

  // Every table entry is the remainder of its index, eight bits further on.
  lemma EntryIs(x: bv32)
    requires x < 256
    ensures Entry(x) == Eight(x << 24)
  {
    hide Eight, Entries, Index;
    RowIs(x >> 4);
    ColumnIs((x >> 4) << 28, x & 15);
  }

  // ---- what the checksum tells apart ----

  function TopBit(u: bv32): bv32 {
    u >> 31
  }

  function Shifted(u: bv32): bv32 {
    u << 1
  }

  lemma TopBitMixed(a: bv32, b: bv32)
    ensures TopBit(Mixed(a, b)) == Mixed(TopBit(a), TopBit(b))
  {
  }

  lemma ShiftedMixed(a: bv32, b: bv32)
    ensures Shifted(Mixed(a, b)) == Mixed(Shifted(a), Shifted(b))
  {
  }

  lemma MixedNone(r: bv32)
    ensures Mixed(r, 0) == r && Mixed(0, r) == r
  {
  }

  lemma PolyMixed(a: bv32, b: bv32)
    requires (a == 0 || a == 1) && (b == 0 || b == 1)
    ensures Poly(Mixed(a, b)) == Mixed(Poly(a), Poly(b))
  {
    hide Poly, Mixed;
    PolyIs();
    MixedNone(a);
    MixedNone(b);
    MixedNone(Poly(a));
    MixedNone(Poly(b));
    MixedNought(a, b);
    MixedNought(Poly(a), Poly(b));
  }

  lemma BitMixed(a: bv32, b: bv32)
    ensures Bit(Mixed(a, b)) == Mixed(Bit(a), Bit(b))
  {
    hide Poly, Mixed, TopBit, Shifted;
    TopIs(a);
    TopIs(b);
    TopBitMixed(a, b);
    ShiftedMixed(a, b);
    PolyMixed(TopBit(a), TopBit(b));
    MixedAgain(Shifted(a), Poly(TopBit(a)), Shifted(b), Poly(TopBit(b)));
  }

  lemma PolyIs()
    ensures Poly(1) == 0x04c1_1db7 && Poly(0) == 0
  {
  }

  lemma TopIs(u: bv32)
    ensures TopBit(u) == 0 || TopBit(u) == 1
    ensures TopBit(u) == 0 && Shifted(u) == 0 ==> u == 0
    ensures Shifted(u) != 0x04c1_1db7
  {
  }

  lemma BitZero(u: bv32)
    requires Bit(u) == 0
    ensures u == 0
  {
    hide Poly, Mixed, TopBit, Shifted;
    PolyIs();
    TopIs(u);
    MixedNought(Shifted(u), Poly(TopBit(u)));
  }

  // The polynomial ends in one, so no two remainders become one.
  lemma BitTells(a: bv32, b: bv32)
    requires Bit(a) == Bit(b)
    ensures a == b
  {
    hide Bit, Mixed;
    BitMixed(a, b);
    MixedNought(a, b);
    MixedNought(Bit(a), Bit(b));
    BitZero(Mixed(a, b));
  }

  function Bits(u: bv32, n: nat): bv32 {
    if n == 0 then u else Bit(Bits(u, n - 1))
  }

  lemma EightBits(u: bv32)
    ensures Eight(u) == Bits(u, 8)
  {
    hide Bit;
    assert Bits(u, 1) == Bit(u);
    assert Bits(u, 2) == Bit(Bit(u));
    assert Bits(u, 4) == Bit(Bit(Bits(u, 2)));
    assert Bits(u, 6) == Bit(Bit(Bits(u, 4)));
  }

  lemma {:induction false} BitsMixed(a: bv32, b: bv32, n: nat)
    ensures Bits(Mixed(a, b), n) == Mixed(Bits(a, n), Bits(b, n)) && (Bits(a, n) == Bits(b, n) ==> a == b)
  {
    hide Bit, Mixed;
    if n > 0 {
      BitsMixed(a, b, n - 1);
      var u, v := Bits(a, n - 1), Bits(b, n - 1);
      BitMixed(u, v);
      if Bit(u) == Bit(v) {
        BitTells(u, v);
      }
    }
  }

  lemma EightMixed(a: bv32, b: bv32)
    ensures Eight(Mixed(a, b)) == Mixed(Eight(a), Eight(b)) && (Eight(a) == Eight(b) ==> a == b)
  {
    hide *;
    EightBits(a);
    EightBits(b);
    EightBits(Mixed(a, b));
    BitsMixed(a, b, 8);
  }

  lemma EightLow(x: bv32)
    requires x < 0x100_0000
    ensures Eight(x) == x << 8
  {
  }

  // A byte at the top of a word, and a word without its lowest byte.
  function Top(w: bv32): bv32 {
    w << 24
  }

  function Down(u: bv32): bv32 {
    u >> 8
  }

  lemma LowPart(crc: bv32)
    ensures crc & 0xff_ffff < 0x100_0000
  {
  }

  lemma LowShifted(crc: bv32)
    ensures (crc & 0xff_ffff) << 8 == crc << 8
  {
  }

  lemma Parts(crc: bv32, w: bv32)
    ensures Mixed(Top((crc >> 24) ^ w), crc & 0xff_ffff) == Mixed(crc, Top(w))
  {
  }

  lemma Small(crc: bv32, w: bv32)
    requires w < 256
    ensures (crc >> 24) ^ w < 256
  {
  }

  lemma UpdateParts(crc: bv32, c: byte, top: bv32, low: bv32)
    requires top == (crc >> 24) ^ Wide(c) && top < 256
    ensures Update(crc, c) == Mixed(Entry(top), crc << 8) && Top(top) == top << 24
  {
    hide Entry, Wide;
  }

  // One byte more: the byte meets the top of the register, and eight bits are divided out.
  lemma UpdateIs(crc: bv32, c: byte)
    ensures Update(crc, c) == Eight(Mixed(crc, Top(Wide(c))))
  {
    hide Eight, Entry, Mixed, Wide, Update, Top;
    var top, low := (crc >> 24) ^ Wide(c), crc & 0xff_ffff;
    Small(crc, Wide(c));
    LowPart(crc);
    LowShifted(crc);
    Parts(crc, Wide(c));
    UpdateParts(crc, c, top, low);
    EntryIs(top);
    EightLow(low);
    EightMixed(Top(top), low);
  }

  // Up to four bytes at the top of a word.
  function Word(x: seq<byte>): bv32 {
    if x == [] then 0 else Mixed(Top(Wide(x[0])), Down(Word(x[1..])))
  }

  // The places that n bytes at the top of a word leave free.
  function Below(n: nat): bv32 {
    if n == 0 then 0xffff_ffff else Down(Below(n - 1))
  }

  predicate Clear(u: bv32, low: bv32) {
    u & low == 0
  }

  lemma Above(w: bv32, u: bv32, low: bv32)
    requires w < 256 && Clear(u, low)
    ensures Clear(Mixed(Top(w), Down(u)), Down(low))
  {
  }

  lemma NoneClear()
    ensures Clear(0, 0xffff_ffff)
  {
  }

  lemma {:induction false} WordAbove(x: seq<byte>)
    ensures Clear(Word(x), Below(|x|))
  {
    hide Mixed, Wide, Top, Down, Clear;
    if x == [] {
      NoneClear();
    } else {
      WordAbove(x[1..]);
      Above(Wide(x[0]), Word(x[1..]), Below(|x| - 1));
    }
  }

  lemma BelowThree(n: nat)
    requires n <= 3
    ensures Below(n) & 0xff == 0xff
  {
    assert Below(1) == 0xff_ffff;
    assert Below(2) == 0xffff;
  }

  // Three bytes leave the lowest one free.
  lemma WordLow(x: seq<byte>)
    requires |x| <= 3
    ensures Eight(Down(Word(x))) == Word(x) && Word(x) & 0xff == 0
  {
    hide Word, Eight, Below;
    WordAbove(x);
    BelowThree(|x|);
    EightLow(Down(Word(x))) by {
      Lowest(Word(x), Below(|x|));
    }
    Lowest(Word(x), Below(|x|));
  }

  lemma Lowest(u: bv32, low: bv32)
    requires low & 0xff == 0xff && Clear(u, low)
    ensures Down(u) < 0x100_0000 && Down(u) << 8 == u && u & 0xff == 0
  {
  }

  lemma Cancel(r: bv32, a: bv32, b: bv32)
    ensures Mixed(r, a) == Mixed(r, b) ==> a == b
  {
    hide Mixed;
    MixedTwice(r, a);
    MixedTwice(r, b);
  }

  lemma CancelBehind(r: bv32, a: bv32, b: bv32)
    ensures Mixed(a, r) == Mixed(b, r) ==> a == b
  {
    hide Mixed;
    MixedTurn(a, r);
    MixedTurn(b, r);
    Cancel(r, a, b);
  }

  // n bytes of zero bits behind the remainder.
  function Advanced(u: bv32, n: nat): bv32
    decreases n
  {
    if n == 0 then u else Advanced(Eight(u), n - 1)
  }

  lemma FoldOne(r: bv32, x: seq<byte>)
    requires x != []
    ensures FoldCrc(Update, r, x) == FoldCrc(Update, Update(r, x[0]), x[1..])
  {
    hide Update;
    assert x == [] + [x[0]] + x[1..];
    FoldNothing(Update, r);
    FoldCrcStep(Update, r, [], x[0]);
    FoldCrcAppend(Update, r, [] + [x[0]], x[1..]);
  }

  // Up to four bytes may meet the register together.
  lemma {:induction false} FoldWord(r: bv32, x: seq<byte>)
    requires |x| <= 4
    ensures FoldCrc(Update, r, x) == Advanced(Mixed(r, Word(x)), |x|)
    decreases |x|
  {
    hide Update, Eight, Mixed, Wide, FoldCrc, Top, Down;
    if x == [] {
      FoldNothing(Update, r);
      MixedNone(r);
    } else {
      var w, rest := Top(Wide(x[0])), x[1..];
      FoldOne(r, x);
      FoldWord(Update(r, x[0]), rest);
      UpdateIs(r, x[0]);
      WordLow(rest);
      EightMixed(Mixed(r, w), Down(Word(rest)));
      MixedAssoc(r, w, Down(Word(rest)));
    }
  }

  lemma {:induction false} FoldTells(r: bv32, q: bv32, s: seq<byte>)
    requires FoldCrc(Update, r, s) == FoldCrc(Update, q, s)
    ensures r == q
    decreases |s|
  {
    hide Update, Eight, Mixed, Wide, FoldCrc, Top, Down;
    if s == [] {
      FoldNothing(Update, r);
      FoldNothing(Update, q);
    } else {
      FoldOne(r, s);
      FoldOne(q, s);
      FoldTells(Update(r, s[0]), Update(q, s[0]), s[1..]);
      UpdateIs(r, s[0]);
      UpdateIs(q, s[0]);
      EightMixed(Mixed(r, Top(Wide(s[0]))), Mixed(q, Top(Wide(s[0]))));
      CancelBehind(Top(Wide(s[0])), r, q);
    }
  }

  lemma {:induction false} AdvancedTells(u: bv32, v: bv32, n: nat)
    requires Advanced(u, n) == Advanced(v, n)
    ensures u == v
    decreases n
  {
    hide Eight;
    if n > 0 {
      AdvancedTells(Eight(u), Eight(v), n - 1);
      EightMixed(u, v);
    }
  }

  lemma SameTop(a: bv32, u: bv32, b: bv32, v: bv32)
    requires a < 256 && b < 256 && u & 0xff == 0 && v & 0xff == 0 && Mixed(Top(a), Down(u)) == Mixed(Top(b), Down(v))
    ensures a == b && u == v
  {
  }

  function Value(x: bv8): int {
    x as int
  }

  lemma ValueEnds()
    ensures Value(0) == 0 && Value(255) == 255
  {
  }

  lemma ValueNext(x: bv8)
    requires x != 255
    ensures Value(x + 1) == Value(x) + 1
  {
  }

  // Every byte is the value of eight bits.
  lemma {:induction false} EightBitsOf(c: byte) returns (x: bv8)
    ensures Value(x) == c
  {
    hide Value;
    ValueEnds();
    if c == 0 {
      x := 0;
    } else {
      var y := EightBitsOf(c - 1);
      ValueNext(y);
      x := y + 1;
    }
  }

  lemma EightBit(x: bv8)
    ensures (x as int) as bv8 == x
  {
  }

  lemma WideIs(c: byte, x: bv8)
    requires c == Value(x)
    ensures Wide(c) == x as bv32
  {
    EightBit(x);
  }

  lemma WideTells(c: byte, d: byte)
    ensures Wide(c) == Wide(d) ==> c == d
  {
    hide Wide, Value;
    var x := EightBitsOf(c);
    var y := EightBitsOf(d);
    WideIs(c, x);
    WideIs(d, y);
    Widened(x, y);
  }

  lemma Widened(x: bv8, y: bv8)
    ensures x as bv32 == y as bv32 ==> x == y
  {
  }

  lemma {:induction false} WordTells(x: seq<byte>, y: seq<byte>)
    requires |x| == |y| <= 4 && Word(x) == Word(y)
    ensures x == y
    decreases |x|
  {
    hide Mixed, Wide, Top, Down, Eight;
    if x != [] {
      var u, v := x[1..], y[1..];
      WordLow(u);
      WordLow(v);
      SameTop(Wide(x[0]), Word(u), Wide(y[0]), Word(v));
      WideTells(x[0], y[0]);
      WordTells(u, v);
      assert x == [x[0]] + u && y == [y[0]] + v;
    }
  }

  lemma FinaliseTells(a: bv32, b: bv32)
    ensures Finalise(a) == Finalise(b) ==> a == b
  {
  }

  // Two blocks that differ in up to four neighbouring bytes have different checksums.
  lemma BurstShows(a: seq<byte>, x: seq<byte>, y: seq<byte>, b: seq<byte>)
    requires |x| == |y| <= 4 && x != y
    ensures Checksum(a + (x + b)) != Checksum(a + (y + b))
  {
    hide Update, FoldCrc, Word, Advanced, Mixed, Finalise;
    if Checksum(a + (x + b)) == Checksum(a + (y + b)) {
      var r := FoldCrc(Update, 0xffff_ffff, a);
      FinaliseTells(FoldCrc(Update, 0xffff_ffff, a + (x + b)), FoldCrc(Update, 0xffff_ffff, a + (y + b)));
      FoldCrcAppend(Update, 0xffff_ffff, a, x + b);
      FoldCrcAppend(Update, 0xffff_ffff, a, y + b);
      FoldCrcAppend(Update, r, x, b);
      FoldCrcAppend(Update, r, y, b);
      FoldTells(FoldCrc(Update, r, x), FoldCrc(Update, r, y), b);
      FoldWord(r, x);
      FoldWord(r, y);
      AdvancedTells(Mixed(r, Word(x)), Mixed(r, Word(y)), |x|);
      Cancel(r, Word(x), Word(y));
      WordTells(x, y);
    }
  }

  // ---- the checksum of a block that ends in its checksum ----

  function Narrow(x: bv32): (c: byte)
    requires x < 256
  {
    (x as bv8) as int
  }

  lemma WideNarrow(x: bv32)
    requires x < 256
    ensures Wide(Narrow(x)) == x
  {
    EightBit(x as bv8);
    Narrowed(x);
  }

  lemma Narrowed(x: bv32)
    requires x < 256
    ensures (x as bv8) as bv32 == x
  {
  }

  // The four bytes of a word, the highest first.
  function Bytes(c: bv32): (s: seq<byte>)
    ensures |s| == 4
  {
    [Narrow(c >> 24), Narrow((c >> 16) & 0xff), Narrow((c >> 8) & 0xff), Narrow(c & 0xff)]
  }

  lemma FourParts(c: bv32)
    ensures Mixed(Top(c >> 24), Down(Mixed(Top((c >> 16) & 0xff), Down(Mixed(Top((c >> 8) & 0xff), Down(Mixed(Top(c & 0xff), Down(0)))))))) == c
  {
  }

  lemma WordOfBytes(c: bv32)
    ensures Word(Bytes(c)) == c
  {
    hide Mixed, Wide, Narrow, Top, Down;
    WideNarrow(c >> 24);
    WideNarrow((c >> 16) & 0xff);
    WideNarrow((c >> 8) & 0xff);
    WideNarrow(c & 0xff);
    FourParts(c);
    var b := Bytes(c);
    assert b[1..][1..] == b[2..] && b[2..][1..] == b[3..] && b[3..][1..] == [];
    assert Word(b[3..]) == Mixed(Top(Wide(b[3])), Down(0));
    assert Word(b[2..]) == Mixed(Top(Wide(b[2])), Down(Word(b[3..])));
  }

  lemma AllOnes(r: bv32)
    ensures Mixed(r, Finalise(r)) == 0xffff_ffff
  {
  }

  lemma Remainder()
    ensures Advanced(0xffff_ffff, 4) == 0xc704_dd7b
  {
    assert Eight(0xffff_ffff) == 0x4e08_bfb4;
    assert Eight(0x4e08_bfb4) == 0x00b7_647d;
    assert Eight(0x00b7_647d) == 0xb764_7d00;
    assert Eight(0xb764_7d00) == 0xc704_dd7b;
    hide Eight;
  }

  // A block followed by its own checksum has one and the same checksum, whatever the block,
  // and the empty block has checksum zero.
  lemma Residue(s: seq<byte>)
    ensures Checksum(s + Bytes(Checksum(s))) == 0x38fb_2284 && Checksum([]) == 0
  {
    hide Update, Word, Mixed, FoldCrc, Advanced, Bytes;
    var r := FoldCrc(Update, 0xffff_ffff, s);
    var c := Finalise(r);
    FoldCrcAppend(Update, 0xffff_ffff, s, Bytes(c));
    FoldWord(r, Bytes(c));
    WordOfBytes(c);
    AllOnes(r);
    Remainder();
    FoldNothing(Update, 0xffff_ffff);
  }
}
