// What precedes the symbols of a block on the wire: the map of used bytes, the table
// selectors and the code lengths, written with bsW and read back with GET_BITS.
module SideInfo {
  import opened Powers
  import opened Bits
  import opened BitIO

  function Bit(x: bool): (s: seq<bit>)
    ensures |s| == 1
  {
    [if x then 1 else 0]
  }

  lemma OneBit(x: bool)
    ensures ToBits(if x then 1 else 0, 1) == Bit(x) && Pow2(1) == 2
  {
    assert ToBits(0, 0) == [];
  }

  // Reading one bit.
  method GetBit(r: BitReader) returns (ok: bool, v: nat)
    requires r.Valid()
    modifies r
    ensures r.Valid() && (ok <==> old(r.Stream()) != [])
    ensures ok ==> v == old(r.Stream())[0] && r.Stream() == old(r.Stream())[1..]
    ensures !ok ==> r.Stream() == old(r.Stream())
  {
    ghost var s := r.Stream();
    ok, v := r.GetBits(1);
    if ok {
      assert s[..1][..0] == [];
    }
  }

  // Writing one bit in front of what is still to be written.
  method PutBit(w: BitWriter, x: bool)
    requires w.Valid()
    modifies w
    ensures w.Valid() && w.Written() == old(w.Written()) + Bit(x)
  {
    OneBit(x);
    if x {
      w.W(1, 1);
    } else {
      w.W(1, 0);
    }
  }

  lemma Join(a: seq<bit>, b: seq<bit>, c: seq<bit>)
    ensures a + (b + c) == (a + b) + c
  {
  }

  lemma BitFirst(x: bool, t: seq<bit>)
    ensures Bit(x) + t != [] && (Bit(x) + t)[0] == (if x then 1 else 0) && (Bit(x) + t)[1..] == t
  {
  }

  // ---- the map of used bytes ----

  predicate RowUsed(inUse: seq<bool>, i: int)
    requires |inUse| == 256 && 0 <= i < 16
  {
    exists k :: 16 * i <= k < 16 * i + 16 && inUse[k]
  }

  function Flags(fs: seq<bool>): (s: seq<bit>)
    ensures |s| == |fs|
  {
    seq(|fs|, k requires 0 <= k < |fs| => if fs[k] then 1 else 0)
  }

  function Row(inUse: seq<bool>, i: int): (row: seq<bool>)
    requires |inUse| == 256 && 0 <= i < 16
    ensures |row| == 16
  {
    inUse[16 * i..16 * i + 16]
  }

  // Which rows of sixteen have a byte in use.
  function RowMap(inUse: seq<bool>): (rows: seq<bool>)
    requires |inUse| == 256
    ensures |rows| == 16
  {
    seq(16, i requires 0 <= i < 16 => RowUsed(inUse, i))
  }

  // The bits of the rows in use from row i on.
  function UsedRows(inUse: seq<bool>, i: nat): seq<bit>
    requires |inUse| == 256 && i <= 16
    decreases 16 - i
  {
    if i == 16 then [] else (if RowUsed(inUse, i) then Flags(Row(inUse, i)) else []) + UsedRows(inUse, i + 1)
  }

  function MapBits(inUse: seq<bool>): seq<bit>
    requires |inUse| == 256
  {
    Flags(RowMap(inUse)) + UsedRows(inUse, 0)
  }

  method SendFlags(w: BitWriter, fs: seq<bool>)
    requires w.Valid()
    modifies w
    ensures w.Valid() && w.Written() == old(w.Written()) + Flags(fs)
  {
    hide BitWriter.Valid, BitWriter.Written;
    ghost var start := w.Written();
    for i := 0 to |fs|
      invariant w.Valid() && w.Written() == start + Flags(fs)[..i]
    {
      PutBit(w, fs[i]);
      assert Flags(fs)[..i + 1] == Flags(fs)[..i] + Bit(fs[i]);
    }
    assert Flags(fs)[..|fs|] == Flags(fs);
  }

  method SendMap(w: BitWriter, inUse: seq<bool>)
    requires w.Valid() && |inUse| == 256
    modifies w
    ensures w.Valid() && w.Written() == old(w.Written()) + MapBits(inUse)
  {
    hide BitWriter.Valid, BitWriter.Written, Flags, RowUsed;
    ghost var start := w.Written();
    var inUse16 := Rows(inUse);
    SendFlags(w, inUse16);
    Join(start, Flags(inUse16), UsedRows(inUse, 0));
    for i := 0 to 16
      invariant w.Valid() && w.Written() + UsedRows(inUse, i) == start + MapBits(inUse)
    {
      if inUse16[i] {
        Join(w.Written(), Flags(Row(inUse, i)), UsedRows(inUse, i + 1));
        SendFlags(w, inUse[16 * i..16 * i + 16]);
      } else {
        assert [] + UsedRows(inUse, i + 1) == UsedRows(inUse, i + 1);
      }
    }
    assert w.Written() + [] == w.Written();
  }

  method Rows(inUse: seq<bool>) returns (inUse16: seq<bool>)
    requires |inUse| == 256
    ensures inUse16 == RowMap(inUse)
  {
    inUse16 := [];
    for i := 0 to 16
      invariant |inUse16| == i && forall k :: 0 <= k < i ==> inUse16[k] == RowUsed(inUse, k)
    {
      var any := false;
      for j := 0 to 16
        invariant any <==> exists k :: 16 * i <= k < 16 * i + j && inUse[k]
      {
        if inUse[i * 16 + j] {
          any := true;
        }
      }
      inUse16 := inUse16 + [any];
    }
  }

  // ---- reading the map back ----

  // Reading some value off a bit string: the value and what follows it, or why there is none.
  // Overrun stands for input on which the program leaves one of its arrays.
  datatype Parsed<T> = Done(value: T, rest: seq<bit>) | Corrupt | Starved | Overrun

  function Failing<T, U>(p: Parsed<T>): Parsed<U>
    requires !p.Done?
  {
    match p
    case Corrupt => Corrupt
    case Starved => Starved
    case Overrun => Overrun
  }

  // n flags.
  function ParseFlags(bits: seq<bit>, n: nat): Parsed<seq<bool>> {
    if |bits| < n then Starved else Done(seq(n, k requires 0 <= k < n => bits[k] == 1), bits[n..])
  }

  // The rows from row i on: sixteen flags for a row in use, none for the others.
  function ParseRows(bits: seq<bit>, used: seq<bool>, i: nat): (p: Parsed<seq<bool>>)
    requires |used| == 16 && i <= 16
    ensures p.Done? ==> |p.value| == 16 * (16 - i)
    decreases 16 - i
  {
    if i == 16 then Done([], bits)
    else
      var row := if used[i] then ParseFlags(bits, 16) else Done(seq(16, _ => false), bits);
      if row.Done? then AfterRow(row.value, ParseRows(row.rest, used, i + 1)) else row
  }

  function AfterRow(row: seq<bool>, p: Parsed<seq<bool>>): Parsed<seq<bool>> {
    if p.Done? then Done(row + p.value, p.rest) else p
  }

  function ParseMap(bits: seq<bit>): (p: Parsed<seq<bool>>)
    ensures p.Done? ==> |p.value| == 256
  {
    var rows := ParseFlags(bits, 16);
    if rows.Done? then ParseRows(rows.rest, rows.value, 0) else rows
  }

  lemma FlagsParse(fs: seq<bool>, t: seq<bit>)
    ensures ParseFlags(Flags(fs) + t, |fs|) == Done(fs, t)
  {
    var bits := Flags(fs) + t;
    var v := ParseFlags(bits, |fs|).value;
    forall k | 0 <= k < |fs| ensures v[k] == fs[k] {
      assert bits[k] == Flags(fs)[k];
    }
    assert v == fs && bits[|fs|..] == t;
  }

  lemma {:induction false} RowsParse(inUse: seq<bool>, i: nat, t: seq<bit>)
    requires |inUse| == 256 && i <= 16
    ensures ParseRows(UsedRows(inUse, i) + t, RowMap(inUse), i) == Done(inUse[16 * i..], t)
    decreases 16 - i
  {
    if i == 16 {
      assert [] + t == t;
    } else {
      RowsParse(inUse, i + 1, t);
      var more := UsedRows(inUse, i + 1) + t;
      assert inUse[16 * i..] == Row(inUse, i) + inUse[16 * (i + 1)..];
      hide Flags, ParseFlags;
      if RowUsed(inUse, i) {
        Join(Flags(Row(inUse, i)), UsedRows(inUse, i + 1), t);
        FlagsParse(Row(inUse, i), more);
      } else {
        NoneUsed(inUse, i);
        assert [] + UsedRows(inUse, i + 1) == UsedRows(inUse, i + 1);
      }
      hide RowUsed, Row;
    }
  }

  lemma NoneUsed(inUse: seq<bool>, i: int)
    requires |inUse| == 256 && 0 <= i < 16 && !RowUsed(inUse, i)
    ensures Row(inUse, i) == seq(16, _ => false)
  {
    assert forall k :: 16 * i <= k < 16 * i + 16 ==> !inUse[k];
  }

  // The map is read back as it was written, whatever follows it.
  lemma MapParses(inUse: seq<bool>, t: seq<bit>)
    requires |inUse| == 256
    ensures ParseMap(MapBits(inUse) + t) == Done(inUse, t)
  {
    hide RowUsed, ParseRows, UsedRows, RowMap, Flags, ParseFlags;
    Join(Flags(RowMap(inUse)), UsedRows(inUse, 0), t);
    FlagsParse(RowMap(inUse), UsedRows(inUse, 0) + t);
    RowsParse(inUse, 0, t);
    assert inUse[16 * 0..] == inUse;
  }

  // n bits, one at a time.
  method ReceiveFlags(r: BitReader, n: nat) returns (ok: bool, flags: seq<bool>)
    requires r.Valid()
    modifies r
    ensures r.Valid()
    ensures if ok then ParseFlags(old(r.Stream()), n) == Done(flags, r.Stream()) else ParseFlags(old(r.Stream()), n) == Starved
  {
    hide BitReader.Valid, BitReader.Stream, Bit;
    ghost var all := r.Stream();
    flags := [];
    for j := 0 to n
      invariant r.Valid() && |flags| == j <= |all| && r.Stream() == all[j..]
      invariant forall k :: 0 <= k < j ==> flags[k] == (all[k] == 1)
    {
      var uc;
      ok, uc := GetBit(r);
      if !ok {
        return;
      }
      flags := flags + [uc == 1];
    }
    FlagsAre(all, n, flags);
    ok := true;
  }

  method ReceiveMap(r: BitReader) returns (ok: bool, inUse: seq<bool>)
    requires r.Valid()
    modifies r
    ensures r.Valid()
    ensures if ok then ParseMap(old(r.Stream())) == Done(inUse, r.Stream()) else ParseMap(old(r.Stream())) == Starved
  {
    hide BitReader.Valid, BitReader.Stream, ParseFlags;
    ghost var p := ParseMap(r.Stream());
    var inUse16;
    FlagsLength(r.Stream());
    ok, inUse16 := ReceiveFlags(r, 16);
    inUse := [];
    if !ok {
      return;
    }
    NothingBefore(p);
    for i := 0 to 16
      invariant r.Valid() && |inUse16| == 16 && p == AfterRow(inUse, ParseRows(r.Stream(), inUse16, i))
    {
      ghost var before := inUse;
      var row := seq(16, _ => false);
      if inUse16[i] {
        ok, row := ReceiveFlags(r, 16);
        if !ok {
          return;
        }
      }
      RowAfterRow(before, row, ParseRows(r.Stream(), inUse16, i + 1));
      inUse := inUse + row;
    }
    assert inUse + [] == inUse;
    ok := true;
  }

  lemma FlagsAre(bits: seq<bit>, n: nat, flags: seq<bool>)
    requires |flags| == n <= |bits| && forall k :: 0 <= k < n ==> flags[k] == (bits[k] == 1)
    ensures ParseFlags(bits, n) == Done(flags, bits[n..])
  {
    assert ParseFlags(bits, n).value == flags;
  }

  lemma FlagsLength(bits: seq<bit>)
    ensures ParseFlags(bits, 16).Done? ==> |ParseFlags(bits, 16).value| == 16
  {
  }

  lemma NothingBefore(p: Parsed<seq<bool>>)
    ensures AfterRow([], p) == p
  {
    if p.Done? {
      assert [] + p.value == p.value;
    }
  }

  lemma RowAfterRow(a: seq<bool>, b: seq<bool>, p: Parsed<seq<bool>>)
    ensures AfterRow(a, AfterRow(b, p)) == AfterRow(a + b, p)
  {
    if p.Done? {
      assert a + (b + p.value) == (a + b) + p.value;
    }
  }
}
