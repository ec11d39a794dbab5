// Move-to-front coding with bijective base-2 run lengths: what the symbol stream between
// the rotation sort and the Huffman coder means, in both directions.
module Mtf {
  import opened Powers
  import opened Rotations
  import opened RunLength

  const RUNA := 0
  const RUNB := 1

  function MoveToFront(l: seq<byte>, k: int): (m: seq<byte>)
    requires 0 <= k < |l|
    ensures |m| == |l|
  {
    [l[k]] + l[..k] + l[k + 1..]
  }

  // Where c first stands in the list.
  function IndexOf(l: seq<byte>, c: byte): (k: int)
    requires c in l
    ensures 0 <= k < |l| && l[k] == c && forall i :: 0 <= i < k ==> l[i] != c
  {
    if l[0] == c then 0 else 1 + IndexOf(l[1..], c)
  }

  // Every byte of col is in the list.
  ghost predicate Drawn(col: seq<byte>, l: seq<byte>) {
    forall i :: 0 <= i < |col| ==> col[i] in l
  }

  lemma DrawnRest(col: seq<byte>, l: seq<byte>)
    requires Drawn(col, l) && col != []
    ensures col[0] in l && Drawn(col[1..], l)
  {
  }

  // A run length in bijective base 2, least significant digit first: RUNA counts one,
  // RUNB two.
  function Digits(n: nat): (ds: seq<int>)
    ensures |ds| <= n && forall i :: 0 <= i < |ds| ==> ds[i] == RUNA || ds[i] == RUNB
    ensures n > 0 ==> |ds| > 0
  {
    if n == 0 then [] else [(n - 1) % 2] + Digits((n - 1) / 2)
  }

  function RunValue(ds: seq<int>): int {
    if ds == [] then 0 else (ds[0] + 1) + 2 * RunValue(ds[1..])
  }

  // The digit at place i stands for 2^i if it is RUNA and for 2^(i+1) if it is RUNB.
  function PlaceSum(ds: seq<int>): nat {
    if ds == [] then 0
    else PlaceSum(ds[..|ds| - 1]) + if ds[|ds| - 1] == RUNA then Pow2(|ds| - 1) else Pow2(|ds|)
  }

  lemma {:induction false} RunValueIsPlaceSum(ds: seq<int>)
    requires forall i :: 0 <= i < |ds| ==> ds[i] == RUNA || ds[i] == RUNB
    ensures RunValue(ds) == PlaceSum(ds)
  {
    if ds != [] {
      var front, d := ds[..|ds| - 1], ds[|ds| - 1];
      RunValueIsPlaceSum(front);
      RunValueAppend(front, d);
      assert front + [d] == ds;
    }
  }

  lemma {:induction false} RunValueAppend(ds: seq<int>, d: int)
    requires 0 <= d <= 1
    ensures RunValue(ds + [d]) == RunValue(ds) + if d == 0 then Pow2(|ds|) else 2 * Pow2(|ds|)
  {
    if ds != [] {
      RunValueAppend(ds[1..], d);
      assert (ds + [d])[1..] == ds[1..] + [d];
    } else {
      assert RunValue([d]) == d + 1;
    }
  }

  lemma {:induction false} ValueOfDigits(n: nat)
    ensures RunValue(Digits(n)) == n
  {
    if n > 0 {
      ValueOfDigits((n - 1) / 2);
      assert Digits(n)[1..] == Digits((n - 1) / 2);
    }
  }

  lemma {:induction false} DigitsOfValue(ds: seq<int>)
    requires forall i :: 0 <= i < |ds| ==> ds[i] == RUNA || ds[i] == RUNB
    ensures RunValue(ds) >= 0 && Digits(RunValue(ds)) == ds
  {
    if ds != [] {
      DigitsOfValue(ds[1..]);
      var v := RunValue(ds);
      assert (v - 1) % 2 == ds[0] && (v - 1) / 2 == RunValue(ds[1..]);
      assert ds == [ds[0]] + ds[1..];
    }
  }

  // A run of fewer than 2^(k+1) - 1 needs at most k digits.
  lemma {:induction false} FewDigits(n: nat, k: nat)
    requires n + 1 < Pow2(k + 1)
    ensures |Digits(n)| <= k
  {
    assert Pow2(1) == 2;
    if n > 0 && k > 0 {
      FewDigits((n - 1) / 2, k - 1);
    }
  }

  // ---- the encoder's symbols ----

  // Symbols for column col, list l and z pending repeats of the front symbol.
  ghost function Encode(l: seq<byte>, col: seq<byte>, z: nat, eob: int): (ss: seq<int>)
    requires l != [] && Drawn(col, l)
    decreases |col|
  {
    if col == [] then Digits(z) + [eob]
    else if col[0] == l[0] then Encode(l, col[1..], z + 1, eob)
    else
      var k := IndexOf(l, col[0]);
      MoveKeeps(l, k);
      assert Drawn(col[1..], MoveToFront(l, k));
      Digits(z) + [k + 1] + Encode(MoveToFront(l, k), col[1..], 0, eob)
  }

  lemma MoveKeeps(l: seq<byte>, k: int)
    requires 0 <= k < |l|
    ensures forall c :: c in l <==> c in MoveToFront(l, k)
  {
    var m := MoveToFront(l, k);
    assert l == l[..k] + [l[k]] + l[k + 1..];
  }

  // At most one symbol for every byte, and the end marker.
  lemma {:induction false} EncodeShort(l: seq<byte>, col: seq<byte>, z: nat, eob: int)
    requires l != [] && Drawn(col, l)
    ensures 1 <= |Encode(l, col, z, eob)| <= |col| + z + 1
    decreases |col|
  {
    if col != [] {
      DrawnRest(col, l);
      if col[0] == l[0] {
        EncodeShort(l, col[1..], z + 1, eob);
      } else {
        var k := IndexOf(l, col[0]);
        MoveKeeps(l, k);
        assert Drawn(col[1..], MoveToFront(l, k));
        EncodeShort(MoveToFront(l, k), col[1..], 0, eob);
      }
    }
  }

  // ---- the decoder's reading of them ----

  datatype Parsed = Ok(out: seq<byte>, rest: seq<int>) | DataError | NeedInput

  function Prepend(s: seq<byte>, p: Parsed): Parsed {
    if p.Ok? then Ok(s + p.out, p.rest) else p
  }

  // How many symbols at the front are run digits.
  function DigitRun(ss: seq<int>): (k: nat)
    ensures k <= |ss| && forall i :: 0 <= i < k ==> ss[i] == RUNA || ss[i] == RUNB
    ensures k < |ss| ==> ss[k] != RUNA && ss[k] != RUNB
  {
    if ss != [] && (ss[0] == RUNA || ss[0] == RUNB) then 1 + DigitRun(ss[1..]) else 0
  }

  // Reading symbols into at most room bytes.  A 22nd digit of one run is an error even
  // before the run is complete.
  function Decode(l: seq<byte>, ss: seq<int>, room: nat, eob: int): (p: Parsed)
    requires eob >= 2 && eob <= |l| + 1 && l != [] && forall i :: 0 <= i < |ss| ==> 0 <= ss[i] <= eob
    decreases |ss|
  {
    if ss == [] then NeedInput
    else if ss[0] == eob then Ok([], ss[1..])
    else if ss[0] == RUNA || ss[0] == RUNB then
      var k := DigitRun(ss);
      if k > 21 then DataError
      else if k == |ss| then NeedInput
      else
        var v := RunValue(ss[..k]);
        if v < 0 || v > room then DataError
        else Prepend(Repeat(l[0], v), Decode(l, ss[k..], room - v, eob))
    else if room == 0 then DataError
    else
      var k := ss[0] - 1;
      Prepend([l[k]], Decode(MoveToFront(l, k), ss[1..], room - 1, eob))
  }

  lemma {:induction false} DigitRunIs(ds: seq<int>, tail: seq<int>)
    requires forall i :: 0 <= i < |ds| ==> ds[i] == RUNA || ds[i] == RUNB
    requires tail != [] ==> tail[0] >= 2
    ensures DigitRun(ds + tail) == |ds|
  {
    if ds != [] {
      assert (ds + tail)[1..] == ds[1..] + tail;
      DigitRunIs(ds[1..], tail);
    } else {
      assert ds + tail == tail;
    }
  }

  ghost predicate InRange(ss: seq<int>, eob: int) {
    forall i :: 0 <= i < |ss| ==> 0 <= ss[i] <= eob
  }

  // A complete run decodes to that many copies of the front symbol.
  lemma DecodeRun(l: seq<byte>, z: nat, tail: seq<int>, room: nat, eob: int)
    requires 2 <= eob <= |l| + 1 && l != [] && InRange(tail, eob) && tail != [] && tail[0] >= 2
    requires z <= room < Pow2(21)
    ensures InRange(Digits(z) + tail, eob)
    ensures Decode(l, Digits(z) + tail, room, eob) == Prepend(Repeat(l[0], z), Decode(l, tail, room - z, eob))
  {
    var ds := Digits(z);
    if z == 0 {
      assert ds + tail == tail;
      assert Repeat(l[0], 0) == [];
      var p := Decode(l, tail, room, eob);
      assert p.Ok? ==> [] + p.out == p.out;
    } else {
      ValueOfDigits(z);
      FewDigits(z, 21);
      DecodeDigits(l, ds, z, tail, room, eob);
    }
  }

  lemma DecodeDigits(l: seq<byte>, ds: seq<int>, v: nat, tail: seq<int>, room: nat, eob: int)
    requires 2 <= eob <= |l| + 1 && l != [] && InRange(tail, eob) && tail != [] && tail[0] >= 2
    requires 0 < |ds| <= 21 && RunValue(ds) == v <= room && forall i :: 0 <= i < |ds| ==> ds[i] == RUNA || ds[i] == RUNB
    ensures InRange(ds + tail, eob)
    ensures Decode(l, ds + tail, room, eob) == Prepend(Repeat(l[0], v), Decode(l, tail, room - v, eob))
  {
    DigitRunIs(ds, tail);
    hide DigitRun, RunValue, Repeat;
    assert (ds + tail)[..|ds|] == ds && (ds + tail)[|ds|..] == tail;
  }

  lemma DecodeOne(l: seq<byte>, k: int, tail: seq<int>, room: nat, eob: int)
    requires 2 <= eob <= |l| + 1 && l != [] && InRange(tail, eob) && 1 <= k < eob - 1 && room >= 1
    ensures InRange([k + 1] + tail, eob)
    ensures Decode(l, [k + 1] + tail, room, eob) == Prepend([l[k]], Decode(MoveToFront(l, k), tail, room - 1, eob))
  {
    assert ([k + 1] + tail)[1..] == tail;
  }

  lemma {:induction false} RepeatMore(c: byte, z: nat, s: seq<byte>)
    ensures Repeat(c, z) + ([c] + s) == Repeat(c, z + 1) + s
  {
    if z > 0 {
      RepeatMore(c, z - 1, s);
    }
  }

  // Reading what the encoder wrote gives the column back and stops right after the end
  // marker, whatever follows; no error branch is taken.
  lemma {:induction false} DecodeEncode(l: seq<byte>, col: seq<byte>, z: nat, rest: seq<int>, room: nat, eob: int)
    requires 2 <= eob <= |l| + 1 && l != [] && InRange(rest, eob)
    requires Drawn(col, l[..eob - 1])
    requires z + |col| <= room < Pow2(21)
    ensures Drawn(col, l)
    ensures InRange(Encode(l, col, z, eob) + rest, eob)
    ensures Decode(l, Encode(l, col, z, eob) + rest, room, eob) == Ok(Repeat(l[0], z) + col, rest)
    decreases |col|, 1
  {
    DrawnPrefix(col, l, eob - 1);
    if col == [] {
      DecodeEnd(l, z, rest, room, eob);
      assert Repeat(l[0], z) + [] == Repeat(l[0], z) + col;
    } else if col[0] == l[0] {
      DrawnRest(col, l[..eob - 1]);
      DecodeEncode(l, col[1..], z + 1, rest, room, eob);
      RepeatMore(l[0], z, col[1..]);
      assert col == [col[0]] + col[1..];
    } else {
      DecodeEncodeMoved(l, col, z, rest, room, eob);
    }
  }

  lemma DecodeEnd(l: seq<byte>, z: nat, rest: seq<int>, room: nat, eob: int)
    requires 2 <= eob <= |l| + 1 && l != [] && InRange(rest, eob) && z <= room < Pow2(21)
    ensures InRange(Digits(z) + [eob] + rest, eob)
    ensures Decode(l, Digits(z) + [eob] + rest, room, eob) == Ok(Repeat(l[0], z) + [], rest)
  {
    assert Digits(z) + [eob] + rest == Digits(z) + ([eob] + rest);
    DecodeRun(l, z, [eob] + rest, room, eob);
    assert ([eob] + rest)[1..] == rest;
  }

  // The case of a symbol other than the front one.
  lemma DecodeEncodeMoved(l: seq<byte>, col: seq<byte>, z: nat, rest: seq<int>, room: nat, eob: int)
    requires 2 <= eob <= |l| + 1 && l != [] && InRange(rest, eob)
    requires Drawn(col, l[..eob - 1]) && Drawn(col, l) && col != [] && col[0] != l[0]
    requires z + |col| <= room < Pow2(21)
    ensures InRange(Encode(l, col, z, eob) + rest, eob)
    ensures Decode(l, Encode(l, col, z, eob) + rest, room, eob) == Ok(Repeat(l[0], z) + col, rest)
    decreases |col|, 0
  {
    hide Encode, Decode, MoveToFront, Digits, Drawn, InRange, Pow2;
    var k := DrawnMoved(l, col, eob - 1);
    var m, more := MoveToFront(l, k), col[1..];
    DecodeEncode(m, more, 0, rest, room - z - 1, eob);
    assert Repeat(m[0], 0) + more == more;
    EncodeMoved(l, col, z, eob, k);
    var code := Encode(m, more, 0, eob);
    DecodeMoved(l, k, z, code + rest, more, rest, room, eob);
    assert Digits(z) + [k + 1] + code + rest == Digits(z) + ([k + 1] + (code + rest));
    assert [l[k]] + more == col;
  }

  // ss ends in eob, which occurs nowhere else.
  predicate Closed(ss: seq<int>, eob: int) {
    ss != [] && ss[|ss| - 1] == eob && forall i :: 0 <= i < |ss| - 1 ==> ss[i] != eob
  }

  // The encoder's symbols stay in the alphabet and are closed by the end marker.
  lemma {:induction false} EncodeCloses(l: seq<byte>, col: seq<byte>, z: nat, eob: int)
    requires 2 <= eob <= |l| + 1 && l != [] && Drawn(col, l[..eob - 1])
    ensures Drawn(col, l) && InRange(Encode(l, col, z, eob), eob) && Closed(Encode(l, col, z, eob), eob)
    decreases |col|
  {
    hide Drawn, InRange, Closed, Encode, Digits, IndexOf, MoveToFront;
    DrawnPrefix(col, l, eob - 1);
    if col == [] {
      DigitsClose(z, [eob], eob);
      EncodeNone(l, col, z, eob);
    } else if col[0] == l[0] {
      DrawnRest(col, l[..eob - 1]);
      EncodeCloses(l, col[1..], z + 1, eob);
      EncodeFront(l, col, z, eob);
    } else {
      var k := DrawnMoved(l, col, eob - 1);
      EncodeCloses(MoveToFront(l, k), col[1..], 0, eob);
      EncodeMoved(l, col, z, eob, k);
      var more := Encode(MoveToFront(l, k), col[1..], 0, eob);
      SymbolCloses(k + 1, more, eob);
      DigitsClose(z, [k + 1] + more, eob);
      assert Digits(z) + [k + 1] + more == Digits(z) + ([k + 1] + more);
    }
  }

  lemma DigitsClose(z: nat, tail: seq<int>, eob: int)
    requires eob >= 2 && (tail == [eob] || (InRange(tail, eob) && Closed(tail, eob)))
    ensures InRange(Digits(z) + tail, eob) && Closed(Digits(z) + tail, eob)
  {
  }

  lemma SymbolCloses(k: int, tail: seq<int>, eob: int)
    requires 0 <= k < eob && InRange(tail, eob) && Closed(tail, eob)
    ensures InRange([k] + tail, eob) && Closed([k] + tail, eob)
  {
  }

  lemma EncodeNone(l: seq<byte>, col: seq<byte>, z: nat, eob: int)
    requires l != [] && col == [] && Drawn(col, l)
    ensures Encode(l, col, z, eob) == Digits(z) + [eob]
  {
  }

  lemma EncodeFront(l: seq<byte>, col: seq<byte>, z: nat, eob: int)
    requires l != [] && col != [] && Drawn(col, l) && col[0] == l[0] && Drawn(col[1..], l)
    ensures Encode(l, col, z, eob) == Encode(l, col[1..], z + 1, eob)
  {
  }

  // Pending repeats, one moved symbol, and a tail that is already understood.
  lemma DecodeMoved(l: seq<byte>, k: int, z: nat, tail: seq<int>, more: seq<byte>, rest: seq<int>, room: nat, eob: int)
    requires 2 <= eob <= |l| + 1 && InRange(tail, eob) && 1 <= k < eob - 1 && z < room < Pow2(21)
    requires Decode(MoveToFront(l, k), tail, room - z - 1, eob) == Ok(more, rest)
    ensures InRange(Digits(z) + ([k + 1] + tail), eob)
    ensures Decode(l, Digits(z) + ([k + 1] + tail), room, eob) == Ok(Repeat(l[0], z) + ([l[k]] + more), rest)
  {
    hide Decode, MoveToFront, Pow2;
    DecodeOne(l, k, tail, room - z, eob);
    DecodeRun(l, z, [k + 1] + tail, room, eob);
  }

  lemma DrawnMoved(l: seq<byte>, col: seq<byte>, n: int) returns (k: int)
    requires 0 <= n <= |l| && Drawn(col, l[..n]) && col != [] && l != [] && col[0] != l[0]
    ensures col[0] in l && k == IndexOf(l, col[0]) && 1 <= k < n && l[k] == col[0]
    ensures Drawn(col[1..], MoveToFront(l, k)[..n])
  {
    DrawnRest(col, l[..n]);
    IndexWithin(l, col[0], n);
    k := IndexOf(l, col[0]);
    MoveKeepsPrefix(l, k, n);
    DrawnSame(col[1..], l[..n], MoveToFront(l, k)[..n]);
  }

  lemma DrawnSame(col: seq<byte>, l: seq<byte>, m: seq<byte>)
    requires Drawn(col, l) && forall c :: c in l ==> c in m
    ensures Drawn(col, m)
  {
  }

  lemma EncodeMoved(l: seq<byte>, col: seq<byte>, z: nat, eob: int, k: int)
    requires l != [] && Drawn(col, l) && col != [] && col[0] != l[0] && col[0] in l && k == IndexOf(l, col[0])
    ensures Drawn(col[1..], MoveToFront(l, k))
    ensures Encode(l, col, z, eob) == Digits(z) + [k + 1] + Encode(MoveToFront(l, k), col[1..], 0, eob)
  {
    hide Drawn, MoveToFront, Digits, IndexOf;
    MoveKeeps(l, k);
    DrawnRest(col, l);
    DrawnSame(col[1..], l, MoveToFront(l, k));
  }

  lemma DrawnPrefix(col: seq<byte>, l: seq<byte>, n: int)
    requires 0 <= n <= |l| && Drawn(col, l[..n])
    ensures Drawn(col, l)
  {
  }

  lemma IndexWithin(l: seq<byte>, c: byte, n: int)
    requires 0 <= n <= |l| && c in l[..n]
    ensures c in l && IndexOf(l, c) < n
  {
    var i :| 0 <= i < n && l[..n][i] == c;
    assert l[i] == c;
  }

  lemma MoveKeepsPrefix(l: seq<byte>, k: int, n: int)
    requires 0 <= k < n <= |l|
    ensures MoveToFront(l, k)[..n] == MoveToFront(l[..n], k)
    ensures forall c :: c in l[..n] <==> c in MoveToFront(l, k)[..n]
  {
    var m := l[..n];
    assert l[..k] == m[..k] && l[k + 1..][..n - k - 1] == m[k + 1..];
    MoveKeeps(m, k);
  }

  // No two places hold the same byte.
  ghost predicate Distinct(l: seq<byte>) {
    forall i, j :: 0 <= i < j < |l| ==> l[i] != l[j]
  }

  lemma MoveDistinct(l: seq<byte>, k: int)
    requires Distinct(l) && 0 <= k < |l|
    ensures Distinct(MoveToFront(l, k))
  {
    var m := MoveToFront(l, k);
    forall i, j | 0 <= i < j < |m| ensures m[i] != m[j] {
      var a, b := if i == 0 then k else if i <= k then i - 1 else i, if j <= k then j - 1 else j;
      assert m[i] == l[a] && m[j] == l[b];
    }
  }

  lemma {:induction false} EncodeRepeats(l: seq<byte>, v: nat, col: seq<byte>, z: nat, eob: int)
    requires l != [] && Drawn(col, l)
    ensures Drawn(Repeat(l[0], v) + col, l)
    ensures Encode(l, Repeat(l[0], v) + col, z, eob) == Encode(l, col, z + v, eob)
  {
    var s := Repeat(l[0], v) + col;
    if v == 0 {
      assert s == col;
    } else {
      EncodeRepeats(l, v - 1, col, z + 1, eob);
      assert s[1..] == Repeat(l[0], v - 1) + col;
    }
  }

  // Pending repeats are written before anything that does not extend them.
  lemma EncodeFlushes(l: seq<byte>, col: seq<byte>, z: nat, eob: int)
    requires l != [] && Drawn(col, l) && (col != [] ==> col[0] != l[0])
    ensures Encode(l, col, z, eob) == Digits(z) + Encode(l, col, 0, eob)
  {
  }

  // p is what ss stands for: re-encoding it gives the symbols back.
  ghost predicate Recodes(l: seq<byte>, ss: seq<int>, p: Parsed, eob: int) {
    && l != [] && p.Ok? && Drawn(p.out, l) && ss == Encode(l, p.out, 0, eob) + p.rest
    && (ss != [] && ss[0] >= 2 && p.out != [] ==> p.out[0] != l[0])
  }

  lemma RecodesRun(l: seq<byte>, ss: seq<int>, k: int, v: nat, q: Parsed, eob: int)
    requires 0 < k < |ss| && ss[k] >= 2 && Digits(v) == ss[..k] && Recodes(l, ss[k..], q, eob) && ss[0] < 2
    ensures Recodes(l, ss, Prepend(Repeat(l[0], v), q), eob)
  {
    EncodeRepeats(l, v, q.out, 0, eob);
    EncodeFlushes(l, q.out, v, eob);
    hide Encode;
    assert ss == ss[..k] + ss[k..];
  }

  lemma RecodesOne(l: seq<byte>, ss: seq<int>, k: int, q: Parsed, eob: int)
    requires Distinct(l) && 1 <= k < |l| && ss != [] && ss[0] == k + 1 && Recodes(MoveToFront(l, k), ss[1..], q, eob)
    ensures Recodes(l, ss, Prepend([l[k]], q), eob)
  {
    MoveKeeps(l, k);
    var out := [l[k]] + q.out;
    assert out[1..] == q.out;
    assert Drawn(out, l);
    assert IndexOf(l, l[k]) == k;
    EncodeMoved(l, out, 0, eob, k);
    hide Encode;
    assert ss == [k + 1] + ss[1..];
  }

  // Every symbol string the decoder accepts is the encoding of what it decodes to: the code
  // is one-to-one.
  lemma {:induction false} EncodeDecode(l: seq<byte>, ss: seq<int>, room: nat, eob: int)
    requires 2 <= eob <= |l| + 1 && l != [] && Distinct(l) && InRange(ss, eob)
    requires Decode(l, ss, room, eob).Ok?
    ensures Recodes(l, ss, Decode(l, ss, room, eob), eob)
    decreases |ss|
  {
    if ss[0] == eob {
      assert ss == [eob] + ss[1..];
    } else if ss[0] == RUNA || ss[0] == RUNB {
      var k := DigitRun(ss);
      DigitsOfValue(ss[..k]);
      var v := RunValue(ss[..k]);
      EncodeDecode(l, ss[k..], room - v, eob);
      RecodesRun(l, ss, k, v, Decode(l, ss[k..], room - v, eob), eob);
    } else {
      var k := ss[0] - 1;
      MoveDistinct(l, k);
      EncodeDecode(MoveToFront(l, k), ss[1..], room - 1, eob);
      RecodesOne(l, ss, k, Decode(MoveToFront(l, k), ss[1..], room - 1, eob), eob);
    }
  }

  // ---- any symbols ----

  // Whatever the symbols, only the front of the list is drawn on, and the room is kept.
  lemma {:induction false} DecodeDrawn(l: seq<byte>, ss: seq<int>, room: nat, eob: int)
    requires 2 <= eob <= |l| + 1 && l != [] && InRange(ss, eob) && Decode(l, ss, room, eob).Ok?
    ensures var p := Decode(l, ss, room, eob); Drawn(p.out, l[..eob - 1]) && |p.out| <= room
    decreases |ss|
  {
    hide Drawn, DigitRun, RunValue, Repeat, MoveToFront;
    NothingDrawn(l[..eob - 1]);
    if ss[0] == eob {
    } else if ss[0] == RUNA || ss[0] == RUNB {
      var k := DigitRun(ss);
      var v := RunValue(ss[..k]);
      DecodeDrawn(l, ss[k..], room - v, eob);
      assert l[..eob - 1][0] == l[0];
      DrawnRepeat(l[0], v, Decode(l, ss[k..], room - v, eob).out, l[..eob - 1]);
    } else {
      var k := ss[0] - 1;
      var m := MoveToFront(l, k);
      DecodeDrawn(m, ss[1..], room - 1, eob);
      MoveKeepsPrefix(l, k, eob - 1);
      var q := Decode(m, ss[1..], room - 1, eob);
      DrawnSame(q.out, m[..eob - 1], l[..eob - 1]);
      assert l[..eob - 1][k] == l[k];
      DrawnRepeat(l[k], 1, q.out, l[..eob - 1]);
    }
  }

  lemma NothingDrawn(l: seq<byte>)
    ensures Drawn([], l)
  {
  }

  lemma DrawnRepeat(c: byte, v: nat, s: seq<byte>, l: seq<byte>)
    requires Drawn(s, l) && c in l
    ensures Drawn(Repeat(c, v) + s, l) && Repeat(c, 1) == [c]
  {
  }

  // Symbols closed by the end marker never leave the decoder waiting.
  lemma {:induction false} ClosedDecodes(l: seq<byte>, ss: seq<int>, room: nat, eob: int)
    requires 2 <= eob <= |l| + 1 && l != [] && InRange(ss, eob) && Closed(ss, eob)
    ensures !Decode(l, ss, room, eob).NeedInput? && (Decode(l, ss, room, eob).Ok? ==> Decode(l, ss, room, eob).rest == [])
    decreases |ss|
  {
    if ss[0] == eob {
    } else if ss[0] == RUNA || ss[0] == RUNB {
      var k := DigitRun(ss);
      if k <= 21 && 0 <= RunValue(ss[..k]) <= room {
        ClosedDecodes(l, ss[k..], room - RunValue(ss[..k]), eob);
      }
    } else if room > 0 {
      ClosedDecodes(MoveToFront(l, ss[0] - 1), ss[1..], room - 1, eob);
    }
  }

  // Without the end marker it never gets done.
  lemma {:induction false} OpenWaits(l: seq<byte>, ss: seq<int>, room: nat, eob: int)
    requires 2 <= eob <= |l| + 1 && l != [] && InRange(ss, eob) && eob !in ss
    ensures !Decode(l, ss, room, eob).Ok?
    decreases |ss|
  {
    if ss == [] {
    } else if ss[0] == RUNA || ss[0] == RUNB {
      var k := DigitRun(ss);
      if k <= 21 && k < |ss| && 0 <= RunValue(ss[..k]) <= room {
        OpenWaits(l, ss[k..], room - RunValue(ss[..k]), eob);
      }
    } else if room > 0 {
      OpenWaits(MoveToFront(l, ss[0] - 1), ss[1..], room - 1, eob);
    }
  }

  // An error stays one whatever follows.
  lemma {:induction false} DecodeMore(l: seq<byte>, ss: seq<int>, more: seq<int>, room: nat, eob: int)
    requires 2 <= eob <= |l| + 1 && l != [] && InRange(ss, eob) && InRange(ss + more, eob) && Decode(l, ss, room, eob).DataError?
    ensures Decode(l, ss + more, room, eob).DataError?
    decreases |ss|, 1
  {
    if ss[0] == RUNA || ss[0] == RUNB {
      DecodeMoreRun(l, ss, more, room, eob);
    } else if room > 0 {
      assert (ss + more)[1..] == ss[1..] + more;
      DecodeMore(MoveToFront(l, ss[0] - 1), ss[1..], more, room - 1, eob);
    }
  }

  lemma DecodeMoreRun(l: seq<byte>, ss: seq<int>, more: seq<int>, room: nat, eob: int)
    requires 2 <= eob <= |l| + 1 && l != [] && InRange(ss, eob) && InRange(ss + more, eob) && Decode(l, ss, room, eob).DataError?
    requires ss != [] && (ss[0] == RUNA || ss[0] == RUNB)
    ensures Decode(l, ss + more, room, eob).DataError?
    decreases |ss|, 0
  {
    hide Decode, DigitRun, RunValue, Repeat;
    DecodeDigit(l, ss, room, eob);
    DecodeDigit(l, ss + more, room, eob);
    var k := DigitRun(ss);
    DigitRunMore(ss, more);
    if k <= 21 {
      assert (ss + more)[..k] == ss[..k] && (ss + more)[k..] == ss[k..] + more;
      if 0 <= RunValue(ss[..k]) <= room {
        DecodeMore(l, ss[k..], more, room - RunValue(ss[..k]), eob);
      }
    }
  }

  lemma DecodeDigit(l: seq<byte>, ss: seq<int>, room: nat, eob: int)
    requires 2 <= eob <= |l| + 1 && l != [] && InRange(ss, eob) && ss != [] && (ss[0] == RUNA || ss[0] == RUNB)
    ensures var k := DigitRun(ss);
            0 < k && Decode(l, ss, room, eob) ==
              if k > 21 then DataError
              else if k == |ss| then NeedInput
              else if RunValue(ss[..k]) < 0 || RunValue(ss[..k]) > room then DataError
              else Prepend(Repeat(l[0], RunValue(ss[..k])), Decode(l, ss[k..], room - RunValue(ss[..k]), eob))
  {
    hide RunValue, Repeat;
  }

  lemma {:induction false} DigitRunMore(ss: seq<int>, more: seq<int>)
    ensures DigitRun(ss) <= DigitRun(ss + more) && (DigitRun(ss) < |ss| ==> DigitRun(ss + more) == DigitRun(ss))
  {
    if ss != [] {
      assert (ss + more)[1..] == ss[1..] + more;
      DigitRunMore(ss[1..], more);
    }
  }
}
