// generateMTFValues: the last column turned into move-to-front and run symbols.
module MtfEncoder {
  import opened Rotations
  import opened Perms
  import opened Counting
  import opened Mtf
  import opened ByteMap

  // The list every block starts from.
  function StartList(): (l: seq<byte>)
    ensures |l| == 256 && forall i :: 0 <= i < 256 ==> l[i] == i
  {
    seq(256, i requires 0 <= i < 256 => i)
  }

  // The output so far, with a frequency for every symbol.
  ghost predicate Written(mtfv: seq<int>, freq: seq<int>, wr: int, out: seq<int>, eob: int) {
    && 0 <= wr <= |mtfv| && mtfv[..wr] == out
    && 0 <= eob < |freq| && forall c :: 0 <= c <= eob ==> freq[c] == Count(out, c)
  }

  method Put(mtfv: array<int>, freq: array<int>, wr: int, next: int, sym: int, ghost out: seq<int>, eob: int)
    requires mtfv != freq && Written(mtfv[..], freq[..], wr, out, eob) && wr < mtfv.Length && 0 <= sym <= eob && next == wr + 1
    modifies mtfv, freq
    ensures Written(mtfv[..], freq[..], next, out + [sym], eob)
  {
    mtfv[wr] := sym;
    freq[sym] := freq[sym] + 1;
    assert mtfv[..next] == out + [sym];
    assert (out + [sym])[..|out|] == out;
  }

  // A pending run, least significant digit first.
  method PutRun(mtfv: array<int>, freq: array<int>, start: int, pend: int, ghost out: seq<int>, eob: int) returns (wr: int)
    requires mtfv != freq && Written(mtfv[..], freq[..], start, out, eob) && 1 <= eob && 0 <= pend
    requires start + |Digits(pend)| <= mtfv.Length
    modifies mtfv, freq
    ensures wr == start + |Digits(pend)| && Written(mtfv[..], freq[..], wr, out + Digits(pend), eob)
  {
    wr := start;
    ghost var done := out;
    if pend > 0 {
      var zPend := pend - 1;
      assert done + Digits(zPend + 1) == out + Digits(pend);
      hide Written, Digits;
      while true
        invariant 0 <= zPend && done + Digits(zPend + 1) == out + Digits(pend)
        invariant wr + |Digits(zPend + 1)| == start + |Digits(pend)|
        invariant Written(mtfv[..], freq[..], wr, done, eob)
        decreases zPend
      {
        var d, next := zPend % 2, wr + 1;
        ghost var h := if zPend < 2 then 0 else (zPend - 2) / 2 + 1;
        DigitsStep(done, zPend, d, h);
        Put(mtfv, freq, wr, next, d, done, eob);
        done := done + [d];
        wr := next;
        if zPend < 2 {
          break;
        }
        zPend := (zPend - 2) / 2;
      }
    }
    assert done == out + Digits(pend);
  }

  // h is the rest of the run once the lowest digit of z + 1 is written.
  lemma DigitsStep(done: seq<int>, z: nat, d: int, h: nat)
    requires d == z % 2 && h == (if z < 2 then 0 else (z - 2) / 2 + 1)
    ensures done + Digits(z + 1) == (done + [d]) + Digits(h) && |Digits(z + 1)| == 1 + |Digits(h)|
    ensures h == 0 ==> (done + [d]) + Digits(h) == done + [d]
  {
    DigitsNext(z, d, h);
    var more := Digits(h);
    hide Digits;
    Regroup(done, d, more);
  }

  lemma DigitsNext(z: nat, d: int, h: nat)
    requires d == z % 2 && h == (if z < 2 then 0 else (z - 2) / 2 + 1)
    ensures Digits(z + 1) == [d] + Digits(h) && (h == 0 ==> Digits(h) == [])
  {
    assert h == z / 2;
  }

  lemma Regroup(done: seq<int>, d: int, more: seq<int>)
    ensures done + ([d] + more) == (done + [d]) + more
    ensures more == [] ==> (done + [d]) + more == done + [d]
  {
  }

  // Rotate the list up to c.
  method ToFront(yy: array<int>, c: byte, ghost l: seq<byte>, nInUse: int) returns (j: int)
    requires nInUse <= 256 == yy.Length == |l| && c in l && IndexOf(l, c) < nInUse && l[0] != c
    requires forall t :: 0 <= t < nInUse ==> yy[t] == l[t]
    modifies yy
    ensures j == IndexOf(l, c) >= 1 && forall t :: 0 <= t < nInUse ==> yy[t] == MoveToFront(l, j)[t]
  {
    ghost var k := IndexOf(l, c);
    var rtmp := yy[1];
    yy[1] := yy[0];
    j := 1;
    while c != rtmp
      invariant 1 <= j <= k && rtmp == l[j] && yy[0] == l[0]
      invariant forall t :: 1 <= t <= j ==> yy[t] == l[t - 1]
      invariant forall t :: j < t < nInUse ==> yy[t] == l[t]
      decreases k - j
    {
      j := j + 1;
      var rtmp2 := rtmp;
      rtmp := yy[j];
      yy[j] := rtmp2;
    }
    yy[0] := rtmp;
  }

  // Everything that holds before ptr[i] is read: what has been written and what is still to
  // come together are the encoding of the whole column.
  ghost predicate Encoding(col: seq<byte>, i: int, zPend: int, l: seq<byte>, yy: seq<int>, nInUse: int, out: seq<int>) {
    && 0 <= i <= |col| && 0 <= zPend && |l| == 256 == |yy| && 0 <= nInUse <= 256
    && Drawn(col, StartList()) && Drawn(col[i..], l[..nInUse]) && Drawn(col[i..], l)
    && (forall t :: 0 <= t < nInUse ==> yy[t] == l[t])
    && out + Encode(l, col[i..], zPend, nInUse + 1) == Encode(StartList(), col, 0, nInUse + 1)
    && |out| + zPend <= i
  }

  lemma EncodingStart(col: seq<byte>, yy: seq<int>, nInUse: int)
    requires 0 <= nInUse <= 256 == |yy| && (forall t :: 0 <= t < nInUse ==> yy[t] == t)
    requires forall i :: 0 <= i < |col| ==> col[i] < nInUse
    ensures Encoding(col, 0, 0, StartList(), yy, nInUse, [])
  {
    var l := StartList();
    assert col[0..] == col;
    forall i | 0 <= i < |col| ensures col[i] in l[..nInUse] && col[i] in l {
      assert l[..nInUse][col[i]] == col[i];
    }
    assert [] + Encode(l, col, 0, nInUse + 1) == Encode(l, col, 0, nInUse + 1);
  }

  // The column repeats the front symbol.
  lemma EncodingRepeat(col: seq<byte>, i: int, next: int, zPend: int, more: int, l: seq<byte>, yy: seq<int>, nInUse: int, out: seq<int>)
    requires Encoding(col, i, zPend, l, yy, nInUse, out) && next == i + 1 <= |col| && more == zPend + 1
    requires col[i] == l[0]
    ensures Encoding(col, next, more, l, yy, nInUse, out)
  {
    assert col[i..][1..] == col[next..];
    DrawnRest(col[i..], l);
    DrawnRest(col[i..], l[..nInUse]);
    hide Digits;
  }

  // The column has another symbol: the run and the list position are written.
  lemma EncodingMove(col: seq<byte>, i: int, next: int, zPend: int, l: seq<byte>, yy: seq<int>, nInUse: int, out: seq<int>,
                     k: int, yy': seq<int>)
    requires Encoding(col, i, zPend, l, yy, nInUse, out) && next == i + 1 <= |col| && col[i] != l[0]
    requires col[i] in l && k == IndexOf(l, col[i]) && |yy'| == 256 && forall t :: 0 <= t < nInUse ==> yy'[t] == MoveToFront(l, k)[t]
    ensures Encoding(col, next, 0, MoveToFront(l, k), yy', nInUse, out + Digits(zPend) + [k + 1])
  {
    assert col[i..][1..] == col[next..];
    var j := DrawnMoved(l, col[i..], nInUse);
    EncodeMoved(l, col[i..], zPend, nInUse + 1, k);
    DrawnPrefix(col[next..], MoveToFront(l, k), nInUse);
    var m, code := MoveToFront(l, k), Encode(MoveToFront(l, k), col[next..], 0, nInUse + 1);
    hide Encode, Digits, MoveToFront, Drawn;
    assert out + (Digits(zPend) + [k + 1] + code) == out + Digits(zPend) + [k + 1] + code;
  }

  lemma EncodingEnd(col: seq<byte>, zPend: int, l: seq<byte>, yy: seq<int>, nInUse: int, out: seq<int>)
    requires Encoding(col, |col|, zPend, l, yy, nInUse, out)
    ensures Drawn(col, StartList())
    ensures out + Digits(zPend) + [nInUse + 1] == Encode(StartList(), col, 0, nInUse + 1)
    ensures |out| + |Digits(zPend)| <= |col|
  {
    assert out + (Digits(zPend) + [nInUse + 1]) == out + Digits(zPend) + [nInUse + 1];
  }

  // What the stage encodes: the last column in the compact numbering.
  ghost function Column(block: seq<byte>, ptr: seq<int>, inUse: seq<bool>): (col: seq<byte>)
    requires IsPerm(ptr, |block|) && AllUsed(inUse, block)
    ensures |col| == |block| && AllUsed(inUse, LastColumn(block, ptr)) && col == Compact(inUse, LastColumn(block, ptr))
  {
    assert AllUsed(inUse, LastColumn(block, ptr));
    Compact(inUse, LastColumn(block, ptr))
  }

  method GenerateMtfValues(block: seq<byte>, ptr: seq<int>, inUse: seq<bool>, mtfv: array<int>, mtfFreq: array<int>)
    returns (nMTF: int, nInUse: int)
    requires IsPerm(ptr, |block|) && AllUsed(inUse, block)
    requires mtfv != mtfFreq && mtfv.Length >= |block| + 1 && mtfFreq.Length == 258
    modifies mtfv, mtfFreq
    ensures nInUse == UsedBelow(inUse, 256) && 1 <= nMTF <= |block| + 1
    ensures var col := Column(block, ptr, inUse);
            Drawn(col, StartList()) && mtfv[..nMTF] == Encode(StartList(), col, 0, nInUse + 1)
    ensures forall c :: 0 <= c <= nInUse + 1 ==> mtfFreq[c] == Count(mtfv[..nMTF], c)
  {
    ghost var col := Column(block, ptr, inUse);
    var unseqToSeq := new int[256];
    nInUse := MakeMapsE(inUse, unseqToSeq);
    ghost var names := unseqToSeq[..];
    var eob, nblock := nInUse + 1, |block|;
    ZeroAll(mtfFreq, eob + 1);
    var wr, zPend := 0, 0;
    ghost var out, l := [], StartList();
    var yy := new int[256];
    CountUp(yy, nInUse);
    EncodingStart(col, yy[..], nInUse);
    assert Written(mtfv[..], mtfFreq[..], wr, out, eob);
    hide Encoding, Written, Column, Compact, LastColumn, IsPerm, Digits, Encode, Drawn, AllUsed;
    var i := 0;
    while i < nblock
      invariant 0 <= i <= nblock && wr == |out|
      invariant Encoding(col, i, zPend, l, yy[..], nInUse, out) && Written(mtfv[..], mtfFreq[..], wr, out, eob)
      invariant unseqToSeq[..] == names
    {
      EncodingBounds(col, i, zPend, l, yy[..], nInUse, out);
      // ptr[i] has not yet been overwritten by mtfv, which shares its storage.
      assert wr + |Digits(zPend)| <= i;
      var j := ptr[i] - 1;
      if j < 0 {
        j := j + nblock;
      }
      var ll := unseqToSeq[block[j]];
      ColumnAt(block, ptr, inUse, i, j, names);
      var next := i + 1;
      if yy[0] == ll {
        ghost var more := zPend + 1;
        EncodingRepeat(col, i, next, zPend, more, l, yy[..], nInUse, out);
        zPend := zPend + 1;
      } else {
        wr, out, l := EmitMove(mtfv, mtfFreq, yy, wr, zPend, ll, nInUse, eob, col, i, next, l, out);
        zPend := 0;
      }
      i := next;
    }
    nMTF := EmitEnd(mtfv, mtfFreq, wr, zPend, nInUse, eob, col, l, yy[..], out);
  }

  // The pending run, then the list position of another symbol.
  method EmitMove(mtfv: array<int>, freq: array<int>, yy: array<int>, start: int, zPend: int, ll: byte, nInUse: int, eob: int,
                  ghost col: seq<byte>, ghost i: int, ghost next: int, ghost l: seq<byte>, ghost out: seq<int>)
    returns (wr: int, ghost out': seq<int>, ghost l': seq<byte>)
    requires mtfv != freq && mtfv != yy && freq != yy && yy.Length == 256
    requires Encoding(col, i, zPend, l, yy[..], nInUse, out) && Written(mtfv[..], freq[..], start, out, eob)
    requires next == i + 1 <= |col| < mtfv.Length && eob == nInUse + 1 && start == |out| && col[i] == ll != l[0]
    modifies mtfv, freq, yy
    ensures Encoding(col, next, 0, l', yy[..], nInUse, out') && Written(mtfv[..], freq[..], wr, out', eob) && wr == |out'|
  {
    ghost var was := yy[..];
    EncodingBounds(col, i, zPend, l, was, nInUse, out);
    hide Encoding, Written, Digits;
    wr := PutRun(mtfv, freq, start, zPend, out, eob);
    var j := ToFront(yy, ll, l, nInUse);
    var last := wr + 1;
    Put(mtfv, freq, wr, last, j + 1, out + Digits(zPend), eob);
    wr := last;
    EncodingMove(col, i, next, zPend, l, was, nInUse, out, j, yy[..]);
    out' := out + Digits(zPend) + [j + 1];
    l' := MoveToFront(l, j);
  }

  method EmitEnd(mtfv: array<int>, freq: array<int>, start: int, zPend: int, nInUse: int, eob: int,
                 ghost col: seq<byte>, ghost l: seq<byte>, ghost yy: seq<int>, ghost out: seq<int>)
    returns (nMTF: int)
    requires mtfv != freq && freq.Length == 258 && eob == nInUse + 1 && start == |out| && |col| < mtfv.Length
    requires Encoding(col, |col|, zPend, l, yy, nInUse, out) && Written(mtfv[..], freq[..], start, out, eob)
    modifies mtfv, freq
    ensures 1 <= nMTF <= |col| + 1 && Drawn(col, StartList()) && mtfv[..nMTF] == Encode(StartList(), col, 0, eob)
    ensures forall c :: 0 <= c <= eob ==> freq[c] == Count(mtfv[..nMTF], c)
  {
    ghost var n := |col|;
    EncodingBounds(col, n, zPend, l, yy, nInUse, out);
    EncodingEnd(col, zPend, l, yy, nInUse, out);
    hide Encoding, Written, Digits, Encode, Drawn;
    var wr := PutRun(mtfv, freq, start, zPend, out, eob);
    ghost var more := out + Digits(zPend);
    nMTF := wr + 1;
    Put(mtfv, freq, wr, nMTF, eob, more, eob);
    WrittenIs(mtfv[..], freq[..], nMTF, more + [eob], eob);
  }

  lemma EncodingBounds(col: seq<byte>, i: int, zPend: int, l: seq<byte>, yy: seq<int>, nInUse: int, out: seq<int>)
    requires Encoding(col, i, zPend, l, yy, nInUse, out)
    ensures 0 <= zPend && |l| == 256 && |out| + |Digits(zPend)| <= i && 0 <= nInUse <= 256
    ensures forall t :: 0 <= t < nInUse ==> yy[t] == l[t]
    ensures i < |col| ==> nInUse > 0 && col[i] in l && IndexOf(l, col[i]) < nInUse
  {
    if i < |col| {
      DrawnRest(col[i..], l[..nInUse]);
      assert col[i..][0] == col[i];
      IndexWithin(l, col[i], nInUse);
    }
  }

  lemma WrittenIs(mtfv: seq<int>, freq: seq<int>, wr: int, out: seq<int>, eob: int)
    requires Written(mtfv, freq, wr, out, eob)
    ensures 0 <= wr <= |mtfv| && |out| == wr && mtfv[..wr] == out && forall c :: 0 <= c <= eob < |freq| ==> freq[c] == Count(mtfv[..wr], c)
  {
  }

  lemma ColumnAt(block: seq<byte>, ptr: seq<int>, inUse: seq<bool>, i: int, j: int, names: seq<int>)
    requires IsPerm(ptr, |block|) && AllUsed(inUse, block) && 0 <= i < |block|
    requires j == if ptr[i] - 1 < 0 then ptr[i] - 1 + |block| else ptr[i] - 1
    requires |names| == 256 && forall c :: 0 <= c < 256 && inUse[c] ==> names[c] == UsedBelow(inUse, c)
    ensures 0 <= j < |block| && Column(block, ptr, inUse)[i] == names[block[j]]
  {
    var c := LastColumn(block, ptr);
    assert c[i] == block[j] && inUse[c[i]];
  }

  method ZeroAll(a: array<int>, n: int)
    requires 0 <= n <= a.Length
    modifies a
    ensures forall c :: 0 <= c < n ==> a[c] == 0
  {
    for i := 0 to n
      invariant forall c :: 0 <= c < i ==> a[c] == 0
    {
      a[i] := 0;
    }
  }

  method CountUp(yy: array<int>, n: int)
    requires 0 <= n <= yy.Length
    modifies yy
    ensures forall t :: 0 <= t < n ==> yy[t] == t
  {
    for i := 0 to n
      invariant forall t :: 0 <= t < i ==> yy[t] == t
    {
      yy[i] := i;
    }
  }
}
