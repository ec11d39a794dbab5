// The table selectors: move-to-front coded, then sent in unary; and the code lengths, sent
// as steps up and down from one symbol's length to the next.
module Selectors {
  import opened Rotations
  import Mtf

  // ---- move-to-front ----

  // Positions of the selectors in the list they move about in.
  ghost function Codes(l: seq<byte>, sel: seq<byte>): (ms: seq<int>)
    requires Mtf.Drawn(sel, l)
    ensures |ms| == |sel| && forall i :: 0 <= i < |ms| ==> 0 <= ms[i] < |l|
    decreases |sel|
  {
    if sel == [] then []
    else
      Mtf.DrawnRest(sel, l);
      var k := Mtf.IndexOf(l, sel[0]);
      Mtf.MoveKeeps(l, k);
      Mtf.DrawnSame(sel[1..], l, Mtf.MoveToFront(l, k));
      [k] + Codes(Mtf.MoveToFront(l, k), sel[1..])
  }

  // ... and what the positions stand for.
  function Apply(l: seq<byte>, ms: seq<int>): (sel: seq<byte>)
    requires forall i :: 0 <= i < |ms| ==> 0 <= ms[i] < |l|
    ensures |sel| == |ms|
    decreases |ms|
  {
    if ms == [] then [] else [l[ms[0]]] + Apply(Mtf.MoveToFront(l, ms[0]), ms[1..])
  }

  lemma {:induction false} ApplyCodes(l: seq<byte>, sel: seq<byte>)
    requires Mtf.Drawn(sel, l)
    ensures Apply(l, Codes(l, sel)) == sel
    decreases |sel|
  {
    if sel != [] {
      Mtf.DrawnRest(sel, l);
      var k := Mtf.IndexOf(l, sel[0]);
      Mtf.MoveKeeps(l, k);
      Mtf.DrawnSame(sel[1..], l, Mtf.MoveToFront(l, k));
      ApplyCodes(Mtf.MoveToFront(l, k), sel[1..]);
      assert Codes(l, sel)[1..] == Codes(Mtf.MoveToFront(l, k), sel[1..]);
      assert sel == [sel[0]] + sel[1..];
    }
  }

  lemma {:induction false} ApplyInList(l: seq<byte>, ms: seq<int>, n: int)
    requires (forall i :: 0 <= i < |ms| ==> 0 <= ms[i] < |l|) && forall i :: 0 <= i < |l| ==> l[i] < n
    ensures forall i :: 0 <= i < |ms| ==> Apply(l, ms)[i] < n
    decreases |ms|
  {
    if ms != [] {
      ApplyInList(Mtf.MoveToFront(l, ms[0]), ms[1..], n);
    }
  }

  lemma CodesStep(l: seq<byte>, sel: seq<byte>)
    requires Mtf.Drawn(sel, l) && sel != []
    ensures sel[0] in l && Mtf.Drawn(sel[1..], Mtf.MoveToFront(l, Mtf.IndexOf(l, sel[0])))
    ensures Codes(l, sel) == [Mtf.IndexOf(l, sel[0])] + Codes(Mtf.MoveToFront(l, Mtf.IndexOf(l, sel[0])), sel[1..])
  {
    Mtf.DrawnRest(sel, l);
    var k := Mtf.IndexOf(l, sel[0]);
    Mtf.MoveKeeps(l, k);
    Mtf.DrawnSame(sel[1..], l, Mtf.MoveToFront(l, k));
  }

  function StartList(n: int): (l: seq<byte>)
    requires 0 <= n <= 256
    ensures |l| == n && forall i :: 0 <= i < n ==> l[i] == i
  {
    seq(n, i requires 0 <= i < n => i)
  }

  // Rotate the list up to c, which may already be in front.
  method ToFront(pos: array<byte>, c: byte, ghost l: seq<byte>) returns (j: int)
    requires pos[..] == l && c in l
    modifies pos
    ensures j == Mtf.IndexOf(l, c) && pos[..] == Mtf.MoveToFront(l, j)
  {
    ghost var k := Mtf.IndexOf(l, c);
    j := 0;
    var tmp := pos[0];
    while c != tmp
      invariant 0 <= j <= k && tmp == l[j]
      invariant forall t :: 1 <= t <= j ==> pos[t] == l[t - 1]
      invariant forall t :: j < t < |l| ==> pos[t] == l[t]
      decreases k - j
    {
      j := j + 1;
      var tmp2 := tmp;
      tmp := pos[j];
      pos[j] := tmp2;
    }
    pos[0] := tmp;
  }

  method EncodeSelectors(selector: seq<byte>, nGroups: int) returns (ms: seq<int>)
    requires 1 <= nGroups <= 6 && forall i :: 0 <= i < |selector| ==> selector[i] < nGroups
    ensures Mtf.Drawn(selector, StartList(nGroups)) && ms == Codes(StartList(nGroups), selector)
  {
    var pos := new byte[nGroups](i => if 0 <= i < 256 then i else 0);
    ghost var l := StartList(nGroups);
    assert pos[..] == l;
    forall i | 0 <= i < |selector| ensures selector[i] in l {
      assert l[selector[i]] == selector[i];
    }
    assert selector[0..] == selector;
    ms := [];
    hide Mtf.Drawn, Mtf.IndexOf, Mtf.MoveToFront;
    assert ms + Codes(l, selector) == Codes(l, selector);
    for i := 0 to |selector|
      invariant pos[..] == l && Mtf.Drawn(selector[i..], l) && ms + Codes(l, selector[i..]) == Codes(StartList(nGroups), selector)
    {
      CodesStep(l, selector[i..]);
      assert selector[i..][1..] == selector[i + 1..];
      var j := ToFront(pos, selector[i], l);
      Regroup(ms, j, Codes(Mtf.MoveToFront(l, j), selector[i + 1..]));
      ms := ms + [j];
      l := Mtf.MoveToFront(l, j);
    }
    assert ms + [] == ms;
  }

  lemma Regroup(ms: seq<int>, j: int, more: seq<int>)
    ensures ms + ([j] + more) == (ms + [j]) + more
  {
  }

  method DecodeSelectors(ms: seq<int>, nGroups: int) returns (selector: seq<byte>)
    requires 1 <= nGroups <= 6 && forall i :: 0 <= i < |ms| ==> 0 <= ms[i] < nGroups
    ensures selector == Apply(StartList(nGroups), ms)
  {
    var pos := new byte[nGroups](i => if 0 <= i < 256 then i else 0);
    ghost var l := StartList(nGroups);
    assert pos[..] == l;
    selector := [];
    assert ms[0..] == ms;
    assert selector + Apply(l, ms) == Apply(l, ms);
    for i := 0 to |ms|
      invariant pos[..] == l && |l| == nGroups && selector + Apply(l, ms[i..]) == Apply(StartList(nGroups), ms)
    {
      assert ms[i..][1..] == ms[i + 1..];
      var v := ms[i];
      var tmp := pos[v];
      Rotate(pos, v);
      assert selector + ([tmp] + Apply(Mtf.MoveToFront(l, ms[i]), ms[i + 1..])) == (selector + [tmp]) + Apply(Mtf.MoveToFront(l, ms[i]), ms[i + 1..]);
      selector := selector + [tmp];
      l := Mtf.MoveToFront(l, ms[i]);
    }
    assert selector + [] == selector;
  }

  method Rotate(pos: array<byte>, k: int)
    requires 0 <= k < pos.Length
    modifies pos
    ensures pos[..] == Mtf.MoveToFront(old(pos[..]), k)
  {
    var v, tmp := k, pos[k];
    while v > 0
      invariant 0 <= v <= k
      invariant forall t :: v < t <= k ==> pos[t] == old(pos[t - 1])
      invariant forall t :: 0 <= t < pos.Length && !(v < t <= k) ==> pos[t] == old(pos[t])
    {
      pos[v] := pos[v - 1];
      v := v - 1;
    }
    pos[0] := tmp;
  }
}
