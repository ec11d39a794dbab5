// The decoder's move-to-front list: 16 lines of 16 bytes sliding down a 4096-byte array,
// so that one access moves at most one line's worth of bytes plus one byte per line.
module SlidingMtf {
  import opened Rotations
  import opened Mtf

  // The place of item o of line l in the array.
  function Slot(base: seq<int>, l: int, o: int): int
    requires 0 <= l < |base|
  {
    base[l] + o
  }

  // ... and its position in the list.
  function Item(l: int, o: int): int {
    16 * l + o
  }

  // Line l ends before line m begins.
  ghost predicate Before(base: seq<int>, l: int, m: int)
    requires 0 <= l < |base| && 0 <= m < |base|
  {
    base[l] + 16 <= base[m]
  }

  // The lines lie in order, without overlap, inside the array.
  ghost predicate Lines(base: seq<int>) {
    && |base| == 16
    && (forall l {:trigger base[l]} :: 0 <= l < 16 ==> 0 <= base[l] <= 4080)
    && (forall l, m {:trigger Before(base, l, m)} :: 0 <= l < m < 16 ==> Before(base, l, m))
  }

  // Array and bases hold the list v.
  ghost predicate Shows(a: seq<byte>, base: seq<int>, v: seq<byte>) {
    && |a| == 4096 && |v| == 256 && Lines(base)
    && (forall l, o {:trigger Slot(base, l, o)} {:trigger Item(l, o)} :: 0 <= l < 16 && 0 <= o < 16
          ==> 0 <= Slot(base, l, o) < 4096 && a[Slot(base, l, o)] == v[Item(l, o)])
  }

  lemma MoveAt(v: seq<byte>, k: int, i: int)
    requires 0 <= k < |v| && 0 <= i < |v|
    ensures MoveToFront(v, k)[i] == if i == 0 then v[k] else if i <= k then v[i - 1] else v[i]
  {
  }

  // ---- an access within the first line ----

  // The first k + 1 places from pp have been rotated by one.
  ghost predicate Rotated(a: seq<byte>, a': seq<byte>, pp: int, k: int) {
    && 0 <= pp && 0 <= k && pp + k < |a| == |a'| && a'[pp] == a[pp + k]
    && (forall p :: pp < p <= pp + k ==> a'[p] == a[p - 1])
    && (forall p :: 0 <= p < |a| && !(pp <= p <= pp + k) ==> a'[p] == a[p])
  }

  lemma FirstLineMoves(a: seq<byte>, a': seq<byte>, base: seq<int>, v: seq<byte>, k: int)
    requires Shows(a, base, v) && 0 <= k < 16 && Rotated(a, a', base[0], k)
    ensures Shows(a', base, MoveToFront(v, k))
  {
    var w := MoveToFront(v, k);
    forall l, o {:trigger Slot(base, l, o)} {:trigger Item(l, o)} | 0 <= l < 16 && 0 <= o < 16
      ensures 0 <= Slot(base, l, o) < 4096 && a'[Slot(base, l, o)] == w[Item(l, o)]
    {
      MoveAt(v, k, Item(l, o));
      if l > 0 {
        assert Before(base, 0, l);
        assert a[Slot(base, l, o)] == v[Item(l, o)];
      } else if o == 0 {
        assert a[Slot(base, 0, k)] == v[Item(0, k)];
      } else if o <= k {
        assert a[Slot(base, 0, o - 1)] == v[Item(0, o - 1)];
      } else {
        assert a[Slot(base, 0, o)] == v[Item(0, o)];
      }
    }
  }

  // One more place receives its left neighbour.
  method CopyDown(a: array<byte>, p: int, ghost was: seq<byte>, ghost k: int)
    requires Shifted(was, a[..], p, k) && p >= 1
    modifies a
    ensures Shifted(was, a[..], p - 1, k + 1)
  {
    a[p] := a[p - 1];
  }

  lemma ShiftRotates(a: seq<byte>, s: seq<byte>, pp: int, k: int, uc: byte)
    requires Shifted(a, s, pp, k) && uc == a[pp + k]
    ensures Rotated(a, s[pp := uc], pp, k)
  {
  }

  method ShiftFirst(a: array<byte>, pp: int, k: int) returns (uc: byte)
    requires 0 <= pp && 0 <= k && pp + k < a.Length
    modifies a
    ensures uc == old(a[pp + k]) && Rotated(old(a[..]), a[..], pp, k)
  {
    hide Rotated, Shifted;
    ghost var was := a[..];
    uc := a[pp + k];
    ShiftNothing(was, pp + k);
    var nn := k;
    while nn > 3
      invariant 0 <= nn <= k && Shifted(was, a[..], pp + nn, k - nn)
    {
      var z := pp + nn;
      CopyDown(a, z, was, k - nn);
      CopyDown(a, z - 1, was, k - nn + 1);
      CopyDown(a, z - 2, was, k - nn + 2);
      CopyDown(a, z - 3, was, k - nn + 3);
      nn := nn - 4;
    }
    while nn > 0
      invariant 0 <= nn <= k && Shifted(was, a[..], pp + nn, k - nn)
    {
      CopyDown(a, pp + nn, was, k - nn);
      nn := nn - 1;
    }
    ShiftRotates(was, a[..], pp, k, uc);
    a[pp] := uc;
  }

  // Places p + 1 .. p + k have received their left neighbours.
  ghost predicate Shifted(a: seq<byte>, a': seq<byte>, p: int, k: int) {
    && 0 <= p && 0 <= k && p + k < |a| == |a'|
    && (forall q :: p < q <= p + k ==> a'[q] == a[q - 1])
    && (forall q :: 0 <= q < |a| && !(p < q <= p + k) ==> a'[q] == a[q])
  }

  lemma ShiftNothing(a: seq<byte>, p: int)
    requires 0 <= p < |a|
    ensures Shifted(a, a, p, 0)
  {
  }

  // ---- an access further down ----

  // The lines above j are final; line j lacks its first item, whose place is free; the
  // lines below are untouched.  w is the list to reach, v the list before.
  ghost predicate Sliding(a: seq<byte>, base: seq<int>, v: seq<byte>, w: seq<byte>, j: int) {
    && |a| == 4096 && |v| == |w| == 256 && |base| == 16 && 0 <= j < 16
    && (forall l {:trigger base[l]} :: 0 <= l < 16 && l != j ==> 0 <= base[l] <= 4080)
    && 1 <= base[j] <= 4081
    && (forall l, m {:trigger Before(base, l, m)} :: 0 <= l < m < 16 && l != j ==> Before(base, l, m))
    && (forall m {:trigger base[m]} :: j < m < 16 ==> base[j] + 15 <= base[m])
    && (forall l, o {:trigger Slot(base, l, o)} {:trigger Item(l, o)} :: j < l < 16 && 0 <= o < 16
          ==> 0 <= Slot(base, l, o) < 4096 && a[Slot(base, l, o)] == w[Item(l, o)])
    && (forall o {:trigger Slot(base, j, o)} :: 0 <= o < 15
          ==> 0 <= Slot(base, j, o) < 4096 && a[Slot(base, j, o)] == w[Item(j, o) + 1])
    && (forall l, o {:trigger Slot(base, l, o)} {:trigger Item(l, o)} :: 0 <= l < j && 0 <= o < 16
          ==> 0 <= Slot(base, l, o) < 4096 && a[Slot(base, l, o)] == v[Item(l, o)])
    && (forall i {:trigger v[i]} :: 0 <= i < 16 * j ==> w[i + 1] == v[i])
  }

  lemma SlidingStart(a: seq<byte>, a': seq<byte>, base: seq<int>, v: seq<byte>, nn: int, lno: int, off: int)
    requires Shows(a, base, v) && base[0] > 0 && 0 <= nn < 256 && 0 <= lno < 16 && 0 <= off < 16 && nn == Item(lno, off)
    requires Shifted(a, a', base[lno], off)
    ensures Sliding(a', base[lno := base[lno] + 1], v, MoveToFront(v, nn), lno)
  {
    var w, b := MoveToFront(v, nn), base[lno := base[lno] + 1];
    forall l, m {:trigger Before(b, l, m)} | 0 <= l < m < 16 && l != lno ensures Before(b, l, m) {
      assert Before(base, l, m);
    }
    forall m {:trigger b[m]} | lno < m < 16 ensures b[lno] + 15 <= b[m] {
      assert Before(base, lno, m);
    }
    forall l, o {:trigger Slot(b, l, o)} {:trigger Item(l, o)} | lno < l < 16 && 0 <= o < 16
      ensures 0 <= Slot(b, l, o) < 4096 && a'[Slot(b, l, o)] == w[Item(l, o)]
    {
      MoveAt(v, nn, Item(l, o));
      assert Before(base, lno, l);
      assert a[Slot(base, l, o)] == v[Item(l, o)];
    }
    forall o {:trigger Slot(b, lno, o)} | 0 <= o < 15
      ensures 0 <= Slot(b, lno, o) < 4096 && a'[Slot(b, lno, o)] == w[Item(lno, o) + 1]
    {
      MoveAt(v, nn, Item(lno, o) + 1);
      assert a[Slot(base, lno, o)] == v[Item(lno, o)];
      assert a[Slot(base, lno, o + 1)] == v[Item(lno, o + 1)];
    }
    forall l, o {:trigger Slot(b, l, o)} {:trigger Item(l, o)} | 0 <= l < lno && 0 <= o < 16
      ensures 0 <= Slot(b, l, o) < 4096 && a'[Slot(b, l, o)] == v[Item(l, o)]
    {
      assert Before(base, l, lno);
      assert a[Slot(base, l, o)] == v[Item(l, o)];
    }
    forall i {:trigger v[i]} | 0 <= i < 16 * lno ensures w[i + 1] == v[i] {
      MoveAt(v, nn, i + 1);
    }
    assert b[lno] >= 1;
  }

  // The last item of the line below fills the free place.
  lemma SlidingStep(a: seq<byte>, base: seq<int>, v: seq<byte>, w: seq<byte>, j: int, i: int, b: seq<int>, a': seq<byte>)
    requires Sliding(a, base, v, w, j) && i == j - 1 >= 0
    requires b == base[j := base[j] - 1] && 0 <= b[j] < 4096 && 0 <= base[i] + 15 < 4096
    requires a' == a[b[j] := a[base[i] + 15]] && base[0] > 0
    ensures Sliding(a', b, v, w, i)
  {
    assert Before(base, i, j);
    assert a[Slot(base, i, 15)] == v[Item(i, 15)];
    assert b[i] >= 1 by {
      if i > 0 {
        assert Before(base, 0, i);
      }
    }
    forall l, m {:trigger Before(b, l, m)} | 0 <= l < m < 16 && l != i ensures Before(b, l, m) {
      if l != j {
        assert Before(base, l, m);
        if l < i && m == j {
          assert Before(base, l, i);
        }
      } else {
        assert base[j] + 15 <= base[m];
      }
    }
    forall m {:trigger b[m]} | i < m < 16 ensures b[i] + 15 <= b[m] {
      assert Before(base, i, m);
    }
    forall l, o {:trigger Slot(b, l, o)} {:trigger Item(l, o)} | i < l < 16 && 0 <= o < 16
      ensures 0 <= Slot(b, l, o) < 4096 && a'[Slot(b, l, o)] == w[Item(l, o)]
    {
      if l > j {
        assert base[j] + 15 <= base[l];
        assert a[Slot(base, l, o)] == w[Item(l, o)];
      } else if o > 0 {
        assert a[Slot(base, j, o - 1)] == w[Item(j, o - 1) + 1];
      } else {
        assert w[16 * j - 1 + 1] == v[16 * j - 1];
      }
    }
    forall o {:trigger Slot(b, i, o)} | 0 <= o < 15
      ensures 0 <= Slot(b, i, o) < 4096 && a'[Slot(b, i, o)] == w[Item(i, o) + 1]
    {
      assert a[Slot(base, i, o)] == v[Item(i, o)];
    }
    forall l, o {:trigger Slot(b, l, o)} {:trigger Item(l, o)} | 0 <= l < i && 0 <= o < 16
      ensures 0 <= Slot(b, l, o) < 4096 && a'[Slot(b, l, o)] == v[Item(l, o)]
    {
      assert Before(base, l, i);
      assert a[Slot(base, l, o)] == v[Item(l, o)];
    }
  }

  // The accessed byte fills the free place of the first line.
  lemma SlidingEnd(a: seq<byte>, base: seq<int>, v: seq<byte>, w: seq<byte>, b: seq<int>, a': seq<byte>, uc: byte)
    requires Sliding(a, base, v, w, 0) && b == base[0 := base[0] - 1] && a' == a[b[0] := uc] && w[0] == uc
    ensures Shows(a', b, w)
  {
    forall l, m {:trigger Before(b, l, m)} | 0 <= l < m < 16 ensures Before(b, l, m) {
      if l > 0 {
        assert Before(base, l, m);
      }
    }
    forall l, o {:trigger Slot(b, l, o)} {:trigger Item(l, o)} | 0 <= l < 16 && 0 <= o < 16
      ensures 0 <= Slot(b, l, o) < 4096 && a'[Slot(b, l, o)] == w[Item(l, o)]
    {
      if l > 0 {
        assert base[0] + 15 <= base[l];
        assert a[Slot(base, l, o)] == w[Item(l, o)];
      } else if o > 0 {
        assert a[Slot(base, 0, o - 1)] == w[Item(0, o - 1) + 1];
      }
    }
  }

  method ShiftLine(a: array<byte>, lo: int, k: int) returns (uc: byte)
    requires 0 <= lo && 0 <= k && lo + k < a.Length
    modifies a
    ensures uc == old(a[lo + k]) && Shifted(old(a[..]), a[..], lo, k)
  {
    var pp := lo + k;
    uc := a[pp];
    while pp > lo
      invariant lo <= pp <= lo + k
      invariant forall q :: pp < q <= lo + k ==> a[q] == old(a[q - 1])
      invariant forall q :: 0 <= q < a.Length && !(pp < q <= lo + k) ==> a[q] == old(a[q])
    {
      a[pp] := a[pp - 1];
      pp := pp - 1;
    }
  }

  // Lines lno .. 1 each take the last byte of the line below them.
  method CarryDown(a: array<byte>, base: array<int>, start: int, ghost v: seq<byte>, ghost w: seq<byte>)
    requires a.Length == 4096 && base.Length == 16 && Sliding(a[..], base[..], v, w, start) && start >= 1 && base[0] > 0
    modifies a, base
    ensures Sliding(a[..], base[..], v, w, 0) && base[0] == old(base[0])
  {
    var lno := start;
    hide Sliding;
    while lno > 0
      invariant 0 <= lno <= start && Sliding(a[..], base[..], v, w, lno) && base[0] == old(base[0])
    {
      ghost var sa, sb := a[..], base[..];
      SlidingBounds(sa, sb, v, w, lno);
      var below := lno - 1;
      base[lno] := base[lno] - 1;
      a[base[lno]] := a[base[lno - 1] + 16 - 1];
      SlidingStep(sa, sb, v, w, lno, below, base[..], a[..]);
      lno := below;
    }
  }

  lemma SlidingBounds(a: seq<byte>, base: seq<int>, v: seq<byte>, w: seq<byte>, j: int)
    requires Sliding(a, base, v, w, j)
    ensures |a| == 4096 && |base| == 16 && 0 <= j < 16 && 0 <= base[j] - 1 < 4096 && (j > 0 ==> 0 <= base[j - 1] + 15 < 4096)
  {
  }

  // The list has reached the bottom of the array: move all lines back to its top.
  ghost predicate Moving(a: seq<byte>, was: seq<int>, base: seq<int>, v: seq<byte>, done: int) {
    && |a| == 4096 && |v| == 256 && Lines(was) && |base| == 16 && 0 <= done <= 256
    && (forall l {:trigger base[l]} :: 0 <= l < 16 ==> base[l] == if 16 * l >= done then 3840 + 16 * l else was[l])
    && (forall i :: done <= i < 256 ==> a[3840 + i] == v[i])
    && (forall l, o {:trigger Slot(was, l, o)} {:trigger Item(l, o)} :: 0 <= l < 16 && 0 <= o < 16 && Item(l, o) < done
          ==> 0 <= Slot(was, l, o) < 4096 && a[Slot(was, l, o)] == v[Item(l, o)])
  }

  // A line never lies above its place at the top of the array.
  lemma {:induction false} LineLow(base: seq<int>, l: int)
    requires Lines(base) && 0 <= l < 16
    ensures base[l] <= 3840 + 16 * l
    decreases 16 - l
  {
    if l < 15 {
      LineLow(base, l + 1);
      assert Before(base, l, l + 1);
    }
  }

  lemma MovingStep(a: seq<byte>, was: seq<int>, base: seq<int>, v: seq<byte>, ii: int, jj: int, done: int, next: int, b: seq<int>)
    requires Moving(a, was, base, v, done) && 0 <= ii < 16 && 0 <= jj < 16 && next == done - 1 == Item(ii, jj)
    requires 0 <= base[ii] + jj < 4096 && b == if jj == 0 then base[ii := 3840 + next] else base
    ensures Moving(a[3840 + next := a[base[ii] + jj]], was, b, v, next)
  {
    var a' := a[3840 + next := a[base[ii] + jj]];
    assert base[ii] == was[ii];
    assert a[Slot(was, ii, jj)] == v[Item(ii, jj)];
    LineLow(was, ii);
    forall l, o {:trigger Slot(was, l, o)} {:trigger Item(l, o)} | 0 <= l < 16 && 0 <= o < 16 && Item(l, o) < next
      ensures 0 <= Slot(was, l, o) < 4096 && a'[Slot(was, l, o)] == v[Item(l, o)]
    {
      if l < ii {
        assert Before(was, l, ii);
      }
    }
  }

  lemma MovingBounds(a: seq<byte>, was: seq<int>, base: seq<int>, v: seq<byte>, ii: int, done: int)
    requires Moving(a, was, base, v, done) && 0 <= ii < 16 && 16 * ii < done
    ensures |a| == 4096 && |base| == 16 && 0 <= base[ii] <= 4080
  {
  }

  // Copy one line, last byte first.
  method MoveLine(a: array<byte>, base: array<int>, ii: int, first: int, ghost was: seq<int>, ghost v: seq<byte>) returns (kk: int)
    requires a.Length == 4096 && base.Length == 16 && 0 <= ii < 16 && first == 3840 + 16 * ii + 15
    requires Moving(a[..], was, base[..], v, 16 * ii + 16)
    modifies a
    ensures kk == first - 16 && Moving(a[..], was, base[..][ii := 3840 + 16 * ii], v, 16 * ii)
  {
    kk := first;
    var jj := 15;
    ghost var done, b := 16 * ii + 16, base[..];
    hide Moving;
    while jj >= 0
      invariant -1 <= jj <= 15 && kk == 3840 + 16 * ii + jj && done == 16 * ii + jj + 1
      invariant b == if jj == -1 then base[..][ii := 3840 + 16 * ii] else base[..]
      invariant Moving(a[..], was, b, v, done)
    {
      ghost var next, sa := done - 1, a[..];
      MovingBounds(sa, was, b, v, ii, done);
      a[kk] := a[base[ii] + jj];
      ghost var b' := if jj == 0 then b[ii := 3840 + next] else b;
      MovingStep(sa, was, b, v, ii, jj, done, next, b');
      b := b';
      done := next;
      kk := kk - 1;
      jj := jj - 1;
    }
  }

  method MoveAllUp(a: array<byte>, base: array<int>, ghost v: seq<byte>)
    requires a.Length == 4096 && base.Length == 16 && Shows(a[..], base[..], v)
    modifies a, base
    ensures Shows(a[..], base[..], v) && base[0] == 3840
  {
    ghost var was, done := base[..], 256;
    MovingStart(a[..], was, v);
    var kk, ii := 4096 - 1, 15;
    hide Moving, Shows;
    while ii >= 0
      invariant -1 <= ii <= 15 && kk == 3840 + 16 * ii + 15 && done == 16 * ii + 16
      invariant Moving(a[..], was, base[..], v, done)
    {
      kk := MoveLine(a, base, ii, kk, was, v);
      base[ii] := kk + 1;
      done := 16 * ii;
      ii := ii - 1;
    }
    MovingEnd(a[..], was, base[..], v);
  }

  lemma MovingStart(a: seq<byte>, base: seq<int>, v: seq<byte>)
    requires Shows(a, base, v)
    ensures Moving(a, base, base, v, 256)
  {
  }

  lemma MovingEnd(a: seq<byte>, was: seq<int>, base: seq<int>, v: seq<byte>)
    requires Moving(a, was, base, v, 0)
    ensures Shows(a, base, v) && base[0] == 3840
  {
    forall l, m {:trigger Before(base, l, m)} | 0 <= l < m < 16 ensures Before(base, l, m) {
    }
    forall l, o {:trigger Slot(base, l, o)} {:trigger Item(l, o)} | 0 <= l < 16 && 0 <= o < 16
      ensures 0 <= Slot(base, l, o) < 4096 && a[Slot(base, l, o)] == v[Item(l, o)]
    {
      assert a[3840 + Item(l, o)] == v[Item(l, o)];
    }
  }

  // The list before the first access: every byte in order, at the top of the array.
  method InitList(a: array<byte>, base: array<int>, ghost v: seq<byte>)
    requires a.Length == 4096 && base.Length == 16 && |v| == 256 && forall i :: 0 <= i < 256 ==> v[i] == i
    modifies a, base
    ensures Shows(a[..], base[..], v) && base[0] > 0
  {
    var kk, ii := 4096 - 1, 15;
    while ii >= 0
      invariant -1 <= ii <= 15 && kk == 3840 + 16 * ii + 15
      invariant forall l :: ii < l < 16 ==> base[l] == 3840 + 16 * l
      invariant forall p :: kk < p < 4096 ==> a[p] == p - 3840
    {
      var jj := 15;
      while jj >= 0
        invariant -1 <= jj <= 15 && kk == 3840 + 16 * ii + jj
        invariant forall l :: ii < l < 16 ==> base[l] == 3840 + 16 * l
        invariant forall p :: kk < p < 4096 ==> a[p] == p - 3840
      {
        a[kk] := ii * 16 + jj;
        kk := kk - 1;
        jj := jj - 1;
      }
      base[ii] := kk + 1;
      ii := ii - 1;
    }
    forall l, m {:trigger Before(base[..], l, m)} | 0 <= l < m < 16 ensures Before(base[..], l, m) {
    }
    forall l, o {:trigger Slot(base[..], l, o)} {:trigger Item(l, o)} | 0 <= l < 16 && 0 <= o < 16
      ensures 0 <= Slot(base[..], l, o) < 4096 && a[..][Slot(base[..], l, o)] == v[Item(l, o)]
    {
      assert a[3840 + Item(l, o)] == Item(l, o);
    }
  }

  // One access refines one move to front of the plain list.
  method Access(a: array<byte>, base: array<int>, nn: int, ghost v: seq<byte>) returns (uc: byte)
    requires a.Length == 4096 && base.Length == 16 && Shows(a[..], base[..], v) && base[0] > 0 && 0 <= nn < 256
    modifies a, base
    ensures uc == v[nn] && Shows(a[..], base[..], MoveToFront(v, nn)) && base[0] > 0
  {
    ghost var sa, sb, w := a[..], base[..], MoveToFront(v, nn);
    if nn < 16 {
      FirstAt(sa, sb, v, nn);
      var pp := base[0];
      uc := ShiftFirst(a, pp, nn);
      FirstLineMoves(sa, a[..], sb, v, nn);
    } else {
      uc := AccessBelow(a, base, nn, v);
      if base[0] == 0 {
        MoveAllUp(a, base, w);
      }
    }
  }

  lemma FirstAt(a: seq<byte>, base: seq<int>, v: seq<byte>, nn: int)
    requires Shows(a, base, v) && 0 <= nn < 16
    ensures base[0] + nn < 4096 && a[base[0] + nn] == v[nn]
  {
    assert a[Slot(base, 0, nn)] == v[Item(0, nn)];
  }

  method AccessBelow(a: array<byte>, base: array<int>, nn: int, ghost v: seq<byte>) returns (uc: byte)
    requires a.Length == 4096 && base.Length == 16 && Shows(a[..], base[..], v) && base[0] > 0 && 16 <= nn < 256
    modifies a, base
    ensures uc == v[nn] && Shows(a[..], base[..], MoveToFront(v, nn))
  {
    ghost var sa, sb, w := a[..], base[..], MoveToFront(v, nn);
    var lno, off := nn / 16, nn % 16;
    assert nn == Item(lno, off) && 1 <= lno < 16;
    assert sa[Slot(sb, lno, off)] == v[Item(lno, off)];
    assert w[0] == v[nn];
    hide Sliding, Shows, MoveToFront, Shifted;
    uc := ShiftLine(a, base[lno], off);
    SlidingStart(sa, a[..], sb, v, nn, lno, off);
    base[lno] := base[lno] + 1;
    CarryDown(a, base, lno, v, w);
    ghost var ta, tb := a[..], base[..];
    SlidingBounds(ta, tb, v, w, 0);
    base[0] := base[0] - 1;
    a[base[0]] := uc;
    SlidingEnd(ta, tb, v, w, base[..], a[..], uc);
  }
}
