// mainGtU: comparing two rotations inside the extended block, with the quadrant cache.
module MainCompare {
  import opened Rotations

  const OVERSHOOT := 34

  function Wrap(i: int, n: int): int {
    if i >= n then i - n else i
  }

  // The block followed by a copy of its first symbols.
  ghost predicate Extended(b: seq<byte>, block: seq<byte>) {
    && |b| > OVERSHOOT && |block| == |b| + OVERSHOOT
    && (forall k :: 0 <= k < |block| ==> block[k] == b[Wrap(k, |b|)])
  }

  // Among positions with equal symbols, a smaller quadrant means a rotation not above.
  ghost predicate Quadrants(b: seq<byte>, quadrant: seq<int>) {
    && |b| > OVERSHOOT && |quadrant| == |b| + OVERSHOOT
    && (forall k :: 0 <= k < OVERSHOOT ==> quadrant[|b| + k] == quadrant[k])
    && (forall i, j :: 0 <= i < |b| && 0 <= j < |b| && b[i] == b[j] && quadrant[i] < quadrant[j] ==> Cmp(b, i, j, |b|) <= 0)
  }

  // After t equal symbols the comparison of x and y has become that of u and v.
  ghost predicate Tied(b: seq<byte>, x: int, y: int, t: nat, u: int, v: int) {
    && 0 <= x < |b| && 0 <= y < |b| && 0 <= u < |b| && 0 <= v < |b|
    && Cmp(b, x, y, t) == 0
    && (forall e: nat {:trigger Cmp(b, u, v, e)} :: Cmp(b, x, y, t + e) == Cmp(b, u, v, e))
  }

  lemma TiedStep(b: seq<byte>, x: int, y: int, t: nat, u: int, v: int, t': nat, u': int, v': int)
    requires Tied(b, x, y, t, u, v) && b[u] == b[v] && t' == t + 1 && u' == Next(u, |b|) && v' == Next(v, |b|)
    ensures Tied(b, x, y, t', u', v')
  {
    assert Cmp(b, u, v, 1) == 0;
    forall e: nat {:trigger Cmp(b, u', v', e)} ensures Cmp(b, x, y, t' + e) == Cmp(b, u', v', e) {
      assert Cmp(b, u, v, e + 1) == Cmp(b, u', v', e);
      assert t + (e + 1) == t' + e;
    }
  }

  lemma TiedDecides(b: seq<byte>, x: int, y: int, t: nat, u: int, v: int)
    requires Tied(b, x, y, t, u, v)
    ensures Cmp(b, x, y, |b|) == Cmp(b, u, v, |b|)
  {
    CmpFull(b, x, y, t + |b|);
  }

  // Comparing on past the whole block changes nothing.
  lemma TiedThroughout(b: seq<byte>, x: int, y: int, t: nat, u: int, v: int)
    requires Tied(b, x, y, t, u, v) && t >= |b|
    ensures Cmp(b, x, y, |b|) == 0
  {
    CmpFull(b, x, y, t);
  }

  ghost predicate Agrees(b: seq<byte>, x: int, y: int, gt: bool) {
    0 <= x < |b| && 0 <= y < |b| && if gt then Cmp(b, x, y, |b|) >= 0 else Cmp(b, x, y, |b|) <= 0
  }

  lemma SymbolDecides(b: seq<byte>, x: int, y: int, t: nat, u: int, v: int)
    requires Tied(b, x, y, t, u, v) && b[u] != b[v]
    ensures Agrees(b, x, y, b[u] > b[v])
  {
    TiedDecides(b, x, y, t, u, v);
  }

  lemma QuadrantDecides(b: seq<byte>, quadrant: seq<int>, x: int, y: int, t: nat, i1: int, i2: int)
    requires Quadrants(b, quadrant) && 0 <= i1 < |quadrant| && 0 <= i2 < |quadrant|
    requires Tied(b, x, y, t, Wrap(i1, |b|), Wrap(i2, |b|)) && b[Wrap(i1, |b|)] == b[Wrap(i2, |b|)]
    requires quadrant[i1] != quadrant[i2]
    ensures Agrees(b, x, y, quadrant[i1] > quadrant[i2])
  {
    var u, v := Wrap(i1, |b|), Wrap(i2, |b|);
    assert quadrant[i1] == quadrant[u] && quadrant[i2] == quadrant[v];
    TiedDecides(b, x, y, t, u, v);
    CmpAnti(b, u, v, |b|);
  }

  // Both cursors have moved t places past x and y.
  ghost predicate At(b: seq<byte>, x: int, y: int, t: nat, p1: int, p2: int) {
    && |b| > OVERSHOOT && 0 <= p1 <= |b| + OVERSHOOT && 0 <= p2 <= |b| + OVERSHOOT
    && Tied(b, x, y, t, Wrap(p1, |b|), Wrap(p2, |b|))
  }

  lemma AtStart(b: seq<byte>, i1: int, i2: int)
    requires |b| > OVERSHOOT && 0 <= i1 < |b| + OVERSHOOT && 0 <= i2 < |b| + OVERSHOOT
    ensures At(b, Wrap(i1, |b|), Wrap(i2, |b|), 0, i1, i2)
  {
  }

  lemma AtRead(b: seq<byte>, block: seq<byte>, x: int, y: int, t: nat, p1: int, p2: int)
    requires At(b, x, y, t, p1, p2) && Extended(b, block) && p1 < |b| + OVERSHOOT && p2 < |b| + OVERSHOOT
    ensures |block| == |b| + OVERSHOOT
    ensures block[p1] != block[p2] ==> Agrees(b, x, y, block[p1] > block[p2])
  {
    if block[p1] != block[p2] {
      SymbolDecides(b, x, y, t, Wrap(p1, |b|), Wrap(p2, |b|));
    }
  }

  lemma AtQuadrant(b: seq<byte>, block: seq<byte>, quadrant: seq<int>, x: int, y: int, t: nat, p1: int, p2: int)
    requires At(b, x, y, t, p1, p2) && Extended(b, block) && Quadrants(b, quadrant)
    requires p1 < |b| + OVERSHOOT && p2 < |b| + OVERSHOOT && block[p1] == block[p2]
    ensures |quadrant| == |b| + OVERSHOOT
    ensures quadrant[p1] != quadrant[p2] ==> Agrees(b, x, y, quadrant[p1] > quadrant[p2])
  {
    if quadrant[p1] != quadrant[p2] {
      QuadrantDecides(b, quadrant, x, y, t, p1, p2);
    }
  }

  lemma AtNext(b: seq<byte>, block: seq<byte>, x: int, y: int, t: nat, p1: int, p2: int, t': nat, q1: int, q2: int)
    requires At(b, x, y, t, p1, p2) && Extended(b, block) && p1 < |b| + OVERSHOOT && p2 < |b| + OVERSHOOT
    requires block[p1] == block[p2] && t' == t + 1 && q1 == p1 + 1 && q2 == p2 + 1
    ensures At(b, x, y, t', q1, q2)
  {
    var n := |b|;
    assert Wrap(q1, n) == Next(Wrap(p1, n), n) && Wrap(q2, n) == Next(Wrap(p2, n), n);
    TiedStep(b, x, y, t, Wrap(p1, n), Wrap(p2, n), t', Wrap(q1, n), Wrap(q2, n));
  }

  lemma AtWrap(b: seq<byte>, x: int, y: int, t: nat, p1: int, p2: int)
    requires At(b, x, y, t, p1, p2)
    ensures At(b, x, y, t, Wrap(p1, |b|), Wrap(p2, |b|)) && 0 <= Wrap(p1, |b|) < |b| && 0 <= Wrap(p2, |b|) < |b|
  {
  }

  lemma AtEnd(b: seq<byte>, x: int, y: int, t: nat, p1: int, p2: int)
    requires At(b, x, y, t, p1, p2) && t >= |b|
    ensures Agrees(b, x, y, false)
  {
    TiedThroughout(b, x, y, t, Wrap(p1, |b|), Wrap(p2, |b|));
  }

  lemma Sizes(b: seq<byte>, block: seq<byte>, quadrant: seq<int>)
    requires Extended(b, block) && Quadrants(b, quadrant)
    ensures |block| == |b| + OVERSHOOT && |quadrant| == |b| + OVERSHOOT && |b| > OVERSHOOT
  {
  }

  // Whether the rotation at i1 is above that at i2.  Rotations that differ are always
  // told apart; the twelve unguarded steps and the rounds of eight stay below nblock + 34.
  method GtU(i1: int, i2: int, block: seq<byte>, quadrant: seq<int>, nblock: int, budget: int, ghost b: seq<byte>)
    returns (gt: bool, left: int)
    requires nblock == |b| && Extended(b, block) && Quadrants(b, quadrant)
    requires 0 <= i1 < nblock + 15 && 0 <= i2 < nblock + 15
    ensures Agrees(b, Wrap(i1, nblock), Wrap(i2, nblock), gt) && left <= budget
  {
    hide At, Extended, Quadrants, Agrees, Wrap;
    var p1, p2 := i1, i2;
    left := budget;
    ghost var x, y, t := Wrap(i1, nblock), Wrap(i2, nblock), 0;
    Sizes(b, block, quadrant);
    AtStart(b, i1, i2);
    for r := 0 to 12
      invariant 0 <= p1 <= nblock + 14 + r && 0 <= p2 <= nblock + 14 + r && t == r
      invariant At(b, x, y, t, p1, p2)
    {
      AtRead(b, block, x, y, t, p1, p2);
      var c1, c2 := block[p1], block[p2];
      if c1 != c2 {
        return c1 > c2, left;
      }
      ghost var t', q1, q2 := t + 1, p1 + 1, p2 + 1;
      AtNext(b, block, x, y, t, p1, p2, t', q1, q2);
      p1, p2, t := p1 + 1, p2 + 1, t';
    }
    var k := nblock + 8;
    while k >= 0
      invariant 0 <= p1 <= nblock + 26 && 0 <= p2 <= nblock + 26 && t == 12 + nblock + 8 - k && -8 <= k
      invariant At(b, x, y, t, p1, p2) && left <= budget
    {
      for r := 0 to 8
        invariant 0 <= p1 <= nblock + 26 + r && 0 <= p2 <= nblock + 26 + r && t == 12 + nblock + 8 - k + r
        invariant At(b, x, y, t, p1, p2)
      {
        AtRead(b, block, x, y, t, p1, p2);
        var c1, c2 := block[p1], block[p2];
        if c1 != c2 {
          return c1 > c2, left;
        }
        AtQuadrant(b, block, quadrant, x, y, t, p1, p2);
        var s1, s2 := quadrant[p1], quadrant[p2];
        if s1 != s2 {
          return s1 > s2, left;
        }
        ghost var t', q1, q2 := t + 1, p1 + 1, p2 + 1;
        AtNext(b, block, x, y, t, p1, p2, t', q1, q2);
        p1, p2, t := p1 + 1, p2 + 1, t';
      }
      AtWrap(b, x, y, t, p1, p2);
      p1, p2 := Wrap(p1, nblock), Wrap(p2, nblock);
      k := k - 8;
      left := left - 1;
    }
    AtEnd(b, x, y, t, p1, p2);
    gt := false;
  }
}
