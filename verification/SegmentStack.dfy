// The explicit stack of both quicksorts: which positions still await sorting, why the
// finished ones are final, and why a hundred entries always suffice.
module SegmentStack {
  import opened Perms
  import opened Powers

  datatype Seg = Seg(lo: int, hi: int, d: int) {
    function Size(): int {
      hi - lo + 1
    }
  }

  // owner[k] is the stack entry holding position k, or -1 once the position is final.
  ghost predicate Owns(stack: seq<Seg>, owner: seq<int>, lo: int, hi: int) {
    && 0 <= lo && hi < |owner|
    && (forall p :: 0 <= p < |stack| ==> lo <= stack[p].lo && stack[p].hi <= hi && stack[p].Size() >= 0)
    && (forall k :: lo <= k <= hi ==> -1 <= owner[k] < |stack|)
    && (forall p, k :: 0 <= p < |stack| && lo <= k <= hi ==> (owner[k] == p <==> stack[p].lo <= k <= stack[p].hi))
  }

  // Positions not in one common entry are already in order.
  ghost predicate Apart(le: (int, int) -> bool, s: seq<int>, owner: seq<int>, lo: int, hi: int) {
    && 0 <= lo && hi < |s| && hi < |owner|
    && (forall i, j :: lo <= i < j <= hi && (owner[i] != owner[j] || owner[i] < 0) ==> le(s[i], s[j]))
  }

  ghost predicate Ordered(le: (int, int) -> bool, s: seq<int>, lo: int, hi: int) {
    0 <= lo && hi < |s| && forall i, j :: lo <= i < j <= hi ==> le(s[i], s[j])
  }

  // Rearranging one entry and dividing it among new owners keeps the rest apart.
  lemma Regroup(le: (int, int) -> bool, s: seq<int>, t: seq<int>, owner: seq<int>, owner': seq<int>, lo: int, hi: int, l: int, h: int, p: int)
    requires Apart(le, s, owner, lo, hi) && PermIn(s, t, l, h + 1) && lo <= l && h <= hi && 0 <= p
    requires forall k :: lo <= k <= hi ==> (owner[k] == p <==> l <= k <= h)
    requires |owner'| == |owner| && forall k :: lo <= k <= hi && !(l <= k <= h) ==> owner'[k] == owner[k]
    requires forall i, j :: l <= i < j <= h && (owner'[i] != owner'[j] || owner'[i] < 0) ==> le(t[i], t[j])
    ensures Apart(le, t, owner', lo, hi)
  {
    Sources(s, t, l, h);
    hide PermIn;
    forall i, j | lo <= i < j <= hi && (owner'[i] != owner'[j] || owner'[i] < 0) ensures le(t[i], t[j]) {
      if l <= i <= h && !(l <= j <= h) {
        assert Within(s, l, h, t[i]);
        var i0 :| 0 <= i0 < |s| && l <= i0 <= h && s[i0] == t[i];
        assert le(s[i0], s[j]);
      } else if !(l <= i <= h) && l <= j <= h {
        assert Within(s, l, h, t[j]);
        var j0 :| 0 <= j0 < |s| && l <= j0 <= h && s[j0] == t[j];
        assert le(s[i], s[j0]);
      }
    }
  }

  ghost predicate Within(s: seq<int>, l: int, h: int, x: int) {
    exists j :: 0 <= j < |s| && l <= j <= h && s[j] == x
  }

  lemma Sources(s: seq<int>, t: seq<int>, l: int, h: int)
    requires PermIn(s, t, l, h + 1)
    ensures |t| == |s| && 0 <= l && h < |s|
    ensures forall k :: 0 <= k < |s| && !(l <= k <= h) ==> t[k] == s[k]
    ensures forall k :: l <= k <= h ==> Within(s, l, h, t[k])
  {
    forall k | l <= k <= h ensures Within(s, l, h, t[k]) {
      var j := PermInFrom(s, t, l, h + 1, k);
    }
  }

  // Owners after the top entry [l, h] is replaced by entries for its parts.
  ghost function Reown(owner: seq<int>, l: int, h: int, f: int -> int): (r: seq<int>)
    ensures |r| == |owner|
    ensures forall k :: 0 <= k < |owner| ==> r[k] == if l <= k <= h then f(k) else owner[k]
  {
    seq(|owner|, k requires 0 <= k < |owner| => if l <= k <= h then f(k) else owner[k])
  }

  // Replacing the top entry by parts of it, f naming the new owner of each position.
  lemma OwnsReplace(stack: seq<Seg>, owner: seq<int>, lo: int, hi: int, parts: seq<Seg>, f: int -> int)
    requires stack != [] && Owns(stack, owner, lo, hi)
    requires forall q :: 0 <= q < |parts| ==>
               stack[|stack| - 1].lo <= parts[q].lo && parts[q].hi <= stack[|stack| - 1].hi && parts[q].Size() >= 0
    requires forall k :: stack[|stack| - 1].lo <= k <= stack[|stack| - 1].hi ==>
               f(k) == -1 || |stack| - 1 <= f(k) < |stack| - 1 + |parts|
    requires forall q, k :: 0 <= q < |parts| && stack[|stack| - 1].lo <= k <= stack[|stack| - 1].hi ==>
               (f(k) == |stack| - 1 + q <==> parts[q].lo <= k <= parts[q].hi)
    ensures Owns(stack[..|stack| - 1] + parts, Reown(owner, stack[|stack| - 1].lo, stack[|stack| - 1].hi, f), lo, hi)
  {
    var p := |stack| - 1;
    var l, h := stack[p].lo, stack[p].hi;
    var stack', owner' := stack[..p] + parts, Reown(owner, l, h, f);
    forall q, k | 0 <= q < |stack'| && lo <= k <= hi ensures owner'[k] == q <==> stack'[q].lo <= k <= stack'[q].hi {
      if q < p {
        assert stack'[q] == stack[q];
        assert owner[k] == p <==> l <= k <= h;
      } else {
        assert stack'[q] == parts[q - p];
      }
    }
  }

  // ---- the work left, for termination ----

  // Positions times the levels of depth they may still go down.
  function Weight(seg: Seg, depth: int): int {
    seg.Size() * (depth - seg.d)
  }

  function Work(stack: seq<Seg>, depth: int): int {
    if stack == [] then 0 else Work(stack[..|stack| - 1], depth) + Weight(stack[|stack| - 1], depth)
  }

  lemma {:induction false} WorkAppend(stack: seq<Seg>, parts: seq<Seg>, depth: int)
    ensures Work(stack + parts, depth) == Work(stack, depth) + Work(parts, depth)
  {
    if parts == [] {
      assert stack + parts == stack;
    } else {
      var k := |parts| - 1;
      assert (stack + parts)[..|stack| + k] == stack + parts[..k];
      WorkAppend(stack, parts[..k], depth);
    }
  }

  lemma {:induction false} WorkNonNegative(stack: seq<Seg>, depth: int)
    requires forall p :: 0 <= p < |stack| ==> stack[p].Size() >= 0 && stack[p].d <= depth
    ensures Work(stack, depth) >= 0
  {
    if stack != [] {
      WorkNonNegative(stack[..|stack| - 1], depth);
    }
  }

  // ---- how high the stack gets ----

  // n halved p times.
  function Halved(n: nat, p: nat): (r: nat)
    ensures r <= n
  {
    if p == 0 then n else Halved(n, p - 1) / 2
  }

  lemma {:induction false} HalvedTimesPow2(n: nat, p: nat)
    ensures Halved(n, p) * Pow2(p) <= n
  {
    if p > 0 {
      HalvedTimesPow2(n, p - 1);
      var h := Halved(n, p - 1);
      assert h / 2 * (2 * Pow2(p - 1)) == (h / 2 * 2) * Pow2(p - 1) <= h * Pow2(p - 1);
    }
  }

  // A range of 32-bit size cannot be halved 31 times and keep an element.
  lemma HalvedGone(n: nat, p: nat)
    requires n < 0x8000_0000 && Halved(n, p) >= 1
    ensures p < 31
  {
    HalvedTimesPow2(n, p);
    if p >= 31 {
      Pow2Monotone(31, p);
      Pow2Values();
      var h, w := Halved(n, p), Pow2(p);
      assert h * w >= w by {
        assert (h - 1) * w >= 0;
      }
    }
  }
}
