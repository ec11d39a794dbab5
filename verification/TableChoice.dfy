// Choosing the code tables of a block: a first guess from the symbol frequencies, then four
// rounds of giving every group of fifty its cheapest table and recomputing the tables.
module TableChoice {
  import opened Powers
  import opened Rotations
  import opened Counting
  import opened SymbolGroups
  import HuffmanLengths

  const LESSER_ICOST := 0
  const GREATER_ICOST := 15

  // Bits the symbols lo..hi - 1 take with one table.
  function Cost(len: seq<byte>, ss: seq<int>, lo: nat, hi: nat): nat
    requires lo <= hi <= |ss| && forall i :: 0 <= i < |ss| ==> 0 <= ss[i] < |len|
  {
    if lo == hi then 0 else Cost(len, ss, lo, hi - 1) + len[ss[hi - 1]]
  }

  // nGroups tables over one alphabet, with lengths an encoder can hold.
  ghost predicate TablesOf(lens: seq<seq<byte>>, nGroups: int, alphaSize: int) {
    |lens| == nGroups && forall t :: 0 <= t < nGroups ==> |lens[t]| == alphaSize && forall v :: 0 <= v < alphaSize ==> lens[t][v] <= 20
  }

  predicate InAlphabet(ss: seq<int>, alphaSize: int) {
    forall i :: 0 <= i < |ss| ==> 0 <= ss[i] < alphaSize
  }

  lemma {:induction false} CostBound(len: seq<byte>, ss: seq<int>, lo: nat, hi: nat)
    requires lo <= hi <= |ss| && InAlphabet(ss, |len|) && forall v :: 0 <= v < |len| ==> len[v] <= 20
    ensures Cost(len, ss, lo, hi) <= 20 * (hi - lo)
    decreases hi
  {
    if lo < hi {
      CostBound(len, ss, lo, hi - 1);
    }
  }

  lemma CostStep(len: seq<byte>, ss: seq<int>, lo: nat, hi: nat)
    requires lo <= hi < |ss| && InAlphabet(ss, |len|) && hi - lo < G_SIZE && forall v :: 0 <= v < |len| ==> len[v] <= 20
    ensures Cost(len, ss, lo, lo) == 0
    ensures Cost(len, ss, lo, hi + 1) == Cost(len, ss, lo, hi) + len[ss[hi]] <= 1000
  {
    CostBound(len, ss, lo, hi);
  }

  // ---- the first guess ----

  // Occurrences of the symbols from gs on.
  function Tail(freq: seq<int>, gs: nat): int
    requires gs <= |freq|
    decreases |freq| - gs
  {
    if gs == |freq| then 0 else freq[gs] + Tail(freq, gs + 1)
  }

  lemma {:induction false} TailRest(freq: seq<int>, gs: nat)
    requires gs <= |freq| && forall v :: 0 <= v < |freq| ==> freq[v] >= 0
    ensures Tail(freq, gs) >= 0 && (Tail(freq, gs) == 0 ==> forall v :: gs <= v < |freq| ==> freq[v] == 0)
    decreases |freq| - gs
  {
    if gs < |freq| {
      TailRest(freq, gs + 1);
    }
  }

  // The part that starts at gs ends at the first place where it holds its share of the symbols
  // still to be divided, or at the end of the alphabet; every other part but the first and the
  // last then gives its last place up, unless it has only one.
  ghost predicate Share(freq: seq<int>, gs: int, ge: int, nPart: int, nGroups: int) {
    && 0 <= gs <= |freq| && 1 <= nPart <= nGroups
    && exists e :: Reaches(freq, gs, e, Tail(freq, gs) / nPart)
                   && ge == if e > gs && nPart != nGroups && nPart != 1 && (nGroups - nPart) % 2 == 1 then e - 1 else e
  }

  ghost predicate Reaches(freq: seq<int>, gs: int, e: int, share: int)
    requires 0 <= gs <= |freq|
  {
    && gs - 1 <= e < |freq| && (Tail(freq, gs) - Tail(freq, e + 1) >= share || e == |freq| - 1)
    && (e >= gs ==> Tail(freq, gs) - Tail(freq, e) < share)
  }

  // One part: from gs on, until the part's share of the symbols is reached.
  method NextPart(mtfFreq: seq<int>, nPart: int, nGroups: int, gs: nat, remF: int) returns (ge: int, aFreq: int)
    requires 1 <= nPart <= nGroups && gs <= |mtfFreq| && (forall v :: 0 <= v < |mtfFreq| ==> mtfFreq[v] >= 0) && remF == Tail(mtfFreq, gs)
    ensures gs - 1 <= ge < |mtfFreq| && remF - aFreq == Tail(mtfFreq, ge + 1)
    ensures nPart == 1 ==> remF - aFreq == 0
    ensures Share(mtfFreq, gs, ge, nPart, nGroups)
  {
    TailRest(mtfFreq, gs);
    var tFreq := remF / nPart;
    ge := gs - 1;
    aFreq := 0;
    while aFreq < tFreq && ge < |mtfFreq| - 1
      invariant gs - 1 <= ge < |mtfFreq| && aFreq == Tail(mtfFreq, gs) - Tail(mtfFreq, ge + 1)
      invariant ge >= gs ==> Tail(mtfFreq, gs) - Tail(mtfFreq, ge) < tFreq
    {
      ge := ge + 1;
      aFreq := aFreq + mtfFreq[ge];
    }
    TailRest(mtfFreq, ge + 1);
    assert Reaches(mtfFreq, gs, ge, tFreq);
    if ge > gs && nPart != nGroups && nPart != 1 && (nGroups - nPart) % 2 == 1 {
      aFreq := aFreq - mtfFreq[ge];
      ge := ge - 1;
    }
  }

  method PartTable(gs: int, ge: int, alphaSize: int) returns (len: seq<byte>)
    requires alphaSize >= 0
    ensures |len| == alphaSize && forall v :: 0 <= v < alphaSize ==> len[v] == if gs <= v <= ge then LESSER_ICOST else GREATER_ICOST
  {
    len := [];
    for v := 0 to alphaSize
      invariant |len| == v && forall u :: 0 <= u < v ==> len[u] == if gs <= u <= ge then LESSER_ICOST else GREATER_ICOST
    {
      len := len + [if v >= gs && v <= ge then LESSER_ICOST else GREATER_ICOST];
    }
  }

  ghost predicate CheapSomewhere(lens: seq<seq<byte>>, v: int) {
    exists t :: 0 <= t < |lens| && v < |lens[t]| && 0 <= v && lens[t][v] == LESSER_ICOST
  }

  // Cheap on the places gs..ge and dear elsewhere.
  ghost predicate CheapOn(len: seq<byte>, gs: int, ge: int) {
    forall v :: 0 <= v < |len| ==> len[v] == if gs <= v <= ge then LESSER_ICOST else GREATER_ICOST
  }

  // The tables from number nPart on belong to the parts that start at starts, counted from the
  // last table down.
  ghost predicate Parted(lens: seq<seq<byte>>, freq: seq<int>, starts: seq<int>, nPart: int, nGroups: int) {
    && 0 <= nPart <= nGroups && |lens| == nGroups - nPart == |starts| - 1
    && forall p :: 0 <= p < nGroups - nPart ==>
         CheapOn(lens[nGroups - nPart - 1 - p], starts[p], starts[p + 1] - 1) && Share(freq, starts[p], starts[p + 1] - 1, nGroups - p, nGroups)
  }

  ghost predicate Divided(lens: seq<seq<byte>>, freq: seq<int>) {
    exists starts: seq<int> :: |starts| > 0 && starts[0] == 0 && Parted(lens, freq, starts, 0, |lens|)
  }

  lemma PartedMore(lens: seq<seq<byte>>, len: seq<byte>, freq: seq<int>, starts: seq<int>, nPart: int, nGroups: int, next: int)
    requires 0 < nPart && Parted(lens, freq, starts, nPart, nGroups)
    requires CheapOn(len, starts[nGroups - nPart], next - 1) && Share(freq, starts[nGroups - nPart], next - 1, nPart, nGroups)
    ensures Parted([len] + lens, freq, starts + [next], nPart - 1, nGroups)
  {
    hide Share, CheapOn;
    var more, s, n := [len] + lens, starts + [next], nGroups - nPart;
    forall p | 0 <= p <= n ensures CheapOn(more[n - p], s[p], s[p + 1] - 1) && Share(freq, s[p], s[p + 1] - 1, nGroups - p, nGroups) {
      if p < n {
        assert more[n - p] == lens[n - 1 - p];
      }
    }
  }

  // The first tables split the alphabet into consecutive parts: every symbol that occurs is
  // cheap in one of them.  The tables are filled in from the last one down.
  method FirstTables(mtfFreq: seq<int>, nGroups: int, nMTF: int) returns (lens: seq<seq<byte>>)
    requires 2 <= nGroups <= 6 && (forall v :: 0 <= v < |mtfFreq| ==> mtfFreq[v] >= 0) && nMTF == Tail(mtfFreq, 0)
    ensures TablesOf(lens, nGroups, |mtfFreq|) && Divided(lens, mtfFreq)
    ensures forall v :: 0 <= v < |mtfFreq| && mtfFreq[v] > 0 ==> CheapSomewhere(lens, v)
  {
    hide Tail, CheapSomewhere, Share;
    lens := [];
    ghost var starts := [0];
    var nPart, remF, gs := nGroups, nMTF, 0;
    while nPart > 0
      invariant 0 <= nPart <= nGroups && TablesOf(lens, nGroups - nPart, |mtfFreq|)
      invariant |starts| == nGroups - nPart + 1 && starts[nGroups - nPart] == gs && starts[0] == 0 && Parted(lens, mtfFreq, starts, nPart, nGroups)
      invariant 0 <= gs <= |mtfFreq| && remF == Tail(mtfFreq, gs) && (nPart == 0 ==> remF == 0)
      invariant forall v :: 0 <= v < gs ==> CheapSomewhere(lens, v)
    {
      var ge, aFreq := NextPart(mtfFreq, nPart, nGroups, gs, remF);
      var len := PartTable(gs, ge, |mtfFreq|);
      CheapMore(lens, len, gs, ge);
      PartedMore(lens, len, mtfFreq, starts, nPart, nGroups, ge + 1);
      starts := starts + [ge + 1];
      lens := [len] + lens;
      nPart := nPart - 1;
      gs := ge + 1;
      remF := remF - aFreq;
    }
    TailRest(mtfFreq, gs);
  }

  lemma CheapMore(lens: seq<seq<byte>>, len: seq<byte>, gs: int, ge: int)
    requires 0 <= gs <= ge + 1 <= |len| && forall v :: gs <= v <= ge ==> len[v] == LESSER_ICOST
    requires forall v :: 0 <= v < gs ==> CheapSomewhere(lens, v)
    ensures forall v :: 0 <= v <= ge ==> CheapSomewhere([len] + lens, v)
  {
    forall v | 0 <= v <= ge ensures CheapSomewhere([len] + lens, v) {
      if v < gs {
        assert CheapSomewhere(lens, v);
        var t :| 0 <= t < |lens| && v < |lens[t]| && lens[t][v] == LESSER_ICOST;
        assert ([len] + lens)[t + 1] == lens[t];
      } else {
        assert ([len] + lens)[0] == len;
      }
    }
  }

  // ---- costs ----

  // What a group costs with every table.
  ghost predicate Costs(cost: seq<int>, lens: seq<seq<byte>>, alphaSize: int, ss: seq<int>, lo: nat, hi: nat) {
    && lo <= hi <= |ss| && InAlphabet(ss, alphaSize) && TablesOf(lens, |lens|, alphaSize) && |lens| <= |cost|
    && (forall t :: 0 <= t < |lens| ==> cost[t] == Cost(lens[t], ss, lo, hi))
  }

  // Sixteen-bit counters, one table at a time.
  method SlowCosts(cost: array<int>, lens: seq<seq<byte>>, alphaSize: int, mtfv: seq<int>, gs: nat, ge: int)
    requires cost.Length == 6 && |lens| <= 6 && TablesOf(lens, |lens|, alphaSize) && InAlphabet(mtfv, alphaSize)
    requires gs <= ge < |mtfv| && ge < gs + G_SIZE
    modifies cost
    ensures Costs(cost[..], lens, alphaSize, mtfv, gs, ge + 1)
  {
    hide Cost;
    for t := 0 to |lens|
      invariant forall u :: 0 <= u < t ==> cost[u] == 0
    {
      cost[t] := 0;
    }
    CostsStart(cost[..], lens, alphaSize, mtfv, gs);
    for i := gs to ge + 1
      invariant Costs(cost[..], lens, alphaSize, mtfv, gs, i)
    {
      for t := 0 to |lens|
        invariant forall u :: 0 <= u < |lens| ==> cost[u] == Cost(lens[u], mtfv, gs, if u < t then i + 1 else i)
      {
        CostStep(lens[t], mtfv, gs, i);
        cost[t] := (cost[t] + lens[t][mtfv[i]]) % 0x1_0000;
      }
    }
  }

  lemma CostsStart(cost: seq<int>, lens: seq<seq<byte>>, alphaSize: int, ss: seq<int>, lo: nat)
    requires TablesOf(lens, |lens|, alphaSize) && InAlphabet(ss, alphaSize) && lo <= |ss| && |lens| <= |cost|
    requires forall t :: 0 <= t < |lens| ==> cost[t] == 0
    ensures Costs(cost, lens, alphaSize, ss, lo, lo)
  {
  }

  // Two lengths in one 32-bit word.
  function Packed(low: int, high: int): int {
    high * 0x1_0000 + low
  }

  ghost predicate PackedLengths(lenPack: seq<(int, int, int)>, lens: seq<seq<byte>>, alphaSize: int) {
    && |lens| == 6 && TablesOf(lens, 6, alphaSize) && |lenPack| == alphaSize
    && (forall v :: 0 <= v < alphaSize ==>
          lenPack[v] == (Packed(lens[0][v], lens[1][v]), Packed(lens[2][v], lens[3][v]), Packed(lens[4][v], lens[5][v])))
  }

  method PackLengths(lens: seq<seq<byte>>, alphaSize: int) returns (lenPack: seq<(int, int, int)>)
    requires |lens| == 6 && TablesOf(lens, 6, alphaSize) && alphaSize >= 0
    ensures PackedLengths(lenPack, lens, alphaSize)
  {
    lenPack := [];
    for v := 0 to alphaSize
      invariant |lenPack| == v
      invariant forall u :: 0 <= u < v ==>
        lenPack[u] == (Packed(lens[0][u], lens[1][u]), Packed(lens[2][u], lens[3][u]), Packed(lens[4][u], lens[5][u]))
    {
      lenPack := lenPack + [(Packed(lens[0][v], lens[1][v]), Packed(lens[2][v], lens[3][v]), Packed(lens[4][v], lens[5][v]))];
    }
  }

  // Adding packed pairs adds both halves: fifty lengths cannot carry over.
  lemma PackedStep(a: int, b: int, x: int, y: int)
    requires 0 <= a && 0 <= b && 0 <= x && 0 <= y && a + x <= 1000 && b + y <= 1000
    ensures (Packed(a, b) + Packed(x, y)) % 0x1_0000_0000 == Packed(a + x, b + y)
  {
  }

  lemma Unpacked(a: int, b: int)
    requires 0 <= a <= 1000 && 0 <= b <= 1000
    ensures Packed(a, b) % 0x1_0000 == a && Packed(a, b) / 0x1_0000 == b
  {
  }

  lemma PairStep(la: seq<byte>, lb: seq<byte>, ss: seq<int>, lo: nat, hi: nat, word: int)
    requires lo <= hi < |ss| && InAlphabet(ss, |la|) && |lb| == |la| && hi - lo < G_SIZE
    requires forall v :: 0 <= v < |la| ==> la[v] <= 20 && lb[v] <= 20
    requires word == Packed(Cost(la, ss, lo, hi), Cost(lb, ss, lo, hi))
    ensures (word + Packed(la[ss[hi]], lb[ss[hi]])) % 0x1_0000_0000 == Packed(Cost(la, ss, lo, hi + 1), Cost(lb, ss, lo, hi + 1))
  {
    hide Cost, Packed;
    CostStep(la, ss, lo, hi);
    CostStep(lb, ss, lo, hi);
    PackedStep(Cost(la, ss, lo, hi), Cost(lb, ss, lo, hi), la[ss[hi]], lb[ss[hi]]);
  }

  // Full groups with six tables: three packed sums instead of six.
  method FastCosts(cost: array<int>, lenPack: seq<(int, int, int)>, ghost lens: seq<seq<byte>>, alphaSize: int, mtfv: seq<int>, gs: nat)
    requires cost.Length == 6 && PackedLengths(lenPack, lens, alphaSize) && InAlphabet(mtfv, alphaSize) && gs + G_SIZE <= |mtfv|
    modifies cost
    ensures Costs(cost[..], lens, alphaSize, mtfv, gs, gs + G_SIZE)
  {
    hide Cost, Packed;
    var cost01, cost23, cost45 := 0, 0, 0;
    PairZero(lens, alphaSize, mtfv, gs);
    for nn := 0 to G_SIZE
      invariant cost01 == Packed(Cost(lens[0], mtfv, gs, gs + nn), Cost(lens[1], mtfv, gs, gs + nn))
      invariant cost23 == Packed(Cost(lens[2], mtfv, gs, gs + nn), Cost(lens[3], mtfv, gs, gs + nn))
      invariant cost45 == Packed(Cost(lens[4], mtfv, gs, gs + nn), Cost(lens[5], mtfv, gs, gs + nn))
    {
      var icv := mtfv[gs + nn];
      PairStep(lens[0], lens[1], mtfv, gs, gs + nn, cost01);
      PairStep(lens[2], lens[3], mtfv, gs, gs + nn, cost23);
      PairStep(lens[4], lens[5], mtfv, gs, gs + nn, cost45);
      cost01 := (cost01 + lenPack[icv].0) % 0x1_0000_0000;
      cost23 := (cost23 + lenPack[icv].1) % 0x1_0000_0000;
      cost45 := (cost45 + lenPack[icv].2) % 0x1_0000_0000;
    }
    ghost var end := gs + G_SIZE;
    forall t | 0 <= t < 6 ensures 0 <= Cost(lens[t], mtfv, gs, end) <= 1000 {
      CostBound(lens[t], mtfv, gs, end);
    }
    Unpacked(Cost(lens[0], mtfv, gs, end), Cost(lens[1], mtfv, gs, end));
    Unpacked(Cost(lens[2], mtfv, gs, end), Cost(lens[3], mtfv, gs, end));
    Unpacked(Cost(lens[4], mtfv, gs, end), Cost(lens[5], mtfv, gs, end));
    cost[0], cost[1] := cost01 % 0x1_0000, cost01 / 0x1_0000;
    cost[2], cost[3] := cost23 % 0x1_0000, cost23 / 0x1_0000;
    cost[4], cost[5] := cost45 % 0x1_0000, cost45 / 0x1_0000;
  }

  lemma PairZero(lens: seq<seq<byte>>, alphaSize: int, ss: seq<int>, lo: nat)
    requires |lens| == 6 && TablesOf(lens, 6, alphaSize) && lo <= |ss| && InAlphabet(ss, alphaSize)
    ensures forall t :: 0 <= t < 6 ==> Cost(lens[t], ss, lo, lo) == 0
    ensures Packed(0, 0) == 0
  {
  }

  // ---- choosing ----

  // Table t is the first of the cheapest ones for the symbols lo..hi - 1.
  ghost predicate Cheapest(lens: seq<seq<byte>>, alphaSize: int, ss: seq<int>, lo: nat, hi: nat, t: int) {
    && lo <= hi <= |ss| && InAlphabet(ss, alphaSize) && TablesOf(lens, |lens|, alphaSize) && 0 <= t < |lens|
    && (forall u :: 0 <= u < |lens| ==> Cost(lens[t], ss, lo, hi) <= Cost(lens[u], ss, lo, hi))
    && (forall u :: 0 <= u < t ==> Cost(lens[t], ss, lo, hi) < Cost(lens[u], ss, lo, hi))
  }

  method BestTable(cost: array<int>, ghost lens: seq<seq<byte>>, nGroups: int, alphaSize: int, ghost ss: seq<int>, gs: nat, ge: int)
    returns (bt: int)
    requires cost.Length == 6 && 1 <= nGroups == |lens| <= 6 && gs <= ge < gs + G_SIZE && Costs(cost[..], lens, alphaSize, ss, gs, ge + 1)
    ensures Cheapest(lens, alphaSize, ss, gs, ge + 1, bt)
  {
    CostBound(lens[0], ss, gs, ge + 1);
    hide Cost;
    var bc := 999999999;
    bt := -1;
    for t := 0 to nGroups
      invariant if t == 0 then bt == -1 && bc == 999999999 else 0 <= bt < t && bc == cost[bt]
      invariant forall u :: 0 <= u < t ==> bc <= cost[u]
      invariant forall u :: 0 <= u < bt ==> bc < cost[u]
    {
      if cost[t] < bc {
        bc := cost[t];
        bt := t;
      }
    }
  }

  // The first n symbols that go through table t.
  function Routed(ss: seq<int>, sel: seq<byte>, n: nat, t: int): (r: seq<int>)
    requires n <= |ss| && Groups(n) <= |sel|
    ensures |r| <= n
  {
    if n == 0 then []
    else
      GroupCount(n, n - 1);
      Routed(ss, sel, n - 1, t) + if sel[Group(n - 1)] == t then [ss[n - 1]] else []
  }

  lemma RoutedStep(ss: seq<int>, sel: seq<byte>, n: nat, t: int, v: int)
    requires n < |ss| && Groups(n + 1) <= |sel| && Group(n) < |sel|
    ensures Count(Routed(ss, sel, n + 1, t), v) == Count(Routed(ss, sel, n, t), v) + if sel[Group(n)] == t && ss[n] == v then 1 else 0
  {
    var r := Routed(ss, sel, n, t);
    assert (r + [ss[n]])[..|r|] == r;
    assert r + [] == r;
  }

  lemma {:induction false} RoutedSame(ss: seq<int>, sel: seq<byte>, n: nat, t: int, x: byte)
    requires n <= |ss| && Groups(n) <= |sel|
    ensures Routed(ss, sel + [x], n, t) == Routed(ss, sel, n, t)
  {
    if n > 0 {
      GroupCount(n, n - 1);
      RoutedSame(ss, sel, n - 1, t, x);
    }
  }

  // The frequencies of every table's symbols among the first n.
  ghost predicate Tallied(rfreq: array2<int>, nGroups: int, alphaSize: int, ss: seq<int>, sel: seq<byte>, n: nat)
    reads rfreq
  {
    && rfreq.Length0 == 6 && rfreq.Length1 == 258 && 0 <= nGroups <= 6 && 0 <= alphaSize <= 258 && n <= |ss| && Groups(n) <= |sel|
    && (forall t, v :: 0 <= t < nGroups && 0 <= v < alphaSize ==> rfreq[t, v] == Count(Routed(ss, sel, n, t), v))
  }

  // The symbols of the last group are counted with its table.
  method TallyGroup(rfreq: array2<int>, nGroups: int, alphaSize: int, mtfv: seq<int>, selector: seq<byte>, bt: int, gs: nat, ge: int)
    requires InAlphabet(mtfv, alphaSize) && |selector| > 0 && bt == selector[|selector| - 1] < nGroups
    requires gs == G_SIZE * (|selector| - 1) && gs <= ge < |mtfv| && ge < gs + G_SIZE
    requires Tallied(rfreq, nGroups, alphaSize, mtfv, selector, gs)
    modifies rfreq
    ensures Tallied(rfreq, nGroups, alphaSize, mtfv, selector, ge + 1)
  {
    hide Routed, Count, Group, Groups;
    for i := gs to ge + 1
      invariant Tallied(rfreq, nGroups, alphaSize, mtfv, selector, i)
    {
      LastGroup(|selector|, i);
      forall t, v | 0 <= t < nGroups && 0 <= v < alphaSize
        ensures Count(Routed(mtfv, selector, i + 1, t), v) == Count(Routed(mtfv, selector, i, t), v) + if bt == t && mtfv[i] == v then 1 else 0
      {
        RoutedStep(mtfv, selector, i, t, v);
      }
      rfreq[bt, mtfv[i]] := rfreq[bt, mtfv[i]] + 1;
    }
  }

  lemma LastGroup(g: nat, i: nat)
    requires g > 0 && G_SIZE * (g - 1) <= i < G_SIZE * g
    ensures Group(i) == g - 1 && Groups(i + 1) == g
  {
  }

  // ---- one round ----

  function GroupEnd(n: nat, g: nat): nat {
    if G_SIZE * g + G_SIZE <= n then G_SIZE * g + G_SIZE else n
  }

  // Every group so far has its cheapest table.
  ghost predicate AllCheapest(lens: seq<seq<byte>>, alphaSize: int, ss: seq<int>, sel: seq<byte>) {
    forall g :: 0 <= g < |sel| ==> Cheapest(lens, alphaSize, ss, G_SIZE * g, GroupEnd(|ss|, g), sel[g])
  }

  lemma AllCheapestMore(lens: seq<seq<byte>>, alphaSize: int, ss: seq<int>, sel: seq<byte>, gs: nat, hi: nat, t: byte)
    requires AllCheapest(lens, alphaSize, ss, sel) && gs == G_SIZE * |sel| && hi == GroupEnd(|ss|, |sel|)
    requires Cheapest(lens, alphaSize, ss, gs, hi, t)
    ensures AllCheapest(lens, alphaSize, ss, sel + [t])
  {
    hide Cheapest;
  }

  method ClearTally(rfreq: array2<int>, nGroups: int, alphaSize: int, ghost ss: seq<int>)
    requires rfreq.Length0 == 6 && rfreq.Length1 == 258 && 0 <= nGroups <= 6 && 0 <= alphaSize <= 258
    modifies rfreq
    ensures Tallied(rfreq, nGroups, alphaSize, ss, [], 0)
  {
    for t := 0 to nGroups
      invariant forall u, v :: 0 <= u < t && 0 <= v < alphaSize ==> rfreq[u, v] == 0
    {
      for v := 0 to alphaSize
        invariant forall u, w :: 0 <= u < t && 0 <= w < alphaSize ==> rfreq[u, w] == 0
        invariant forall w :: 0 <= w < v ==> rfreq[t, w] == 0
      {
        rfreq[t, v] := 0;
      }
    }
  }

  // The costs of one group, by whichever of the two ways applies.
  method GroupCosts(cost: array<int>, lenPack: seq<(int, int, int)>, lens: seq<seq<byte>>, alphaSize: int, mtfv: seq<int>, gs: nat, ge: int)
    requires cost.Length == 6 && |lens| <= 6 && TablesOf(lens, |lens|, alphaSize) && InAlphabet(mtfv, alphaSize)
    requires |lens| == 6 ==> PackedLengths(lenPack, lens, alphaSize)
    requires gs <= ge < |mtfv| && ge < gs + G_SIZE
    modifies cost
    ensures Costs(cost[..], lens, alphaSize, mtfv, gs, ge + 1)
  {
    hide Costs, TablesOf, InAlphabet, PackedLengths;
    if |lens| == 6 && G_SIZE == ge - gs + 1 {
      FastCosts(cost, lenPack, lens, alphaSize, mtfv, gs);
    } else {
      SlowCosts(cost, lens, alphaSize, mtfv, gs, ge);
    }
  }

  method Round(rfreq: array2<int>, lens: seq<seq<byte>>, alphaSize: int, mtfv: seq<int>) returns (selector: seq<byte>)
    requires 2 <= |lens| <= 6 && 0 <= alphaSize <= 258 && TablesOf(lens, |lens|, alphaSize) && InAlphabet(mtfv, alphaSize)
    requires rfreq.Length0 == 6 && rfreq.Length1 == 258
    modifies rfreq
    ensures |selector| == Groups(|mtfv|) && AllCheapest(lens, alphaSize, mtfv, selector)
    ensures Tallied(rfreq, |lens|, alphaSize, mtfv, selector, |mtfv|)
  {
    hide TablesOf, InAlphabet, Tallied, PackedLengths, Marks, Groups, Group, Cheapest, Costs;
    var cost := new int[6];
    var lenPack := [];
    ClearTally(rfreq, |lens|, alphaSize, mtfv);
    if |lens| == 6 {
      lenPack := PackLengths(lens, alphaSize);
    }
    selector := [];
    MarksStart(|mtfv|);
    var gs := 0;
    while gs < |mtfv|
      invariant 0 <= gs <= |mtfv| && Marks(|mtfv|, |selector|, gs) && AllCheapest(lens, alphaSize, mtfv, selector)
      invariant Tallied(rfreq, |lens|, alphaSize, mtfv, selector, gs)
    {
      var ge := gs + G_SIZE - 1;
      if ge >= |mtfv| {
        ge := |mtfv| - 1;
      }
      MarksMove(|mtfv|, |selector|, gs, ge);
      GroupCosts(cost, lenPack, lens, alphaSize, mtfv, gs, ge);
      var bt := BestTable(cost, lens, |lens|, alphaSize, mtfv, gs, ge);
      ChosenTable(lens, alphaSize, mtfv, gs, ge + 1, bt);
      AllCheapestMore(lens, alphaSize, mtfv, selector, gs, ge + 1, bt);
      TalliedSame(rfreq, |lens|, alphaSize, mtfv, selector, gs, bt);
      selector := selector + [bt];
      TallyGroup(rfreq, |lens|, alphaSize, mtfv, selector, bt, gs, ge);
      gs := ge + 1;
    }
    MarksEnd(|mtfv|, |selector|, gs);
  }

  lemma ChosenTable(lens: seq<seq<byte>>, alphaSize: int, ss: seq<int>, lo: nat, hi: nat, t: int)
    requires Cheapest(lens, alphaSize, ss, lo, hi, t)
    ensures 0 <= t < |lens|
  {
  }

  lemma TalliedSame(rfreq: array2<int>, nGroups: int, alphaSize: int, ss: seq<int>, sel: seq<byte>, n: nat, x: byte)
    requires Tallied(rfreq, nGroups, alphaSize, ss, sel, n)
    ensures Tallied(rfreq, nGroups, alphaSize, ss, sel + [x], n)
  {
    hide Routed, Count;
    forall t ensures Routed(ss, sel + [x], n, t) == Routed(ss, sel, n, t) {
      RoutedSame(ss, sel, n, t, x);
    }
  }

  // ---- the tables ----

  lemma {:induction false} FreqBound(freq: seq<int>, s: seq<int>, m: nat)
    requires m <= |freq| && forall v :: 0 <= v < |freq| ==> freq[v] == Count(s, v)
    ensures HuffmanLengths.FreqSum(freq[..m]) <= Below(s, m) + m
  {
    if m > 0 {
      FreqBound(freq, s, m - 1);
      BelowStep(s, m - 1);
      assert freq[..m][..m - 1] == freq[..m - 1];
    }
  }

  // A complete prefix code over the alphabet with lengths in 1..17.
  ghost predicate FullCodes(lens: seq<seq<byte>>, alphaSize: int) {
    forall t :: 0 <= t < |lens| ==> |lens[t]| == alphaSize && HuffmanLengths.FullCode(lens[t], 17)
  }

  function Frequencies(s: seq<int>, alphaSize: nat): (freq: seq<int>)
    ensures |freq| == alphaSize
  {
    seq(alphaSize, v requires 0 <= v < alphaSize => Count(s, v))
  }

  // Every table is a best code for the symbols routed to it.
  ghost predicate Fitted(lens: seq<seq<byte>>, alphaSize: nat, ss: seq<int>, sel: seq<byte>) {
    && Groups(|ss|) <= |sel|
    && forall t :: 0 <= t < |lens| ==> HuffmanLengths.BestCode(Frequencies(Routed(ss, sel, |ss|, t), alphaSize), lens[t], 17)
  }

  // A round gives every group the first of its cheapest tables and fits the tables anew.
  ghost predicate Stage(lens: seq<seq<byte>>, alphaSize: nat, ss: seq<int>, sel: seq<byte>, lens': seq<seq<byte>>) {
    && |sel| == Groups(|ss|) && |lens'| == |lens| && AllCheapest(lens, alphaSize, ss, sel) && Fitted(lens', alphaSize, ss, sel)
  }

  ghost predicate Improved(lens: seq<seq<byte>>, alphaSize: nat, ss: seq<int>, lens': seq<seq<byte>>) {
    exists sel: seq<byte> :: Stage(lens, alphaSize, ss, sel, lens')
  }

  // Tables in use at the beginning of each round so far, from the first guess on.
  ghost predicate Rounds(history: seq<seq<seq<byte>>>, freq: seq<int>, ss: seq<int>) {
    && history != [] && Divided(history[0], freq)
    && forall i :: 0 <= i < |history| - 1 ==> Improved(history[i], |freq|, ss, history[i + 1])
  }

  // The outcome of four rounds.
  ghost predicate Chosen(ss: seq<int>, freq: seq<int>, lens: seq<seq<byte>>, sel: seq<byte>) {
    exists history: seq<seq<seq<byte>>> :: Rounds(history, freq, ss) && |history| == 4 && Stage(history[3], |freq|, ss, sel, lens)
  }

  // The tables of the next round, each from the symbols that went through it.
  method Recompute(rfreq: array2<int>, nGroups: int, alphaSize: int, ghost mtfv: seq<int>, ghost selector: seq<byte>) returns (lens: seq<seq<byte>>)
    requires 2 <= nGroups <= 6 && 3 <= alphaSize <= 258 && |mtfv| <= 900001 && Groups(|mtfv|) <= |selector|
    requires Tallied(rfreq, nGroups, alphaSize, mtfv, selector, |mtfv|)
    ensures |lens| == nGroups && FullCodes(lens, alphaSize) && Fitted(lens, alphaSize, mtfv, selector)
  {
    hide Routed, Count, Groups, Group, HuffmanLengths.FullCode, HuffmanLengths.FreqSum, HuffmanLengths.BestCode, Fib;
    lens := [];
    for t := 0 to nGroups
      invariant |lens| == t && FullCodes(lens, alphaSize) && Fitted(lens, alphaSize, mtfv, selector)
      invariant Tallied(rfreq, nGroups, alphaSize, mtfv, selector, |mtfv|)
    {
      var freq := seq(alphaSize, v requires 0 <= v < 258 reads rfreq => rfreq[t, v]);
      var len := new int[258];
      FreqBound(freq, Routed(mtfv, selector, |mtfv|, t), alphaSize);
      assert freq[..alphaSize] == freq;
      assert freq == Frequencies(Routed(mtfv, selector, |mtfv|, t), alphaSize);
      HuffmanLengths.SeventeenBitsSuffice(alphaSize);
      HuffmanLengths.MakeCodeLengths(len, freq, alphaSize, 17);
      var bytes := Bytes(len, alphaSize);
      lens := lens + [bytes];
    }
  }

  method Bytes(len: array<int>, alphaSize: int) returns (bytes: seq<byte>)
    requires 0 <= alphaSize <= len.Length && HuffmanLengths.FullCode(len[..alphaSize], 17)
    ensures bytes == len[..alphaSize]
  {
    bytes := [];
    for v := 0 to alphaSize
      invariant bytes == len[..v]
    {
      assert len[v] == len[..alphaSize][v];
      bytes := bytes + [len[v]];
    }
  }

  function HowManyTables(nMTF: int): (nGroups: int)
    ensures 2 <= nGroups <= 6
  {
    if nMTF < 200 then 2 else if nMTF < 600 then 3 else if nMTF < 1200 then 4 else if nMTF < 2400 then 5 else 6
  }

  method ChooseTables(mtfv: seq<int>, mtfFreq: seq<int>) returns (lens: seq<seq<byte>>, selector: seq<byte>)
    requires 3 <= |mtfFreq| <= 258 && 0 < |mtfv| <= 900001 && InAlphabet(mtfv, |mtfFreq|)
    requires forall v :: 0 <= v < |mtfFreq| ==> mtfFreq[v] == Count(mtfv, v)
    ensures |lens| == HowManyTables(|mtfv|) && FullCodes(lens, |mtfFreq|)
    ensures |selector| == Groups(|mtfv|) <= 18002 && forall g :: 0 <= g < |selector| ==> selector[g] < |lens|
    ensures Chosen(mtfv, mtfFreq, lens, selector)
  {
    hide Cheapest, AllCheapest, Fitted, Divided, Rounds, FullCodes;
    var alphaSize := |mtfFreq|;
    var nGroups := HowManyTables(|mtfv|);
    var rfreq := new int[6, 258];
    selector := [];
    TailAll(mtfFreq, mtfv);
    lens := FirstTables(mtfFreq, nGroups, |mtfv|);
    ghost var history := [lens];
    RoundsStart(lens, mtfFreq, mtfv);
    for iter := 0 to 4
      invariant |lens| == nGroups && TablesOf(lens, nGroups, alphaSize) && (iter > 0 ==> FullCodes(lens, alphaSize))
      invariant iter > 0 ==> |selector| == Groups(|mtfv|) && forall g :: 0 <= g < |selector| ==> selector[g] < nGroups
      invariant |history| == iter + 1 && history[iter] == lens && Rounds(history, mtfFreq, mtfv)
      invariant iter > 0 ==> Stage(history[iter - 1], alphaSize, mtfv, selector, lens)
    {
      selector := Round(rfreq, lens, alphaSize, mtfv);
      CheapestInside(lens, alphaSize, mtfv, selector);
      var next := Recompute(rfreq, nGroups, alphaSize, mtfv, selector);
      FullTables(next, nGroups, alphaSize);
      RoundsMore(history, mtfFreq, mtfv, selector, next);
      history := history + [next];
      lens := next;
    }
    RoundsFront(history, mtfFreq, mtfv);
  }

  lemma RoundsStart(lens: seq<seq<byte>>, freq: seq<int>, ss: seq<int>)
    requires Divided(lens, freq)
    ensures Rounds([lens], freq, ss)
  {
  }

  lemma RoundsMore(history: seq<seq<seq<byte>>>, freq: seq<int>, ss: seq<int>, sel: seq<byte>, lens: seq<seq<byte>>)
    requires Rounds(history, freq, ss) && Stage(history[|history| - 1], |freq|, ss, sel, lens)
    ensures Rounds(history + [lens], freq, ss)
  {
    hide Divided, Stage;
  }

  lemma RoundsFront(history: seq<seq<seq<byte>>>, freq: seq<int>, ss: seq<int>)
    requires Rounds(history, freq, ss) && |history| == 5
    ensures Rounds(history[..4], freq, ss) && history[..4][3] == history[3]
  {
    hide Divided, Improved;
  }

  lemma CheapestInside(lens: seq<seq<byte>>, alphaSize: int, ss: seq<int>, sel: seq<byte>)
    requires AllCheapest(lens, alphaSize, ss, sel)
    ensures forall g :: 0 <= g < |sel| ==> sel[g] < |lens|
  {
    hide Cheapest;
    forall g | 0 <= g < |sel| ensures sel[g] < |lens| {
      ChosenTable(lens, alphaSize, ss, G_SIZE * g, GroupEnd(|ss|, g), sel[g]);
    }
  }

  lemma FullTables(lens: seq<seq<byte>>, nGroups: int, alphaSize: int)
    requires |lens| == nGroups && FullCodes(lens, alphaSize)
    ensures TablesOf(lens, nGroups, alphaSize)
  {
    forall t | 0 <= t < nGroups ensures |lens[t]| == alphaSize && forall v :: 0 <= v < alphaSize ==> lens[t][v] <= 20 {
      assert HuffmanLengths.FullCode(lens[t], 17);
    }
  }

  lemma {:induction false} TailCount(freq: seq<int>, s: seq<int>, gs: nat)
    requires gs <= |freq| && InAlphabet(s, |freq|) && forall v :: 0 <= v < |freq| ==> freq[v] == Count(s, v)
    ensures Tail(freq, gs) == |s| - Below(s, gs)
    decreases |freq| - gs
  {
    BelowEndsIn(s, |freq|);
    if gs < |freq| {
      TailCount(freq, s, gs + 1);
      BelowStep(s, gs);
    }
  }

  lemma TailAll(freq: seq<int>, s: seq<int>)
    requires InAlphabet(s, |freq|) && forall v :: 0 <= v < |freq| ==> freq[v] == Count(s, v)
    ensures Tail(freq, 0) == |s|
  {
    TailCount(freq, s, 0);
    BelowEndsIn(s, |freq|);
  }
}
