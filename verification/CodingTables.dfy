// Selectors and code lengths on the wire: unary numbers, and lengths as steps from the
// previous symbol's length.
module CodingTables {
  import opened Powers
  import opened Bits
  import opened BitIO
  import opened Rotations
  import opened SideInfo

  // j ones and a zero.
  function Unary(j: nat): seq<bit> {
    if j == 0 then Bit(false) else Bit(true) + Unary(j - 1)
  }

  function UnaryFrom(ms: seq<int>, i: nat): seq<bit>
    requires i <= |ms| && forall k :: 0 <= k < |ms| ==> 0 <= ms[k]
    decreases |ms| - i
  {
    if i == |ms| then [] else Unary(ms[i]) + UnaryFrom(ms, i + 1)
  }

  function SelectorBits(nGroups: nat, ms: seq<int>): seq<bit>
    requires forall k :: 0 <= k < |ms| ==> 0 <= ms[k]
  {
    ToBits(nGroups, 3) + (ToBits(|ms|, 15) + UnaryFrom(ms, 0))
  }

  method SendUnary(w: BitWriter, n: nat)
    requires w.Valid()
    modifies w
    ensures w.Valid() && w.Written() == old(w.Written()) + Unary(n)
  {
    hide BitWriter.Valid, BitWriter.Written, Bit;
    ghost var start := w.Written();
    var j := 0;
    while j < n
      invariant 0 <= j <= n && w.Valid() && w.Written() + Unary(n - j) == start + Unary(n)
    {
      Join(w.Written(), Bit(true), Unary(n - j - 1));
      PutBit(w, true);
      j := j + 1;
    }
    PutBit(w, false);
  }

  lemma SmallPowers()
    ensures Pow2(3) == 8 && Pow2(15) == 32768 && Pow2(5) == 32
  {
    Pow2Values();
    assert Pow2(16) == 2 * Pow2(15);
  }

  method SendSelectors(w: BitWriter, nGroups: nat, ms: seq<int>)
    requires w.Valid() && nGroups <= 6 && |ms| < 32768 && forall k :: 0 <= k < |ms| ==> 0 <= ms[k]
    modifies w
    ensures w.Valid() && w.Written() == old(w.Written()) + SelectorBits(nGroups, ms)
  {
    hide BitWriter.Valid, BitWriter.Written, Bit, ToBits, Unary, Pow2;
    ghost var start := w.Written();
    SmallPowers();
    w.W(3, nGroups);
    w.W(15, |ms|);
    Join(start, ToBits(nGroups, 3), ToBits(|ms|, 15) + UnaryFrom(ms, 0));
    Join(start + ToBits(nGroups, 3), ToBits(|ms|, 15), UnaryFrom(ms, 0));
    for i := 0 to |ms|
      invariant w.Valid() && w.Written() + UnaryFrom(ms, i) == start + SelectorBits(nGroups, ms)
    {
      Join(w.Written(), Unary(ms[i]), UnaryFrom(ms, i + 1));
      SendUnary(w, ms[i]);
    }
    assert w.Written() + [] == w.Written();
  }

  // ---- reading the selectors back ----

  // Ones counted from j up to a zero, refused as soon as they reach the limit.
  function ParseUnary(bits: seq<bit>, j: nat, limit: nat): (p: Parsed<int>)
    ensures p.Done? ==> p.value >= j && (p.value == j || p.value < limit)
    decreases |bits|
  {
    if bits == [] then Starved
    else if bits[0] == 0 then Done(j, bits[1..])
    else if j + 1 >= limit then Corrupt
    else ParseUnary(bits[1..], j + 1, limit)
  }

  // n numbers into an array with room for so many.
  function ParseUnaries(bits: seq<bit>, n: nat, limit: nat, room: nat): (p: Parsed<seq<int>>)
    ensures p.Done? && limit > 0 ==> |p.value| == n && forall k :: 0 <= k < n ==> 0 <= p.value[k] < limit
    decreases n
  {
    if n == 0 then Done([], bits)
    else
      var p := ParseUnary(bits, 0, limit);
      if !p.Done? then Failing(p)
      else if room == 0 then Overrun
      else AfterNumbers([p.value], ParseUnaries(p.rest, n - 1, limit, room - 1))
  }

  function AfterNumbers<T>(ms: seq<T>, p: Parsed<seq<T>>): Parsed<seq<T>> {
    if p.Done? then Done(ms + p.value, p.rest) else p
  }

  lemma NumbersAfterNumbers<T>(a: seq<T>, b: seq<T>, p: Parsed<seq<T>>)
    ensures AfterNumbers(a, AfterNumbers(b, p)) == AfterNumbers(a + b, p)
    ensures AfterNumbers([], p) == p
  {
    if p.Done? {
      assert a + (b + p.value) == (a + b) + p.value;
      assert [] + p.value == p.value;
    }
  }

  // The number of tables and the position of every selector.
  datatype Choice = Choice(nGroups: nat, ms: seq<int>)

  // Both selector arrays have this many places; the count on the wire has fifteen bits.
  const MAX_SELECTORS := 18002

  function ParseSelectors(bits: seq<bit>): (p: Parsed<Choice>)
    ensures p.Done? ==> 2 <= p.value.nGroups <= 6 && forall k :: 0 <= k < |p.value.ms| ==> 0 <= p.value.ms[k] < p.value.nGroups
  {
    if |bits| < 3 then Starved
    else if Value(bits[..3]) < 2 || Value(bits[..3]) > 6 then Corrupt
    else if |bits| < 18 then Starved
    else if Value(bits[3..][..15]) < 1 then Corrupt
    else
      var p := ParseUnaries(bits[18..], Value(bits[3..][..15]), Value(bits[..3]), MAX_SELECTORS);
      if p.Done? then Done(Choice(Value(bits[..3]), p.value), p.rest) else Failing(p)
  }

  lemma {:induction false} UnaryParses(m: nat, j: nat, limit: nat, t: seq<bit>)
    ensures ParseUnary(Unary(m) + t, j, limit) == if m == 0 || j + m < limit then Done(j + m, t) else Corrupt
    decreases m
  {
    hide Bit;
    if m == 0 {
      BitFirst(false, t);
    } else {
      Join(Bit(true), Unary(m - 1), t);
      BitFirst(true, Unary(m - 1) + t);
      UnaryParses(m - 1, j + 1, limit, t);
    }
  }

  // How numbers ms[i..] are read: all of them, up to one that is too large, or until the
  // array is full.
  lemma {:induction false} UnariesParse(ms: seq<int>, i: nat, limit: nat, room: nat, t: seq<bit>)
    requires i <= |ms| && 2 <= limit && forall k :: 0 <= k < |ms| ==> 0 <= ms[k]
    ensures ParseUnaries(UnaryFrom(ms, i) + t, |ms| - i, limit, room) == NumbersRead(ms, i, limit, room, t)
    decreases |ms| - i
  {
    hide Unary;
    if i == |ms| {
      assert [] + t == t;
    } else {
      UnariesParse(ms, i + 1, limit, if room == 0 then 0 else room - 1, t);
      Join(Unary(ms[i]), UnaryFrom(ms, i + 1), t);
      UnaryParses(ms[i], 0, limit, UnaryFrom(ms, i + 1) + t);
      assert ms[i..] == [ms[i]] + ms[i + 1..];
    }
  }

  ghost function NumbersRead(ms: seq<int>, i: nat, limit: nat, room: nat, t: seq<bit>): Parsed<seq<int>>
    requires i <= |ms|
  {
    if |ms| <= i + room then
      if forall k :: i <= k < |ms| ==> ms[k] < limit then Done(ms[i..], t) else Corrupt
    else if forall k :: i <= k <= i + room ==> ms[k] < limit then Overrun
    else Corrupt
  }

  lemma NumberFirst(v: nat, n: nat, t: seq<bit>)
    requires v < Pow2(n)
    ensures n <= |ToBits(v, n) + t| && Value((ToBits(v, n) + t)[..n]) == v && (ToBits(v, n) + t)[n..] == t
  {
    ValueOfBits(v, n);
    assert (ToBits(v, n) + t)[..n] == ToBits(v, n);
  }

  // What is written is read back; numbers no encoder writes are refused; and more selectors
  // than the arrays have places are written past their end.
  lemma SelectorsParse(nGroups: nat, ms: seq<int>, t: seq<bit>)
    requires nGroups < 8 && |ms| < 32768 && forall k :: 0 <= k < |ms| ==> 0 <= ms[k]
    ensures ParseSelectors(SelectorBits(nGroups, ms) + t)
         == if nGroups < 2 || nGroups > 6 || ms == [] then Corrupt
            else
              var p := NumbersRead(ms, 0, nGroups, MAX_SELECTORS, t);
              if p.Done? then Done(Choice(nGroups, ms), t) else Failing(p)
  {
    hide ToBits, Unary, UnaryFrom, ParseUnaries, Pow2, Value;
    SmallPowers();
    var more := UnaryFrom(ms, 0) + t;
    Join(ToBits(nGroups, 3), ToBits(|ms|, 15) + UnaryFrom(ms, 0), t);
    Join(ToBits(|ms|, 15), UnaryFrom(ms, 0), t);
    NumberFirst(nGroups, 3, ToBits(|ms|, 15) + more);
    NumberFirst(|ms|, 15, more);
    var bits := SelectorBits(nGroups, ms) + t;
    assert bits[18..] == bits[3..][15..];
    if 2 <= nGroups {
      UnariesParse(ms, 0, nGroups, MAX_SELECTORS, t);
      assert ms[0..] == ms;
    }
  }

  // Well-formed selectors stay inside the arrays exactly when there are at most 18002.
  lemma SelectorWritesInside(nGroups: nat, ms: seq<int>, t: seq<bit>)
    requires 2 <= nGroups <= 6 && 0 < |ms| < 32768 && forall k :: 0 <= k < |ms| ==> 0 <= ms[k] < nGroups
    ensures ParseSelectors(SelectorBits(nGroups, ms) + t).Overrun? <==> |ms| > MAX_SELECTORS
    ensures |ms| <= MAX_SELECTORS ==> ParseSelectors(SelectorBits(nGroups, ms) + t) == Done(Choice(nGroups, ms), t)
  {
    hide ParseSelectors, SelectorBits;
    SelectorsParse(nGroups, ms, t);
    assert ms[0..] == ms;
  }

  // On any input: the count alone never lets an array be left when it is at most 18002.
  lemma SelectorCountInside(bits: seq<bit>)
    requires |bits| >= 18 && Value(bits[3..][..15]) <= MAX_SELECTORS
    ensures !ParseSelectors(bits).Overrun?
  {
    hide ParseUnaries, Value;
    RoomSuffices(bits[18..], Value(bits[3..][..15]), Value(bits[..3]), MAX_SELECTORS);
  }

  lemma {:induction false} RoomSuffices(bits: seq<bit>, n: nat, limit: nat, room: nat)
    requires n <= room
    ensures !ParseUnaries(bits, n, limit, room).Overrun?
    decreases n
  {
    UnaryFits(bits, 0, limit);
    var p := ParseUnary(bits, 0, limit);
    if n > 0 && p.Done? {
      RoomSuffices(p.rest, n - 1, limit, room - 1);
    }
    hide ParseUnary;
  }

  lemma {:induction false} UnaryFits(bits: seq<bit>, j: nat, limit: nat)
    ensures !ParseUnary(bits, j, limit).Overrun?
    decreases |bits|
  {
    if bits != [] && bits[0] != 0 && j + 1 < limit {
      UnaryFits(bits[1..], j + 1, limit);
    }
  }

  // The smallest failing count: with 18003 selectors the last one, number 18002, is written
  // one place past the end of the array.
  lemma OneSelectorTooMany(t: seq<bit>)
    ensures var ms := seq(18003, _ => 0);
            ParseSelectors(SelectorBits(2, ms) + t) == Overrun && ParseSelectors(SelectorBits(2, ms[..18002]) + t) == Done(Choice(2, ms[..18002]), t)
  {
    hide ParseSelectors, SelectorBits;
    var ms: seq<int> := seq(18003, _ => 0);
    SelectorWritesInside(2, ms, t);
    SelectorWritesInside(2, ms[..18002], t);
  }

  method ReceiveUnary(r: BitReader, limit: nat) returns (p: Ending, j: nat)
    requires r.Valid()
    modifies r
    ensures r.Valid()
    ensures ParseUnary(old(r.Stream()), 0, limit) == Result(p, j, r.Stream())
  {
    hide BitReader.Valid, BitReader.Stream;
    ghost var want := ParseUnary(r.Stream(), 0, limit);
    j := 0;
    while true
      invariant r.Valid() && want == ParseUnary(r.Stream(), j, limit)
      decreases |r.Stream()|
    {
      var ok, uc := GetBit(r);
      if !ok {
        return OutOfInput, j;
      }
      if uc == 0 {
        return Received, j;
      }
      j := j + 1;
      if j >= limit {
        return Refused, j;
      }
    }
  }

  // How a read ended.
  datatype Ending = Received | Refused | OutOfInput | PastArray

  ghost function Result<T>(p: Ending, v: T, rest: seq<bit>): Parsed<T> {
    match p
    case Received => Done(v, rest)
    case Refused => Corrupt
    case OutOfInput => Starved
    case PastArray => Overrun
  }

  // PastArray is where the program would write past the end of selectorMtf: it checks that
  // there is at least one selector, but not that there are at most as many as places.
  method ReceiveSelectors(r: BitReader, selectorMtf: array<int>) returns (p: Ending, nGroups: nat, nSelectors: nat)
    requires r.Valid() && selectorMtf.Length == MAX_SELECTORS
    modifies r, selectorMtf
    ensures r.Valid() && nSelectors <= MAX_SELECTORS
    ensures ParseSelectors(old(r.Stream())) == Result(p, Choice(nGroups, selectorMtf[..nSelectors]), r.Stream())
  {
    hide BitReader.Valid, BitReader.Stream, Value, ParseUnary;
    ghost var bits := r.Stream();
    nSelectors := 0;
    var ok;
    ok, nGroups := r.GetBits(3);
    if !ok {
      return OutOfInput, nGroups, 0;
    }
    if nGroups < 2 || nGroups > 6 {
      return Refused, nGroups, 0;
    }
    var n;
    ok, n := r.GetBits(15);
    if !ok {
      return OutOfInput, nGroups, 0;
    }
    if n < 1 {
      return Refused, nGroups, 0;
    }
    assert bits[18..] == bits[3..][15..];
    p := ReceiveUnaries(r, n, nGroups, selectorMtf);
    nSelectors := if p == Received then n else 0;
  }

  method ReceiveUnaries(r: BitReader, n: nat, limit: nat, selectorMtf: array<int>) returns (p: Ending)
    requires r.Valid()
    modifies r, selectorMtf
    ensures r.Valid() && (p == Received ==> n <= selectorMtf.Length)
    ensures ParseUnaries(old(r.Stream()), n, limit, selectorMtf.Length) == Result(p, if p == Received then selectorMtf[..n] else [], r.Stream())
  {
    hide BitReader.Valid, BitReader.Stream, ParseUnary;
    ghost var want := ParseUnaries(r.Stream(), n, limit, selectorMtf.Length);
    NumbersAfterNumbers([], [], want);
    assert selectorMtf[..0] == [];
    for i := 0 to n
      invariant r.Valid() && i <= selectorMtf.Length
      invariant want == AfterNumbers(selectorMtf[..i], ParseUnaries(r.Stream(), n - i, limit, selectorMtf.Length - i))
    {
      var j;
      p, j := ReceiveUnary(r, limit);
      if p != Received {
        return;
      }
      if i >= selectorMtf.Length {
        return PastArray;
      }
      NumbersAfterNumbers(selectorMtf[..i], [j], ParseUnaries(r.Stream(), n - i - 1, limit, selectorMtf.Length - i - 1));
      ghost var before := selectorMtf[..i];
      selectorMtf[i] := j;
      assert selectorMtf[..i + 1] == before + [j];
    }
    assert selectorMtf[..n] + [] == selectorMtf[..n];
    p := Received;
  }

  // ---- code lengths ----

  // Steps from one length to the next: 10 up, 11 down, 0 when there.
  function Steps(curr: int, to: int): seq<bit>
    decreases if curr < to then to - curr else curr - to
  {
    if curr < to then Bit(true) + (Bit(false) + Steps(curr + 1, to))
    else if curr > to then Bit(true) + (Bit(true) + Steps(curr - 1, to))
    else Bit(false)
  }

  function StepsFrom(curr: int, len: seq<byte>, i: nat): seq<bit>
    requires i <= |len|
    decreases |len| - i
  {
    if i == |len| then [] else Steps(curr, len[i]) + StepsFrom(len[i], len, i + 1)
  }

  function LengthBits(len: seq<byte>): seq<bit>
    requires len != []
  {
    ToBits(len[0], 5) + StepsFrom(len[0], len, 0)
  }

  lemma UpBits(c: int, to: int, t: seq<bit>)
    requires c < to
    ensures Steps(c, to) + t == Bit(true) + (Bit(false) + (Steps(c + 1, to) + t))
  {
    Join(Bit(true), Bit(false) + Steps(c + 1, to), t);
    Join(Bit(false), Steps(c + 1, to), t);
  }

  lemma DownBits(c: int, to: int, t: seq<bit>)
    requires c > to
    ensures Steps(c, to) + t == Bit(true) + (Bit(true) + (Steps(c - 1, to) + t))
  {
    Join(Bit(true), Bit(true) + Steps(c - 1, to), t);
    Join(Bit(true), Steps(c - 1, to), t);
  }

  lemma TwoBits()
    ensures ToBits(2, 2) == Bit(true) + Bit(false) && ToBits(3, 2) == Bit(true) + Bit(true) && Pow2(2) == 4
  {
    assert ToBits(1, 1) == ToBits(0, 0) + [1];
    assert ToBits(2, 2) == ToBits(1, 1) + [0];
    assert ToBits(3, 2) == ToBits(1, 1) + [1];
  }

  method SendSteps(w: BitWriter, from: int, to: int)
    requires w.Valid()
    modifies w
    ensures w.Valid() && w.Written() == old(w.Written()) + Steps(from, to)
  {
    hide BitWriter.Valid, BitWriter.Written, Bit, ToBits, Pow2;
    TwoBits();
    ghost var start := w.Written();
    var curr := from;
    while curr < to
      invariant (from <= curr <= to || curr == from) && w.Valid() && w.Written() + Steps(curr, to) == start + Steps(from, to)
    {
      Join(w.Written(), Bit(true), Bit(false) + Steps(curr + 1, to));
      Join(w.Written() + Bit(true), Bit(false), Steps(curr + 1, to));
      Join(w.Written(), Bit(true), Bit(false));
      w.W(2, 2);
      curr := curr + 1;
    }
    while curr > to
      invariant to <= curr && w.Valid() && w.Written() + Steps(curr, to) == start + Steps(from, to)
    {
      Join(w.Written(), Bit(true), Bit(true) + Steps(curr - 1, to));
      Join(w.Written() + Bit(true), Bit(true), Steps(curr - 1, to));
      Join(w.Written(), Bit(true), Bit(true));
      w.W(2, 3);
      curr := curr - 1;
    }
    PutBit(w, false);
  }

  method SendLengths(w: BitWriter, len: seq<byte>)
    requires w.Valid() && len != [] && forall i :: 0 <= i < |len| ==> 1 <= len[i] <= 20
    modifies w
    ensures w.Valid() && w.Written() == old(w.Written()) + LengthBits(len)
  {
    hide BitWriter.Valid, BitWriter.Written, Bit, ToBits, Pow2, Steps;
    SmallPowers();
    ghost var start := w.Written();
    var curr: byte := len[0];
    w.W(5, curr);
    Join(start, ToBits(len[0], 5), StepsFrom(len[0], len, 0));
    for i := 0 to |len|
      invariant w.Valid() && w.Written() + StepsFrom(curr, len, i) == start + LengthBits(len)
    {
      Join(w.Written(), Steps(curr, len[i]), StepsFrom(len[i], len, i + 1));
      SendSteps(w, curr, len[i]);
      curr := len[i];
    }
    assert w.Written() + [] == w.Written();
  }

  // ---- reading the lengths back ----

  // Following the steps to the next length.
  function ParseSteps(bits: seq<bit>, curr: int): (p: Parsed<int>)
    ensures p.Done? ==> 1 <= p.value <= 20
    decreases |bits|
  {
    if curr < 1 || curr > 20 then Corrupt
    else if bits == [] then Starved
    else if bits[0] == 0 then Done(curr, bits[1..])
    else if |bits| == 1 then Starved
    else ParseSteps(bits[2..], if bits[1] == 0 then curr + 1 else curr - 1)
  }

  function ParseLengthsFrom(bits: seq<bit>, curr: int, n: nat): (p: Parsed<seq<byte>>)
    ensures p.Done? ==> |p.value| == n && forall k :: 0 <= k < n ==> 1 <= p.value[k] <= 20
    decreases n
  {
    if n == 0 then Done([], bits)
    else
      var p := ParseSteps(bits, curr);
      if p.Done? then AfterNumbers([p.value], ParseLengthsFrom(p.rest, p.value, n - 1))
      else Failing(p)
  }

  function ParseLengths(bits: seq<bit>, n: nat): (p: Parsed<seq<byte>>)
    ensures p.Done? ==> |p.value| == n && forall k :: 0 <= k < n ==> 1 <= p.value[k] <= 20
  {
    if |bits| < 5 then Starved else ParseLengthsFrom(bits[5..], Value(bits[..5]), n)
  }

  lemma {:induction false} StepsParse(from: int, to: int, t: seq<bit>)
    requires 1 <= from <= 20 && 1 <= to <= 20
    ensures ParseSteps(Steps(from, to) + t, from) == Done(to, t)
    decreases if from < to then to - from else from - to
  {
    hide Bit;
    if from < to {
      UpBits(from, to, t);
      StepsParse(from + 1, to, t);
      TwoFirst(true, false, Steps(from + 1, to) + t);
    } else if from > to {
      DownBits(from, to, t);
      StepsParse(from - 1, to, t);
      TwoFirst(true, true, Steps(from - 1, to) + t);
    } else {
      BitFirst(false, t);
    }
  }

  lemma TwoFirst(x: bool, y: bool, t: seq<bit>)
    ensures var s := Bit(x) + (Bit(y) + t);
            |s| >= 2 && s[0] == (if x then 1 else 0) && s[1] == (if y then 1 else 0) && s[2..] == t
  {
  }

  lemma {:induction false} LengthsFromParse(curr: int, len: seq<byte>, i: nat, t: seq<bit>)
    requires i <= |len| && 1 <= curr <= 20 && forall k :: 0 <= k < |len| ==> 1 <= len[k] <= 20
    ensures ParseLengthsFrom(StepsFrom(curr, len, i) + t, curr, |len| - i) == Done(len[i..], t)
    decreases |len| - i
  {
    hide Steps, ParseSteps;
    if i == |len| {
      assert [] + t == t;
    } else {
      LengthsFromParse(len[i], len, i + 1, t);
      Join(Steps(curr, len[i]), StepsFrom(len[i], len, i + 1), t);
      StepsParse(curr, len[i], StepsFrom(len[i], len, i + 1) + t);
      assert len[i..] == [len[i]] + len[i + 1..];
    }
  }

  lemma LengthsParse(len: seq<byte>, t: seq<bit>)
    requires len != [] && forall k :: 0 <= k < |len| ==> 1 <= len[k] <= 20
    ensures ParseLengths(LengthBits(len) + t, |len|) == Done(len, t)
  {
    hide ToBits, StepsFrom, ParseLengthsFrom, Pow2, Value;
    SmallPowers();
    Join(ToBits(len[0], 5), StepsFrom(len[0], len, 0), t);
    NumberFirst(len[0], 5, StepsFrom(len[0], len, 0) + t);
    LengthsFromParse(len[0], len, 0, t);
    assert len[0..] == len;
  }

  method ReceiveSteps(r: BitReader, from: int) returns (p: Ending, curr: int)
    requires r.Valid()
    modifies r
    ensures r.Valid() && ParseSteps(old(r.Stream()), from) == Result(p, curr, r.Stream())
  {
    hide BitReader.Valid, BitReader.Stream;
    ghost var want := ParseSteps(r.Stream(), from);
    curr := from;
    while true
      invariant r.Valid() && want == ParseSteps(r.Stream(), curr)
      decreases |r.Stream()|
    {
      ghost var bits := r.Stream();
      if curr < 1 || curr > 20 {
        return Refused, curr;
      }
      var ok, uc := GetBit(r);
      if !ok {
        return OutOfInput, curr;
      }
      if uc == 0 {
        return Received, curr;
      }
      ok, uc := GetBit(r);
      if !ok {
        return OutOfInput, curr;
      }
      assert bits[1..][0] == bits[1] && bits[1..][1..] == bits[2..];
      if uc == 0 {
        curr := curr + 1;
      } else {
        curr := curr - 1;
      }
    }
  }

  method ReceiveLengths(r: BitReader, alphaSize: nat) returns (p: Ending, len: seq<byte>)
    requires r.Valid()
    modifies r
    ensures r.Valid() && ParseLengths(old(r.Stream()), alphaSize) == Result(p, len, r.Stream())
  {
    hide BitReader.Valid, BitReader.Stream, Value, ParseSteps;
    len := [];
    var ok, first := r.GetBits(5);
    if !ok {
      return OutOfInput, len;
    }
    var curr: int := first;
    ghost var want := ParseLengthsFrom(r.Stream(), curr, alphaSize);
    NumbersAfterNumbers([], [], want);
    for i := 0 to alphaSize
      invariant r.Valid() && want == AfterNumbers(len, ParseLengthsFrom(r.Stream(), curr, alphaSize - i))
    {
      p, curr := ReceiveSteps(r, curr);
      if p != Received {
        return;
      }
      NumbersAfterNumbers(len, [curr], ParseLengthsFrom(r.Stream(), curr, alphaSize - i - 1));
      len := len + [curr];
    }
    assert len + [] == len;
    p := Received;
  }
}
