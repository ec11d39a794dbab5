// The first run-length stage as a code: what the compressor's runs look like inside a
// block and what the decompressor expands them to.
module RunLength {
  import opened Rotations

  datatype Run = Run(ch: byte, len: int)

  // What the expander still has to emit, and whether it will then report corruption.
  datatype Expansion = Expansion(bytes: seq<byte>, corrupt: bool)

  function Repeat(ch: byte, n: nat): (r: seq<byte>)
    ensures |r| == n
  {
    seq(n, _ => ch)
  }

  function Then(prefix: seq<byte>, e: Expansion): Expansion {
    Expansion(prefix + e.bytes, e.corrupt)
  }

  // Four equal symbols announce a count of further copies.  When the announced count is
  // missing, the decoder uses the symbol g it reads past the end and then notices.
  function Expand(s: seq<byte>, g: byte): Expansion {
    if s == [] then Expansion([], false)
    else if |s| == 1 || s[1] != s[0] then Then([s[0]], Expand(s[1..], g))
    else if |s| == 2 || s[2] != s[0] then Then(Repeat(s[0], 2), Expand(s[2..], g))
    else if |s| == 3 || s[3] != s[0] then Then(Repeat(s[0], 3), Expand(s[3..], g))
    else if |s| == 4 then Expansion(Repeat(s[0], 4 + g as int), true)
    else Then(Repeat(s[0], 4 + s[4] as int), Expand(s[5..], g))
  }

  // The block bytes of one run, as add_pair_to_block stores them.
  function PairBytes(r: Run): seq<byte>
    requires 1 <= r.len <= 255
  {
    if r.len < 4 then Repeat(r.ch, r.len) else Repeat(r.ch, 4) + [r.len - 4]
  }

  // Two neighbouring runs repeat a symbol only when the first is of maximal length.
  ghost predicate Follows(r: Run, next: Run) {
    next.ch != r.ch || r.len == 255
  }

  ghost predicate Runs(rs: seq<Run>) {
    && (forall i :: 0 <= i < |rs| ==> 1 <= rs[i].len <= 255)
    && (forall i :: 0 <= i < |rs| - 1 ==> Follows(rs[i], rs[i + 1]))
  }

  ghost function Stored(rs: seq<Run>): seq<byte>
    requires forall i :: 0 <= i < |rs| ==> 1 <= rs[i].len <= 255
  {
    if rs == [] then [] else PairBytes(rs[0]) + Stored(rs[1..])
  }

  ghost function Plain(rs: seq<Run>): seq<byte>
    requires forall i :: 0 <= i < |rs| ==> 1 <= rs[i].len <= 255
  {
    if rs == [] then [] else Repeat(rs[0].ch, rs[0].len) + Plain(rs[1..])
  }

  lemma {:induction false} StoredAppend(rs: seq<Run>, r: Run)
    requires 1 <= r.len <= 255 && forall i :: 0 <= i < |rs| ==> 1 <= rs[i].len <= 255
    ensures Stored(rs + [r]) == Stored(rs) + PairBytes(r)
    ensures Plain(rs + [r]) == Plain(rs) + Repeat(r.ch, r.len)
  {
    if rs == [] {
      assert rs + [r] == [r];
    } else {
      StoredAppend(rs[1..], r);
      assert (rs + [r])[1..] == rs[1..] + [r];
    }
  }

  // A stored run in front of bytes that do not continue it expands to the run itself.
  lemma ExpandPair(r: Run, rest: seq<byte>, g: byte)
    requires 1 <= r.len <= 255
    requires rest == [] || rest[0] != r.ch || r.len >= 4
    ensures Expand(PairBytes(r) + rest, g) == Then(Repeat(r.ch, r.len), Expand(rest, g))
  {
    var s := PairBytes(r) + rest;
    if r.len < 4 {
      assert s[r.len..] == rest;
      assert Repeat(r.ch, 1) == [r.ch];
    } else {
      assert s[5..] == rest;
    }
  }

  // The first run-length stage loses nothing: every stored run sequence expands to the
  // bytes it stands for, with no corruption reported.
  lemma {:induction false} ExpandStored(rs: seq<Run>, g: byte)
    requires Runs(rs)
    ensures Expand(Stored(rs), g) == Expansion(Plain(rs), false)
  {
    if rs != [] {
      var rest := rs[1..];
      ExpandStored(rest, g);
      if rest != [] {
        assert Follows(rs[0], rs[1]);
        assert Stored(rest)[0] == rest[0].ch;
      }
      ExpandPair(rs[0], Stored(rest), g);
    }
  }

  // A block is reported corrupt exactly when, read run by run, it stops right after four
  // equal symbols.
  ghost predicate CutOff(s: seq<byte>) {
    if |s| < 4 then false
    else if s[1] != s[0] then CutOff(s[1..])
    else if s[2] != s[0] then CutOff(s[2..])
    else if s[3] != s[0] then CutOff(s[3..])
    else |s| == 4 || CutOff(s[5..])
  }

  lemma {:induction false} CorruptIffCutOff(s: seq<byte>, g: byte)
    ensures Expand(s, g).corrupt <==> CutOff(s)
  {
    if s == [] {
    } else if |s| == 1 || s[1] != s[0] {
      CorruptIffCutOff(s[1..], g);
    } else if |s| == 2 || s[2] != s[0] {
      CorruptIffCutOff(s[2..], g);
    } else if |s| == 3 || s[3] != s[0] {
      CorruptIffCutOff(s[3..], g);
    } else if |s| > 4 {
      CorruptIffCutOff(s[5..], g);
    }
  }
}
