// The byte values a block uses, renumbered from zero: makeMaps_e and makeMaps_d.
module ByteMap {
  import opened Rotations

  // Used values below c.
  function UsedBelow(inUse: seq<bool>, c: nat): (k: nat)
    requires c <= |inUse|
    ensures k <= c
  {
    if c == 0 then 0 else UsedBelow(inUse, c - 1) + if inUse[c - 1] then 1 else 0
  }

  lemma {:induction false} UsedMonotone(inUse: seq<bool>, c: nat, d: nat)
    requires c <= d <= |inUse|
    ensures UsedBelow(inUse, c) <= UsedBelow(inUse, d)
    ensures c < d && inUse[c] ==> UsedBelow(inUse, c) < UsedBelow(inUse, d)
    decreases d
  {
    if c < d {
      UsedMonotone(inUse, c, d - 1);
    }
  }

  ghost predicate AllUsed(inUse: seq<bool>, s: seq<byte>) {
    |inUse| == 256 && forall i :: 0 <= i < |s| ==> inUse[s[i]]
  }

  // The block's bytes in the compact numbering.
  ghost function Compact(inUse: seq<bool>, s: seq<byte>): (t: seq<byte>)
    requires AllUsed(inUse, s)
    ensures |t| == |s| && forall i :: 0 <= i < |t| ==> t[i] == UsedBelow(inUse, s[i]) < UsedBelow(inUse, 256)
  {
    var t := seq(|s|, i requires 0 <= i < |s| => (UsedMonotone(inUse, s[i], 256); UsedBelow(inUse, s[i])));
    assert forall i :: 0 <= i < |t| ==> t[i] == UsedBelow(inUse, s[i]) < UsedBelow(inUse, 256) by {
      forall i | 0 <= i < |t| ensures t[i] == UsedBelow(inUse, s[i]) < UsedBelow(inUse, 256) {
        UsedMonotone(inUse, s[i], 256);
      }
    }
    t
  }

  // seqToUnseq lists the used values in order.
  ghost predicate Lists(inUse: seq<bool>, names: seq<int>) {
    && |inUse| == 256 && UsedBelow(inUse, 256) <= |names|
    && (forall k :: 0 <= k < UsedBelow(inUse, 256) ==> 0 <= names[k] < 256)
    && (forall c :: 0 <= c < 256 && inUse[c] ==> UsedBelow(inUse, c) < |names| && names[UsedBelow(inUse, c)] == c)
  }

  method MakeMapsE(inUse: seq<bool>, unseqToSeq: array<int>) returns (nInUse: int)
    requires |inUse| == 256 && unseqToSeq.Length == 256
    modifies unseqToSeq
    ensures nInUse == UsedBelow(inUse, 256)
    ensures forall c :: 0 <= c < 256 && inUse[c] ==> unseqToSeq[c] == UsedBelow(inUse, c)
  {
    nInUse := 0;
    for i := 0 to 256
      invariant nInUse == UsedBelow(inUse, i)
      invariant forall c :: 0 <= c < i && inUse[c] ==> unseqToSeq[c] == UsedBelow(inUse, c)
    {
      if inUse[i] {
        unseqToSeq[i] := nInUse;
        nInUse := nInUse + 1;
      }
    }
  }

  method MakeMapsD(inUse: seq<bool>, seqToUnseq: array<int>) returns (nInUse: int)
    requires |inUse| == 256 && seqToUnseq.Length == 256
    modifies seqToUnseq
    ensures nInUse == UsedBelow(inUse, 256) && Lists(inUse, seqToUnseq[..])
  {
    nInUse := 0;
    for i := 0 to 256
      invariant nInUse == UsedBelow(inUse, i)
      invariant forall k :: 0 <= k < nInUse ==> 0 <= seqToUnseq[k] < 256
      invariant forall c :: 0 <= c < i && inUse[c] ==> UsedBelow(inUse, c) < nInUse && seqToUnseq[UsedBelow(inUse, c)] == c
    {
      if inUse[i] {
        seqToUnseq[nInUse] := i;
        nInUse := nInUse + 1;
      }
    }
  }

  // ---- the numbering undone, for any map ----

  // The used values below c, in order.
  function UsedList(inUse: seq<bool>, c: nat): (l: seq<byte>)
    requires |inUse| == 256 && c <= 256
    ensures |l| == UsedBelow(inUse, c)
  {
    if c == 0 then [] else UsedList(inUse, c - 1) + if inUse[c - 1] then [c - 1] else []
  }

  lemma {:induction false} UsedListAt(inUse: seq<bool>, c: nat, k: nat)
    requires |inUse| == 256 && c <= 256 && k < UsedBelow(inUse, c)
    ensures inUse[UsedList(inUse, c)[k]] && UsedBelow(inUse, UsedList(inUse, c)[k]) == k
  {
    if k < UsedBelow(inUse, c - 1) {
      UsedListAt(inUse, c - 1, k);
    }
  }

  // A column of numbers stands for a column of the block's own byte values.
  function Named(inUse: seq<bool>, s: seq<byte>): (t: seq<byte>)
    requires |inUse| == 256 && forall i :: 0 <= i < |s| ==> s[i] < UsedBelow(inUse, 256)
    ensures |t| == |s|
  {
    seq(|s|, i requires 0 <= i < |s| => UsedList(inUse, 256)[s[i]])
  }

  // Any list of the used values names the column.
  lemma NamesAgree(inUse: seq<bool>, names: seq<int>, s: seq<byte>)
    requires Lists(inUse, names) && forall i :: 0 <= i < |s| ==> s[i] < UsedBelow(inUse, 256)
    ensures forall i :: 0 <= i < |s| ==> s[i] < |names| && names[s[i]] == Named(inUse, s)[i]
  {
    forall i | 0 <= i < |s| ensures s[i] < |names| && names[s[i]] == Named(inUse, s)[i] {
      UsedListAt(inUse, 256, s[i]);
    }
  }

  // Naming undoes the compact numbering.
  lemma NamedCompact(inUse: seq<bool>, s: seq<byte>)
    requires AllUsed(inUse, s)
    ensures Named(inUse, Compact(inUse, s)) == s
  {
    forall i | 0 <= i < |s| ensures Named(inUse, Compact(inUse, s))[i] == s[i] {
      UsedMonotone(inUse, s[i], 256);
      UsedListHas(inUse, 256, s[i]);
    }
  }

  lemma {:induction false} UsedListHas(inUse: seq<bool>, c: nat, v: byte)
    requires |inUse| == 256 && v < c <= 256 && inUse[v]
    ensures UsedBelow(inUse, v) < UsedBelow(inUse, c) && UsedList(inUse, c)[UsedBelow(inUse, v)] == v
  {
    UsedMonotone(inUse, v, c);
    if v < c - 1 {
      UsedListHas(inUse, c - 1, v);
    }
  }
}
