// HTTP chunked transfer coding (section 4.1 of RFC 7230) as gSOAP does it: a buffer that is
// sent as one chunk whenever it fills up, and a reader that finds the chunk headers in
// whatever pieces the network delivers.
module ChunkedTransfer {
  import opened HexNumerals
  import opened Rotations

  // size_t has 64 bits.
  const SIZE: nat := 0x1_0000_0000_0000_0000

  // ---- the wire ----

  const CRLF: seq<byte> := [13, 10]

  // A chunk; the line end that closes the previous one is sent in front of it.
  function Chunk(sep: bool, s: seq<byte>): seq<byte> {
    (if sep then CRLF else []) + (Hex(|s|) + (CRLF + s))
  }

  // Chunks, when total bytes have been sent before them.
  function Frames(chunks: seq<seq<byte>>, total: nat): seq<byte> {
    if chunks == [] then [] else Chunk(total != 0, chunks[0]) + Frames(chunks[1..], (total + |chunks[0]|) % SIZE)
  }

  const TERMINATOR: seq<byte> := [13, 10, 48, 13, 10, 13, 10]

  function Concat(chunks: seq<seq<byte>>): seq<byte> {
    if chunks == [] then [] else chunks[0] + Concat(chunks[1..])
  }

  function After(chunks: seq<seq<byte>>, total: nat): nat {
    if chunks == [] then total else After(chunks[1..], (total + |chunks[0]|) % SIZE)
  }

  lemma {:induction false} OneMore(chunks: seq<seq<byte>>, total: nat, c: seq<byte>)
    ensures Frames(chunks + [c], total) == Frames(chunks, total) + Chunk(After(chunks, total) != 0, c)
    ensures After(chunks + [c], total) == (After(chunks, total) + |c|) % SIZE
    ensures Concat(chunks + [c]) == Concat(chunks) + c
  {
    hide Chunk;
    var more := chunks + [c];
    if chunks == [] {
      assert more[1..] == [];
      assert Chunk(total != 0, c) + [] == Chunk(total != 0, c) && [] + Chunk(total != 0, c) == Chunk(total != 0, c);
      assert c + [] == c && [] + c == c;
    } else {
      var next := (total + |chunks[0]|) % SIZE;
      OneMore(chunks[1..], next, c);
      assert more[1..] == chunks[1..] + [c];
      Assoc(Chunk(total != 0, chunks[0]), Frames(chunks[1..], next), Chunk(After(chunks, total) != 0, c));
      Assoc(chunks[0], Concat(chunks[1..]), c);
    }
  }

  lemma Assoc(a: seq<byte>, b: seq<byte>, c: seq<byte>)
    ensures (a + b) + c == a + (b + c)
  {
  }

  // ---- what the standard calls a chunked body, trailers aside ----

  // A chunk: its size in any hexadecimal spelling, an extension, and that many bytes.
  datatype Piece = Piece(size: seq<byte>, ext: seq<byte>, data: seq<byte>)

  // Nothing, or something that begins with a semicolon and has no line end in it.
  ghost predicate Extension(e: seq<byte>) {
    e == [] || (e[0] == 59 && forall i :: 0 <= i < |e| ==> e[i] != 10 && e[i] != 13)
  }

  ghost predicate WellFormed(p: Piece) {
    Spells(p.size, |p.data|) && Extension(p.ext)
  }

  ghost predicate Pieces(ps: seq<Piece>) {
    forall i :: 0 <= i < |ps| ==> |ps[i].data| > 0 && WellFormed(ps[i])
  }

  ghost predicate Last(p: Piece) {
    p.data == [] && WellFormed(p)
  }

  // The line that announces a chunk, and what follows it.
  function Headed(p: Piece, x: seq<byte>): seq<byte> {
    p.size + (p.ext + (CRLF + x))
  }

  function Body(ps: seq<Piece>, last: Piece, x: seq<byte>): seq<byte> {
    if ps == [] then Headed(last, x) else Headed(ps[0], ps[0].data + (CRLF + Body(ps[1..], last, x)))
  }

  ghost predicate Coding(w: seq<byte>) {
    exists ps: seq<Piece>, last: Piece :: Pieces(ps) && Last(last) && w == Body(ps, last, CRLF)
  }

  // The chunks and the terminator without the line end in front.
  function Bare(chunks: seq<seq<byte>>, total: nat): seq<byte> {
    if chunks == [] then [48] + (CRLF + CRLF)
    else Hex(|chunks[0]|) + (CRLF + (chunks[0] + (Frames(chunks[1..], (total + |chunks[0]|) % SIZE) + TERMINATOR)))
  }

  // No count of bytes sent so far is a multiple of 2^64, where the line end is left out.
  predicate Joint(chunks: seq<seq<byte>>, total: nat) {
    chunks == [] || (total != 0 && Joint(chunks[1..], (total + |chunks[0]|) % SIZE))
  }

  lemma BareFrames(chunks: seq<seq<byte>>, total: nat)
    ensures Frames(chunks, total) + TERMINATOR == (if chunks == [] || total != 0 then CRLF else []) + Bare(chunks, total)
  {
    if chunks == [] {
      assert [] + TERMINATOR == CRLF + ([48] + (CRLF + CRLF));
    } else {
      var c, rest := chunks[0], Frames(chunks[1..], (total + |chunks[0]|) % SIZE);
      NestFive(if total != 0 then CRLF else [], Hex(|c|), CRLF, c, rest, TERMINATOR);
    }
    hide Hex;
  }

  lemma NestFive(a: seq<byte>, h: seq<byte>, n: seq<byte>, c: seq<byte>, rest: seq<byte>, end: seq<byte>)
    ensures (a + (h + (n + c))) + rest + end == a + (h + (n + (c + (rest + end))))
  {
  }

  // What comes before the first line end is determined.
  lemma {:induction false} FirstLine(a: seq<byte>, x: seq<byte>, b: seq<byte>, e: seq<byte>, y: seq<byte>)
    requires AllHex(a) && AllHex(b) && Extension(e) && a + (CRLF + x) == b + (e + (CRLF + y))
    ensures a == b && e == [] && x == y
  {
    var s, t := a + (CRLF + x), b + (e + (CRLF + y));
    assert s[|a|] == 13 && forall i :: 0 <= i < |a| ==> IsHex(s[i]);
    var after := if e == [] then 13 else 59;
    assert t[|b|] == after && forall i :: 0 <= i < |b| ==> IsHex(t[i]);
    assert |a| == |b|;
    assert s[..|a|] == a && t[..|b|] == b;
    assert s[|a| + 2..] == x && t[|b| + 2..] == y;
  }

  lemma CodingMore(c: seq<byte>, w: seq<byte>)
    requires |c| > 0 && Coding(w)
    ensures Coding(Hex(|c|) + (CRLF + (c + (CRLF + w))))
  {
    hide Spells, Hex, Pieces, Body, Last;
    var ps: seq<Piece>, last: Piece :| Pieces(ps) && Last(last) && w == Body(ps, last, CRLF);
    HexSpells(|c|);
    var p := Piece(Hex(|c|), [], c);
    PieceMore(ps, p, last);
    CodingFrom([p] + ps, last);
    NoData(CRLF + (c + (CRLF + w)));
  }

  lemma CodingFrom(ps: seq<Piece>, last: Piece)
    requires Pieces(ps) && Last(last)
    ensures Coding(Body(ps, last, CRLF))
  {
  }

  lemma PieceMore(ps: seq<Piece>, p: Piece, last: Piece)
    requires Pieces(ps) && |p.data| > 0 && WellFormed(p)
    ensures Pieces([p] + ps) && Body([p] + ps, last, CRLF) == Headed(p, p.data + (CRLF + Body(ps, last, CRLF)))
  {
    hide WellFormed;
    assert ([p] + ps)[1..] == ps;
  }

  // A body that starts with this chunk goes on with a line end and a body.
  lemma CodingFront(c: seq<byte>, rest: seq<byte>) returns (w: seq<byte>)
    requires |c| > 0 && Coding(Hex(|c|) + (CRLF + (c + rest)))
    ensures rest == CRLF + w && Coding(w)
  {
    hide Hex, HexValue, IsHex, Spells, AllHex, Extension, Headed;
    var all := Hex(|c|) + (CRLF + (c + rest));
    var ps: seq<Piece>, last: Piece :| Pieces(ps) && Last(last) && all == Body(ps, last, CRLF);
    if ps == [] {
      FirstChunk(c, rest, last, CRLF);
    } else {
      w := Body(ps[1..], last, CRLF);
      FirstChunk(c, rest, ps[0], ps[0].data + (CRLF + w));
      Halves(c, rest, ps[0].data, CRLF + w);
      assert Pieces(ps[1..]);
    }
  }

  lemma FirstChunk(c: seq<byte>, rest: seq<byte>, p: Piece, y: seq<byte>)
    requires WellFormed(p) && Hex(|c|) + (CRLF + (c + rest)) == Headed(p, y)
    ensures |p.data| == |c| && c + rest == y
  {
    hide Hex, HexValue, IsHex, Spells, AllHex, Extension;
    HexSpells(|c|);
    SpellingIsRead(Hex(|c|), |c|);
    SpellingIsRead(p.size, |p.data|);
    FirstLine(Hex(|c|), c + rest, p.size, p.ext, y);
  }

  lemma Halves(a: seq<byte>, x: seq<byte>, b: seq<byte>, y: seq<byte>)
    requires |a| == |b| && a + x == b + y
    ensures a == b && x == y
  {
    assert (a + x)[..|a|] == a && (b + y)[..|b|] == b;
    assert (a + x)[|a|..] == x && (b + y)[|b|..] == y;
  }

  lemma LastCoding()
    ensures Coding([48] + (CRLF + CRLF))
  {
    hide Spells;
    var last := Piece([48], [], []);
    HexSpells(0);
    assert Hex(0) == [48];
    NoData(CRLF + CRLF);
    assert Pieces([]) && Body([], last, CRLF) == [48] + (CRLF + CRLF);
    CodingFrom([], last);
  }

  lemma BareStartsInHex(chunks: seq<seq<byte>>, total: nat)
    ensures Bare(chunks, total) != [] && Bare(chunks, total)[0] != 13
  {
    if chunks != [] {
      HexSpells(|chunks[0]|);
      SpellingIsRead(Hex(|chunks[0]|), |chunks[0]|);
    }
  }

  // The chunks make a body exactly when every line end is there.
  lemma {:induction false} CodingIffJoint(chunks: seq<seq<byte>>, total: nat)
    requires chunks != [] && Full(chunks)
    ensures Coding(Bare(chunks, total)) <==> Joint(chunks[1..], (total + |chunks[0]|) % SIZE)
    decreases |chunks|
  {
    hide Coding, Hex;
    var c, rest, t := chunks[0], chunks[1..], (total + |chunks[0]|) % SIZE;
    var tail := Frames(rest, t) + TERMINATOR;
    BareFrames(rest, t);
    BareStartsInHex(rest, t);
    assert Bare(chunks, total) == Hex(|c|) + (CRLF + (c + tail));
    if rest == [] {
      LastCoding();
      CodingMore(c, Bare(rest, t));
    } else {
      assert Full(rest);
      CodingIffJoint(rest, t);
      if t != 0 && Coding(Bare(rest, t)) {
        CodingMore(c, Bare(rest, t));
      }
      if Coding(Bare(chunks, total)) {
        var w := CodingFront(c, tail);
        SecondLine(tail, w, Bare(rest, t), t != 0);
      }
    }
  }

  lemma SecondLine(tail: seq<byte>, w: seq<byte>, bare: seq<byte>, sep: bool)
    requires tail == CRLF + w && tail == (if sep then CRLF else []) + bare && bare != [] && bare[0] != 13
    ensures sep && w == bare
  {
    assert ([] + bare)[0] == bare[0] && (CRLF + w)[0] == 13;
    if sep {
      Halves(CRLF, w, CRLF, bare);
    }
  }

  lemma {:induction false} JointBelow(chunks: seq<seq<byte>>, total: nat)
    requires Full(chunks) && 0 < total && total + |Concat(chunks)| < SIZE
    ensures Joint(chunks, total)
  {
    if chunks != [] {
      assert Full(chunks[1..]);
      JointBelow(chunks[1..], total + |chunks[0]|);
    }
  }

  // What is sent is well-formed exactly when something was sent and no line end is missing,
  // which up to 2^64 bytes none is.  An empty message starts with a line end.
  lemma MessageIsCoding(chunks: seq<seq<byte>>)
    requires Full(chunks)
    ensures Coding(Frames(chunks, 0) + TERMINATOR) <==> chunks != [] && Joint(chunks[1..], |chunks[0]| % SIZE)
    ensures chunks != [] && |Concat(chunks)| < SIZE ==> Coding(Frames(chunks, 0) + TERMINATOR)
  {
    hide Coding, Hex, Frames, Bare, Joint, Concat, Full;
    BareFrames(chunks, 0);
    var w := Bare(chunks, 0);
    if chunks == [] {
      assert (CRLF + w)[0] == 13;
      NoLineEndFirst(CRLF + w);
    } else {
      NoData(w);
      CodingIffJoint(chunks, 0);
      if |Concat(chunks)| < SIZE {
        ShortJoint(chunks);
      }
    }
  }

  lemma ShortJoint(chunks: seq<seq<byte>>)
    requires Full(chunks) && chunks != [] && |Concat(chunks)| < SIZE
    ensures Joint(chunks[1..], |chunks[0]| % SIZE)
  {
    hide Joint;
    assert Full(chunks[1..]);
    JointBelow(chunks[1..], |chunks[0]|);
  }

  lemma NoLineEndFirst(w: seq<byte>)
    requires w != [] && w[0] == 13
    ensures !Coding(w)
  {
    if Coding(w) {
      CodingStarts(w);
    }
  }

  // A coding starts with a digit.
  lemma CodingStarts(w: seq<byte>)
    requires Coding(w)
    ensures w != [] && IsHex(w[0])
  {
    var ps: seq<Piece>, last: Piece :| Pieces(ps) && Last(last) && w == Body(ps, last, CRLF);
    hide HexValue, Spells;
    if ps == [] {
      SpellingIsRead(last.size, 0);
      assert w[0] == last.size[0];
    } else {
      SpellingIsRead(ps[0].size, |ps[0].data|);
      assert w[0] == ps[0].size[0];
    }
  }

  // Chunks are never empty: an empty one would end the message.
  ghost predicate Full(chunks: seq<seq<byte>>) {
    forall i :: 0 <= i < |chunks| ==> 0 < |chunks[i]| <= 65536
  }

  // ---- sending ----

  class Sender {
    const bufLen: nat
    const buf: array<byte>
    var bufidx: nat
    var chunksize: nat
    var wire: seq<byte>
    ghost var chunks: seq<seq<byte>>
    ghost var sent: seq<byte>

    ghost predicate Valid()
      reads this, buf
    {
      && 1 <= bufLen <= 65536 && buf.Length == bufLen && bufidx < bufLen && Full(chunks)
      && wire == Frames(chunks, 0) && chunksize == After(chunks, 0) && Concat(chunks) + buf[..bufidx] == sent
    }

    constructor (size: nat)
      requires 1 <= size <= 65536
      ensures Valid() && sent == [] && fresh(buf)
    {
      bufLen, buf := size, new byte[size];
      bufidx, chunksize, wire, chunks, sent := 0, 0, [], [], [];
    }

    // soap_flush_raw: one chunk.
    method FlushRaw(s: seq<byte>)
      requires 0 < |s| <= 65536 && Full(chunks) && wire == Frames(chunks, 0) && chunksize == After(chunks, 0)
      modifies this`wire, this`chunks, this`chunksize
      ensures Full(chunks) && wire == Frames(chunks, 0) && chunksize == After(chunks, 0) && Concat(chunks) == Concat(old(chunks)) + s
    {
      hide Frames, After, Concat, Hex, Chunk;
      OneMore(chunks, 0, s);
      ghost var sep := chunksize != 0;
      ChunkParts(wire, sep, s);
      wire := wire + ((if chunksize != 0 then CRLF else []) + Hex(|s|) + CRLF) + s;
      chunksize := (chunksize + |s|) % SIZE;
      chunks := chunks + [s];
    }

    // soap_flush.
    method Flush()
      requires 1 <= bufLen <= 65536 && buf.Length == bufLen && bufidx <= bufLen && Full(chunks)
      requires wire == Frames(chunks, 0) && chunksize == After(chunks, 0) && Concat(chunks) + buf[..bufidx] == sent
      modifies this`bufidx, this`wire, this`chunks, this`chunksize
      ensures Valid() && bufidx == 0
    {
      hide Frames, After, Concat, Full;
      var n := bufidx;
      if n > 0 {
        bufidx := 0;
        FlushRaw(buf[..n]);
        assert Concat(chunks) + [] == Concat(chunks);
      }
    }

    method Store(s: seq<byte>, from: nat, n: nat)
      requires bufidx + n <= buf.Length && from + n <= |s|
      modifies buf, this`bufidx
      ensures bufidx == old(bufidx) + n && buf[..bufidx] == old(buf[..bufidx]) + s[from..from + n]
    {
      for k := 0 to n
        invariant bufidx == old(bufidx) && buf[..bufidx + k] == old(buf[..bufidx]) + s[from..from + k]
      {
        buf[bufidx + k] := s[from + k];
      }
      bufidx := bufidx + n;
    }

    // soap_send_raw: the buffer fills up and is flushed as often as needed.
    method Send(s: seq<byte>)
      requires Valid()
      modifies this, buf
      ensures Valid() && sent == old(sent) + s
    {
      hide Frames, After, Concat, Full;
      ghost var start := sent;
      var from, i := 0, bufLen - bufidx;
      while |s| - from >= i
        invariant 0 <= from <= |s| && Valid() && i == bufLen - bufidx && sent == start + s[..from]
        decreases |s| - from
      {
        ghost var had := buf[..bufidx];
        Store(s, from, i);
        Assoc(Concat(chunks), had, s[from..from + i]);
        Assoc(start, s[..from], s[from..from + i]);
        assert s[..from] + s[from..from + i] == s[..from + i];
        sent := sent + s[from..from + i];
        Flush();
        from := from + i;
        i := bufLen;
      }
      ghost var had := buf[..bufidx];
      Store(s, from, |s| - from);
      Assoc(Concat(chunks), had, s[from..|s|]);
      Assoc(start, s[..from], s[from..|s|]);
      assert s[..from] + s[from..|s|] == s;
      sent := sent + s[from..|s|];
    }

    // The chunk part of soap_end_send.
    method EndSend()
      requires Valid()
      modifies this
      ensures Full(chunks) && wire == Frames(chunks, 0) + TERMINATOR && Concat(chunks) == old(sent)
      ensures old(sent) == [] ==> !Coding(wire)
      ensures 0 < |old(sent)| < SIZE ==> Coding(wire)
    {
      hide Frames, After, Concat, Full, Coding, Joint;
      Flush();
      assert Concat(chunks) + [] == Concat(chunks);
      wire := wire + TERMINATOR;
      NothingIn(chunks);
      MessageIsCoding(chunks);
    }
  }

  lemma NothingIn(chunks: seq<seq<byte>>)
    requires Full(chunks)
    ensures Concat(chunks) == [] <==> chunks == []
  {
  }

  lemma ChunkParts(w: seq<byte>, sep: bool, s: seq<byte>)
    ensures w + ((if sep then CRLF else []) + Hex(|s|) + CRLF) + s == w + Chunk(sep, s)
  {
    Regroup(w, if sep then CRLF else [], Hex(|s|), CRLF, s);
  }

  lemma Regroup(w: seq<byte>, a: seq<byte>, h: seq<byte>, c: seq<byte>, s: seq<byte>)
    ensures w + (a + h + c) + s == w + (a + (h + (c + s)))
  {
  }

  // ---- reading a chunk header ----

  const EOF := -1

  // Bytes reach the header reader as signed characters.
  function Char(b: byte): int {
    if b < 128 then b else b as int - 256
  }

  function NextChar(bs: seq<byte>): int {
    if bs == [] then EOF else Char(bs[0])
  }

  function NextRest(bs: seq<byte>): seq<byte> {
    if bs == [] then [] else bs[1..]
  }

  // The byte whose signed value is taken for the end of the input.
  const STOP: byte := 255

  datatype Parsed = HitEof | Header(size: nat, rest: seq<byte>)

  function Left(c: int, bs: seq<byte>): nat {
    |bs| + if c == EOF then 0 else 1
  }

  // c is the character just read, bs what follows it.  Everything up to a hexadecimal digit
  // is skipped,
  function Skip(c: int, bs: seq<byte>): (r: Parsed)
    ensures r.Header? ==> |r.rest| <= |bs|
    decreases Left(c, bs)
  {
    if IsHex(c) then Digits(NextChar(bs), NextRest(bs), [c])
    else if c == EOF then HitEof
    else Skip(NextChar(bs), NextRest(bs))
  }

  // up to sixteen digits are the size,
  function Digits(c: int, bs: seq<byte>, ds: seq<int>): (r: Parsed)
    requires 0 < |ds| <= 16 && forall i :: 0 <= i < |ds| ==> IsHex(ds[i])
    ensures r.Header? ==> |r.rest| <= |bs|
    decreases Left(c, bs)
  {
    if IsHex(c) && |ds| < 16 then Digits(NextChar(bs), NextRest(bs), ds + [c]) else Line(c, bs, HexValue(ds))
  }

  // and the rest of the line is ignored.
  function Line(c: int, bs: seq<byte>, size: nat): (r: Parsed)
    ensures r.Header? ==> |r.rest| <= |bs|
    decreases Left(c, bs)
  {
    if c == EOF then HitEof
    else if c == 10 then Header(size, bs)
    else Line(NextChar(bs), NextRest(bs), size)
  }

  function ParseHeader(bs: seq<byte>): (r: Parsed)
    ensures r.Header? ==> |r.rest| <= |bs|
  {
    Skip(NextChar(bs), NextRest(bs))
  }

  lemma Step(b: byte, bs: seq<byte>)
    ensures NextChar([b] + bs) == Char(b) && NextRest([b] + bs) == bs
  {
  }

  // Of a size up to sixteen digits count; what follows them is passed over.
  lemma {:induction false} DigitsRead(size: seq<byte>, i: nat, cut: nat, bs: seq<byte>)
    requires 0 < i <= cut <= |size| && AllHex(size) && cut == (if |size| <= 16 then |size| else 16)
    requires bs != [] && !IsHex(Char(bs[0]))
    ensures AllHex(size[..cut])
    ensures Digits(NextChar(size[i..] + bs), NextRest(size[i..] + bs), size[..i])
         == Line(NextChar(size[cut..] + bs), NextRest(size[cut..] + bs), HexValue(size[..cut]))
    decreases cut - i
  {
    hide HexValue, Line;
    if i == cut {
      assert |size| <= 16 ==> size[cut..] + bs == bs;
    } else {
      assert size[i..] + bs == [size[i]] + (size[i + 1..] + bs);
      Step(size[i], size[i + 1..] + bs);
      assert size[..i] + [size[i]] == size[..i + 1];
      DigitsRead(size, i + 1, cut, bs);
    }
  }

  // The rest of a line is passed over, but for a byte that looks like the end of the input.
  lemma {:induction false} LineRead(s: seq<byte>, x: seq<byte>, n: nat)
    requires forall i :: 0 <= i < |s| ==> s[i] != 10
    ensures Line(NextChar(s + (CRLF + x)), NextRest(s + (CRLF + x)), n) == if STOP in s then HitEof else Header(n, x)
  {
    if s == [] {
      assert s + (CRLF + x) == [13] + ([10] + x);
      Step(13, [10] + x);
      Step(10, x);
      assert Line(10, x, n) == Header(n, x);
    } else {
      assert s + (CRLF + x) == [s[0]] + (s[1..] + (CRLF + x));
      Step(s[0], s[1..] + (CRLF + x));
      assert s == [s[0]] + s[1..];
      LineRead(s[1..], x, n);
    }
  }

  // What is made of any announcement of a chunk.
  lemma AnnouncementRead(p: Piece, x: seq<byte>, cut: nat)
    requires p.size != [] && AllHex(p.size) && Extension(p.ext) && cut == (if |p.size| <= 16 then |p.size| else 16)
    ensures AllHex(p.size[..cut])
    ensures ParseHeader(Headed(p, x)) == if STOP in p.ext then HitEof else Header(HexValue(p.size[..cut]), x)
  {
    hide HexValue, Digits, Line, Char;
    var size, bs := p.size, p.ext + (CRLF + x);
    NoDigitNext(p.ext, x);
    assert size + bs == [size[0]] + (size[1..] + bs);
    Step(size[0], size[1..] + bs);
    HexChar(size[0]);
    assert size[..1] == [size[0]];
    DigitsRead(size, 1, cut, bs);
    Assoc(size[cut..], p.ext, CRLF + x);
    NoLineEnd(size[cut..], p.ext);
    LineRead(size[cut..] + p.ext, x, HexValue(size[..cut]));
  }

  lemma HexChar(c: byte)
    requires IsHex(c)
    ensures Char(c) == c
  {
  }

  lemma NoDigitNext(e: seq<byte>, x: seq<byte>)
    requires Extension(e)
    ensures e + (CRLF + x) != [] && !IsHex(Char((e + (CRLF + x))[0]))
  {
  }

  lemma NoLineEnd(ds: seq<byte>, e: seq<byte>)
    requires AllHex(ds) && Extension(e)
    ensures forall i :: 0 <= i < |ds + e| ==> (ds + e)[i] != 10
    ensures STOP in ds + e <==> STOP in e
  {
    assert forall i :: 0 <= i < |ds| ==> IsHex(ds[i]);
    assert STOP in ds + e <==> STOP in ds || STOP in e;
  }

  // The announcement of a chunk is read as the size it spells, in whatever case and with
  // whatever leading zeros and extension, exactly when it has at most sixteen digits or spells
  // zero, and no byte 255 stands in the extension.
  lemma SizeRead(p: Piece, n: nat, x: seq<byte>)
    requires Spells(p.size, n) && Extension(p.ext)
    ensures ParseHeader(Headed(p, x)) == Header(n, x) <==> STOP !in p.ext && (|p.size| <= 16 || n == 0)
    ensures STOP in p.ext ==> ParseHeader(Headed(p, x)) == HitEof
  {
    hide ParseHeader, HexValue, Spells, Headed, AllHex, Extension;
    SpellingIsRead(p.size, n);
    if |p.size| <= 16 {
      AnnouncementRead(p, x, |p.size|);
      assert p.size[..|p.size|] == p.size;
    } else {
      AnnouncementRead(p, x, 16);
      FrontIsLess(p.size, 16);
    }
  }

  // A size as the sender writes it.
  lemma HexSizeRead(n: nat, x: seq<byte>)
    requires n <= 65536
    ensures ParseHeader(Hex(n) + (CRLF + x)) == Header(n, x)
  {
    hide Hex, ParseHeader, Spells;
    HexSpells(n);
    HexIsShort(n);
    NoData(CRLF + x);
    SizeRead(Piece(Hex(n), [], []), n, x);
  }

  lemma LineEndSkipped(bs: seq<byte>)
    ensures ParseHeader(CRLF + bs) == ParseHeader(bs)
  {
    hide Digits;
    assert CRLF + bs == [13] + ([10] + bs);
    Step(13, [10] + bs);
    Step(10, bs);
    assert Skip(10, bs) == Skip(NextChar(bs), NextRest(bs));
    assert Skip(13, [10] + bs) == Skip(10, bs);
  }

  lemma ChunkRead(sep: bool, c: seq<byte>, x: seq<byte>)
    requires |c| <= 65536
    ensures ParseHeader(Chunk(sep, c) + x) == Header(|c|, c + x)
  {
    hide Hex, Skip;
    HexSizeRead(|c|, c + x);
    LineEndSkipped(Hex(|c|) + (CRLF + (c + x)));
    var body := Hex(|c|) + (CRLF + c);
    assert body + x == Hex(|c|) + (CRLF + (c + x));
    if sep {
      Assoc(CRLF, body, x);
    } else {
      assert [] + body == body;
    }
  }

  lemma TerminatorRead(x: seq<byte>)
    ensures ParseHeader(TERMINATOR + x) == Header(0, CRLF + x)
  {
    hide Skip, ParseHeader;
    assert Hex(0) == [48];
    HexSizeRead(0, CRLF + x);
    LineEndSkipped(Hex(0) + (CRLF + (CRLF + x)));
    assert TERMINATOR + x == CRLF + (Hex(0) + (CRLF + (CRLF + x)));
  }

  // Sixteen digits fit a 64-bit number.
  lemma SixteenDigits(ds: seq<int>)
    requires |ds| <= 16 && AllHex(ds)
    ensures HexValue(ds) < SIZE
  {
    hide HexValue, IsHex, Power16;
    HexBound(ds);
    Power16Grows(|ds|, 16);
    Power16Sixteen();
  }

  // ---- receiving ----

  class Receiver {
    const bufLen: nat
    const buf: array<byte>
    var bufidx: nat
    var buflen: nat
    var chunkbuflen: nat
    var chunksize: nat
    var ahead: bool
    var wire: seq<byte>

    // The caller has used up buf[bufidx..buflen] and asks for more.
    ghost predicate Ready()
      reads this
    {
      && 1 <= bufLen <= 65536 && buf.Length == bufLen && buflen <= bufLen
      && (chunksize > 0 ==> chunkbuflen == 0) && (chunkbuflen > 0 ==> buflen <= chunkbuflen <= bufLen)
    }

    lemma Inside()
      requires Ready()
      ensures buf.Length == bufLen <= 65536
    {
    }

    // What has not been looked at yet: behind the chunk data in the buffer, and on the wire.
    ghost function Rest(): seq<byte>
      requires Ready()
      reads this, buf
    {
      (if chunkbuflen > 0 then buf[buflen..chunkbuflen] else []) + wire
    }

    // A header is being read from the buffer.
    ghost predicate InHeader()
      reads this
    {
      1 <= bufLen <= 65536 && buf.Length == bufLen && bufidx <= buflen == chunkbuflen <= bufLen && chunksize == 0
    }

    ghost function Ahead(): seq<byte>
      requires InHeader()
      reads this, buf
    {
      buf[bufidx..buflen] + wire
    }

    // After the HTTP header: first is what the buffer holds of the body already.
    constructor (size: nat, http: seq<byte>, first: seq<byte>, network: seq<byte>)
      requires 1 <= |http| + |first| <= size <= 65536
      ensures Ready() && chunksize == 0 && !ahead && Rest() == first + network && fresh(buf)
    {
      bufLen := size;
      buf := new byte[size](i => if 0 <= i < |http| then http[i] else if |http| <= i < |http| + |first| then first[i - |http|] else 0);
      bufidx, buflen, chunkbuflen, chunksize, ahead, wire := |http|, |http|, |http| + |first|, 0, false, network;
      new;
      assert buf[buflen..chunkbuflen] == first;
    }

    // frecv: some bytes that have arrived, at least one unless the peer has closed, at most
    // max; how many is up to the network.
    method Receive(max: nat) returns (n: nat)
      requires 1 <= max <= buf.Length
      modifies this`wire, buf
      ensures n <= max && n <= |old(wire)| && buf[..n] == old(wire)[..n] && wire == old(wire)[n..]
      ensures n == 0 <==> old(wire) == []
    {
      n := 0;
      var arrived := wire;
      if arrived != [] {
        n :| 1 <= n <= max && n <= |arrived|;
      }
      for i := 0 to n
        invariant buf[..i] == arrived[..i]
      {
        buf[i] := arrived[i];
      }
      wire := arrived[n..];
    }

    method Refill()
      requires 1 <= bufLen <= 65536 && buf.Length == bufLen && chunksize == 0
      modifies this`wire, this`bufidx, this`buflen, this`chunkbuflen, buf
      ensures InHeader() && bufidx == 0 && Ahead() == old(wire) && (buflen == 0 <==> old(wire) == [])
    {
      ghost var all := wire;
      bufidx := 0;
      buflen := Receive(bufLen);
      chunkbuflen := buflen;
      assert all == buf[..buflen] + wire;
    }

    // soap_getchunkchar
    method GetChunkChar() returns (c: int)
      requires InHeader()
      modifies this`wire, this`bufidx, this`buflen, this`chunkbuflen, buf
      ensures InHeader() && c == NextChar(old(Ahead())) && Ahead() == NextRest(old(Ahead()))
      ensures old(Ahead()) != [] ==> chunkbuflen > 0
    {
      hide Char;
      if bufidx >= buflen {
        assert Ahead() == wire;
        Refill();
        if buflen == 0 {
          return EOF;
        }
      }
      c := TakeChar();
    }

    method TakeChar() returns (c: int)
      requires InHeader() && bufidx < buflen
      modifies this`bufidx
      ensures InHeader() && old(Ahead()) != [] && c == NextChar(old(Ahead())) && Ahead() == NextRest(old(Ahead()))
    {
      hide Char;
      assert buf[bufidx..buflen] == [buf[bufidx]] + buf[bufidx + 1..buflen];
      assert Ahead() == [buf[bufidx]] + (buf[bufidx + 1..buflen] + wire);
      c := Char(buf[bufidx]);
      bufidx := bufidx + 1;
    }

    // Finding and reading a chunk size.
    method ReadHeader() returns (eof: bool, size: nat)
      requires InHeader()
      modifies this`wire, this`bufidx, this`buflen, this`chunkbuflen, buf
      ensures InHeader()
      ensures match ParseHeader(old(Ahead()))
              case HitEof => eof
              case Header(n, rest) => !eof && size == n < SIZE && Ahead() == rest && chunkbuflen > 0
    {
      hide IsHex, HexValue, Char, Digits;
      ghost var want := ParseHeader(Ahead());
      size := 0;
      var c := GetChunkChar();
      while !IsHex(c)
        invariant InHeader() && want == Skip(c, Ahead()) && (c != EOF ==> chunkbuflen > 0)
        decreases Left(c, Ahead())
      {
        if c == EOF {
          return true, size;
        }
        LeftShrinks(c, Ahead());
        c := GetChunkChar();
      }
      HexIsNoEof(c);
      var ds;
      c, ds := ReadDigits(c, want);
      while c != EOF && c != 10
        invariant InHeader() && want == Line(c, Ahead(), HexValue(ds)) && (c != EOF ==> chunkbuflen > 0)
        invariant |ds| <= 16 && forall i :: 0 <= i < |ds| ==> IsHex(ds[i])
        decreases Left(c, Ahead())
      {
        LeftShrinks(c, Ahead());
        c := GetChunkChar();
      }
      eof := c == EOF;
      SixteenDigits(ds);
      size := HexValue(ds);
    }

    method ReadDigits(first: int, ghost want: Parsed) returns (c: int, ds: seq<int>)
      requires InHeader() && IsHex(first) && want == Skip(first, Ahead()) && chunkbuflen > 0
      modifies this`wire, this`bufidx, this`buflen, this`chunkbuflen, buf
      ensures InHeader() && |ds| <= 16 && (forall i :: 0 <= i < |ds| ==> IsHex(ds[i])) && want == Line(c, Ahead(), HexValue(ds))
      ensures c != EOF ==> chunkbuflen > 0
    {
      hide IsHex, HexValue, Line, Char;
      ds := [first];
      c := GetChunkChar();
      while IsHex(c) && |ds| < 16
        invariant InHeader() && 0 < |ds| <= 16 && (forall i :: 0 <= i < |ds| ==> IsHex(ds[i])) && want == Digits(c, Ahead(), ds)
        invariant c != EOF ==> chunkbuflen > 0
        decreases 16 - |ds|
      {
        ds := ds + [c];
        c := GetChunkChar();
      }
    }

    // The chunk branch of soap_recv_raw.  The data found is the next of the chunk, as much
    // as is at hand; a size that would carry the buffer index past the range of size_t is
    // outside what is promised.
    method RecvRaw() returns (eof: bool)
      requires Ready()
      modifies this, buf
      ensures match Upcoming(old(chunksize), old(Rest()))
              case NoMore => eof && ahead
              case Data(k, bs) =>
                k + 65536 < SIZE ==>
                  if bs == [] then eof
                  else !eof && Ready() && bufidx < buflen <= bufLen && buflen - bufidx <= k && ahead == old(ahead)
                       && chunksize == k - (buflen - bufidx) && bs == buf[bufidx..buflen] + Rest()
    {
      hide Skip, ParseHeader;
      ghost var want := Upcoming(chunksize, Rest());
      if chunksize == 0 {
        ghost var bs := Rest();
        var found := StartHeader();
        if !found {
          EofIsNoMore(bs);
          ahead := true;
          return true;
        }
        var size;
        eof, size := ReadHeader();
        if eof {
          ahead := true;
          return;
        }
        if size == 0 {
          bufidx, buflen, chunkbuflen := 0, 0, 0;
          ahead := true;
          return true;
        }
        EnterChunk(size);
        if size + bufidx >= SIZE || buflen != bufidx {
          return false;
        }
      }
      eof := MoreData();
    }

    // The header is looked for in what is left in the buffer, or in new input.
    method StartHeader() returns (found: bool)
      requires Ready() && chunksize == 0
      modifies this`wire, this`bufidx, this`buflen, this`chunkbuflen, buf
      ensures !found ==> old(Rest()) == []
      ensures found ==> InHeader() && Ahead() == old(Rest())
    {
      found := true;
      if chunkbuflen == 0 {
        assert Rest() == wire;
        Refill();
        found := chunkbuflen != 0;
      } else {
        bufidx := buflen;
        buflen := chunkbuflen;
      }
    }

    // The chunk's data starts at bufidx and ends in the buffer or beyond it.
    method EnterChunk(size: nat)
      requires InHeader() && chunkbuflen > 0 && 0 < size < SIZE
      modifies this`buflen, this`chunksize, this`chunkbuflen
      ensures size + bufidx < SIZE ==>
                Ready() && bufidx <= buflen && buflen - bufidx <= size && chunksize == size - (buflen - bufidx)
                && old(Ahead()) == buf[bufidx..buflen] + Rest() && (buflen == bufidx ==> chunksize > 0)
    {
      ghost var all := Ahead();
      chunksize := size;
      buflen := (bufidx + chunksize) % SIZE;
      if buflen > chunkbuflen {
        buflen := chunkbuflen;
        chunksize := chunksize - (buflen - bufidx);
        chunkbuflen := 0;
        assert [] + wire == wire;
      } else if chunkbuflen > 0 {
        chunksize := 0;
        if size + bufidx < SIZE {
          assert buf[bufidx..chunkbuflen] == buf[bufidx..buflen] + buf[buflen..chunkbuflen];
          assert all == buf[bufidx..buflen] + (buf[buflen..chunkbuflen] + wire);
        }
      }
    }

    // Data straight from the network.
    method MoreData() returns (eof: bool)
      requires Ready() && chunksize > 0
      modifies this`wire, this`bufidx, this`buflen, this`chunksize, buf
      ensures eof <==> old(Rest()) == []
      ensures !eof ==> Ready() && bufidx < buflen <= bufLen && buflen - bufidx <= old(chunksize)
                       && chunksize == old(chunksize) - (buflen - bufidx) && old(Rest()) == buf[bufidx..buflen] + Rest()
    {
      ghost var all := Rest();
      assert all == wire;
      var max := if chunksize > bufLen then bufLen else chunksize;
      buflen := Receive(max);
      bufidx := 0;
      chunksize := chunksize - buflen;
      eof := buflen == 0;
      assert all == buf[0..buflen] + wire;
      assert [] + wire == wire;
    }
  }

  // What a reader with k bytes of its chunk to come finds next: data, or the end.
  datatype Next = Data(k: nat, bs: seq<byte>) | NoMore

  function Upcoming(k: nat, bs: seq<byte>): Next {
    if k > 0 then Data(k, bs)
    else
      match ParseHeader(bs)
      case HitEof => NoMore
      case Header(n, rest) => if n == 0 then NoMore else Data(n, rest)
  }

  lemma HexIsNoEof(c: int)
    ensures IsHex(c) ==> c != EOF
  {
  }

  lemma LeftShrinks(c: int, bs: seq<byte>)
    requires c != EOF
    ensures Left(NextChar(bs), NextRest(bs)) < Left(c, bs)
  {
  }

  lemma EofIsNoMore(bs: seq<byte>)
    requires bs == []
    ensures Upcoming(0, bs) == NoMore
  {
  }

  // ---- whole messages ----

  lemma NextChunk(chunks: seq<seq<byte>>, total: nat, x: seq<byte>)
    requires Full(chunks)
    ensures chunks == [] ==> Upcoming(0, Frames(chunks, total) + TERMINATOR + x) == NoMore
    ensures chunks != [] ==>
              Full(chunks[1..]) && 0 < |chunks[0]| <= 65536
              && Upcoming(0, Frames(chunks, total) + TERMINATOR + x)
              == Data(|chunks[0]|, chunks[0] + (Frames(chunks[1..], (total + |chunks[0]|) % SIZE) + TERMINATOR + x))
  {
    hide Skip, Chunk, ParseHeader;
    if chunks == [] {
      TerminatorRead(x);
      assert [] + TERMINATOR == TERMINATOR;
    } else {
      var c, rest := chunks[0], Frames(chunks[1..], (total + |chunks[0]|) % SIZE);
      ChunkRead(total != 0, c, rest + TERMINATOR + x);
      assert Chunk(total != 0, c) + rest + TERMINATOR + x == Chunk(total != 0, c) + (rest + TERMINATOR + x);
    }
  }

  // What a reader with k bytes of its chunk to come delivers in all, and whether it gets to the
  // end of the message.
  datatype Received = Received(data: seq<byte>, ended: bool)

  function Delivered(k: nat, bs: seq<byte>): Received
    decreases |bs|
  {
    match Upcoming(k, bs)
    case NoMore => Received([], true)
    case Data(n, d) =>
      if |d| < n then Received(d, false) else var r := Delivered(0, d[n..]); Received(d[..n] + r.data, r.ended)
  }

  // No chunk size comes within 64 KiB of 2^64.
  predicate Moderate(k: nat, bs: seq<byte>)
    decreases |bs|
  {
    match Upcoming(k, bs)
    case NoMore => true
    case Data(n, d) => n + 65536 < SIZE && (|d| < n || Moderate(0, d[n..]))
  }

  lemma NextOf(k: nat, bs: seq<byte>)
    requires Moderate(k, bs)
    ensures match Upcoming(k, bs)
            case NoMore => Delivered(k, bs) == Received([], true)
            case Data(n, d) =>
              0 < n && n + 65536 < SIZE && |d| <= |bs| && Moderate(n, d) && Delivered(k, bs) == Delivered(n, d)
              && (d == [] ==> Delivered(n, d) == Received([], false))
  {
    hide ParseHeader;
  }

  lemma TakeOf(n: nat, d: seq<byte>, data: seq<byte>, rest: seq<byte>)
    requires 0 < |data| <= n && d == data + rest && Moderate(n, d)
    ensures Delivered(n, d).data == data + Delivered(n - |data|, rest).data
    ensures Delivered(n, d).ended == Delivered(n - |data|, rest).ended && Moderate(n - |data|, rest)
  {
    hide ParseHeader;
    var k := n - |data|;
    if n <= |d| {
      assert d[n..] == rest[k..] && d[..n] == data + rest[..k];
      if k > 0 {
        Assoc(data, rest[..k], Delivered(0, rest[k..]).data);
      } else {
        assert rest[k..] == rest && data + rest[..k] == data;
      }
    }
  }

  // The caller's loop, on any input at all.
  method ReceiveAll(r: Receiver) returns (out: seq<byte>)
    requires r.Ready() && Moderate(r.chunksize, r.Rest())
    modifies r, r.buf
    ensures out == Delivered(old(r.chunksize), old(r.Rest())).data
    ensures Delivered(old(r.chunksize), old(r.Rest())).ended ==> r.ahead
  {
    hide Receiver.Rest, Receiver.Ready, Delivered, Moderate, Upcoming;
    out := [];
    ghost var all := Delivered(r.chunksize, r.Rest());
    NoData(all.data);
    while true
      invariant r.Ready() && Moderate(r.chunksize, r.Rest())
      invariant out + Delivered(r.chunksize, r.Rest()).data == all.data && Delivered(r.chunksize, r.Rest()).ended == all.ended
      decreases |r.Rest()|
    {
      ghost var k, bs := r.chunksize, r.Rest();
      NextOf(k, bs);
      var eof := r.RecvRaw();
      if eof {
        NoData(out);
        return;
      }
      r.Inside();
      ghost var data := r.buf[r.bufidx..r.buflen];
      ghost var next := Upcoming(k, bs);
      TakeOf(next.k, next.bs, data, r.Rest());
      Assoc(out, data, Delivered(r.chunksize, r.Rest()).data);
      out := out + r.buf[r.bufidx..r.buflen];
    }
  }

  lemma NoData(w: seq<byte>)
    ensures [] + w == w && w + [] == w && [] + [] + w == w
  {
  }

  lemma {:induction false} SentIsRead(chunks: seq<seq<byte>>, total: nat, x: seq<byte>)
    requires Full(chunks)
    ensures Moderate(0, Frames(chunks, total) + TERMINATOR + x)
    ensures Delivered(0, Frames(chunks, total) + TERMINATOR + x) == Received(Concat(chunks), true)
    decreases |chunks|
  {
    hide Upcoming, Frames, Full;
    NextChunk(chunks, total, x);
    if chunks != [] {
      var c, next := chunks[0], (total + |chunks[0]|) % SIZE;
      var more := Frames(chunks[1..], next) + TERMINATOR + x;
      SentIsRead(chunks[1..], next, x);
      assert (c + more)[|c|..] == more && (c + more)[..|c|] == c;
    }
  }

  function Datas(ps: seq<Piece>): seq<byte> {
    if ps == [] then [] else ps[0].data + Datas(ps[1..])
  }

  // Sizes in at most sixteen digits, none within 64 KiB of 2^64.
  ghost predicate Measured(ps: seq<Piece>) {
    forall i :: 0 <= i < |ps| ==> |ps[i].size| <= 16 && |ps[i].data| + 65536 < SIZE
  }

  ghost predicate Unstopped(ps: seq<Piece>) {
    forall i :: 0 <= i < |ps| ==> STOP !in ps[i].ext
  }

  lemma LastRead(last: Piece, x: seq<byte>)
    requires Last(last)
    ensures Upcoming(0, Headed(last, x)) == NoMore
  {
    hide ParseHeader, Spells, Extension, Headed;
    SizeRead(last, 0, x);
  }

  lemma PieceRead(p: Piece, x: seq<byte>)
    requires |p.data| > 0 && WellFormed(p) && |p.size| <= 16
    ensures Upcoming(0, Headed(p, p.data + (CRLF + x))) == if STOP in p.ext then NoMore else Data(|p.data|, p.data + (CRLF + x))
  {
    hide ParseHeader, Spells, Extension, Headed;
    SizeRead(p, |p.data|, p.data + (CRLF + x));
  }

  lemma LineEndIgnored(bs: seq<byte>)
    ensures Delivered(0, CRLF + bs) == Delivered(0, bs) && Moderate(0, CRLF + bs) == Moderate(0, bs)
  {
    hide ParseHeader;
    LineEndSkipped(bs);
  }

  // Every well-formed body is read as the standard says, whoever sent it: in any spelling of
  // the sizes with up to sixteen digits, with any extensions that hold no byte 255, and with
  // anything behind the last chunk's line.
  lemma {:induction false} CodingIsRead(ps: seq<Piece>, last: Piece, x: seq<byte>)
    requires Pieces(ps) && Last(last) && Measured(ps)
    ensures Moderate(0, Body(ps, last, x)) && Delivered(0, Body(ps, last, x)).ended
    ensures Delivered(0, Body(ps, last, x)).data == Datas(ps) <==> Unstopped(ps)
    ensures |Delivered(0, Body(ps, last, x)).data| <= |Datas(ps)|
    decreases |ps|
  {
    hide Upcoming, WellFormed, Last, Headed;
    if ps == [] {
      LastRead(last, x);
    } else {
      var p, more := ps[0], Body(ps[1..], last, x);
      CodingIsRead(ps[1..], last, x);
      PieceRead(p, more);
      LineEndIgnored(more);
      var d := p.data + (CRLF + more);
      assert d[|p.data|..] == CRLF + more && d[..|p.data|] == p.data;
      if STOP !in p.ext {
        assert Unstopped(ps) <==> Unstopped(ps[1..]);
        SameFront(p.data, Delivered(0, more).data, Datas(ps[1..]));
      }
    }
  }

  lemma SameFront(a: seq<byte>, b: seq<byte>, c: seq<byte>)
    ensures a + b == a + c <==> b == c
  {
    if a + b == a + c {
      assert (a + b)[|a|..] == b && (a + c)[|a|..] == c;
    }
  }

  // A size in more than sixteen digits loses its last ones.
  lemma SeventeenDigits() returns (p: Piece)
    ensures WellFormed(p) && |p.size| == 17 && p.data == [65] && p.ext == []
    ensures forall x :: Delivered(0, Headed(p, x)) == Received([], true)
  {
    var cases := seq(17, _ => false);
    p := Piece(Written(1, cases), [], [65]);
    Power16Grows(1, 17);
    assert Power16(1) == 16 * Power16(0);
    assert SpellsIn(p.size, 1, cases);
    SpellingIsRead(p.size, 1);
    FrontIsLess(p.size, 16);
    forall x ensures Delivered(0, Headed(p, x)) == Received([], true) {
      AnnouncementRead(p, x, 16);
    }
  }

  // Any sends, any two buffer sizes, any amount of the body read along with the HTTP header,
  // any sizes of the pieces that arrive, and anything behind the message.
  method Exchange(parts: seq<seq<byte>>, sendSize: nat, recvSize: nat, http: seq<byte>, early: nat, extra: seq<byte>) returns (out: seq<byte>)
    requires 1 <= sendSize <= 65536 && 1 <= |http| < recvSize <= 65536
    ensures out == Concat(parts)
  {
    hide Sender.Valid, Receiver.Ready, Receiver.Rest, Frames, Full, Moderate, Delivered;
    var s := new Sender(sendSize);
    assert parts[..0] == [];
    for i := 0 to |parts|
      invariant s.Valid() && s.sent == Concat(parts[..i]) && fresh(s) && fresh(s.buf)
    {
      OneMore(parts[..i], 0, parts[i]);
      assert parts[..i + 1] == parts[..i] + [parts[i]];
      s.Send(parts[i]);
    }
    assert parts[..|parts|] == parts;
    s.EndSend();
    var all := s.wire + extra;
    var n := if early <= recvSize - |http| then early else recvSize - |http|;
    n := if n <= |all| then n else |all|;
    var r := new Receiver(recvSize, http, all[..n], all[n..]);
    assert all[..n] + all[n..] == all;
    SentIsRead(s.chunks, 0, extra);
    out := ReceiveAll(r);
  }
}
