/** Chunked transfer coding (section 3.6.1 of RFC 2616) as src/common/http.c writes and reads it, on plain
    queues of bytes. */
module Chunks {
  import opened Options
  import opened CStrings
  import opened Streams

  const CRLF: seq<byte> := [CR, LF]
  const SIZE_MAX: nat := 0xFFFF_FFFF_FFFF_FFFF

  // ----- Sizes in hex -----

  predicate IsHex(b: byte) {
    48 <= b <= 57 || 65 <= b <= 70 || 97 <= b <= 102
  }

  function Nibble(b: byte): (d: nat)
    requires IsHex(b)
    ensures d < 16
  {
    if b <= 57 then b - 48 else if b <= 70 then b - 55 else b - 87
  }

  function Digit(d: nat): (b: byte)
    requires d < 16
    ensures IsHex(b) && Nibble(b) == d
  {
    if d < 10 then 48 + d else 87 + d
  }

  predicate AllHex(s: seq<byte>) {
    forall i :: 0 <= i < |s| ==> IsHex(s[i])
  }

  /** printf("%zx") */
  function Hex(n: nat): (s: seq<byte>)
    ensures s != [] && AllHex(s)
  {
    if n < 16 then [Digit(n)] else Hex(n / 16) + [Digit(n % 16)]
  }

  function Value(s: seq<byte>): nat
    requires AllHex(s)
  {
    if s == [] then 0 else 16 * Value(s[..|s| - 1]) + Nibble(s[|s| - 1])
  }

  lemma {:induction false} ValueOfHex(n: nat)
    ensures Value(Hex(n)) == n
  {
    if n >= 16 {
      ValueOfHex(n / 16);
      assert Hex(n)[..|Hex(n)| - 1] == Hex(n / 16);
    }
  }

  function HexPrefix(s: seq<byte>): (p: seq<byte>)
    ensures p <= s && AllHex(p)
  {
    if s == [] || !IsHex(s[0]) then [] else [s[0]] + HexPrefix(s[1..])
  }

  lemma {:induction false} HexPrefixWhole(s: seq<byte>)
    requires AllHex(s)
    ensures HexPrefix(s) == s
  {
    if s != [] {
      HexPrefixWhole(s[1..]);
    }
  }

  predicate IsSpace(b: byte) {
    b == 32 || 9 <= b <= 13
  }

  function SkipSpace(s: seq<byte>): (t: seq<byte>)
    ensures |t| <= |s|
  {
    if s == [] || !IsSpace(s[0]) then s else SkipSpace(s[1..])
  }

  /** sscanf("%zx"): white space, a sign, a 0x and at least one digit; whatever follows is ignored. A value
      that is too large is clamped, a negative one wraps. */
  function ScanHex(s: seq<byte>): Option<nat> {
    var t := SkipSpace(s);
    var signed := t != [] && (t[0] == 43 || t[0] == 45);
    var u := if signed then t[1..] else t;
    var v := if |u| >= 2 && u[0] == 48 && (u[1] == 120 || u[1] == 88) then u[2..] else u;
    var p := HexPrefix(v);
    if p == [] then None
    else
      var n := Value(p);
      Some(if n > SIZE_MAX then SIZE_MAX else if signed && t[0] == 45 then (SIZE_MAX + 1 - n) % (SIZE_MAX + 1) else n)
  }

  lemma {:induction false} ScanDigits(s: seq<byte>)
    requires s != [] && AllHex(s) && Value(s) <= SIZE_MAX
    ensures ScanHex(s) == Some(Value(s))
  {
    hide Value, HexPrefix;
    HexPrefixWhole(s);
    assert IsHex(s[0]);
    assert |s| > 1 ==> IsHex(s[1]);
  }

  lemma {:induction false} ScanOfHex(n: nat)
    requires n <= SIZE_MAX
    ensures ScanHex(Hex(n)) == Some(n)
  {
    ValueOfHex(n);
    ScanDigits(Hex(n));
  }

  // ----- Lines -----

  predicate Plain(text: seq<byte>) {
    forall i :: 0 <= i < |text| ==> text[i] != CR && text[i] != LF && text[i] != 0
  }

  lemma {:induction false} StripPlain(text: seq<byte>)
    requires Plain(text)
    ensures Strip(text + [CR]) == text
  {
    if text != [] {
      StripPlain(text[1..]);
      assert (text + [CR])[1..] == text[1..] + [CR];
    }
  }

  /** A line that was written is read back if and only if the buffer holds it with its CRLF. */
  lemma {:induction false} PlainLine(text: seq<byte>, tail: seq<byte>, size: nat)
    requires Plain(text)
    ensures TakeLine(text + CRLF + tail, size) ==
            if |text| + 2 <= size then Line.Line(text, tail) else NoLine
  {
    var s := text + CRLF + tail;
    FirstLfAt(s, |text| + 1);
    assert s[..|text| + 1] == text + [CR];
    assert s[|text| + 2..] == tail;
    StripPlain(text);
  }

  // ----- Reading -----

  /** What reading a whole chunked body gives: the error code, the bytes delivered, and what is left of the
      queue on success. */
  datatype Outcome = Outcome(err: int, out: seq<byte>, rest: seq<byte>)

  function Prepend(bytes: seq<byte>, o: Outcome): Outcome {
    o.(out := bytes + o.out)
  }

  /** http_read_chunks(): skip trailing headers, up to an empty line. */
  function Trailer(s: seq<byte>, size: nat): (o: Outcome)
    ensures o.out == []
    decreases |s|
  {
    match TakeLine(s, size)
    case NoLine => Outcome(1, [], [])
    case Line(text, rest) => if text == [] then Outcome(0, [], rest) else Trailer(rest, size)
  }

  /** http_read_chunked_file() on the queue `s`, `left` bytes before the end of the current chunk, with a
      buffer of `size` bytes. */
  function Dechunk(s: seq<byte>, size: nat, left: nat): Outcome
    decreases |s|
  {
    if left > |s| then
      Outcome(1, s, [])
    else if left > 0 then
      Prepend(s[..left], ChunkEnd(s[left..], size))
    else
      match TakeLine(s, size)
      case NoLine =>
        Outcome(if |s| < size then 1 else -1, [], [])
      case Line(text, rest) =>
        match ScanHex(text)
        case None => Outcome(-1, [], [])
        case Some(n) => if n == 0 then Trailer(rest, size) else Dechunk(rest, size, n)
  }

  /** The CRLF after a chunk, and whatever follows. */
  function ChunkEnd(s: seq<byte>, size: nat): Outcome
    decreases |s|
  {
    match TakeLine(s, size)
    case NoLine => Outcome(1, [], [])
    case Line(text, rest) => if text != [] then Outcome(-1, [], []) else Dechunk(rest, size, 0)
  }

  /** The two functions read the queue in one way, however much of a chunk is taken at a time. */
  lemma DechunkPart(s: seq<byte>, size: nat, left: nat, n: nat)
    requires 0 < n <= left && n <= |s|
    ensures Dechunk(s, size, left) ==
            Prepend(s[..n], if n < left then Dechunk(s[n..], size, left - n) else ChunkEnd(s[n..], size))
  {
    if left > |s| {
      assert s == s[..n] + s[n..];
    } else if n < left {
      assert s[..left] == s[..n] + s[n..][..left - n];
      assert s[n..][left - n..] == s[left..];
      var o := ChunkEnd(s[left..], size);
      assert s[..left] + o.out == s[..n] + (s[n..][..left - n] + o.out);
    }
  }

  /** Overwriting CRs does not move the lines. */
  lemma {:induction false} FirstLfBlanked(s: seq<byte>, t: seq<byte>)
    requires Blanked(s, t)
    ensures FirstLf(s) == FirstLf(t)
  {
    if FirstLf(s) < |s| {
      FirstLfAt(t, FirstLf(s));
    }
  }

  // ----- Writing -----

  /** http_write_chunk() */
  function ChunkBytes(chunk: seq<byte>): seq<byte> {
    Hex(|chunk|) + CRLF + chunk + CRLF
  }

  /** Any number of http_write_chunk(), then http_write_chunks() */
  function Chunked(chunks: seq<seq<byte>>): seq<byte> {
    if chunks == [] then Hex(0) + CRLF + CRLF else ChunkBytes(chunks[0]) + Chunked(chunks[1..])
  }

  /** Any number of http_write_chunk() so far */
  function Sent(chunks: seq<seq<byte>>): seq<byte> {
    if chunks == [] then [] else ChunkBytes(chunks[0]) + Sent(chunks[1..])
  }

  lemma {:induction false} SentOneByOne(chunks: seq<seq<byte>>, more: seq<byte>)
    ensures Sent(chunks + [more]) == Sent(chunks) + ChunkBytes(more)
  {
    hide ChunkBytes;
    if chunks == [] {
      assert [more][1..] == [];
    } else {
      SentOneByOne(chunks[1..], more);
      assert (chunks + [more])[1..] == chunks[1..] + [more];
    }
  }

  /** A body that is written chunk by chunk and then ended is the chunked body. */
  lemma {:induction false} SentAndEnded(chunks: seq<seq<byte>>)
    ensures Sent(chunks) + Chunked([]) == Chunked(chunks)
  {
    hide ChunkBytes;
    if chunks == [] {
      assert [] + Chunked([]) == Chunked([]);
    } else {
      SentAndEnded(chunks[1..]);
      assert Sent(chunks) + Chunked([]) == ChunkBytes(chunks[0]) + (Sent(chunks[1..]) + Chunked([]));
    }
  }

  function Concat(chunks: seq<seq<byte>>): seq<byte> {
    if chunks == [] then [] else chunks[0] + Concat(chunks[1..])
  }

  /** The chunk can be told from the end of the body, and its header fits the reader's buffer. */
  predicate Fits(chunk: seq<byte>, size: nat) {
    chunk != [] && |Hex(|chunk|)| + 2 <= size
  }

  // ----- Round trip -----

  lemma HeaderIsRead(n: nat, tail: seq<byte>, size: nat)
    requires n <= SIZE_MAX
    ensures TakeLine(Hex(n) + CRLF + tail, size) ==
            if |Hex(n)| + 2 <= size then Line.Line(Hex(n), tail) else NoLine
    ensures ScanHex(Hex(n)) == Some(n)
  {
    ScanOfHex(n);
    PlainLine(Hex(n), tail, size);
  }

  lemma EmptyLine(tail: seq<byte>, size: nat)
    requires size >= 2
    ensures TakeLine(CRLF + tail, size) == Line.Line([], tail)
  {
    assert [] + CRLF == CRLF;
    PlainLine([], tail, size);
  }

  lemma {:induction false} DechunkHeader(n: nat, body: seq<byte>, size: nat)
    requires 0 < n <= SIZE_MAX && |Hex(n)| + 2 <= size
    ensures Dechunk(Hex(n) + CRLF + body, size, 0) == Dechunk(body, size, n)
  {
    HeaderIsRead(n, body, size);
    hide TakeLine, ScanHex, Hex;
  }

  lemma {:induction false} DechunkBody(chunk: seq<byte>, tail: seq<byte>, size: nat)
    requires chunk != [] && size >= 2
    ensures Dechunk(chunk + CRLF + tail, size, |chunk|) == Prepend(chunk, Dechunk(tail, size, 0))
  {
    var body := chunk + CRLF + tail;
    assert body[..|chunk|] == chunk && body[|chunk|..] == CRLF + tail;
    EmptyLine(tail, size);
    hide TakeLine, ScanHex;
  }

  lemma {:induction false} DechunkOne(chunk: seq<byte>, tail: seq<byte>, size: nat)
    requires |chunk| <= SIZE_MAX && Fits(chunk, size)
    ensures Dechunk(ChunkBytes(chunk) + tail, size, 0) == Prepend(chunk, Dechunk(tail, size, 0))
  {
    hide Dechunk, Hex;
    assert ChunkBytes(chunk) + tail == Hex(|chunk|) + CRLF + (chunk + CRLF + tail);
    DechunkHeader(|chunk|, chunk + CRLF + tail, size);
    DechunkBody(chunk, tail, size);
  }

  /** A header that does not fit stops the reader; an empty chunk ends the body. */
  lemma {:induction false} DechunkMisfit(chunk: seq<byte>, tail: seq<byte>, size: nat)
    requires |chunk| <= SIZE_MAX && !Fits(chunk, size)
    ensures var o := Dechunk(ChunkBytes(chunk) + tail, size, 0);
      o == Outcome(1, [], []) || o == Outcome(-1, [], []) || (chunk == [] && o == Outcome(0, [], tail))
  {
    var body := chunk + CRLF + tail;
    assert ChunkBytes(chunk) + tail == Hex(|chunk|) + CRLF + body;
    HeaderIsRead(|chunk|, body, size);
    if chunk == [] && size >= 2 {
      assert body == CRLF + tail;
      EmptyLine(tail, size);
    }
  }

  lemma {:induction false} DechunkLast(rest: seq<byte>, size: nat)
    ensures Dechunk(Chunked([]) + rest, size, 0) == Outcome(0, [], rest) <==> size >= 3
  {
    var body := CRLF + rest;
    assert Chunked([]) + rest == Hex(0) + CRLF + body;
    HeaderIsRead(0, body, size);
    if size >= 3 {
      EmptyLine(rest, size);
    }
  }

  lemma {:induction false} ChunkedNotEmpty(chunks: seq<seq<byte>>)
    ensures Chunked(chunks) != []
  {
  }

  /** Reading back what was written gives the concatenated chunks and leaves exactly what follows, if and
      only if no chunk is empty and the reader's buffer holds every header line. */
  lemma {:induction false} ChunkedRoundTripIff(chunks: seq<seq<byte>>, rest: seq<byte>, size: nat)
    requires forall c :: c in chunks ==> |c| <= SIZE_MAX
    ensures Dechunk(Chunked(chunks) + rest, size, 0) == Outcome(0, Concat(chunks), rest)
            <==> size >= 3 && forall c :: c in chunks ==> Fits(c, size)
  {
    if chunks == [] {
      DechunkLast(rest, size);
    } else {
      var tail := Chunked(chunks[1..]) + rest;
      assert Chunked(chunks) + rest == ChunkBytes(chunks[0]) + tail;
      if Fits(chunks[0], size) {
        DechunkOne(chunks[0], tail, size);
        ChunkedRoundTripIff(chunks[1..], rest, size);
        var o := Dechunk(tail, size, 0);
        assert chunks[0] + o.out == Concat(chunks) <==> o.out == Concat(chunks[1..]) by {
          assert (chunks[0] + o.out)[|chunks[0]|..] == o.out;
          assert Concat(chunks)[|chunks[0]|..] == Concat(chunks[1..]);
        }
        assert chunks == [chunks[0]] + chunks[1..];
      } else {
        DechunkMisfit(chunks[0], tail, size);
        ChunkedNotEmpty(chunks[1..]);
        assert |tail| > |rest|;
      }
    }
  }

  /** A chunk that was announced but not sent swallows what follows it. */
  lemma OverlongChunk(n: nat, tail: seq<byte>, size: nat)
    requires |tail| + 2 < n <= SIZE_MAX && |Hex(n)| + 2 <= size
    ensures Dechunk(Hex(n) + CRLF + CRLF + tail, size, 0) == Outcome(1, CRLF + tail, [])
  {
    assert Hex(n) + CRLF + CRLF + tail == Hex(n) + CRLF + (CRLF + tail);
    DechunkHeader(n, CRLF + tail, size);
  }
}
