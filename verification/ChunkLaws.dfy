/** What the readers of lines, sizes and chunks make of their input, part by part: lines that end in an LF alone, sizes
    in either case, size lines with something behind the number, trailing headers, and what is refused. */
module ChunkLaws {
  import opened Options
  import opened CStrings
  import opened Streams
  import opened Chunks

  // ----- Lines -----

  lemma {:induction false} StripStops(text: seq<byte>, tail: seq<byte>)
    requires Plain(text) && (tail != [] ==> tail[0] == 13 || tail[0] == 0)
    ensures Strip(text + tail) == text
  {
    if text == [] {
      assert text + tail == tail;
    } else {
      StripStops(text[1..], tail);
      assert (text + tail)[1..] == text[1..] + tail;
    }
  }

  /** A line ends in an LF (10), with or without a CR (13) before it; its text ends at the first CR or NUL in it. */
  lemma LineIsCut(text: seq<byte>, more: seq<byte>, tail: seq<byte>, size: nat)
    requires Plain(text) && 10 !in more && (more != [] ==> more[0] == 13 || more[0] == 0)
    ensures TakeLine(text + more + [10] + tail, size) ==
            if |text| + |more| + 1 <= size then Line.Line(text, tail) else NoLine
  {
    var s, k := text + more + [10] + tail, |text + more|;
    assert forall i :: 0 <= i < k ==> s[i] == (text + more)[i];
    FirstLfAt(s, k);
    assert s[..k] == text + more && s[k + 1..] == tail;
    StripStops(text, more);
    hide Strip, FirstLf;
  }

  /** Without an LF there is no line. */
  lemma NoLineWithoutLf(s: seq<byte>, size: nat)
    requires 10 !in s
    ensures TakeLine(s, size) == NoLine
  {
  }

  // ----- Sizes -----

  const LOWER: seq<byte> := [48, 49, 50, 51, 52, 53, 54, 55, 56, 57, 97, 98, 99, 100, 101, 102]
  const UPPER: seq<byte> := [48, 49, 50, 51, 52, 53, 54, 55, 56, 57, 65, 66, 67, 68, 69, 70]

  /** The characters 0 to 9 and a to f, or A to F, are the digits, and nothing else is. */
  lemma DigitsAre(d: nat, b: byte)
    requires d < 16
    ensures Digit(d) == LOWER[d] && IsHex(LOWER[d]) && IsHex(UPPER[d]) && Nibble(LOWER[d]) == Nibble(UPPER[d]) == d
    ensures IsHex(b) <==> b in LOWER || b in UPPER
  {
    assert b in UPPER ==> exists i :: 0 <= i < 16 && UPPER[i] == b;
    if 48 <= b <= 57 {
      assert UPPER[b - 48] == b;
    } else if 65 <= b <= 70 {
      assert UPPER[b - 55] == b;
    } else if 97 <= b <= 102 {
      assert LOWER[b - 87] == b;
    }
  }

  /** The number in hex, with the digits of `set`. */
  function Written(n: nat, digits: seq<byte>): seq<byte>
    requires |digits| == 16
  {
    if n < 16 then [digits[n]] else Written(n / 16, digits) + [digits[n % 16]]
  }

  predicate Digits(digits: seq<byte>) {
    |digits| == 16 && forall d: nat :: d < 16 ==> IsHex(digits[d]) && Nibble(digits[d]) == d
  }

  lemma DigitsHold()
    ensures Digits(LOWER) && Digits(UPPER) && LOWER[0] == UPPER[0] == 48
  {
    forall d: nat | d < 16
      ensures IsHex(LOWER[d]) && Nibble(LOWER[d]) == d && IsHex(UPPER[d]) && Nibble(UPPER[d]) == d
    {
      DigitsAre(d, 0);
    }
    hide IsHex, Nibble;
  }

  lemma {:induction false} WrittenValue(n: nat, digits: seq<byte>)
    requires Digits(digits)
    ensures var s := Written(n, digits);
      s != [] && AllHex(s) && Value(s) == n && (n > 0 ==> IsHex(s[0]) && Nibble(s[0]) != 0)
  {
    hide IsHex, Nibble;
    var s := Written(n, digits);
    if n < 16 {
      assert s[..0] == [] && Value([]) == 0;
    } else {
      WrittenValue(n / 16, digits);
      assert s[..|s| - 1] == Written(n / 16, digits);
    }
  }

  lemma WrittenIs(n: nat, digits: seq<byte>)
    requires digits == LOWER || digits == UPPER
    ensures var s := Written(n, digits); s != [] && AllHex(s) && Value(s) == n && (n > 0 ==> s[0] != 48)
  {
    DigitsHold();
    WrittenValue(n, digits);
    hide Written, Value;
  }

  /** A chunk is written behind its size in lower-case hex, and both end in CR and LF. */
  lemma {:induction false} ChunkIs(chunk: seq<byte>)
    ensures ChunkBytes(chunk) == Written(|chunk|, LOWER) + [13, 10] + chunk + [13, 10]
  {
    HexIs(|chunk|);
    hide Hex, Written;
  }

  lemma {:induction false} HexIs(n: nat)
    ensures Hex(n) == Written(n, LOWER)
  {
    DigitsAre(n % 16, 0);
    if n >= 16 {
      HexIs(n / 16);
    }
  }

  predicate NoDigit(tail: seq<byte>) {
    tail != [] ==> tail[0] !in LOWER && tail[0] !in UPPER && tail[0] != 120 && tail[0] != 88
  }

  lemma {:induction false} HexPrefixStops(s: seq<byte>, tail: seq<byte>)
    requires AllHex(s) && (tail != [] ==> !IsHex(tail[0]))
    ensures HexPrefix(s + tail) == s
  {
    if s == [] {
      assert s + tail == tail;
    } else {
      HexPrefixStops(s[1..], tail);
      assert (s + tail)[1..] == s[1..] + tail;
    }
  }

  lemma {:induction false} SpaceIsSkipped(spaces: seq<byte>, s: seq<byte>)
    requires (forall i :: 0 <= i < |spaces| ==> spaces[i] == 32 || 9 <= spaces[i] <= 13) && s != [] && !IsSpace(s[0])
    ensures SkipSpace(spaces + s) == s
  {
    if spaces == [] {
      assert spaces + s == s;
    } else {
      SpaceIsSkipped(spaces[1..], s);
      assert (spaces + s)[1..] == spaces[1..] + s;
    }
  }

  /** A 0x is passed over. */
  lemma ZeroXIsSkipped(zero: seq<byte>, v: seq<byte>)
    requires v != [] && (zero == [] || zero == [48, 120] || zero == [48, 88])
    requires |v| >= 2 && v[0] == 48 ==> v[1] != 120 && v[1] != 88
    ensures var u := zero + v; (if |u| >= 2 && u[0] == 48 && (u[1] == 120 || u[1] == 88) then u[2..] else u) == v
  {
    if zero == [] {
      assert zero + v == v;
    } else {
      assert (zero + v)[2..] == v;
    }
  }

  lemma ScanIs(t: seq<byte>, u: seq<byte>, v: seq<byte>, n: nat)
    requires SkipSpace(t) == t && t != [] && u == if t[0] == 43 || t[0] == 45 then t[1..] else t
    requires v == if |u| >= 2 && u[0] == 48 && (u[1] == 120 || u[1] == 88) then u[2..] else u
    requires HexPrefix(v) != [] && Value(HexPrefix(v)) == n
    ensures ScanHex(t) ==
      Some(if n > SIZE_MAX then SIZE_MAX else if t[0] == 45 then (SIZE_MAX + 1 - n) % (SIZE_MAX + 1) else n)
  {
    hide SkipSpace, HexPrefix, Value;
  }

  lemma WrapIs(n: nat, m: nat)
    requires 0 < n < m
    ensures (m - n) % m == m - n
  {
  }

  lemma DigitsAreRead(s: seq<byte>, tail: seq<byte>, plus: seq<byte>, zero: seq<byte>)
    requires s != [] && AllHex(s) && Value(s) <= SIZE_MAX && NoDigit(tail) && (plus == [] || plus == [43])
    requires zero == [] || zero == [48, 120] || zero == [48, 88]
    requires SkipSpace(plus + (zero + (s + tail))) == plus + (zero + (s + tail))
    ensures ScanHex(plus + (zero + (s + tail))) == Some(Value(s))
  {
    var v := s + tail;
    var u := zero + v;
    var t := plus + u;
    if tail != [] {
      DigitsAre(0, tail[0]);
    }
    assert IsHex(v[0]) && (|s| > 1 ==> IsHex(v[1])) && (|s| == 1 && tail != [] ==> v[1] == tail[0]);
    HexPrefixStops(s, tail);
    hide Value, HexPrefix, SkipSpace;
    ZeroXIsSkipped(zero, v);
    assert u[0] == if zero == [] then v[0] else 48;
    if plus == [] {
      assert t == u;
    } else {
      assert t[1..] == u;
    }
    ScanIs(t, u, v, Value(s));
  }

  lemma DigitsBegin(s: seq<byte>, tail: seq<byte>, plus: seq<byte>, zero: seq<byte>)
    requires s != [] && AllHex(s) && (plus == [] || plus == [43])
    requires zero == [] || zero == [48, 120] || zero == [48, 88]
    ensures var t := plus + (zero + (s + tail)); t != [] && !IsSpace(t[0])
  {
    assert IsHex((s + tail)[0]);
  }

  /** A size may stand behind white space, a plus and a 0x, in digits of either case, and before anything that is not
      a digit, such as a chunk extension. */
  lemma SizeIsRead(spaces: seq<byte>, plus: seq<byte>, zero: seq<byte>, n: nat, digits: seq<byte>, tail: seq<byte>)
    requires forall i :: 0 <= i < |spaces| ==> spaces[i] == 32 || 9 <= spaces[i] <= 13
    requires (plus == [] || plus == [43]) && (zero == [] || zero == [48, 120] || zero == [48, 88])
    requires (digits == LOWER || digits == UPPER) && NoDigit(tail) && n <= SIZE_MAX
    ensures ScanHex(spaces + (plus + (zero + (Written(n, digits) + tail)))) == Some(n)
  {
    var s := Written(n, digits);
    var t := plus + (zero + (s + tail));
    WrittenIs(n, digits);
    hide Written, Value;
    DigitsBegin(s, tail, plus, zero);
    SpaceIsSkipped(spaces, t);
    SpaceIsSkipped([], t);
    assert [] + t == t;
    DigitsAreRead(s, tail, plus, zero);
    SkippedFirst(spaces, t);
  }

  lemma SkippedFirst(spaces: seq<byte>, t: seq<byte>)
    requires SkipSpace(spaces + t) == SkipSpace(t)
    ensures ScanHex(spaces + t) == ScanHex(t)
  {
    hide SkipSpace, Value, HexPrefix;
  }

  lemma FirstDigit(s: seq<byte>)
    requires s != [] && AllHex(s)
    ensures !IsSpace(s[0]) && s[0] != 43 && s[0] != 45 && HexPrefix(s) == s
  {
    assert IsHex(s[0]);
    HexPrefixWhole(s);
  }

  /** A size above the largest is clamped to it. */
  lemma LargeSizeIsRead(s: seq<byte>, n: nat)
    requires s != [] && AllHex(s) && Value(s) == n && (|s| > 1 && s[0] == 48 ==> s[1] != 120 && s[1] != 88)
    ensures ScanHex(s) == Some(if n > 0xFFFF_FFFF_FFFF_FFFF then 0xFFFF_FFFF_FFFF_FFFF else n)
  {
    FirstDigit(s);
    NotSkipped(s);
    hide HexPrefix, Value, SkipSpace, ScanHex, AllHex;
    ScanIs(s, s, s, n);
  }

  /** One behind a minus (45) is taken from two to the power of 64. */
  lemma NegativeSizeIsRead(s: seq<byte>, n: nat)
    requires s != [] && AllHex(s) && Value(s) == n && 0 < n <= 0xFFFF_FFFF_FFFF_FFFF
    requires |s| > 1 && s[0] == 48 ==> s[1] != 120 && s[1] != 88
    ensures ScanHex([45] + s) == Some(0x1_0000_0000_0000_0000 - n)
  {
    var t := [45] + s;
    FirstDigit(s);
    NotSkipped(t);
    hide HexPrefix, Value, SkipSpace, ScanHex, AllHex;
    assert t[0] == 45 && t[1..] == s;
    WrapIs(n, SIZE_MAX + 1);
    ScanIs(t, s, s, n);
  }

  lemma NotSkipped(t: seq<byte>)
    requires t != [] && !IsSpace(t[0])
    ensures SkipSpace(t) == t
  {
  }

  // ----- Size lines -----

  /** A size line, whatever stands behind the number in it. */
  lemma SizeLineIsRead(line: seq<byte>, n: nat, body: seq<byte>, size: nat)
    requires Plain(line) && |line| + 2 <= size && ScanHex(line) == Some(n)
    ensures Dechunk(line + CRLF + body, size, 0) == if n == 0 then Trailer(body, size) else Dechunk(body, size, n)
  {
    PlainLine(line, body, size);
    hide TakeLine, ScanHex;
  }

  /** One without a number is refused. */
  lemma BadSizeIsRefused(line: seq<byte>, body: seq<byte>, size: nat)
    requires Plain(line) && |line| + 2 <= size && ScanHex(line) == None
    ensures Dechunk(line + CRLF + body, size, 0) == Outcome(-1, [], [])
  {
    PlainLine(line, body, size);
    hide TakeLine, ScanHex;
  }

  // ----- Chunks -----

  /** Anything between a chunk and its line end is refused, once the chunk has been delivered. */
  lemma JunkIsRefused(chunk: seq<byte>, junk: seq<byte>, tail: seq<byte>, size: nat)
    requires chunk != [] && junk != [] && Plain(junk) && |junk| + 2 <= size
    ensures Dechunk(chunk + junk + CRLF + tail, size, |chunk|) == Outcome(-1, chunk, [])
  {
    var s := chunk + junk + CRLF + tail;
    assert s[..|chunk|] == chunk && s[|chunk|..] == junk + CRLF + tail;
    PlainLine(junk, tail, size);
    hide TakeLine, ScanHex;
    assert chunk + [] == chunk;
  }

  /** A stream that ends inside a chunk delivers what there is of it, and ends. */
  lemma CutShort(s: seq<byte>, left: nat, size: nat)
    requires |s| < left
    ensures Dechunk(s, size, left) == Outcome(1, s, [])
  {
  }

  /** So does one that ends where a size line, or the line end behind a chunk, should stand: a buffer that is full
      without an LF is an error instead. */
  lemma EndOfStream(chunk: seq<byte>, s: seq<byte>, size: nat)
    requires 10 !in s
    ensures Dechunk(s, size, 0) == Outcome(if |s| < size then 1 else -1, [], [])
    ensures chunk != [] ==> Dechunk(chunk + s, size, |chunk|) == Outcome(1, chunk, [])
  {
    NoLineWithoutLf(s, size);
    hide TakeLine, ScanHex;
    assert (chunk + s)[..|chunk|] == chunk && (chunk + s)[|chunk|..] == s && chunk + [] == chunk;
  }

  // ----- The trailer -----

  /** Headers that follow the last chunk. */
  function TrailerBytes(headers: seq<seq<byte>>): seq<byte> {
    if headers == [] then [] else headers[0] + CRLF + TrailerBytes(headers[1..])
  }

  ghost predicate Headers(headers: seq<seq<byte>>) {
    forall i :: 0 <= i < |headers| ==> headers[i] != [] && Plain(headers[i])
  }

  predicate AllHeld(headers: seq<seq<byte>>, size: nat) {
    forall i :: 0 <= i < |headers| ==> |headers[i]| + 2 <= size
  }

  /** The headers are skipped up to the empty line, and the reader stops right behind it, if and only if the buffer
      holds every one of them. */
  lemma {:induction false} TrailerIsSkipped(headers: seq<seq<byte>>, rest: seq<byte>, size: nat)
    requires Headers(headers) && size >= 2
    ensures Trailer(TrailerBytes(headers) + CRLF + rest, size) ==
            if AllHeld(headers, size) then Outcome(0, [], rest) else Outcome(1, [], [])
  {
    var s := TrailerBytes(headers) + CRLF + rest;
    if headers == [] {
      assert s == CRLF + rest;
      EmptyLine(rest, size);
    } else {
      var h, more := headers[0], headers[1..];
      var tail := TrailerBytes(more) + CRLF + rest;
      assert s == h + CRLF + tail;
      PlainLine(h, tail, size);
      TrailerIsSkipped(more, rest, size);
      assert AllHeld(headers, size) <==> |h| + 2 <= size && AllHeld(more, size) by {
        assert headers == [h] + more;
      }
      hide TakeLine;
    }
  }

  /** A stream that ends in the trailer is reported. */
  lemma {:induction false} TrailerIsCutShort(headers: seq<seq<byte>>, s: seq<byte>, size: nat)
    requires Headers(headers) && 10 !in s
    ensures Trailer(TrailerBytes(headers) + s, size) == Outcome(1, [], [])
  {
    if headers == [] {
      assert TrailerBytes(headers) + s == s;
      NoLineWithoutLf(s, size);
    } else {
      var h, tail := headers[0], TrailerBytes(headers[1..]) + s;
      assert TrailerBytes(headers) + s == h + CRLF + tail;
      PlainLine(h, tail, size);
      TrailerIsCutShort(headers[1..], s, size);
      hide TakeLine;
    }
  }

  /** A body with headers behind its last chunk. */
  function Trailed(chunks: seq<seq<byte>>, headers: seq<seq<byte>>): seq<byte> {
    Chunks.Sent(chunks) + ([48] + CRLF + TrailerBytes(headers) + CRLF)
  }

  lemma LastChunkIsRead(headers: seq<seq<byte>>, rest: seq<byte>, size: nat)
    requires Headers(headers)
    ensures Dechunk([48] + CRLF + TrailerBytes(headers) + CRLF + rest, size, 0) == Outcome(0, [], rest)
            <==> size >= 3 && AllHeld(headers, size)
  {
    var body := TrailerBytes(headers) + CRLF + rest;
    assert [48] + CRLF + TrailerBytes(headers) + CRLF + rest == Hex(0) + CRLF + body;
    HeaderIsRead(0, body, size);
    assert |Hex(0)| == 1;
    if size >= 3 {
      TrailerIsSkipped(headers, rest, size);
    }
    hide TakeLine, ScanHex, Hex, Trailer;
  }

  lemma {:induction false} LongerThanRest(chunks: seq<seq<byte>>, headers: seq<seq<byte>>, rest: seq<byte>)
    ensures |Trailed(chunks, headers) + rest| > |rest|
  {
  }

  /** The chunked round trip with trailing headers: the chunks come back and exactly what follows the trailer is left,
      if and only if no chunk is empty and the reader's buffer holds every size line and every header. */
  lemma {:induction false} TrailedRoundTripIff(chunks: seq<seq<byte>>, headers: seq<seq<byte>>, rest: seq<byte>,
                                               size: nat)
    requires (forall c :: c in chunks ==> |c| <= SIZE_MAX) && Headers(headers)
    ensures Dechunk(Trailed(chunks, headers) + rest, size, 0) == Outcome(0, Concat(chunks), rest)
            <==> size >= 3 && AllHeld(headers, size) && forall c :: c in chunks ==> Fits(c, size)
    decreases |chunks|
  {
    hide Dechunk, Fits, ChunkBytes, TrailerBytes, Headers, AllHeld;
    var end := [48] + CRLF + TrailerBytes(headers) + CRLF;
    if chunks == [] {
      assert Trailed(chunks, headers) + rest == [48] + CRLF + TrailerBytes(headers) + CRLF + rest;
      LastChunkIsRead(headers, rest, size);
    } else {
      var c, more := chunks[0], chunks[1..];
      var tail := Trailed(more, headers) + rest;
      assert chunks == [c] + more;
      assert Trailed(chunks, headers) + rest == ChunkBytes(c) + tail;
      TrailedRoundTripIff(more, headers, rest, size);
      LongerThanRest(more, headers, rest);
      hide Trailed, Sent;
      ChunkRoundTripIff(c, tail, Concat(more), rest, size);
    }
  }

  lemma ChunkRoundTripIff(c: seq<byte>, tail: seq<byte>, out: seq<byte>, rest: seq<byte>, size: nat)
    requires |c| <= SIZE_MAX && |tail| > |rest|
    ensures Dechunk(ChunkBytes(c) + tail, size, 0) == Outcome(0, c + out, rest)
            <==> Fits(c, size) && Dechunk(tail, size, 0) == Outcome(0, out, rest)
  {
    if Fits(c, size) {
      DechunkOne(c, tail, size);
      PrependedIs(c, Dechunk(tail, size, 0), out, rest);
    } else {
      DechunkMisfit(c, tail, size);
    }
    hide Dechunk, Fits, ChunkBytes;
  }

  lemma PrependedIs(c: seq<byte>, o: Outcome, out: seq<byte>, rest: seq<byte>)
    ensures Prepend(c, o) == Outcome(0, c + out, rest) <==> o == Outcome(0, out, rest)
  {
    assert (c + o.out)[|c|..] == o.out && (c + out)[|c|..] == out;
  }
}
