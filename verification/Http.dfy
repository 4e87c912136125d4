/** The body readers and writers of src/common/http.c on top of the buffered stream. */
module Http {
  import opened Options
  import opened CStrings
  import opened Streams
  import opened Chunks

  /** What has been written to a file, if there is one. */
  ghost function Written(fd: File?): seq<byte>
    reads fd
  {
    if fd == null then [] else fd.written
  }

  /** The file never takes nothing without failing: write(2) does not return 0. */
  predicate Steady(fd: File?) {
    fd != null ==> fd.reliable || !fd.stalling
  }

  class Http {
    const read: Stream
    const write: Stream
    /** The number of bytes left in the chunk being read. */
    var chunkSize: nat

    /** http_create() */
    constructor (read: Stream, write: Stream)
      ensures this.read == read && this.write == write && chunkSize == 0
    {
      this.read, this.write, chunkSize := read, write, 0;
    }

    /** Nothing fails, and the read buffer has room. */
    ghost predicate Sound(fd: File?)
      reads read, fd
    {
      read.transport.reliable && read.CanClear() && (fd != null ==> fd.reliable)
    }

    // ----- Bodies with a known length -----

    /** One piece goes to the file, or is skipped if there is none. */
    method Move(fd: File?, want: nat) returns (err: int, n: nat)
      requires read.Valid()
      modifies read, read.buf, read.transport`incoming, fd
      ensures read.Valid()
      ensures err == 0 ==>
        && 0 < n <= |old(read.Queue())| && (want > 0 ==> n <= want) && read.CanClear()
        && (fd != null ==> fd.written == old(Written(fd)) + old(read.Queue())[..n])
        && read.Queue() == old(read.Queue())[n..]
      ensures err == 0 && fd == null && want == 0 ==>
        old(read.Queue())[..n] == old(read.Buffered()) && read.Buffered() == []
      ensures err != 0 ==> n == want && Written(fd) == old(Written(fd)) && read.Queue() == old(read.Queue())
      ensures err > 0 ==> err == 1
      ensures old(Sound(fd)) ==> err >= 0 && Sound(fd)
      ensures Steady(fd) && err > 0 ==>
        if fd == null && want == 0 then old(read.Buffered()) == [] else old(read.Queue()) == []
    {
      if fd != null {
        err, n := read.ReadFile(fd, want);
      } else {
        var start;
        err, start, n := read.Read(want);
        if err != 0 {
          n := want;
        }
      }
    }

    /** http_read_file(): nothing is lost whatever happens, and without failures the result is 0 if and only
        if the whole body was there. A length of 0 means everything up to the end of the stream. */
    method ReadFile(fd: File?, contentLength: nat) returns (err: int, ghost got: seq<byte>)
      requires read.Valid()
      modifies read, read.buf, read.transport`incoming, fd
      ensures read.Valid()
      ensures fd != null ==> fd.written == old(Written(fd)) + got
      ensures old(read.Queue()) == got + read.Queue()
      ensures err == 0 && contentLength > 0 ==> |got| == contentLength
      ensures err > 0 ==> err == 1 && |got| < contentLength
      ensures old(Sound(fd)) && contentLength > 0 ==>
        && err == (if contentLength <= |old(read.Queue())| then 0 else 1)
        && got == old(read.Queue())[..Min(contentLength, |old(read.Queue())|)]
      ensures old(Sound(fd)) && contentLength == 0 ==>
        err == 0 && got == if fd == null then old(read.Buffered()) else old(read.Queue())
    {
      hide Stream.Queue, Stream.Buffered, Stream.CanClear;
      var readAll := contentLength == 0;
      var left := contentLength;
      ghost var q := read.Queue();
      got := [];
      while left > 0 || readAll
        invariant read.Valid() && q == got + read.Queue()
        invariant fd != null ==> fd.written == old(Written(fd)) + got
        invariant readAll ==> left == 0
        invariant !readAll ==> |got| + left == contentLength
        invariant old(Sound(fd)) ==> Sound(fd)
        invariant readAll && fd == null ==> got + read.Buffered() == old(read.Buffered())
        decreases |read.Queue()|
      {
        ghost var s := read.Queue();
        var n;
        err, n := Move(fd, left);
        if err < 0 {
          return;
        }
        if err != 0 {
          break;
        }
        assert got + s == got + s[..n] + s[n..];
        got := got + s[..n];
        if left > 0 {
          assert n <= left;
          left := left - n;
        }
      }
      if left > 0 {
        return 1, got;
      }
      return 0, got;
    }

    // ----- Chunked bodies -----

    /** http_read_chunk_header() */
    method ReadChunkHeader() returns (err: int)
      requires read.Valid()
      modifies `chunkSize, read, read.buf, read.transport`incoming
      ensures read.Valid() && (err == 0 || err == 1 || err < 0)
      ensures err == 0 ==> |read.Queue()| < |old(read.Queue())|
      ensures old(Sound(null)) || err >= 0 ==>
        && HeaderRead(old(read.Queue()), read.buf.Length, err, old(chunkSize), chunkSize, read.Queue())
        && (read.CanClear() <==> !Stuck(old(read.Queue()), read.buf.Length))
      ensures err == 0 ==> chunkSize > 0 && read.CanClear()
    {
      hide ScanHex, CString, BlankedPart, Stream.Queue, Stream.CanClear;
      var line: nat;
      err, line := read.ReadLine();
      if err != 0 {
        return;
      }
      match ScanHex(CString(read.buf[line..])) {
        case None =>
          return -1;
        case Some(n) =>
          chunkSize := n;
          return if n == 0 then 1 else 0;
      }
    }

    /** http_read_chunk_footer() */
    method ReadChunkFooter() returns (err: int)
      requires read.Valid()
      modifies read, read.buf, read.transport`incoming
      ensures read.Valid() && (err == 0 || err == 1 || err < 0)
      ensures err == 0 ==> |read.Queue()| < |old(read.Queue())| && read.CanClear()
      ensures err == 0 ==> read.buf.Length > 0 && read.buf[0] == 0
      ensures err == 0 ==> LeftBehind(old(read.Queue()), old(read.buf[..]), read.buf[..], read.offset, read.length)
      ensures old(Sound(null)) || err >= 0 ==> FooterRead(old(read.Queue()), read.buf.Length, err, read.Queue())
    {
      hide BlankedPart, Stream.Queue, Stream.CanClear, LeftBehind, LineLeft, TakeLine, FirstLf;
      ghost var s, was := read.Queue(), read.buf[..];
      var line: nat;
      err, line := read.ReadLine();
      if err != 0 {
        return;
      }
      read.QueueIs();
      LineShrinks(s, read.buf.Length);
      LineIsLeftBehind(s, was, read.buf[..], read.offset, read.length, read.transport.incoming);
      return if read.buf[line] != 0 then -1 else 0;
    }

    /** http_read_chunks() */
    method ReadChunks() returns (err: int)
      requires read.Valid()
      modifies read, read.buf, read.transport`incoming
      ensures read.Valid()
      ensures old(Sound(null)) || err >= 0 ==>
        && err == Trailer(old(read.Queue()), read.buf.Length).err
        && (err == 0 ==> read.Queue() == Trailer(old(read.Queue()), read.buf.Length).rest && read.CanClear())
      ensures !old(read.CanClear()) ==> err == -1
    {
      hide TakeLine, BlankedPart, Stream.Queue, Stream.CanClear;
      var line: nat;
      ghost var o := Trailer(read.Queue(), read.buf.Length);
      err, line := read.ReadLine();
      while err == 0
        invariant read.Valid() && (err == 0 ==> line < read.buf.Length)
        invariant !old(read.CanClear()) ==> err == -1
        invariant old(Sound(null)) ==> err >= 0
        invariant err == 0 ==>
          && read.CanClear()
          && o == if read.buf[line] == 0 then Outcome(0, [], read.Queue()) else Trailer(read.Queue(), read.buf.Length)
        invariant err > 0 ==> o == Outcome(1, [], []) && err == 1
        decreases if err == 0 then 1 + |read.Queue()| else 0
      {
        if read.buf[line] == 0 {
          return;
        }
        ghost var s := read.Queue();
        err, line := read.ReadLine();
        if err == 0 {
          LineShrinks(s, read.buf.Length);
        }
      }
    }

    /** http_read_chunked(): the next piece of the body, as n bytes at the front of the buffer. Reading the line
        after the chunk moves the buffer, so that the piece which completes a chunk is overwritten before the
        caller sees it. Whether that happens can be told beforehand: the piece is delivered unharmed if more of the
        chunk is left than fits the buffer and is still to come. Otherwise the caller sees, from the first byte on,
        what came after the chunk instead, as far as it has been read. */
    method ReadChunked() returns (err: int, n: nat, ghost piece: seq<byte>)
      requires read.Valid()
      modifies `chunkSize, read, read.buf, read.transport`incoming
      ensures read.Valid()
      ensures err == 0 ==> 0 < n == |piece| <= read.buf.Length && read.CanClear()
      ensures err == 0 ==> if chunkSize > 0 then read.buf[..n] == piece else read.buf[0] == 0
      ensures err == 0 ==>
        var left := ChunkLeft(old(read.Queue()), read.buf.Length, old(chunkSize));
        var q := ChunkQueue(old(read.Queue()), read.buf.Length, old(chunkSize));
        var room := Min(read.buf.Length, |q|);
        && n == Min(left, room) && piece == q[..n]
        && (if left > room then read.buf[..n] == piece
            else Harms(piece, q[n..], read.length, read.buf[..n]) && read.buf[0] == 0)
        && (piece[0] != 0 ==> (read.buf[..n] == piece <==> left > room))
      ensures err == 0 ==>
        Dechunk(old(read.Queue()), read.buf.Length, old(chunkSize)) ==
        Prepend(piece, Dechunk(read.Queue(), read.buf.Length, chunkSize))
      ensures old(Sound(null)) && err != 0 ==>
        var o := Dechunk(old(read.Queue()), read.buf.Length, old(chunkSize));
        o.err != 0 || (old(chunkSize) == 0 && o == Trailer(read.Queue(), read.buf.Length))
    {
      hide Dechunk, ChunkEnd, Trailer, Prepend, HeaderRead, FooterRead, Stuck, ChunkLeft, ChunkQueue;
      hide Stream.Valid, Stream.Queue, Stream.CanClear, LeftBehind, Harms;
      n, piece := 0, [];
      ghost var size := read.buf.Length;
      ghost var s := read.Queue();
      if chunkSize == 0 {
        err := ReadChunkHeader();
        if old(Sound(null)) || err >= 0 {
          AfterHeader(s, size, err, chunkSize, read.Queue());
        }
        if err != 0 {
          return;
        }
      }
      ChunkGoesOn(s, size, old(chunkSize));
      ghost var q := read.Queue();
      var start: nat;
      err, start, n := read.Read(chunkSize);
      if err >= 0 {
        AfterMove(q, size, chunkSize, err, if err == 0 then n else chunkSize);
      }
      if err < 0 {
        return;
      } else if err != 0 {
        return -1, n, piece;
      }
      piece := q[..n];
      assert read.buf[..n] == read.buf[start..start + n];
      chunkSize := chunkSize - n;
      if chunkSize == 0 {
        ghost var rest, was := read.Queue(), read.buf[..];
        err := ReadChunkFooter();
        if old(Sound(null)) || err >= 0 {
          AfterFooter(rest, size, err, read.Queue());
          PrependNothing(piece, ChunkEnd(rest, size));
        }
        if err != 0 {
          return;
        }
        PieceIsHarmed(piece, rest, was, read.buf[..], read.offset, read.length);
      }
    }

    /** The loop body of http_read_chunked_file() behind the size line: one piece, and the line after the chunk if it
        is complete. `got` has been delivered of the body `o`. */
    method MovePiece(fd: File?, ghost o: Outcome, ghost got: seq<byte>) returns (err: int, ghost piece: seq<byte>)
      requires read.Valid() && chunkSize > 0
      requires Steady(fd) ==> InBody(o, got, read.Queue(), read.buf.Length, chunkSize)
      modifies `chunkSize, read, read.buf, read.transport`incoming, fd
      ensures read.Valid() && (fd != null ==> fd.written == old(Written(fd)) + piece)
      ensures err == 0 ==> |read.Queue()| < |old(read.Queue())|
      ensures Steady(fd) ==> got + piece <= o.out
      ensures Steady(fd) && err == 0 ==> InBody(o, got + piece, read.Queue(), read.buf.Length, chunkSize)
      ensures old(Sound(fd)) ==> if err == 0 then Sound(fd) else err == o.err && got + piece == o.out
    {
      hide FooterRead, InBody, AtChunkEnd, LeftBehind, Stream.Valid, Stream.Queue, Stream.CanClear;
      ghost var q, size, steady := read.Queue(), read.buf.Length, Steady(fd);
      ghost var sound := Sound(fd);
      var n;
      err, n := Move(fd, chunkSize);
      piece := if err == 0 then q[..n] else [];
      Appended(old(Written(fd)), got, piece);
      if err < 0 {
        BodySoFar(o, got, q, size, chunkSize);
        return;
      }
      if steady {
        BodyMove(o, got, q, size, chunkSize, err, n);
      }
      chunkSize := chunkSize - n;
      ghost var rest := read.Queue();
      BodySoFar(o, got + piece, rest, size, chunkSize);
      if chunkSize == 0 {
        AtEndSoFar(o, got + piece, rest, size);
        err := ReadChunkFooter();
        if sound || (steady && err >= 0) {
          BodyFooter(o, got + piece, rest, size, err, read.Queue());
        }
      }
    }

    /** http_read_chunked_file(): delivers the decoded body, in whatever pieces it arrives. Whatever fails on the
        way, what has been delivered is the front of it, and success means all of it. */
    method ReadChunkedFile(fd: File?) returns (err: int, ghost got: seq<byte>)
      requires read.Valid()
      modifies `chunkSize, read, read.buf, read.transport`incoming, fd
      ensures read.Valid()
      ensures fd != null ==> fd.written == old(Written(fd)) + got
      ensures Steady(fd) ==>
        var o := Dechunk(old(read.Queue()), read.buf.Length, old(chunkSize));
        got <= o.out && (err == 0 ==> o == Outcome(0, got, read.Queue()) && chunkSize == 0 && read.CanClear())
      ensures old(Sound(fd)) ==>
        var o := Dechunk(old(read.Queue()), read.buf.Length, old(chunkSize));
        err == o.err && got == o.out
    {
      hide Dechunk, Trailer, HeaderRead, Stuck, InBody, Stream.Valid, Stream.Queue, Stream.CanClear;
      got := [];
      ghost var size, sound, steady := read.buf.Length, Sound(fd), Steady(fd);
      ghost var o := Dechunk(read.Queue(), size, chunkSize);
      BodyStarts(read.Queue(), size, chunkSize);
      while true
        invariant read.Valid()
        invariant fd != null ==> fd.written == old(Written(fd)) + got
        invariant sound ==> Sound(fd)
        invariant steady ==> InBody(o, got, read.Queue(), size, chunkSize)
        decreases |read.Queue()|
      {
        BodySoFar(o, got, read.Queue(), size, chunkSize);
        if chunkSize == 0 {
          ghost var s := read.Queue();
          err := ReadChunkHeader();
          if sound || (steady && err >= 0) {
            BodyHeader(o, got, s, size, err, chunkSize, read.Queue());
          }
          if err != 0 {
            break;
          }
        }
        ghost var piece;
        err, piece := MovePiece(fd, o, got);
        Appended(old(Written(fd)), got, piece);
        got := got + piece;
        if err != 0 {
          return;
        }
      }
      if err < 0 {
        return;
      }
      err := ReadChunks();
    }

    // ----- Writing chunks -----

    /** http_write_chunk() */
    method WriteChunk(chunk: seq<byte>) returns (err: int)
      requires write.Valid()
      modifies write, write.buf, write.transport`outgoing
      ensures write.Valid()
      ensures write.transport.reliable && old(write.Flushed()) ==>
        && write.Flushed()
        && err == (if |Hex(|chunk|)| + 2 < write.buf.Length then 0 else 1)
        && write.transport.outgoing ==
           if err == 0 then old(write.transport.outgoing) + ChunkBytes(chunk) else old(write.transport.outgoing)
    {
      hide Hex;
      err := write.Printf(Hex(|chunk|) + CRLF);
      if err != 0 {
        return;
      }
      ghost var flushed, sent;
      err, flushed, sent := write.Write(chunk);
      if err != 0 {
        return;
      }
      err := write.Printf(CRLF);
      ghost var out := old(write.transport.outgoing);
      assert out + (Hex(|chunk|) + CRLF) + chunk + CRLF == out + ChunkBytes(chunk);
    }

    /** http_vprint_chunk(), with the text that the format and arguments produce. A text that does not fit the
        buffer is announced but never sent. */
    method PrintChunk(text: seq<byte>) returns (err: int)
      requires write.Valid()
      modifies write, write.buf, write.transport`outgoing
      ensures write.Valid()
      ensures write.transport.reliable && old(write.Flushed()) ==>
        && write.Flushed()
        && err == (if text == [] || |Hex(|text|)| + 2 < write.buf.Length then 0 else 1)
        && write.transport.outgoing == old(write.transport.outgoing) + (
             if text == [] || err != 0 then []
             else if |text| < write.buf.Length then ChunkBytes(text)
             else Hex(|text|) + CRLF + CRLF)
    {
      hide Hex;
      ghost var out := write.transport.outgoing;
      assert out + [] == out;
      if text == [] {
        return 0;
      }
      err := write.Printf(Hex(|text|) + CRLF);
      if err != 0 {
        return;
      }
      err := write.Printf(text);
      if err < 0 {
        return;
      }
      err := write.Printf(CRLF);
      assert out + (Hex(|text|) + CRLF) + text + CRLF == out + ChunkBytes(text);
      assert out + (Hex(|text|) + CRLF) + CRLF == out + (Hex(|text|) + CRLF + CRLF);
    }

    /** http_write_chunks() */
    method WriteChunks() returns (err: int)
      requires write.Valid()
      modifies write, write.buf, write.transport`outgoing
      ensures write.Valid()
      ensures write.transport.reliable && old(write.Flushed()) ==>
        && write.Flushed()
        && err == (if write.buf.Length > 5 then 0 else 1)
        && write.transport.outgoing ==
           if err == 0 then old(write.transport.outgoing) + Chunked([]) else old(write.transport.outgoing)
    {
      assert Chunked([]) == [48] + CRLF + CRLF;
      err := write.Printf([48] + CRLF + CRLF);
    }

    /** A whole body: any number of http_write_chunk(), then http_write_chunks(). It stops at the first chunk whose
        size line does not fit the buffer; `n` is the number of chunks sent. */
    method WriteAll(chunks: seq<seq<byte>>) returns (err: int, ghost n: nat)
      requires write.Valid()
      modifies write, write.buf, write.transport`outgoing
      ensures write.Valid() && n <= |chunks|
      ensures write.transport.reliable && old(write.Flushed()) ==>
        && write.Flushed()
        && (err == 0 <==> Writable(chunks, write.buf.Length))
        && (err == 0 ==> write.transport.outgoing == old(write.transport.outgoing) + Chunked(chunks))
        && (err != 0 ==> write.transport.outgoing == old(write.transport.outgoing) + Sent(chunks[..n]))
        && (forall j :: 0 <= j < n ==> Announced(chunks[j], write.buf.Length))
        && (err != 0 ==> if n < |chunks| then !Announced(chunks[n], write.buf.Length) else write.buf.Length <= 5)
    {
      hide Hex, ChunkBytes, Chunked, Sent;
      ghost var out, clean := write.transport.outgoing, write.transport.reliable && write.Flushed();
      n := 0;
      NothingSent(out, chunks);
      for i := 0 to |chunks|
        invariant write.Valid() && n == i
        invariant clean ==>
          && write.Flushed() && write.transport.outgoing == out + Sent(chunks[..i])
          && forall j :: 0 <= j < i ==> Announced(chunks[j], write.buf.Length)
      {
        err := WriteChunk(chunks[i]);
        if err != 0 {
          return;
        }
        SentNext(out, chunks, i);
        n := i + 1;
      }
      err := WriteChunks();
      AllSent(out, chunks);
    }
  }

  /** The size line of the chunk fits the writer's buffer with its NUL. */
  predicate Announced(chunk: seq<byte>, size: nat) {
    |Hex(|chunk|)| + 2 < size
  }

  predicate Writable(chunks: seq<seq<byte>>, size: nat) {
    size > 5 && forall i :: 0 <= i < |chunks| ==> Announced(chunks[i], size)
  }

  lemma NothingSent(out: seq<byte>, chunks: seq<seq<byte>>)
    ensures out + Sent(chunks[..0]) == out
  {
  }

  lemma SentNext(out: seq<byte>, chunks: seq<seq<byte>>, i: nat)
    requires i < |chunks|
    ensures out + Sent(chunks[..i + 1]) == out + Sent(chunks[..i]) + ChunkBytes(chunks[i])
  {
    hide ChunkBytes;
    SentOneByOne(chunks[..i], chunks[i]);
    assert chunks[..i + 1] == chunks[..i] + [chunks[i]];
  }

  lemma AllSent(out: seq<byte>, chunks: seq<seq<byte>>)
    ensures out + Sent(chunks[..|chunks|]) + Chunked([]) == out + Chunked(chunks)
  {
    hide Sent, Chunked;
    assert chunks[..|chunks|] == chunks;
    SentAndEnded(chunks);
    assert out + Sent(chunks) + Chunked([]) == out + (Sent(chunks) + Chunked([]));
  }

  /** What a peer gets when a whole body is written through a buffer of `size` bytes. */
  method WriteBody(chunks: seq<seq<byte>>, size: nat) returns (err: int, bytes: seq<byte>)
    ensures err == 0 <==> Writable(chunks, size)
    ensures err == 0 ==> bytes == Chunked(chunks)
  {
    hide Hex, Chunked, Sent, Writable;
    var transport := new Transport([], true);
    var write := new Stream(size, transport);
    var http := new Http(write, write);
    ghost var n;
    err, n := http.WriteAll(chunks);
    assert [] + Chunked(chunks) == Chunked(chunks);
    bytes := transport.outgoing;
  }

  /** What a file gets when a peer's bytes are read as a chunked body through a buffer of `size` bytes, and what is
      left of the bytes. */
  method ReadBody(bytes: seq<byte>, size: nat) returns (err: int, got: seq<byte>, left: seq<byte>)
    ensures size > 0 ==> err == Dechunk(bytes, size, 0).err && got == Dechunk(bytes, size, 0).out
    ensures err == 0 ==> Dechunk(bytes, size, 0) == Outcome(0, got, left)
  {
    hide Dechunk;
    var transport := new Transport(bytes, true);
    var read := new Stream(size, transport);
    var http := new Http(read, read);
    var fd := new File(true, false);
    assert read.Queue() == bytes;
    ghost var body;
    err, body := http.ReadChunkedFile(fd);
    got := fd.written;
    read.QueueIs();
    left := read.buf[read.offset..read.length] + transport.incoming;
  }

  /** A body is written chunk by chunk, `rest` follows it, and it is read into a file, all in whatever pieces the
      transports and the file like. If it can be written, the file gets the chunks and `rest` is left, if and only
      if no chunk is empty and the reader's buffer holds every size line. */
  method Transfer(chunks: seq<seq<byte>>, rest: seq<byte>, writeSize: nat, readSize: nat)
    returns (written: bool, err: int, got: seq<byte>, left: seq<byte>)
    requires forall c :: c in chunks ==> |c| <= SIZE_MAX
    ensures written <==> Writable(chunks, writeSize)
    ensures written ==>
      (err == 0 && got == Concat(chunks) && left == rest
       <==> readSize >= 3 && forall c :: c in chunks ==> Fits(c, readSize))
  {
    hide Chunked, Dechunk, Concat, Fits, Writable;
    var bytes;
    err, bytes := WriteBody(chunks, writeSize);
    written, got, left := err == 0, [], [];
    if written {
      err, got, left := ReadBody(bytes + rest, readSize);
      ChunkedRoundTripIff(chunks, rest, readSize);
    }
  }

  /** The body "abc" in one chunk. */
  const ABC: seq<byte> := [51, 13, 10, 97, 98, 99, 13, 10, 48, 13, 10, 13, 10]

  lemma AbcIsChunked()
    ensures ABC == Hex(3) + CRLF + ([97, 98, 99] + CRLF + Chunked([])) == Chunked([[97, 98, 99]])
  {
    ghost var chunk: seq<byte> := [97, 98, 99];
    assert Hex(3) == [51] && Hex(0) == [48];
    assert Chunked([]) == [48, 13, 10, 13, 10];
    assert [chunk][1..] == [];
  }

  /** It decodes to its one chunk, which fits the buffer whole. */
  lemma AbcIsReadWhole(size: nat)
    requires size >= 3
    ensures Dechunk(ABC, size, 0) == Outcome(0, [97, 98, 99], [])
    ensures ChunkLeft(ABC, size, 0) == 3 == Min(3, Min(size, |ChunkQueue(ABC, size, 0)|))
  {
    hide Dechunk, Chunked, TakeLine, ScanHex;
    ghost var chunk: seq<byte> := [97, 98, 99];
    AbcIsChunked();
    HeaderIsRead(3, chunk + CRLF + Chunked([]), size);
    assert Hex(3) == [51];
    ChunkedRoundTripIff([chunk], [], size);
    assert ABC + [] == ABC;
    assert Concat([chunk]) == chunk by {
      assert [chunk][1..] == [];
      assert chunk + [] == chunk;
    }
  }

  /** http_read_chunked() for the first time, on a fresh stream: a body that has anything in it delivers a piece,
      and exactly a piece that leaves more of its chunk behind is what it should be. */
  method FirstPiece(body: seq<byte>, size: nat) returns (err: int, delivered: seq<byte>)
    requires size > 0
    ensures Dechunk(body, size, 0).err == 0 && Dechunk(body, size, 0).out != [] ==> err == 0
    ensures err == 0 ==>
      var left, q := ChunkLeft(body, size, 0), ChunkQueue(body, size, 0);
      var room := Min(size, |q|);
      && |delivered| == Min(left, room) > 0
      && (if left > room then delivered == q[..room] else delivered[0] == 0)
  {
    hide Dechunk, Trailer, ChunkLeft, ChunkQueue;
    var transport := new Transport(body, true);
    var read := new Stream(size, transport);
    var write := new Stream(size, transport);
    var http := new Http(read, write);
    assert read.Queue() == body;
    ghost var piece;
    var n;
    err, n, piece := http.ReadChunked();
    delivered := if err == 0 then read.buf[..n] else [];
  }

  /** A concrete case: through a buffer that holds its size line, three bytes of this body are delivered that
      are not "abc". */
  method HarmedPiece(size: nat) returns (delivered: seq<byte>)
    requires size >= 3
    ensures Dechunk(ABC, size, 0) == Outcome(0, [97, 98, 99], [])
    ensures |delivered| == 3 && delivered != [97, 98, 99]
  {
    AbcIsReadWhole(size);
    hide Dechunk, ChunkLeft, ChunkQueue;
    var err;
    err, delivered := FirstPiece(ABC, size);
  }

  /** The line that is missing does not fit the buffer, which is left full. */
  predicate Stuck(s: seq<byte>, size: nat) {
    TakeLine(s, size) == NoLine && |s| >= size
  }

  /** A chunk header was read off the queue `s`, leaving `q`. */
  predicate HeaderRead(s: seq<byte>, size: nat, err: int, was: nat, chunk: nat, q: seq<byte>) {
    match TakeLine(s, size)
    case NoLine => err == 1 && chunk == was && Blanked(s, q)
    case Line(text, rest) =>
      q == rest
      && match ScanHex(text)
         case None => err == -1 && chunk == was
         case Some(n) => err == (if n == 0 then 1 else 0) && chunk == n
  }

  /** The line after a chunk was read off the queue `s`, leaving `q`. */
  predicate FooterRead(s: seq<byte>, size: nat, err: int, q: seq<byte>) {
    match TakeLine(s, size)
    case NoLine => err == 1
    case Line(text, rest) => q == rest && err == if text == [] then 0 else -1
  }

  /** What reading the line at the front of the queue `s` has made of the buffer: the line and what has been read
      after it lie at the front, and the rest is as it was. */
  ghost predicate LeftBehind(s: seq<byte>, was: seq<byte>, buf: seq<byte>, offset: nat, length: nat) {
    && offset == FirstLf(s) + 1 <= length <= |buf| == |was| && length <= |s|
    && buf[..offset] == LineLeft(s[..offset]) && buf[offset..length] == s[offset..length]
    && buf[length..] == was[length..]
  }

  /** `seen` is what the caller finds instead of the piece: the line after the chunk with its line end overwritten,
      then what follows it, as far as `length` bytes of all that have been read; only behind that the piece. */
  ghost predicate Harms(piece: seq<byte>, rest: seq<byte>, length: nat, seen: seq<byte>) {
    var k, m := FirstLf(rest) + 1, Min(|piece|, length);
    && k <= length <= |rest|
    && seen == (LineLeft(rest[..k]) + rest[k..])[..m] + piece[m..]
  }

  lemma LineIsLeftBehind(s: seq<byte>, was: seq<byte>, buf: seq<byte>, offset: nat, length: nat, incoming: seq<byte>)
    requires offset == FirstLf(s) + 1 <= length <= |buf| == |was| && offset <= |s|
    requires TakeLine(s, |buf|).Line? && TakeLine(s, |buf|).rest == buf[offset..length] + incoming
    requires buf[..offset] == LineLeft(s[..offset]) && buf[length..] == was[length..]
    ensures LeftBehind(s, was, buf, offset, length)
  {
    hide LineLeft, FirstLf;
    var n := length - offset;
    assert s[offset..][..n] == buf[offset..length] && s[offset..][..n] == s[offset..length];
  }

  lemma PieceIsHarmed(piece: seq<byte>, rest: seq<byte>, was: seq<byte>, buf: seq<byte>, offset: nat, length: nat)
    requires LeftBehind(rest, was, buf, offset, length) && |piece| <= |was| && was[..|piece|] == piece
    ensures |buf| == |was| && Harms(piece, rest, length, buf[..|piece|])
  {
    hide LineLeft, FirstLf;
    var m := Min(|piece|, length);
    var front := buf[..offset] + rest[offset..];
    forall i | 0 <= i < m
      ensures buf[i] == front[i]
    {
      assert i >= offset ==> buf[i] == buf[offset..length][i - offset] == rest[offset..length][i - offset];
    }
    forall i | m <= i < |piece|
      ensures buf[i] == piece[i]
    {
      assert buf[i] == buf[length..][i - length] == was[length..][i - length] == was[..|piece|][i];
    }
  }

  /** How much is left of the chunk being read, once the header of the next one has been read if need be. */
  function ChunkLeft(s: seq<byte>, size: nat, left: nat): nat {
    if left > 0 || TakeLine(s, size) == NoLine then left
    else
      match ScanHex(TakeLine(s, size).text)
      case None => 0
      case Some(n) => n
  }

  /** The queue behind that header. */
  function ChunkQueue(s: seq<byte>, size: nat, left: nat): seq<byte> {
    if left > 0 || TakeLine(s, size) == NoLine then s else TakeLine(s, size).rest
  }

  lemma ChunkGoesOn(s: seq<byte>, size: nat, left: nat)
    ensures left > 0 ==> ChunkLeft(s, size, left) == left && ChunkQueue(s, size, left) == s
  {
  }

  lemma LineShrinks(s: seq<byte>, size: nat)
    ensures TakeLine(s, size).Line? ==> |TakeLine(s, size).rest| < |s|
  {
  }

  // ----- What each step of reading a chunked body does to what is still to come -----

  lemma AfterHeader(s: seq<byte>, size: nat, err: int, chunk: nat, q: seq<byte>)
    requires HeaderRead(s, size, err, 0, chunk, q)
    ensures err == 0 ==> Dechunk(s, size, 0) == Dechunk(q, size, chunk)
    ensures err < 0 ==> Dechunk(s, size, 0) == Outcome(err, [], [])
    ensures err > 0 ==>
      chunk == 0 && Dechunk(s, size, 0) == if Stuck(s, size) then Outcome(-1, [], []) else Trailer(q, size)
    ensures err == 0 ==> ChunkLeft(s, size, 0) == chunk && ChunkQueue(s, size, 0) == q
  {
    hide ScanHex;
    if TakeLine(s, size) == NoLine {
      FirstLfBlanked(s, q);
    }
  }

  lemma AfterMove(s: seq<byte>, size: nat, left: nat, err: int, n: nat)
    requires left > 0
    requires if err == 0 then 0 < n <= left && n <= |s| else s == [] && n == left
    ensures err == 0 ==>
      Dechunk(s, size, left) ==
      Prepend(s[..n], if n < left then Dechunk(s[n..], size, left - n) else ChunkEnd(s[n..], size))
    ensures err != 0 ==> Dechunk(s, size, left) == Outcome(1, [], []) == ChunkEnd(s, size)
  {
    if err == 0 {
      DechunkPart(s, size, left, n);
    }
  }

  lemma Appended(was: seq<byte>, got: seq<byte>, piece: seq<byte>)
    ensures was + got + piece == was + (got + piece) && was + got + [] == was + got
  {
  }

  lemma PrependTwice(a: seq<byte>, b: seq<byte>, o: Outcome)
    ensures Prepend(a, Prepend(b, o)) == Prepend(a + b, o)
  {
    assert a + (b + o.out) == a + b + o.out;
  }

  lemma PrependNothing(bytes: seq<byte>, o: Outcome)
    ensures Prepend([], o) == o
    ensures o.out == [] ==> Prepend(bytes, o) == o.(out := bytes)
    ensures Prepend(bytes, o).err == o.err
  {
    assert [] + o.out == o.out;
    assert bytes + [] == bytes;
  }

  lemma AfterFooter(s: seq<byte>, size: nat, err: int, q: seq<byte>)
    requires FooterRead(s, size, err, q)
    ensures ChunkEnd(s, size) == if err == 0 then Dechunk(q, size, 0) else Outcome(err, [], [])
  {
    hide Dechunk;
  }

  // ----- The same for what has been delivered so far -----

  /** `got` has been delivered, and decoding the queue `q` gives the rest of the body `o`. */
  predicate InBody(o: Outcome, got: seq<byte>, q: seq<byte>, size: nat, left: nat) {
    o == Prepend(got, Dechunk(q, size, left))
  }

  /** The same, at the end of a chunk. */
  predicate AtChunkEnd(o: Outcome, got: seq<byte>, q: seq<byte>, size: nat) {
    o == Prepend(got, ChunkEnd(q, size))
  }

  lemma BodyStarts(s: seq<byte>, size: nat, left: nat)
    ensures InBody(Dechunk(s, size, left), [], s, size, left)
  {
    hide Dechunk;
    PrependNothing([], Dechunk(s, size, left));
  }

  /** What has been delivered is the front of the body. */
  lemma BodySoFar(o: Outcome, got: seq<byte>, q: seq<byte>, size: nat, left: nat)
    ensures InBody(o, got, q, size, left) ==> got <= o.out
  {
    hide Dechunk;
  }

  lemma AtEndSoFar(o: Outcome, got: seq<byte>, q: seq<byte>, size: nat)
    ensures AtChunkEnd(o, got, q, size) ==> got <= o.out
  {
    hide ChunkEnd;
  }

  lemma BodyHeader(o: Outcome, got: seq<byte>, s: seq<byte>, size: nat, err: int, chunk: nat, q: seq<byte>)
    requires InBody(o, got, s, size, 0) && HeaderRead(s, size, err, 0, chunk, q)
    ensures err == 0 ==> InBody(o, got, q, size, chunk)
    ensures err < 0 ==> o.err == err && o.out == got
    ensures err > 0 ==> chunk == 0 && o.out == got
    ensures err > 0 ==>
      if Stuck(s, size) then o.err == -1 else o.err == Trailer(q, size).err && o.rest == Trailer(q, size).rest
  {
    AfterHeader(s, size, err, chunk, q);
    PrependNothing(got, Dechunk(s, size, 0));
    hide Dechunk, Trailer, HeaderRead, Stuck;
  }

  lemma BodyMove(o: Outcome, got: seq<byte>, s: seq<byte>, size: nat, left: nat, err: int, n: nat)
    requires InBody(o, got, s, size, left) && left > 0
    requires if err == 0 then 0 < n <= left && n <= |s| else s == [] && n == left
    ensures err == 0 && n < left ==> InBody(o, got + s[..n], s[n..], size, left - n)
    ensures err == 0 && n == left ==> AtChunkEnd(o, got + s[..n], s[n..], size)
    ensures err != 0 ==> AtChunkEnd(o, got + [], s, size)
  {
    AfterMove(s, size, left, err, n);
    hide Dechunk, ChunkEnd, Prepend;
    if err == 0 {
      PrependTwice(got, s[..n], if n < left then Dechunk(s[n..], size, left - n) else ChunkEnd(s[n..], size));
    } else {
      assert got + [] == got;
    }
  }

  lemma BodyFooter(o: Outcome, got: seq<byte>, s: seq<byte>, size: nat, err: int, q: seq<byte>)
    requires AtChunkEnd(o, got, s, size) && FooterRead(s, size, err, q)
    ensures err == 0 ==> InBody(o, got, q, size, 0)
    ensures err != 0 ==> o.err == err && o.out == got
  {
    AfterFooter(s, size, err, q);
    PrependNothing(got, ChunkEnd(s, size));
    hide Dechunk, ChunkEnd;
  }
}
