/** The buffered stream of src/common/stream.c over a transport that moves bytes in whatever pieces it
    likes. Whatever the pieces, the stream behaves like a plain queue of bytes. */
module Streams {
  import opened CStrings

  const CR: byte := 13
  const LF: byte := 10

  function Min(a: nat, b: nat): nat {
    if a < b then a else b
  }

  /** struct stream_type with its context: a blocking connection. `incoming` is what the peer is still
      going to deliver before it closes, `outgoing` what it has received. A reliable transport neither
      fails nor times out. */
  class Transport {
    var incoming: seq<byte>
    var outgoing: seq<byte>
    const reliable: bool

    constructor (incoming: seq<byte>, reliable: bool)
      ensures this.incoming == incoming && outgoing == [] && this.reliable == reliable
    {
      this.incoming, outgoing, this.reliable := incoming, [], reliable;
    }

    /** type->read(): delivers any non-empty piece that fits, and leaves the buffer behind it alone; n is 0 at the
        end of the stream, or when there is no room to read into. */
    method Read(buf: array<byte>, at: nat, size: nat) returns (err: int, n: nat)
      requires at + size <= buf.Length
      modifies this`incoming, buf
      ensures buf[..at] == old(buf[..at])
      ensures err == 0 ==>
        0 < n <= size && n <= |old(incoming)|
        && buf[at..at + n] == old(incoming)[..n] && incoming == old(incoming)[n..]
        && buf[at + n..] == old(buf[at + n..])
      ensures err != 0 ==> incoming == old(incoming)
      ensures err > 0 && n == 0 ==> size == 0 || incoming == []
      ensures err < 0 || (err > 0 && n > 0) ==> !reliable
    {
      var failure: bool := *;
      if failure && !reliable {
        err := if size > 0 then 1 else -1;
        return err, size;
      }
      if size == 0 || incoming == [] {
        return 1, 0;
      }
      n :| 0 < n <= size && n <= |incoming|;
      forall i | 0 <= i < n {
        buf[at + i] := incoming[i];
      }
      assert buf[at..at + n] == incoming[..n];
      incoming := incoming[n..];
      return 0, n;
    }

    /** type->write(): takes any non-empty piece from the front. A timeout leaves the size as it was, n is 0
        at the end of the stream. */
    method Write(bytes: seq<byte>) returns (err: int, n: nat)
      requires bytes != []
      modifies this`outgoing
      ensures err == 0 ==> 0 < n <= |bytes| && outgoing == old(outgoing) + bytes[..n]
      ensures err != 0 ==> outgoing == old(outgoing) && !reliable
      ensures err > 0 ==> n == 0 || n == |bytes|
      ensures n <= |bytes|
    {
      var failure: bool, gone: bool := *, *;
      if failure && !reliable {
        err := *;
        err := if err == 0 then 1 else err;
        return err, if err < 0 || gone then 0 else |bytes|;
      }
      n :| 0 < n <= |bytes|;
      outgoing := outgoing + bytes[..n];
      return 0, n;
    }
  }

  /** A local file descriptor that is written to. A reliable one never fails; any other may, and may write nothing
      without failing only if it is `stalling`. */
  class File {
    var written: seq<byte>
    const reliable: bool
    const stalling: bool

    constructor (reliable: bool, stalling: bool)
      ensures written == [] && this.reliable == reliable && this.stalling == stalling
    {
      written, this.reliable, this.stalling := [], reliable, stalling;
    }

    /** write(2): may be partial. */
    method Write(bytes: seq<byte>) returns (ret: int)
      requires bytes != []
      modifies this
      ensures ret > 0 ==> ret <= |bytes| && written == old(written) + bytes[..ret]
      ensures ret <= 0 ==> written == old(written) && !reliable
      ensures ret == 0 ==> stalling
    {
      var failure: bool := *;
      if failure && !reliable {
        ret := *;
        return if ret < 0 || (ret == 0 && stalling) then ret else -1;
      }
      ret :| 0 < ret <= |bytes|;
      written := written + bytes[..ret];
    }
  }

  // ----- Lines -----

  /** The first LF, or the length if there is none. */
  function FirstLf(s: seq<byte>): (k: nat)
    ensures k <= |s| && (k < |s| ==> s[k] == LF)
    ensures forall i :: 0 <= i < k ==> s[i] != LF
  {
    if s == [] || s[0] == LF then 0 else 1 + FirstLf(s[1..])
  }

  lemma {:induction false} FirstLfAt(s: seq<byte>, k: nat)
    requires k < |s| && s[k] == LF && forall i :: 0 <= i < k ==> s[i] != LF
    ensures FirstLf(s) == k
  {
    if k > 0 {
      FirstLfAt(s[1..], k - 1);
    }
  }

  /** A line as the caller sees it: up to the first CR or NUL. */
  function Strip(s: seq<byte>): seq<byte> {
    if s == [] || s[0] == 0 || s[0] == CR then [] else [s[0]] + Strip(s[1..])
  }

  /** What scanning for the end of a line does to the bytes it passes. */
  function Blank(b: byte): byte {
    if b == CR then 0 else b
  }

  /** `t` is `s` with some of its CRs overwritten by NULs. */
  predicate Blanked(s: seq<byte>, t: seq<byte>) {
    |s| == |t| && forall i :: 0 <= i < |s| ==> t[i] == s[i] || t[i] == Blank(s[i])
  }

  lemma {:induction false} StripBlank(s: seq<byte>, t: seq<byte>)
    requires |t| == |s| + 1 && t[|s|] == 0 && forall i :: 0 <= i < |s| ==> t[i] == Blank(s[i])
    ensures CString(t) == Strip(s)
  {
    if s != [] && t[0] != 0 {
      StripBlank(s[1..], t[1..]);
    }
  }

  datatype Line = NoLine | Line(text: seq<byte>, rest: seq<byte>)

  /** A line can be taken from the queue if its LF is among the first `size` bytes. */
  function TakeLine(s: seq<byte>, size: nat): Line {
    var k := FirstLf(s);
    if k < |s| && k < size then Line.Line(Strip(s[..k]), s[k + 1..]) else NoLine
  }

  // ----- The stream -----

  class Stream {
    const buf: array<byte>
    const transport: Transport
    var offset: nat
    var length: nat

    /** stream_create() */
    constructor (size: nat, transport: Transport)
      ensures Valid() && buf.Length == size && this.transport == transport && fresh(buf)
      ensures Buffered() == [] && Flushed() && (size > 0 ==> CanClear())
    {
      buf := new byte[size];
      this.transport := transport;
      offset, length := 0, 0;
    }

    ghost predicate Valid()
      reads this
    {
      offset <= length <= buf.Length
    }

    ghost function Buffered(): seq<byte>
      requires Valid()
      reads this, buf
    {
      buf[offset..length]
    }

    /** Everything that can still be read. */
    ghost function Queue(): seq<byte>
      requires Valid()
      reads this, buf, transport
    {
      Buffered() + transport.incoming
    }

    lemma QueueIs()
      requires Valid()
      ensures Queue() == buf[offset..length] + transport.incoming
    {
    }

    /** There is room to read into, or consumed bytes to drop. */
    predicate CanClear()
      reads this
    {
      offset > 0 || length < buf.Length
    }

    /** _stream_clear(): drop consumed bytes by moving the rest to the front. */
    method Clear() returns (err: int)
      requires Valid()
      modifies this, buf
      ensures Valid() && Buffered() == old(Buffered())
      ensures err == if old(CanClear()) then 0 else -1
      ensures err == 0 ==> offset == 0 && buf[length..] == old(buf[..])[length..]
    {
      if !(offset > 0 || length < buf.Length) {
        return -1;
      }
      forall i | 0 <= i < length - offset {
        buf[i] := buf[offset + i];
      }
      assert buf[..length - offset] == old(buf[offset..length]);
      length := length - offset;
      offset := 0;
      return 0;
    }

    /** _stream_read(): one piece from the transport. A full buffer looks like the end of the stream. */
    method Fill() returns (err: int)
      requires Valid()
      modifies this`length, buf, transport`incoming
      ensures Valid() && Queue() == old(Queue()) && length >= old(length)
      ensures buf[..old(length)] == old(buf[..length])
      ensures err == 0 ==> length > old(length) && buf[length..] == old(buf[..])[length..]
      ensures err != 0 ==> length == old(length)
      ensures err > 0 ==> length == buf.Length || transport.incoming == []
      ensures err < 0 ==> !transport.reliable
      ensures err == 0 || err == 1 || err < 0
    {
      var e, size := transport.Read(buf, length, buf.Length - length);
      if e < 0 {
        assert buf[offset..length] == old(buf[..length])[offset..];
        return e;
      }
      if size == 0 {
        assert buf[offset..length] == old(buf[..length])[offset..];
        return 1;
      }
      if e != 0 {
        assert buf[offset..length] == old(buf[..length])[offset..];
        return -1;
      }
      ghost var piece := old(transport.incoming)[..size];
      assert buf[offset..length + size] == old(buf[offset..length]) + piece;
      assert old(transport.incoming) == piece + transport.incoming;
      assert old(buf[offset..length]) + (piece + transport.incoming) == buf[offset..length + size] + transport.incoming;
      assert buf[length + size..] == old(buf[..])[length + size..];
      length := length + size;
      return 0;
    }

    /** The loop of stream_read(): until `want` bytes are there, or the end of the stream. */
    method FillTo(want: nat) returns (err: int)
      requires Valid() && offset == 0
      modifies this`length, buf, transport`incoming
      ensures Valid() && Queue() == old(Queue())
      ensures err == 0 || err < 0
      ensures err == 0 && length < want ==> length == buf.Length || transport.incoming == []
      ensures want == 0 ==> err == 0 && length == old(length)
      ensures err < 0 ==> !transport.reliable
    {
      err := 0;
      ghost var q := Queue();
      while length < want
        invariant Valid() && Queue() == q
        invariant want == 0 ==> length == old(length)
        decreases buf.Length - length
      {
        err := Fill();
        if err < 0 {
          return;
        }
        if err != 0 {
          return 0;
        }
      }
    }

    /** Moving the offset takes bytes off the front of the queue. */
    method Consume(n: nat)
      requires Valid() && n <= |Buffered()|
      modifies this`offset
      ensures Valid() && offset == old(offset) + n
      ensures n <= |old(Queue())| && Queue() == old(Queue())[n..] && buf[old(offset)..offset] == old(Queue())[..n]
      ensures Buffered() == old(Buffered())[n..]
    {
      ghost var b := Buffered();
      assert b == buf[offset..offset + n] + buf[offset + n..length];
      offset := offset + n;
      assert Buffered() == b[n..];
    }

    /** stream_read(): the data is buf[start..start + n]. */
    method Read(want: nat) returns (err: int, start: nat, n: nat)
      requires Valid()
      modifies this, buf, transport`incoming
      ensures Valid()
      ensures err == 0 ==>
        && start == 0 < n <= buf.Length && n <= |old(Queue())|
        && buf[start..start + n] == old(Queue())[..n] && Queue() == old(Queue())[n..]
        && CanClear()
        && n == (if want > 0 then Min(Min(want, buf.Length), |old(Queue())|) else |old(Buffered())|)
        && (want == 0 ==> Buffered() == [])
      ensures err != 0 ==> Queue() == old(Queue())
      ensures err > 0 ==> err == 1 && offset == length == 0 < buf.Length
      ensures err > 0 ==> if want > 0 then old(Queue()) == [] else old(Buffered()) == []
      ensures err < 0 ==> !old(CanClear()) || !transport.reliable
      ensures !old(CanClear()) ==> err < 0
    {
      start, n := 0, want;
      err := Clear();
      if err != 0 {
        return;
      }
      err := FillTo(want);
      if err < 0 {
        return;
      }
      start := offset;
      if want != 0 && offset + want < length {
        n := want;
      } else if length > offset {
        n := length - offset;
      } else {
        return 1, start, 0;
      }
      Consume(n);
      return 0, start, n;
    }

    /** The scan of stream_read_line(): overwrites CRs as it goes, and the LF if it finds one. The first
        `scanned` bytes have been looked at before. Returns the position of the LF, or `length`. */
    method Scan(ghost q: seq<byte>, ghost scanned: nat) returns (c: nat)
      requires Valid() && offset == 0 && Passed(q, buf[..length], scanned)
      modifies buf
      ensures c <= length
      ensures c == length ==> Passed(q, buf[..length], length)
      ensures c < length ==> Found(q, buf[..length], c)
      ensures buf[length..] == old(buf[length..])
    {
      c := 0;
      while c < length
        invariant c <= length
        invariant forall i :: 0 <= i < c ==> buf[i] == Blank(q[i]) && q[i] != LF
        invariant forall i :: c <= i < scanned ==> buf[i] == Blank(q[i]) && q[i] != LF
        invariant forall i :: c <= i < length && scanned <= i ==> buf[i] == q[i]
        invariant buf[length..] == old(buf[length..])
      {
        if buf[c] == CR {
          buf[c] := 0;
        } else if buf[c] == LF {
          assert q[c] == LF;
          buf[c] := 0;
          return;
        }
        c := c + 1;
      }
    }

    /** What stream_read_line() reads when it has found no LF. */
    method FillLine(ghost q: seq<byte>, ghost was: seq<byte>) returns (err: int)
      requires Valid() && offset == 0 && length <= |q| && Behind(was, buf[..], length)
      requires Passed(q, buf[..length], length) && transport.incoming == q[length..]
      modifies this`length, buf, transport`incoming
      ensures Valid() && (err == 0 || err == 1 || err < 0)
      ensures err == 0 ==>
        && old(length) < length <= |q| && Behind(was, buf[..], length)
        && Passed(q, buf[..length], old(length)) && transport.incoming == q[length..]
      ensures err != 0 ==> Blanked(q, Queue())
      ensures err > 0 ==>
        && TakeLine(q, buf.Length) == NoLine && (CanClear() <==> |q| < buf.Length)
        && Queue() == BlankedPart(q, Min(|q|, buf.Length))
      ensures err < 0 ==> !transport.reliable
    {
      hide TakeLine, Passed, BlankedPart, Blanked, Behind;
      ghost var s, n := buf[..], length;
      assert Buffered() == s[..n];
      err := Fill();
      FilledQueue(q, s, buf[..], transport.incoming, n, length);
      if err != 0 {
        NotFound(q, s[..n], buf.Length);
        return;
      }
      BehindKept(was, s, buf[..], n, length);
    }

    /** stream_read_line(): the line is the C string at buf[line]. What it was read from stays at the front of the
        buffer, and what lay behind the bytes read so far stays where it was. */
    method ReadLine() returns (err: int, line: nat)
      requires Valid()
      modifies this, buf, transport`incoming
      ensures Valid() && (err == 0 || err == 1 || err < 0)
      ensures err == 0 ==>
        && line == 0 < buf.Length
        && TakeLine(old(Queue()), buf.Length) == Line.Line(CString(buf[line..]), Queue())
        && CanClear()
        && offset == FirstLf(old(Queue())) + 1 <= |old(Queue())|
        && buf[..offset] == LineLeft(old(Queue())[..offset]) && buf[length..] == old(buf[..])[length..]
      ensures err != 0 ==> Blanked(old(Queue()), Queue())
      ensures err > 0 ==>
        && TakeLine(old(Queue()), buf.Length) == NoLine
        && (CanClear() <==> |old(Queue())| < buf.Length)
        && Queue() == BlankedPart(old(Queue()), Min(|old(Queue())|, buf.Length))
      ensures err < 0 ==> !old(CanClear()) || !transport.reliable
      ensures !old(CanClear()) ==> err == -1 && !CanClear()
    {
      hide TakeLine, CString, Passed, Found, BlankedPart, Blanked, LineLeft, FirstLf, Behind;
      line := 0;
      err := Clear();
      if err != 0 {
        BlankedSame(Queue());
        return;
      }
      ghost var q, was := Queue(), old(buf[..]);
      ghost var scanned: nat := 0;
      assert q == old(Queue());
      assert buf[..length] == Buffered();
      NothingPassed(q, buf[..length], transport.incoming);
      BehindSame(was, buf[..], length);
      while true
        invariant Valid() && offset == 0 && scanned <= length <= |q|
        invariant Passed(q, buf[..length], scanned) && transport.incoming == q[length..]
        invariant Behind(was, buf[..], length)
        decreases buf.Length - length
      {
        ghost var s := buf[..];
        var c := Scan(q, scanned);
        BehindKept(was, s, buf[..], length, length);
        s := buf[..];
        if c < length {
          LineInBuffer(q, s[..length], s, c, length);
          BehindIs(was, s, length);
          line := offset;
          assert buf[line..] == s;
          offset := c + 1;
          return 0, line;
        }
        scanned := length;
        err := FillLine(q, was);
        if err != 0 {
          return;
        }
      }
    }

    /** The part of stream_read_file() that gets something to write. */
    method Refill() returns (err: int)
      requires Valid() && offset == length
      modifies this, buf, transport`incoming
      ensures Valid() && Queue() == old(Queue())
      ensures err == 0 ==> offset < length
      ensures err > 0 ==> err == 1 && Queue() == [] && offset == length == 0 < buf.Length
      ensures err < 0 ==> buf.Length == 0 || !transport.reliable
    {
      err := Clear();
      if err != 0 {
        return;
      }
      err := Fill();
    }

    /** The part that writes it. */
    method WriteOut(fd: File, size: nat) returns (err: int, n: nat)
      requires Valid() && 0 < size <= length - offset
      modifies `offset, fd
      ensures Valid()
      ensures err == 0 ==>
        && 0 < n <= size && n <= |old(Queue())| && offset > 0
        && fd.written == old(fd.written) + old(Queue())[..n] && Queue() == old(Queue())[n..]
      ensures err != 0 ==> fd.written == old(fd.written) && Queue() == old(Queue()) && !fd.reliable
      ensures err > 0 ==> err == 1 && fd.stalling
    {
      n := 0;
      ghost var q, front := Queue(), buf[offset..offset + size];
      FrontOfBuffer(buf[..], offset, length, size, transport.incoming);
      hide Buffered, Queue;
      var ret := fd.Write(buf[offset..offset + size]);
      if ret < 0 {
        return -1, n;
      }
      if ret == 0 {
        return 1, n;
      }
      assert front[..ret] == q[..ret];
      Consume(ret);
      return 0, ret;
    }

    /** stream_read_file(): moves one piece of the queue into a file; n is the number of bytes moved. */
    method ReadFile(fd: File, want: nat) returns (err: int, n: nat)
      requires Valid()
      modifies this, buf, transport`incoming, fd
      ensures Valid()
      ensures err == 0 ==>
        && 0 < n <= |old(Queue())| && n <= buf.Length && (want > 0 ==> n <= want)
        && fd.written == old(fd.written) + old(Queue())[..n] && Queue() == old(Queue())[n..]
        && CanClear()
      ensures err != 0 ==> n == want && fd.written == old(fd.written) && Queue() == old(Queue())
      ensures err > 0 ==>
        err == 1 && (fd.reliable || !fd.stalling ==> old(Queue()) == [] && offset == length == 0 < buf.Length)
      ensures err < 0 ==> buf.Length == 0 || !transport.reliable || !fd.reliable
    {
      n := want;
      if offset == length {
        err := Refill();
        if err != 0 {
          return;
        }
      }
      err, n := WriteOut(fd, if want > 0 && want < length - offset then want else length - offset);
      if err != 0 {
        n := want;
      }
    }

    // ----- Writing -----

    /** Nothing is waiting to be sent. */
    predicate Flushed()
      reads this
    {
      offset == length == 0
    }

    /** _stream_write(): sends one piece. `e` and `size` are what type->write() returned. The error code is a
        truth value, so that an error comes back as 1, and a timeout, which leaves the size as it was, counts
        as sent: exactly then what was buffered is lost. */
    method SendSome() returns (err: int, ghost e: int, ghost size: nat)
      requires Valid()
      modifies this`offset, transport`outgoing
      ensures Valid()
      ensures old(Buffered()) == [] ==>
        err == 0 && e == 0 && offset == old(offset) && transport.outgoing == old(transport.outgoing)
      ensures old(Buffered()) != [] ==>
        && size <= |old(Buffered())| && (e == 0 ==> size > 0)
        && err == (if e < 0 || size == 0 then 1 else 0)
        && offset == old(offset) + (if err == 0 then size else 0)
        && transport.outgoing == old(transport.outgoing) + (if e == 0 then old(Buffered())[..size] else [])
        && (e != 0 ==> !transport.reliable && (e > 0 ==> size == 0 || size == |old(Buffered())|))
        && (Conserved(old(transport.outgoing), old(Buffered()), transport.outgoing, Buffered())
            <==> !(e > 0 && size > 0))
    {
      e, size := 0, 0;
      if length - offset == 0 {
        return 0, e, size;
      }
      ghost var out, b := transport.outgoing, Buffered();
      var result, n := transport.Write(buf[offset..length]);
      e, size := result, n;
      SomeSent(out, b, e, size);
      err := if result < 0 then 1 else 0;
      if err != 0 {
        return;
      }
      if n == 0 {
        return 1, e, size;
      }
      offset := offset + n;
      assert Buffered() == b[size..];
      return 0, e, size;
    }

    /** stream_flush(): sends a front of what is buffered, all of it over a reliable transport. What is not sent on
        success was lost to a timeout; after an error it is still buffered. */
    method Flush() returns (err: int, ghost sent: nat)
      requires Valid()
      modifies this, buf, transport`outgoing
      ensures Valid()
      ensures sent <= |old(Buffered())| && transport.outgoing == old(transport.outgoing) + old(Buffered())[..sent]
      ensures err == 0 ==> Flushed() && (transport.reliable ==> sent == |old(Buffered())|)
      ensures err != 0 ==> Buffered() == old(Buffered())[sent..] && (!transport.reliable || buf.Length == 0)
    {
      hide Flushing, Conserved;
      err, sent := 0, 0;
      ghost var b, out := Buffered(), transport.outgoing;
      NothingFlushed(out, b);
      while length - offset > 0
        invariant Valid() && Flushing(out, b, sent, transport.outgoing, Buffered(), transport.reliable)
        invariant err == 0
        decreases length - offset
      {
        ghost var was, left := transport.outgoing, Buffered();
        ghost var e, size;
        err, e, size := SendSome();
        ghost var more, taken := if e == 0 then size else 0, if err == 0 then size else 0;
        assert Buffered() == left[taken..];
        assert transport.outgoing == was + left[..more];
        FlushedSome(out, b, sent, was, left, more, taken, transport.reliable);
        sent := sent + more;
        if err != 0 {
          FlushedUpTo(out, b, sent, transport.outgoing, Buffered(), transport.reliable);
          return;
        }
      }
      FlushedUpTo(out, b, sent, transport.outgoing, Buffered(), transport.reliable);
      assert Buffered() == [];
      err := Clear();
    }

    /** _stream_write_direct(): sends `bytes`, past the buffer. Whatever happens, what was sent is a prefix. */
    method WriteDirect(bytes: seq<byte>) returns (err: int, ghost sent: nat)
      modifies transport`outgoing
      ensures sent <= |bytes| && transport.outgoing == old(transport.outgoing) + bytes[..sent]
      ensures err == 0 ==> sent == |bytes|
      ensures err != 0 ==> !transport.reliable
    {
      var at := 0;
      sent := 0;
      assert bytes[..0] == [];
      while at < |bytes|
        invariant at <= |bytes| && sent == at
        invariant transport.outgoing == old(transport.outgoing) + bytes[..at]
      {
        var len;
        err, len := transport.Write(bytes[at..]);
        if err < 0 {
          return;
        }
        if len == 0 {
          return 1, sent;
        }
        if err != 0 {
          return -1, sent;
        }
        assert bytes[..at] + bytes[at..][..len] == bytes[..at + len];
        at := at + len;
        sent := at;
      }
      return 0, sent;
    }

    /** stream_write(): a front of what was buffered goes out before a front of the new bytes, and on success all of
        the new ones. Over a reliable transport everything goes out. */
    method Write(bytes: seq<byte>) returns (err: int, ghost flushed: nat, ghost sent: nat)
      requires Valid()
      modifies this, buf, transport`outgoing
      ensures Valid()
      ensures flushed <= |old(Buffered())| && sent <= |bytes|
      ensures transport.outgoing == old(transport.outgoing) + old(Buffered())[..flushed] + bytes[..sent]
      ensures err == 0 ==> Flushed() && sent == |bytes|
      ensures transport.reliable && buf.Length > 0 ==>
        err == 0 && transport.outgoing == old(transport.outgoing + Buffered()) + bytes
    {
      err, flushed := Flush();
      sent := 0;
      if err != 0 {
        assert transport.outgoing + bytes[..0] == transport.outgoing;
        return;
      }
      ghost var b := old(Buffered());
      assert b[..|b|] == b && bytes[..|bytes|] == bytes;
      err, sent := WriteDirect(bytes);
    }

    /** stream_vprintf(), with the text that the format and arguments produce: it is sent whole, or not at all
        if it does not fit the room left in the buffer with a terminating NUL. */
    method Printf(text: seq<byte>) returns (err: int)
      requires Valid()
      modifies this, buf, transport`outgoing
      ensures Valid()
      ensures |text| >= buf.Length - old(length) ==>
        err == 1 && offset == old(offset) && length == old(length)
        && Buffered() == old(Buffered()) && transport.outgoing == old(transport.outgoing)
      ensures |text| < buf.Length - old(length) && transport.reliable ==>
        err == 0 && transport.outgoing == old(transport.outgoing + Buffered()) + text
      ensures err == 0 ==> Flushed()
    {
      var room := buf.Length - length;
      if room > 0 {
        var n := Min(|text|, room - 1);
        forall i | 0 <= i < n {
          buf[length + i] := text[i];
        }
        buf[length + n] := 0;
      }
      ghost var b, out := old(Buffered()), transport.outgoing;
      assert Buffered() == b;
      if |text| >= room {
        return 1;
      }
      PrintedBehind(b, text, buf[..], offset, length, out);
      length := length + |text|;
      assert Buffered() == b + text;
      hide Buffered;
      ghost var sent;
      err, sent := Flush();
    }
  }

  // ----- Sending and moving pieces -----

  /** Nothing is lost when `out` and then `b` become `out'` and then `b'`. */
  ghost predicate Conserved(out: seq<byte>, b: seq<byte>, out': seq<byte>, b': seq<byte>) {
    out' + b' == out + b
  }

  /** Marking `size` of the bytes `b` as sent conserves them unless none were. */
  lemma SomeSent(out: seq<byte>, b: seq<byte>, e: int, size: nat)
    requires size <= |b|
    ensures out + [] == out && out + b[..size] + b[size..] == out + b
    ensures size > 0 ==> out + b[size..] != out + b
  {
    assert b[..size] + b[size..] == b;
  }

  lemma PrintedBehind(b: seq<byte>, text: seq<byte>, buf: seq<byte>, offset: nat, length: nat, out: seq<byte>)
    requires offset <= length && length + |text| <= |buf|
    requires buf[offset..length] == b && buf[length..length + |text|] == text
    ensures buf[offset..length + |text|] == b + text && out + (b + text)[..|b + text|] == out + b + text
  {
    assert (b + text)[..|b + text|] == b + text;
  }

  /** A front of the bytes `b` has gone out after `out`, and the others are left, or have been lost at a timeout. */
  ghost predicate Flushing(out: seq<byte>, b: seq<byte>, sent: nat, outgoing: seq<byte>, left: seq<byte>,
                           reliable: bool)
  {
    && sent <= |b| && outgoing == out + b[..sent]
    && (left == b[sent..] || (left == [] && !reliable))
  }

  lemma NothingFlushed(out: seq<byte>, b: seq<byte>)
    ensures forall reliable :: Flushing(out, b, 0, out, b, reliable)
  {
    assert out + b[..0] == out && b[0..] == b;
  }

  /** One more turn of stream_flush(): `more` bytes went out, and `taken` were taken off the buffer. */
  lemma FlushedSome(out: seq<byte>, b: seq<byte>, sent: nat, outgoing: seq<byte>, left: seq<byte>, more: nat,
                    taken: nat, reliable: bool)
    requires Flushing(out, b, sent, outgoing, left, reliable) && more <= taken <= |left| && left != []
    requires more == taken || (!reliable && more == 0 && taken == |left|)
    ensures Flushing(out, b, sent + more, outgoing + left[..more], left[taken..], reliable)
  {
    assert left[..0] == [] && outgoing + [] == outgoing && left[|left|..] == [];
    if left == b[sent..] && more == taken {
      assert out + b[..sent] + left[..more] == out + b[..sent + more] && left[more..] == b[sent + more..];
    }
  }

  lemma FlushedUpTo(out: seq<byte>, b: seq<byte>, sent: nat, outgoing: seq<byte>, left: seq<byte>, reliable: bool)
    requires Flushing(out, b, sent, outgoing, left, reliable)
    ensures sent <= |b| && outgoing == out + b[..sent]
    ensures left != [] ==> left == b[sent..]
    ensures left == [] && reliable ==> sent == |b|
  {
  }

  /** Whatever part of the buffered bytes is written is the front of the queue. */
  lemma FrontOfBuffer(buf: seq<byte>, offset: nat, length: nat, size: nat, more: seq<byte>)
    requires offset + size <= length <= |buf|
    ensures forall n :: 0 <= n <= size ==> buf[offset..offset + size][..n] == (buf[offset..length] + more)[..n]
  {
  }

  // ----- Searching for a line -----

  /** `b` is the buffered front of `q`; its first `n` bytes have been passed without finding an LF. */
  predicate Passed(q: seq<byte>, b: seq<byte>, n: nat) {
    && n <= |b| <= |q|
    && (forall i :: 0 <= i < n ==> b[i] == Blank(q[i]) && q[i] != LF)
    && (forall i :: n <= i < |b| ==> b[i] == q[i])
  }

  /** The first LF of `q` is at `k`; everything before it has been passed, and it has been overwritten. */
  predicate Found(q: seq<byte>, b: seq<byte>, k: nat) {
    && k < |b| <= |q|
    && (forall i :: 0 <= i < k ==> b[i] == Blank(q[i]) && q[i] != LF)
    && q[k] == LF && b[k] == 0
    && (forall i :: k < i < |b| ==> b[i] == q[i])
  }

  /** The queue after an unsuccessful search for a line: its first `n` bytes have been passed. */
  function BlankedPart(s: seq<byte>, n: nat): seq<byte>
    requires n <= |s|
  {
    seq(|s|, i requires 0 <= i < |s| => if i < n then Blank(s[i]) else s[i])
  }

  lemma BlankedSame(s: seq<byte>)
    ensures Blanked(s, s)
  {
  }

  lemma NothingPassed(q: seq<byte>, b: seq<byte>, incoming: seq<byte>)
    requires q == b + incoming
    ensures Passed(q, b, 0) && |b| <= |q| && incoming == q[|b|..]
  {
  }

  lemma FoundLine(q: seq<byte>, b: seq<byte>, k: nat, size: nat)
    requires Found(q, b, k) && |b| <= size
    ensures k < |b| <= |q| && TakeLine(q, size) == Line.Line(CString(b[..k + 1]), b[k + 1..] + q[|b|..])
  {
    FirstLfAt(q, k);
    assert forall i :: 0 <= i < k ==> q[..k][i] == q[i] && b[..k + 1][i] == b[i];
    StripBlank(q[..k], b[..k + 1]);
    forall i | k < i < |q|
      ensures q[i] == (b[k + 1..] + q[|b|..])[i - (k + 1)]
    {
    }
    assert q[k + 1..] == b[k + 1..] + q[|b|..];
  }

  /** A line that was read, as it is left in the buffer: its CRs and its LF have been overwritten. */
  function LineLeft(s: seq<byte>): seq<byte> {
    seq(|s|, i requires 0 <= i < |s| => if s[i] == CR || s[i] == LF then 0 else s[i])
  }

  /** The line at the front of the buffer `s`, of which the first `length` bytes are filled. */
  lemma LineInBuffer(q: seq<byte>, b: seq<byte>, s: seq<byte>, k: nat, length: nat)
    requires length <= |s| && b == s[..length] && Found(q, b, k)
    ensures k < length <= |q| && TakeLine(q, |s|) == Line.Line(CString(s), s[k + 1..length] + q[length..])
    ensures FirstLf(q) == k && s[..k + 1] == LineLeft(q[..k + 1])
  {
    FoundLine(q, b, k, |s|);
    SameLine(q, b, s, k);
    FirstLfAt(q, k);
    assert b[k + 1..] == s[k + 1..length];
    assert forall i :: 0 <= i <= k ==> s[i] == b[i];
  }

  lemma {:induction false} SameLine(q: seq<byte>, b: seq<byte>, s: seq<byte>, k: nat)
    requires Found(q, b, k) && k < |s| && s[..k + 1] == b[..k + 1]
    ensures CString(b[..k + 1]) == CString(s)
  {
    CStringPrefix(s, k);
    CStringPrefix(s[..k + 1], k);
    assert s[..k + 1][..k] == s[..k];
  }

  lemma NotFound(q: seq<byte>, b: seq<byte>, size: nat)
    requires Passed(q, b, |b|)
    ensures |b| <= |q| && Blanked(q, b + q[|b|..])
    ensures |b| == size || |b| == |q| ==> TakeLine(q, size) == NoLine
    ensures b + q[|b|..] == BlankedPart(q, |b|)
  {
    assert forall i :: |b| <= i < |q| ==> (b + q[|b|..])[i] == q[i];
  }

  /** More has been read: the buffer `s`, filled up to `n`, has become `t`, filled up to `length`. */
  lemma FilledQueue(q: seq<byte>, s: seq<byte>, t: seq<byte>, incoming: seq<byte>, n: nat, length: nat)
    requires n <= |s| && n <= length <= |t| && n <= |q| && t[..n] == s[..n] && Passed(q, s[..n], n)
    requires t[0..length] + incoming == s[..n] + q[n..]
    ensures Passed(q, t[..length], n) && length <= |q| && incoming == q[length..]
    ensures length == n ==> t[0..length] + incoming == s[..n] + q[n..]
  {
    var all := s[..n] + q[n..];
    assert forall i :: n <= i < |q| ==> all[i] == q[i];
    assert incoming == (t[0..length] + incoming)[length..];
    assert forall i :: 0 <= i < n ==> t[..n][i] == t[i] && s[..n][i] == s[i];
  }

  /** From `n` on the buffer `s` is what it was. */
  predicate Behind(was: seq<byte>, s: seq<byte>, n: nat) {
    n <= |s| == |was| && s[n..] == was[n..]
  }

  lemma BehindSame(was: seq<byte>, s: seq<byte>, n: nat)
    requires n <= |s| == |was| && s[n..] == was[n..]
    ensures Behind(was, s, n)
  {
  }

  lemma BehindIs(was: seq<byte>, s: seq<byte>, n: nat)
    requires Behind(was, s, n)
    ensures n <= |s| == |was| && s[n..] == was[n..]
  {
  }

  lemma BehindKept(was: seq<byte>, s: seq<byte>, t: seq<byte>, n: nat, m: nat)
    requires Behind(was, s, n) && n <= m <= |s| == |t| && t[m..] == s[m..]
    ensures Behind(was, t, m)
  {
    assert s[m..] == s[n..][m - n..] == was[n..][m - n..] == was[m..];
  }
}
