/** struct dns_packet and the readers and writers that move its cursor: src/dns/pack.c, src/dns/unpack.c. */
module Packets {
  import opened Options
  import opened CStrings
  import opened Names

  function U16(x: nat): seq<byte>
    requires x < 0x1_0000
  {
    [x / 0x100, x % 0x100]
  }

  function ReadU16(msg: seq<byte>, at: nat): nat
    requires at + 2 <= |msg|
  {
    var hi: int, lo: int := msg[at], msg[at + 1];
    hi * 0x100 + lo
  }

  lemma U16RoundTrip(x: nat, msg: seq<byte>, at: nat)
    requires x < 0x1_0000 && at + 2 <= |msg| && msg[at..at + 2] == U16(x)
    ensures ReadU16(msg, at) == x
  {
    assert msg[at] == msg[at..at + 2][0] && msg[at + 1] == msg[at..at + 2][1];
  }

  /** `after` is `before` with `bytes` written at `at`. */
  ghost predicate Written(before: seq<byte>, after: seq<byte>, at: nat, bytes: seq<byte>) {
    && |after| == |before| && at + |bytes| <= |before|
    && after == before[..at] + bytes + before[at + |bytes|..]
  }

  lemma WrittenTwice(a: seq<byte>, b: seq<byte>, c: seq<byte>, at: nat, x: seq<byte>, y: seq<byte>)
    requires Written(a, b, at, x) && Written(b, c, at + |x|, y)
    ensures Written(a, c, at, x + y)
  {
    assert b[..at + |x|] == a[..at] + x;
    assert b[at + |x| + |y|..] == a[at + |x| + |y|..];
  }

  /** Only bytes from `from` on have changed. */
  ghost predicate KeptBelow(before: seq<byte>, after: seq<byte>, from: nat) {
    |after| == |before| && from <= |before| && after[..from] == before[..from]
  }

  class Packet {
    const buf: array<byte>
    var ptr: nat
    var end: nat

    constructor (size: nat)
      ensures fresh(buf) && buf.Length == size && ptr == 0 && end == size
    {
      buf := new byte[size];
      ptr, end := 0, size;
    }

    ghost predicate Valid()
      reads this
    {
      end <= buf.Length
    }

    /** The bytes that readers may look at. */
    ghost function Msg(): seq<byte>
      requires Valid()
      reads this, buf
    {
      buf[..end]
    }

    // ----- Readers -----

    method PeekU8() returns (err: int, u8: byte)
      requires Valid()
      ensures err == (if ptr + 1 > end then 1 else 0)
      ensures err == 0 ==> u8 == buf[ptr]
    {
      if ptr + 1 > end {
        return 1, 0;
      }
      return 0, buf[ptr];
    }

    method UnpackU8() returns (err: int, u8: byte)
      requires Valid()
      modifies this`ptr
      ensures ptr == old(ptr) + 1
      ensures err == (if old(ptr) + 1 > end then 1 else 0)
      ensures err == 0 ==> u8 == buf[old(ptr)]
    {
      ptr := ptr + 1;
      if ptr > end {
        return 1, 0;
      }
      return 0, buf[ptr - 1];
    }

    method UnpackU16() returns (err: int, u16: nat)
      requires Valid()
      modifies this`ptr
      ensures ptr == old(ptr) + 2
      ensures err == (if old(ptr) + 2 > end then 1 else 0)
      ensures err == 0 ==> u16 == ReadU16(Msg(), old(ptr)) && u16 < 0x1_0000
    {
      ptr := ptr + 2;
      if ptr > end {
        return 1, 0;
      }
      var hi: int, lo: int := buf[ptr - 2], buf[ptr - 1];
      return 0, hi * 0x100 + lo;
    }

    /** dns_unpack_buf() into `out` at `at`. */
    method UnpackBuf(out: array<byte>, at: nat, size: nat) returns (err: int)
      requires Valid() && out != buf
      requires at + size <= out.Length
      modifies this`ptr, out
      ensures err == (if old(ptr) + size > end then 1 else 0)
      ensures err == 0 ==>
        ptr == old(ptr) + size && Written(old(out[..]), out[..], at, Msg()[old(ptr)..old(ptr) + size])
      ensures err != 0 ==> ptr == old(ptr) && out[..] == old(out[..])
    {
      if ptr + size > end {
        return 1;
      }
      forall i | 0 <= i < size {
        out[at + i] := buf[ptr + i];
      }
      ghost var bytes := Msg()[ptr..ptr + size];
      assert forall i :: 0 <= i < size ==> bytes[i] == buf[ptr + i];
      assert out[..] == old(out[..])[..at] + bytes + old(out[..])[at + size..];
      ptr := ptr + size;
      return 0;
    }

    // ----- Writers -----

    method PackU8(u8: byte) returns (err: int)
      requires Valid()
      modifies this`ptr, buf
      ensures ptr == old(ptr) + 1
      ensures err == (if old(ptr) + 1 > end then 1 else 0)
      ensures if err == 0 then Written(old(buf[..]), buf[..], old(ptr), [u8]) else buf[..] == old(buf[..])
    {
      ptr := ptr + 1;
      if ptr > end {
        return 1;
      }
      buf[ptr - 1] := u8;
      return 0;
    }

    method PackU16(u16: nat) returns (err: int)
      requires Valid() && u16 < 0x1_0000
      modifies this`ptr, buf
      ensures ptr == old(ptr) + 2
      ensures err == (if old(ptr) + 2 > end then 1 else 0)
      ensures if err == 0 then Written(old(buf[..]), buf[..], old(ptr), U16(u16)) else buf[..] == old(buf[..])
    {
      ptr := ptr + 2;
      if ptr > end {
        return 1;
      }
      buf[ptr - 2] := u16 / 0x100;
      buf[ptr - 1] := u16 % 0x100;
      assert buf[..] == old(buf[..])[..ptr - 2] + U16(u16) + old(buf[..])[ptr..];
      return 0;
    }

    /** dns_pack_buf() from the first `size` bytes of `src`. */
    method PackBuf(src: array<byte>, size: nat) returns (err: int)
      requires Valid() && src != buf && size <= src.Length
      modifies this`ptr, buf
      ensures err == (if old(ptr) + size > end then 1 else 0)
      ensures err == 0 ==> ptr == old(ptr) + size && Written(old(buf[..]), buf[..], old(ptr), src[..size])
      ensures err != 0 ==> ptr == old(ptr) && buf[..] == old(buf[..])
    {
      if ptr + size > end {
        return 1;
      }
      forall i | 0 <= i < size {
        buf[ptr + i] := src[i];
      }
      assert buf[..] == old(buf[..])[..ptr] + src[..size] + old(buf[..])[ptr + size..];
      ptr := ptr + size;
      return 0;
    }

    // ----- Names -----

    /** dns_unpack_name(): chases pointers with a step budget and an output bound. */
    method UnpackName(name: array<byte>) returns (err: int)
      requires Valid() && name != buf && name.Length > 0
      modifies this`ptr, name
      ensures err == 0 || err == 1
      ensures err == 0 <==> NameAt(Msg(), old(ptr), name.Length).Some?
      ensures err == 0 ==>
        var text := NameAt(Msg(), old(ptr), name.Length).value;
        |text| < name.Length && name[..|text|] == text && name[|text|] == 0 && ptr == PastName(Msg(), old(ptr))
    {
      hide Expand, PastName, Text, Prepend, Written, NameAt;
      ghost var msg, start := Msg(), ptr;
      var count, n := 0, 0;
      var back: Option<nat> := None;
      ghost var done: seq<Label> := [];
      NameStart(msg, ptr);
      var prefix: byte;
      err, prefix := PeekU8();
      while err == 0 && prefix != 0
        invariant Msg() == msg && 0 <= count <= LABELS + 1
        invariant err == (if ptr + 1 > end then 1 else 0)
        invariant err == 0 ==> prefix == msg[ptr]
        invariant n == |Text(done)| && n < name.Length && name[..n] == Text(done)
        invariant n == 0 <==> done == []
        invariant Prepend(done, Expand(msg, ptr, LABELS + 1 - count)) == Expand(msg, start, LABELS + 1)
        invariant PastName(msg, start) == if back.Some? then back.value else PastName(msg, ptr)
        decreases LABELS + 1 - count
      {
        ghost var at, budget := ptr, LABELS + 1 - count;
        if prefix >= 0x40 {
          var e, pointer := UnpackU16();
          PointerStep(msg, at, done, budget);
          if e != 0 {
            NameFails(msg, start, name.Length);
            return 1;
          }
          if back.None? {
            back := Some(ptr);
          }
          ptr := pointer % 0x4000;
        } else {
          LabelStep(msg, at, done, budget);
          var e, next := ReadLabel(name, n, done);
          if e != 0 {
            if at + 1 + prefix > end {
              NameFails(msg, start, name.Length);
            } else {
              NameTooLong(msg, start, at, done, budget, name.Length);
            }
            return 1;
          }
          done, n := done + [msg[at + 1..at + 1 + prefix]], next;
        }
        if count > LABELS {
          NameFails(msg, start, name.Length);
          return 1;
        }
        count := count + 1;
        err, prefix := PeekU8();
      }
      if err != 0 {
        OffTheEnd(msg, ptr, done, LABELS + 1 - count);
        NameFails(msg, start, name.Length);
        return err;
      }
      AtTheEnd(msg, ptr, done, LABELS + 1 - count);
      NameReads(msg, start, done, name.Length);
      var e, _ := UnpackU8();
      name[n] := 0;
      if back.Some? {
        ptr := back.value;
      }
      return 0;
    }

    /** One label of dns_unpack_name(), behind a dot if it is not the first. */
    method ReadLabel(name: array<byte>, n: nat, ghost done: seq<Label>) returns (err: int, next: nat)
      requires Valid() && name != buf && ptr < end && 0 < buf[ptr] < 0x40
      requires n == |Text(done)| < name.Length && name[..n] == Text(done) && (n == 0 <==> done == [])
      modifies this`ptr, name
      ensures err == 0 || err == 1
      ensures err == 0 <==>
        && old(ptr) + 1 + buf[old(ptr)] <= end
        && n + (if done == [] then 0 else 1) + buf[old(ptr)] < name.Length
      ensures err == 0 ==>
        ptr == old(ptr) + 1 + buf[old(ptr)]
        && var all := done + [Msg()[old(ptr) + 1..ptr]];
           next == |Text(all)| < name.Length && name[..next] == Text(all) && next != 0
    {
      hide Text, Written;
      ghost var from := ptr + 1;
      var e, len := UnpackU8();
      next := n;
      if next != 0 {
        name[next] := DOT;
        next := next + 1;
        assert name[..next] == Text(done) + [DOT];
      }
      if next + len >= name.Length {
        return 1, next;
      }
      ghost var all := name[..];
      e := UnpackBuf(name, next, len);
      if e != 0 {
        return 1, next;
      }
      WrittenPrefix(all, name[..], next, Msg()[from..from + len]);
      assert all[..next] == (if done == [] then [] else Text(done) + [DOT]);
      TextSnoc(done, Msg()[from..from + len]);
      name[next + len] := 0;
      return 0, next + len;
    }

    /** One label of dns_pack_name(): its length byte and its text. */
    method PackLabel(text: array<byte>, n: nat, ghost before: seq<byte>, ghost start: nat, ghost done: seq<Label>)
      returns (err: int)
      requires Valid() && text != buf && 0 < n < LABEL == text.Length && ptr <= end
      requires Short(done) && ptr == start + |Bytes(done)| && Written(before, buf[..], start, Bytes(done))
      modifies this`ptr, buf
      ensures err == (if old(ptr) + 1 + n > end then 1 else 0)
      ensures err == 0 ==>
        var all := done + [text[..n]];
        Short(all) && ptr == start + |Bytes(all)| <= end && Written(before, buf[..], start, Bytes(all))
      ensures KeptBelow(before, buf[..], start)
    {
      hide Bytes, Short, Written, KeptBelow;
      assert n % 0x40 == n;
      ghost var b0, l := buf[..], text[..n];
      WrittenKeeps(before, b0, start, Bytes(done));
      err := PackU8(n % 0x40);
      if err != 0 {
        return 1;
      }
      ghost var b1 := buf[..];
      LengthWritten(before, b0, b1, start, done, n);
      err := PackBuf(text, n);
      if err == 0 {
        LabelWritten(before, b0, b1, buf[..], start, done, l);
      }
    }

    /** dns_pack_name(): cuts the name at its dots, skipping empty labels. */
    method PackName(name: seq<byte>) returns (err: int)
      requires Valid() && 0 !in name && ptr <= end
      modifies this`ptr, buf
      ensures err == 0 <==> Short(Split(name)) && old(ptr) + |Wire(Split(name))| <= end
      ensures err == 0 ==>
        ptr == old(ptr) + |Wire(Split(name))| && Written(old(buf[..]), buf[..], old(ptr), Wire(Split(name)))
      ensures err == 2 ==> !Short(Split(name))
      ensures KeptBelow(old(buf[..]), buf[..], old(ptr))
    {
      hide Split, Bytes, Written, KeptBelow;
      ghost var before, start := buf[..], ptr;
      var text := new byte[LABEL];
      var i, n, more := 0, 0, true;
      ghost var done: seq<Label> := [];
      assert Short(done);
      hide Short, Wire;
      PackStart(before, name, start);
      while more
        invariant 0 <= i <= |name| && 0 <= n < LABEL && (more || (i == |name| && n == 0))
        invariant fresh(text) && text.Length == LABEL
        invariant Short(done) && Split(name) == done + (if more then Split(name[i..], text[..n]) else [])
        invariant ptr == start + |Bytes(done)| <= end && Written(before, buf[..], start, Bytes(done))
        decreases |name| - i, more
      {
        var c: byte := if i < |name| then name[i] else 0;
        SplitStep(name, i, text[..n], done);
        if c != 0 {
          i := i + 1;
        }
        if c == DOT || c == 0 {
          if n != 0 {
            err := PackLabel(text, n, before, start, done);
            if err != 0 {
              BytesSnoc(done, text[..n]);
              PackFails(name, done + [text[..n]], if c == 0 then [] else Split(name[i..]), start, end);
              return 1;
            }
            done := done + [text[..n]];
          }
          n := 0;
        } else if n + 1 < LABEL {
          text[n] := c;
          n := n + 1;
          assert text[..n] == text[..n - 1] + [c];
        } else {
          LabelTooLong(name, i, text[..n] + [c], done);
          WrittenKeeps(before, buf[..], start, Bytes(done));
          return 2;
        }
        more := c != 0;
      }
      assert done + [] == done;
      WrittenKeeps(before, buf[..], start, Bytes(done));
      ghost var packed := buf[..];
      WireIsBytes(done);
      err := PackU8(0);
      if err == 0 {
        WrittenTwice(before, packed, buf[..], start, Bytes(done), [0]);
        WrittenKeeps(before, buf[..], start, Wire(done));
      }
    }
  }

  lemma WrittenPrefix(before: seq<byte>, after: seq<byte>, at: nat, bytes: seq<byte>)
    requires Written(before, after, at, bytes)
    ensures |after| == |before| && at + |bytes| <= |after| && after[..at + |bytes|] == before[..at] + bytes
  {
  }

  lemma WrittenKeeps(before: seq<byte>, after: seq<byte>, at: nat, bytes: seq<byte>)
    requires Written(before, after, at, bytes)
    ensures KeptBelow(before, after, at)
  {
  }

  // ----- The steps of dns_pack_name() -----

  lemma LengthWritten(before: seq<byte>, b0: seq<byte>, b1: seq<byte>, start: nat, done: seq<Label>, n: byte)
    requires Short(done) && Written(before, b0, start, Bytes(done)) && Written(b0, b1, start + |Bytes(done)|, [n])
    ensures Written(before, b1, start, Bytes(done) + [n]) && KeptBelow(before, b1, start)
  {
    hide Bytes, Written, KeptBelow;
    WrittenTwice(before, b0, b1, start, Bytes(done), [n]);
    WrittenKeeps(before, b1, start, Bytes(done) + [n]);
  }

  lemma LabelWritten(before: seq<byte>, b0: seq<byte>, b1: seq<byte>, b2: seq<byte>, start: nat, done: seq<Label>,
                     l: Label)
    requires Short(done) && |l| < LABEL && Written(before, b0, start, Bytes(done))
    requires Written(b0, b1, start + |Bytes(done)|, [|l|]) && Written(b1, b2, start + |Bytes(done)| + 1, l)
    ensures var all := done + [l];
      && Short(all) && |Bytes(all)| == |Bytes(done)| + 1 + |l|
      && Written(before, b2, start, Bytes(all)) && KeptBelow(before, b2, start)
  {
    hide Bytes, Short, Written, KeptBelow;
    LengthWritten(before, b0, b1, start, done, |l|);
    WrittenTwice(before, b1, b2, start, Bytes(done) + [|l|], l);
    BytesSnoc(done, l);
    WrittenKeeps(before, b2, start, Bytes(done) + [|l|] + l);
  }

  lemma PackStart(before: seq<byte>, name: seq<byte>, start: nat)
    requires start <= |before|
    ensures Bytes([]) == [] && Written(before, before, start, [])
    ensures Split(name) == [] + Split(name[0..], [])
  {
    assert name[0..] == name;
    assert [] + Split(name) == Split(name);
  }

  lemma WireIsBytes(labels: seq<Label>)
    requires Short(labels)
    ensures Wire(labels) == Bytes(labels) + [0]
  {
  }

  lemma SplitStep(name: seq<byte>, i: nat, pending: Label, done: seq<Label>)
    requires i <= |name|
    ensures done + Split(name[i..], pending) ==
      if i == |name| then done + Emit(pending)
      else if name[i] == DOT then (done + Emit(pending)) + Split(name[i + 1..], [])
      else done + Split(name[i + 1..], pending + [name[i]])
  {
    if i < |name| {
      assert name[i..][1..] == name[i + 1..];
      assert done + (Emit(pending) + Split(name[i + 1..], [])) == (done + Emit(pending)) + Split(name[i + 1..], []);
    }
  }

  lemma PackFails(name: seq<byte>, labels: seq<Label>, rest: seq<Label>, start: nat, end: nat)
    requires Split(name) == labels + rest && (Short(labels) ==> start + |Bytes(labels)| > end)
    ensures !(Short(Split(name)) && start + |Wire(Split(name))| <= end)
  {
    if Short(Split(name)) {
      BytesLength(labels, rest);
    }
  }

  lemma LabelTooLong(name: seq<byte>, i: nat, pending: Label, done: seq<Label>)
    requires i <= |name| && |pending| >= LABEL && Split(name) == done + Split(name[i..], pending)
    ensures !Short(Split(name))
  {
    SplitGrows(name[i..], pending);
    assert Split(name)[|done|] == Split(name[i..], pending)[0];
  }

  // ----- The steps of dns_unpack_name() -----

  /** The labels already read, in front of what the rest of the chain gives. */
  ghost function Prepend(done: seq<Label>, rest: Option<seq<Label>>): Option<seq<Label>> {
    match rest
    case None => None
    case Some(labels) => Some(done + labels)
  }

  lemma NameStart(msg: seq<byte>, at: nat)
    ensures Text([]) == [] && Prepend([], Expand(msg, at, LABELS + 1)) == Expand(msg, at, LABELS + 1)
  {
    var e := Expand(msg, at, LABELS + 1);
    if e.Some? {
      assert [] + e.value == e.value;
    }
  }

  lemma PointerStep(msg: seq<byte>, at: nat, done: seq<Label>, budget: nat)
    requires at < |msg| && IsPointer(msg[at])
    ensures Prepend(done, Expand(msg, at, budget)) ==
      if at + 1 < |msg| && budget > 0 then Prepend(done, Expand(msg, Target(msg, at), budget - 1)) else None
    ensures PastName(msg, at) == at + 2
  {
  }

  lemma LabelStep(msg: seq<byte>, at: nat, done: seq<Label>, budget: nat)
    requires at < |msg| && 0 < msg[at] < 0x40
    ensures Prepend(done, Expand(msg, at, budget)) ==
      if at + 1 + msg[at] <= |msg| && budget > 0
      then Prepend(done + [msg[at + 1..at + 1 + msg[at]]], Expand(msg, at + 1 + msg[at], budget - 1)) else None
    ensures PastName(msg, at) == PastName(msg, at + 1 + msg[at])
  {
    if at + 1 + msg[at] <= |msg| && budget > 0 {
      var l := msg[at + 1..at + 1 + msg[at]];
      var rest := Expand(msg, at + 1 + msg[at], budget - 1);
      if rest.Some? {
        assert done + ([l] + rest.value) == done + [l] + rest.value;
      }
    }
  }

  lemma OffTheEnd(msg: seq<byte>, at: nat, done: seq<Label>, budget: nat)
    requires at >= |msg|
    ensures Prepend(done, Expand(msg, at, budget)) == None
  {
  }

  lemma AtTheEnd(msg: seq<byte>, at: nat, done: seq<Label>, budget: nat)
    requires at < |msg| && msg[at] == 0
    ensures Prepend(done, Expand(msg, at, budget)) == Some(done) && PastName(msg, at) == at + 1
  {
    assert done + [] == done;
  }

  lemma NameFails(msg: seq<byte>, start: nat, size: nat)
    ensures Expand(msg, start, LABELS + 1).None? ==> NameAt(msg, start, size).None?
  {
  }

  lemma NameReads(msg: seq<byte>, start: nat, labels: seq<Label>, size: nat)
    requires Expand(msg, start, LABELS + 1) == Some(labels) && |Text(labels)| < size
    ensures NameAt(msg, start, size) == Some(Text(labels))
  {
  }

  /** The next label does not fit, so the whole text does not. */
  lemma NameTooLong(msg: seq<byte>, start: nat, at: nat, done: seq<Label>, budget: nat, size: nat)
    requires at < |msg| && 0 < msg[at] < 0x40
    requires Prepend(done, Expand(msg, at, budget)) == Expand(msg, start, LABELS + 1)
    requires |Text(done)| + (if done == [] then 0 else 1) + msg[at] >= size
    ensures NameAt(msg, start, size).None?
  {
    LabelStep(msg, at, done, budget);
    if at + 1 + msg[at] <= |msg| && budget > 0 {
      var l := msg[at + 1..at + 1 + msg[at]];
      var rest := Expand(msg, at + 1 + msg[at], budget - 1);
      TextSnoc(done, l);
      if rest.Some? {
        TextLength(done + [l], rest.value);
      }
    }
  }
}
