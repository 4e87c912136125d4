/** How names lie in a message, byte by byte: what dns_unpack_name() makes of a zero byte, a label and a pointer, what
    dns_pack_name() makes of a dotted text, and that a compressed name reads as its parts. */
module NameLaws {
  import opened Options
  import opened CStrings
  import opened Names

  // ----- Reading -----

  /** The root. */
  lemma ZeroIsRead(msg: seq<byte>, at: nat, size: nat)
    requires at < |msg| && msg[at] == 0 && size > 0
    ensures NameAt(msg, at, size) == Some([]) && PastName(msg, at) == at + 1
  {
  }

  /** A length byte below 64 is followed by that many bytes of text. */
  lemma LabelIsSpelt(msg: seq<byte>, at: nat, l: Label, labels: seq<Label>, k: nat)
    requires 0 < |l| < 64 && at + 1 + |l| <= |msg|
    requires msg[at] == |l| && msg[at + 1..at + 1 + |l|] == l && Spells(msg, at + 1 + |l|, labels, k)
    ensures Spells(msg, at, [l] + labels, k + 1) && PastName(msg, at) == PastName(msg, at + 1 + |l|)
  {
    assert ([l] + labels)[1..] == labels;
  }

  /** Two bytes of which the first has a top bit set lead to the offset in the other fourteen bits. */
  lemma PointerIsFollowed(msg: seq<byte>, at: nat, top: nat, p: nat, labels: seq<Label>, k: nat)
    requires 1 <= top <= 3 && p < 0x4000 && at + 1 < |msg|
    requires msg[at] == 64 * top + p / 256 && msg[at + 1] == p % 256
    requires Spells(msg, p, labels, k)
    ensures Spells(msg, at, labels, k + 1) && PastName(msg, at) == at + 2
  {
    PointerLeads(msg[at], msg[at + 1], top, p);
    assert Target(msg, at) == p;
  }

  lemma PointerLeads(hi: int, lo: int, top: nat, p: nat)
    requires 1 <= top <= 3 && p < 0x4000 && hi == 64 * top + p / 256 && lo == p % 256
    ensures (hi * 0x100 + lo) % 0x4000 == p
  {
    assert hi * 0x100 + lo == 0x4000 * top + p;
  }

  lemma TwoBytes(msg: seq<byte>, at: nat, a: byte, b: byte)
    requires at + 2 <= |msg| && msg[at..at + 2] == [a, b]
    ensures msg[at] == a && msg[at + 1] == b
  {
    assert msg[at] == msg[at..at + 2][0] && msg[at + 1] == msg[at..at + 2][1];
  }

  lemma BytesHead(msg: seq<byte>, at: nat, l: Label, rest: seq<Label>, tail: seq<byte>)
    requires |l| < LABEL && Short(rest) && Short([l] + rest)
    requires var n := |Bytes([l] + rest)| + |tail|;
      at + n <= |msg| && msg[at..at + n] == Bytes([l] + rest) + tail
    ensures |Bytes([l] + rest)| == 1 + |l| + |Bytes(rest)|
    ensures msg[at] == |l| && msg[at + 1..at + 1 + |l|] == l
    ensures var next, m := at + 1 + |l|, |Bytes(rest)| + |tail|; msg[next..next + m] == Bytes(rest) + tail
  {
    BytesCons(l, rest);
    assert Bytes([l] + rest) + tail == [|l|] + l + (Bytes(rest) + tail);
    hide Bytes, Short;
    Halve(msg, at, [|l|] + l, Bytes(rest) + tail);
    Halve(msg, at, [|l|], l);
    assert msg[at] == msg[at..at + 1][0];
  }

  /** A pointer to the offset `p`; `top` are the two top bits. */
  function Pointer(top: nat, p: nat): (s: seq<byte>)
    requires 1 <= top <= 3 && p < 0x4000
    ensures |s| == 2 && s[0] == 64 * top + p / 256 && s[1] == p % 256
  {
    [64 * top + p / 256, p % 256]
  }

  lemma PointerSpells(msg: seq<byte>, at: nat, top: nat, p: nat, labels: seq<Label>, k: nat)
    requires 1 <= top <= 3 && p < 0x4000 && Spells(msg, p, labels, k)
    requires at + 2 <= |msg| && msg[at..at + 2] == Pointer(top, p)
    ensures Spells(msg, at, labels, k + 1) && PastName(msg, at) == at + 2
  {
    hide Spells, PastName;
    TwoBytes(msg, at, Pointer(top, p)[0], Pointer(top, p)[1]);
    PointerIsFollowed(msg, at, top, p, labels, k);
  }

  lemma {:induction false} CompressedSpells(msg: seq<byte>, at: nat, front: seq<Label>, top: nat, p: nat,
                                            labels: seq<Label>, k: nat)
    requires Short(front) && forall i :: 0 <= i < |front| ==> front[i] != []
    requires 1 <= top <= 3 && p < 0x4000 && Spells(msg, p, labels, k)
    requires var n := |Bytes(front)| + 2; at + n <= |msg| && msg[at..at + n] == Bytes(front) + Pointer(top, p)
    ensures Spells(msg, at, front + labels, |front| + 1 + k)
    ensures PastName(msg, at) == at + |Bytes(front)| + 2
    decreases |front|
  {
    hide Spells, PastName, Pointer;
    if front == [] {
      assert Bytes(front) + Pointer(top, p) == Pointer(top, p) && front + labels == labels;
      PointerSpells(msg, at, top, p, labels, k);
    } else {
      var l, rest := front[0], front[1..];
      assert front == [l] + rest;
      hide Bytes;
      BytesHead(msg, at, l, rest, Pointer(top, p));
      CompressedSpells(msg, at + 1 + |l|, rest, top, p, labels, k);
      LabelIsSpelt(msg, at, l, rest + labels, |rest| + 1 + k);
      assert front + labels == [l] + (rest + labels);
    }
  }

  /** Compression (section 4.1.4 of RFC 1035): labels and then a pointer to labels that stand elsewhere in the message
      read as one name, and reading goes on behind the pointer. */
  lemma CompressedNameIsRead(msg: seq<byte>, at: nat, front: seq<Label>, p: nat, labels: seq<Label>, k: nat, size: nat)
    requires Short(front) && forall i :: 0 <= i < |front| ==> front[i] != []
    requires p < 0x4000 && Spells(msg, p, labels, k) && |front| + 1 + k <= 129 && |Text(front + labels)| < size
    requires var n := |Bytes(front)| + 2;
      at + n <= |msg| && msg[at..at + n] == Bytes(front) + [0xC0 + p / 256, p % 256]
    ensures NameAt(msg, at, size) == Some(Text(front + labels))
    ensures PastName(msg, at) == at + |Bytes(front)| + 2
  {
    assert Pointer(3, p) == [0xC0 + p / 256, p % 256];
    CompressedSpells(msg, at, front, 3, p, labels, k);
    hide Spells, Expand, Text, Bytes, PastName;
    ExpandComplete(msg, at, LABELS + 1, front + labels, |front| + 1 + k);
  }

  /** In particular a second name that shares its end with a packed one further up. */
  lemma SharedEndIsRead(msg: seq<byte>, at: nat, front: seq<Label>, p: nat, labels: seq<Label>, size: nat)
    requires Short(front) && Short(labels) && p < 0x4000
    requires forall i :: 0 <= i < |front| ==> front[i] != []
    requires forall i :: 0 <= i < |labels| ==> labels[i] != []
    requires p + |Bytes(labels)| + 1 <= |msg| && msg[p..p + |Bytes(labels)| + 1] == Bytes(labels) + [0]
    requires |front| + |labels| < 129 && |Text(front + labels)| < size
    requires var n := |Bytes(front)| + 2;
      at + n <= |msg| && msg[at..at + n] == Bytes(front) + [0xC0 + p / 256, p % 256]
    ensures NameAt(msg, at, size) == Some(Text(front + labels))
    ensures PastName(msg, at) == at + |Bytes(front)| + 2
  {
    WireSpells(msg, p, labels);
    hide Spells, Text, Bytes, PastName;
    CompressedNameIsRead(msg, at, front, p, labels, |labels|, size);
  }

  // ----- Packing -----

  /** The wire form: every label behind its length, and a zero byte at the end. */
  lemma WireIs(labels: seq<Label>, l: Label)
    requires Short(labels) && |l| <= 62
    ensures Wire([]) == [0] && Short([l] + labels) && Wire([l] + labels) == [|l|] + l + Wire(labels)
  {
    BytesCons(l, labels);
    hide Short;
  }

  /** Labels of up to 62 bytes can be packed, longer ones cannot. */
  lemma ShortMeans(labels: seq<Label>)
    ensures Short(labels) <==> forall i :: 0 <= i < |labels| ==> |labels[i]| <= 62
  {
  }

  lemma {:induction false} SplitAtDot(name: seq<byte>, pending: Label, rest: seq<byte>)
    ensures Split(name + [46] + rest, pending) == Split(name, pending) + Split(rest)
    decreases |name|
  {
    if name == [] {
      assert [] + [46] + rest == [46] + rest && ([46] + rest)[1..] == rest;
    } else {
      var all := name + [46] + rest;
      assert all[1..] == name[1..] + [46] + rest;
      if name[0] == DOT {
        SplitAtDot(name[1..], [], rest);
        var a, b, c := Emit(pending), Split(name[1..], []), Split(rest);
        assert a + (b + c) == a + b + c;
      } else {
        SplitAtDot(name[1..], pending + [name[0]], rest);
      }
    }
  }

  lemma {:induction false} SplitWhole(name: seq<byte>, pending: Label)
    requires 46 !in name
    ensures Split(name, pending) == if pending + name == [] then [] else [pending + name]
    decreases |name|
  {
    if name == [] {
      assert pending + name == pending;
    } else {
      SplitWhole(name[1..], pending + [name[0]]);
      assert pending + [name[0]] + name[1..] == pending + name;
    }
  }

  /** A name is cut at its dots (46), and nothing is packed for an empty label: not for a dot at the beginning or the
      end, nor for one dot behind another. */
  lemma NameIsCutAtDots(front: seq<byte>, rest: seq<byte>)
    ensures Split(front + [46] + rest) == Split(front) + Split(rest)
    ensures Split([]) == [] && (46 !in front && front != [] ==> Split(front) == [front])
  {
    SplitAtDot(front, [], rest);
    if 46 !in front {
      SplitWhole(front, []);
      assert [] + front == front;
    }
  }

  /** And labels are joined with dots. */
  lemma TextIs(l: Label, labels: seq<Label>)
    ensures Text([]) == [] && Text([l]) == l
    ensures labels != [] ==> Text([l] + labels) == l + [46] + Text(labels)
  {
    if labels != [] {
      TextCons(l, labels);
    }
  }
}
