/** Domain names in DNS messages: sections 3.1 and 4.1.4 of RFC 1035, as src/dns/pack.c and
    src/dns/unpack.c read them. */
module Names {
  import opened Options
  import opened CStrings

  type Label = seq<byte>

  const DOT: byte := 46
  const LABELS: nat := 128      // DNS_LABELS
  const NAME: nat := 255        // DNS_NAME
  const LABEL: nat := 63        // DNS_LABEL

  // ----- Text -----

  /** The labels joined with dots. */
  function Text(labels: seq<Label>): seq<byte> {
    if labels == [] then []
    else if |labels| == 1 then labels[0]
    else Text(labels[..|labels| - 1]) + [DOT] + labels[|labels| - 1]
  }

  /** The non-empty labels of a dotted name; `pending` is the part of the first one already read. */
  function Split(name: seq<byte>, pending: Label := []): seq<Label> {
    if name == [] then Emit(pending)
    else if name[0] == DOT then Emit(pending) + Split(name[1..], [])
    else Split(name[1..], pending + [name[0]])
  }

  function Emit(l: Label): seq<Label> {
    if l == [] then [] else [l]
  }

  predicate Proper(l: Label) {
    l != [] && DOT !in l
  }

  // ----- The expansion relation -----

  /** A prefix byte with either of its two top bits set is taken for a pointer. */
  predicate IsPointer(prefix: byte) {
    prefix >= 0x40
  }

  function Target(msg: seq<byte>, at: nat): nat
    requires at + 1 < |msg|
  {
    var hi: int, lo: int := msg[at], msg[at + 1];
    (hi * 0x100 + lo) % 0x4000
  }

  /** From offset `at`, a chain of `k` labels and pointers leads to a zero byte, and its labels are
      `labels`. Pointers may go anywhere, forwards, backwards or in circles. */
  ghost predicate Spells(msg: seq<byte>, at: nat, labels: seq<Label>, k: nat)
    decreases k
  {
    && at < |msg|
    && if k == 0 then
         msg[at] == 0 && labels == []
       else if IsPointer(msg[at]) then
         at + 1 < |msg| && Spells(msg, Target(msg, at), labels, k - 1)
       else
         && msg[at] != 0 && at + 1 + msg[at] <= |msg|
         && labels != [] && labels[0] == msg[at + 1..at + 1 + msg[at]]
         && Spells(msg, at + 1 + msg[at], labels[1..], k - 1)
  }

  /** The same, computed, for chains of at most `budget` labels and pointers. */
  function Expand(msg: seq<byte>, at: nat, budget: nat): Option<seq<Label>>
    decreases budget
  {
    if at >= |msg| then None
    else if msg[at] == 0 then Some([])
    else if budget == 0 then None
    else if IsPointer(msg[at]) then
      if at + 1 < |msg| then Expand(msg, Target(msg, at), budget - 1) else None
    else if at + 1 + msg[at] <= |msg| then
      match Expand(msg, at + 1 + msg[at], budget - 1)
      case None => None
      case Some(labels) => Some([msg[at + 1..at + 1 + msg[at]]] + labels)
    else None
  }

  lemma {:induction false} ExpandSound(msg: seq<byte>, at: nat, budget: nat) returns (k: nat)
    requires Expand(msg, at, budget).Some?
    ensures k <= budget && Spells(msg, at, Expand(msg, at, budget).value, k)
    decreases budget
  {
    if msg[at] == 0 {
      k := 0;
    } else if IsPointer(msg[at]) {
      k := ExpandSound(msg, Target(msg, at), budget - 1);
      k := k + 1;
    } else {
      var next := at + 1 + msg[at];
      k := ExpandSound(msg, next, budget - 1);
      assert Expand(msg, at, budget).value[1..] == Expand(msg, next, budget - 1).value;
      k := k + 1;
    }
  }

  lemma {:induction false} ExpandComplete(msg: seq<byte>, at: nat, budget: nat, labels: seq<Label>, k: nat)
    requires k <= budget && Spells(msg, at, labels, k)
    ensures Expand(msg, at, budget) == Some(labels)
    decreases k
  {
    if k > 0 && IsPointer(msg[at]) {
      ExpandComplete(msg, Target(msg, at), budget - 1, labels, k - 1);
    } else if k > 0 {
      ExpandComplete(msg, at + 1 + msg[at], budget - 1, labels[1..], k - 1);
      assert labels == [labels[0]] + labels[1..];
    }
  }

  /** What a name at `at` reads as into a buffer of `size` bytes: at most 129 steps, and room for the
      text and its NUL. */
  function NameAt(msg: seq<byte>, at: nat, size: nat): Option<seq<byte>> {
    match Expand(msg, at, LABELS + 1)
    case None => None
    case Some(labels) => if |Text(labels)| < size then Some(Text(labels)) else None
  }

  /** `text` is what a chain of at most 129 steps from `at` spells, and fits a buffer of `size` bytes. */
  ghost predicate Readable(msg: seq<byte>, at: nat, size: nat, text: seq<byte>) {
    exists labels: seq<Label>, k: nat ::
      k <= 129 && Spells(msg, at, labels, k) && text == Text(labels) && |text| < size
  }

  /** Soundness and completeness of reading a name: it succeeds exactly on chains of at most 129 steps
      inside the message whose text fits, and yields the labels of that chain joined with dots. */
  lemma NameAtIff(msg: seq<byte>, at: nat, size: nat, text: seq<byte>)
    ensures NameAt(msg, at, size) == Some(text) <==> Readable(msg, at, size, text)
  {
    hide Expand, Spells, Text;
    if NameAt(msg, at, size) == Some(text) {
      var k := ExpandSound(msg, at, LABELS + 1);
    }
    if Readable(msg, at, size, text) {
      var labels: seq<Label>, k: nat :|
        k <= 129 && Spells(msg, at, labels, k) && text == Text(labels) && |text| < size;
      ExpandComplete(msg, at, LABELS + 1, labels, k);
    }
  }

  /** Where reading goes on: just past the first pointer, or past the zero byte if there is none. */
  function PastName(msg: seq<byte>, at: nat): nat
    decreases |msg| - at
  {
    if at >= |msg| then at
    else if msg[at] == 0 then at + 1
    else if IsPointer(msg[at]) then at + 2
    else PastName(msg, at + 1 + msg[at])
  }

  // ----- The wire form -----

  predicate Short(labels: seq<Label>) {
    forall i :: 0 <= i < |labels| ==> |labels[i]| < LABEL
  }

  function Bytes(labels: seq<Label>): seq<byte>
    requires Short(labels)
  {
    if labels == [] then []
    else Bytes(labels[..|labels| - 1]) + [|labels[|labels| - 1]|] + labels[|labels| - 1]
  }

  function Wire(labels: seq<Label>): seq<byte>
    requires Short(labels)
  {
    Bytes(labels) + [0]
  }

  // ----- Packing and reading are inverse -----

  lemma ShortCons(l: Label, labels: seq<Label>)
    requires |l| < LABEL && Short(labels)
    ensures Short([l] + labels)
  {
  }

  lemma {:induction false} BytesCons(l: Label, labels: seq<Label>)
    requires |l| < LABEL && Short(labels)
    ensures Short([l] + labels) && Bytes([l] + labels) == [|l|] + l + Bytes(labels)
  {
    var all := [l] + labels;
    ShortCons(l, labels);
    if labels == [] {
      assert all[..|all| - 1] == [];
    } else {
      var front := labels[..|labels| - 1];
      assert all[..|all| - 1] == [l] + front;
      BytesCons(l, front);
    }
  }

  lemma Halve(s: seq<byte>, at: nat, a: seq<byte>, b: seq<byte>)
    requires at + |a| + |b| <= |s| && s[at..at + |a| + |b|] == a + b
    ensures s[at..at + |a|] == a && s[at + |a|..at + |a| + |b|] == b
  {
    var t := s[at..at + |a| + |b|];
    assert forall i :: 0 <= i < |t| ==> t[i] == s[at + i];
    assert forall i :: 0 <= i < |a| ==> s[at..at + |a|][i] == t[i] == a[i];
    assert forall i :: 0 <= i < |b| ==> s[at + |a|..at + |a| + |b|][i] == t[|a| + i] == b[i];
  }

  lemma WireHead(msg: seq<byte>, at: nat, l: Label, rest: seq<Label>)
    requires |l| < LABEL && Short(rest)
    ensures Short([l] + rest) && |Wire([l] + rest)| == 1 + |l| + |Wire(rest)|
    ensures at + |Wire([l] + rest)| <= |msg| && msg[at..at + |Wire([l] + rest)|] == Wire([l] + rest) ==>
      && msg[at] == |l| && msg[at + 1..at + 1 + |l|] == l
      && msg[at + 1 + |l|..at + 1 + |l| + |Wire(rest)|] == Wire(rest)
  {
    BytesCons(l, rest);
    assert Wire([l] + rest) == [|l|] + l + Wire(rest);
    hide Bytes, Short, Wire;
    if at + |Wire([l] + rest)| <= |msg| && msg[at..at + |Wire([l] + rest)|] == Wire([l] + rest) {
      Halve(msg, at, [|l|] + l, Wire(rest));
      Halve(msg, at, [|l|], l);
      assert msg[at] == msg[at..at + 1][0];
    }
  }

  /** Packed labels are a chain of their own, without pointers, and reading goes on right behind them. */
  lemma {:induction false} WireSpells(msg: seq<byte>, at: nat, labels: seq<Label>)
    requires Short(labels) && forall i :: 0 <= i < |labels| ==> labels[i] != []
    requires at + |Wire(labels)| <= |msg| && msg[at..at + |Wire(labels)|] == Wire(labels)
    ensures Spells(msg, at, labels, |labels|)
    ensures PastName(msg, at) == at + |Wire(labels)|
    decreases |labels|
  {
    if labels == [] {
      assert msg[at] == Wire(labels)[0];
    } else {
      var l, rest := labels[0], labels[1..];
      assert labels == [l] + rest;
      WireHead(msg, at, l, rest);
      hide Bytes, Wire;
      WireSpells(msg, at + 1 + |l|, rest);
    }
  }

  lemma TextSnoc(labels: seq<Label>, l: Label)
    ensures Text(labels + [l]) == if labels == [] then l else Text(labels) + [DOT] + l
  {
    assert (labels + [l])[..|labels|] == labels;
  }

  lemma {:induction false} TextCons(l: Label, labels: seq<Label>)
    requires labels != []
    ensures Text([l] + labels) == l + [DOT] + Text(labels)
  {
    var all := [l] + labels;
    var init := labels[..|labels| - 1];
    assert all[..|all| - 1] == [l] + init;
    if init != [] {
      TextCons(l, init);
    }
  }

  lemma {:induction false} TextLength(labels: seq<Label>, more: seq<Label>)
    ensures |Text(labels)| <= |Text(labels + more)|
    decreases |more|
  {
    if more == [] {
      assert labels + more == labels;
    } else {
      var init := more[..|more| - 1];
      assert labels + more == (labels + init) + [more[|more| - 1]];
      TextSnoc(labels + init, more[|more| - 1]);
      TextLength(labels, init);
    }
  }

  lemma {:induction false} SplitLabel(l: Label, pending: Label)
    requires DOT !in l
    ensures Split(l, pending) == Emit(pending + l)
    ensures forall rest: seq<byte> :: Split(l + [DOT] + rest, pending) == Emit(pending + l) + Split(rest)
    decreases |l|
  {
    if l == [] {
      assert pending + l == pending;
      forall rest: seq<byte> ensures Split(l + [DOT] + rest, pending) == Emit(pending + l) + Split(rest) {
        assert (l + [DOT] + rest)[1..] == rest;
      }
    } else {
      SplitLabel(l[1..], pending + [l[0]]);
      assert pending + [l[0]] + l[1..] == pending + l;
      forall rest: seq<byte> ensures Split(l + [DOT] + rest, pending) == Emit(pending + l) + Split(rest) {
        assert (l + [DOT] + rest)[1..] == l[1..] + [DOT] + rest;
      }
    }
  }

  /** Splitting undoes joining. */
  lemma {:induction false} SplitText(labels: seq<Label>)
    requires forall i :: 0 <= i < |labels| ==> Proper(labels[i])
    ensures Split(Text(labels)) == labels
    decreases |labels|
  {
    if |labels| == 1 {
      SplitLabel(labels[0], []);
      assert [] + labels[0] == labels[0];
    } else if |labels| > 1 {
      var l, rest := labels[0], labels[1..];
      assert labels == [l] + rest;
      TextCons(l, rest);
      SplitLabel(l, []);
      assert [] + l == l;
      SplitText(rest);
    }
  }

  lemma {:induction false} SplitProper(name: seq<byte>, pending: Label)
    requires DOT !in pending
    ensures forall i :: 0 <= i < |Split(name, pending)| ==> Proper(Split(name, pending)[i])
    ensures var labels := Split(name, pending);
      if labels == [] then pending == []
      else |Text(labels)| <= |pending| + |name| && 2 * |labels| <= |pending| + |name| + 1
    decreases |name|
  {
    if name != [] && name[0] == DOT {
      SplitProper(name[1..], []);
      var rest := Split(name[1..], []);
      if pending != [] {
        assert Split(name, pending) == [pending] + rest;
        if rest != [] {
          TextCons(pending, rest);
        }
      } else {
        assert Split(name, pending) == rest;
      }
    } else if name != [] {
      SplitProper(name[1..], pending + [name[0]]);
    }
  }

  /** Packing a name that fits a question and reading it back gives the name without its empty labels,
      packing that again gives the same bytes, and the step limit is out of reach. */
  lemma NameRoundTrip(name: seq<byte>, msg: seq<byte>, at: nat)
    requires |name| < NAME && Short(Split(name))
    requires var wire := Wire(Split(name)); at + |wire| <= |msg| && msg[at..at + |wire|] == wire
    ensures
      var text := Text(Split(name));
      && NameAt(msg, at, NAME) == Some(text)
      && PastName(msg, at) == at + |Wire(Split(name))|
      && Split(text) == Split(name)
      && |Split(name)| < LABELS
  {
    var labels := Split(name);
    SplitProper(name, []);
    SplitText(labels);
    WireSpells(msg, at, labels);
    ExpandComplete(msg, at, LABELS + 1, labels, |labels|);
  }

  // ----- What the packing loop relies on -----

  lemma {:induction false} BytesLength(labels: seq<Label>, more: seq<Label>)
    requires Short(labels + more)
    ensures Short(labels) && |Bytes(labels)| <= |Bytes(labels + more)|
    decreases |more|
  {
    assert forall i :: 0 <= i < |labels| ==> labels[i] == (labels + more)[i];
    if more == [] {
      assert labels + more == labels;
    } else {
      var init := more[..|more| - 1];
      assert (labels + more)[..|labels + more| - 1] == labels + init;
      BytesLength(labels, init);
    }
  }

  lemma BytesSnoc(labels: seq<Label>, l: Label)
    requires Short(labels) && |l| < LABEL
    ensures Short(labels + [l]) && Bytes(labels + [l]) == Bytes(labels) + [|l|] + l
  {
    assert (labels + [l])[..|labels|] == labels;
  }

  /** A label under construction only grows. */
  lemma {:induction false} SplitGrows(name: seq<byte>, pending: Label)
    requires pending != []
    ensures Split(name, pending) != [] && pending <= Split(name, pending)[0]
    decreases |name|
  {
    if name != [] && name[0] != DOT {
      SplitGrows(name[1..], pending + [name[0]]);
    }
  }
}
