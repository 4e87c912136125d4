/** Headers, questions and whole queries: sections 4.1.1 and 4.1.2 of RFC 1035, as src/dns/pack.c,
    src/dns/unpack.c, src/dns/dns.c and src/dns/resolve.c write and read them. */
module Messages {
  import opened Options
  import opened CStrings
  import opened Names
  import opened Packets

  const PACKET: nat := 4096     // DNS_PACKET
  const HEADER: nat := 12
  const IN: nat := 1            // DNS_IN

  // ----- Headers -----

  /** struct dns_header; the three `z` bits are neither written nor read. */
  datatype Header = Header(
    id: nat, qr: nat, opcode: nat, aa: nat, tc: nat, rd: nat, ra: nat, rcode: nat,
    qdcount: nat, ancount: nat, nscount: nat, arcount: nat)

  /** The widths of the bit fields. */
  predicate Fits(h: Header) {
    && h.id < 0x1_0000 && h.qdcount < 0x1_0000 && h.ancount < 0x1_0000 && h.nscount < 0x1_0000 && h.arcount < 0x1_0000
    && h.qr < 2 && h.aa < 2 && h.tc < 2 && h.rd < 2 && h.ra < 2
    && h.opcode < 16 && h.rcode < 16
  }

  function Flags(h: Header): (f: nat)
    requires Fits(h)
    ensures f < 0x1_0000
  {
    h.qr * 0x8000 + h.opcode * 0x800 + h.aa * 0x400 + h.tc * 0x200 + h.rd * 0x100 + h.ra * 0x80 + h.rcode
  }

  function HeaderBytes(h: Header): (s: seq<byte>)
    requires Fits(h)
    ensures |s| == HEADER
  {
    U16(h.id) + U16(Flags(h)) + U16(h.qdcount) + U16(h.ancount) + U16(h.nscount) + U16(h.arcount)
  }

  function HeaderOf(id: nat, flags: nat, qd: nat, an: nat, ns: nat, ar: nat): Header {
    Header(id, flags / 0x8000 % 2, flags / 0x800 % 16, flags / 0x400 % 2, flags / 0x200 % 2, flags / 0x100 % 2,
           flags / 0x80 % 2, flags % 16, qd, an, ns, ar)
  }

  function ParseHeader(msg: seq<byte>, at: nat): Header
    requires at + HEADER <= |msg|
  {
    HeaderOf(ReadU16(msg, at), ReadU16(msg, at + 2), ReadU16(msg, at + 4),
             ReadU16(msg, at + 6), ReadU16(msg, at + 8), ReadU16(msg, at + 10))
  }

  /** A field of width `w` (a number of values) above a remainder below `m`. */
  lemma Field(x: nat, high: nat, mid: nat, low: nat, w: nat, m: nat)
    requires mid < w && low < m && x == (high * w + mid) * m + low
    ensures x / m % w == mid
  {
    Quotient(x, high * w + mid, low, m);
    Quotient(high * w + mid, high, mid, w);
  }

  lemma Quotient(x: nat, q: nat, r: nat, m: nat)
    requires x == q * m + r && r < m
    ensures x / m == q && x % m == r
  {
    var d := x / m - q;
    assert d * m == r - x % m;
    assert 0 - m < d * m < m;
    assert d >= 1 ==> d * m >= m;
    assert d <= -1 ==> d * m <= 0 - m;
  }

  /** Reading the flags back gives the header, whatever the three z bits say. */
  lemma FlagsRoundTrip(h: Header, z: nat)
    requires Fits(h) && z < 8
    ensures HeaderOf(h.id, Flags(h) + z * 0x10, h.qdcount, h.ancount, h.nscount, h.arcount) == h
  {
    var f := Flags(h) + z * 0x10;
    var l7 := z * 0x10 + h.rcode;
    var l8 := h.ra * 0x80 + l7;
    var l9 := h.rd * 0x100 + l8;
    var l10 := h.tc * 0x200 + l9;
    var l11 := h.aa * 0x400 + l10;
    var l15 := h.opcode * 0x800 + l11;
    assert f / 0x8000 % 2 == h.qr by { Field(f, 0, h.qr, l15, 2, 0x8000); }
    assert f / 0x800 % 16 == h.opcode by { Field(f, h.qr, h.opcode, l11, 16, 0x800); }
    assert f / 0x400 % 2 == h.aa by { Field(f, h.qr * 16 + h.opcode, h.aa, l10, 2, 0x400); }
    assert f / 0x200 % 2 == h.tc by { Field(f, h.qr * 32 + h.opcode * 2 + h.aa, h.tc, l9, 2, 0x200); }
    assert f / 0x100 % 2 == h.rd by { Field(f, h.qr * 64 + h.opcode * 4 + h.aa * 2 + h.tc, h.rd, l8, 2, 0x100); }
    assert f / 0x80 % 2 == h.ra by {
      Field(f, h.qr * 128 + h.opcode * 8 + h.aa * 4 + h.tc * 2 + h.rd, h.ra, l7, 2, 0x80);
    }
    assert f % 16 == h.rcode;
  }

  lemma ReadAt(msg: seq<byte>, at: nat, front: seq<byte>, x: nat, back: seq<byte>)
    requires x < 0x1_0000 && at == |front| && msg == front + U16(x) + back
    ensures ReadU16(msg, at) == x
  {
    assert msg[at..at + 2] == U16(x);
    U16RoundTrip(x, msg, at);
  }

  /** Reading back a packed header gives the header. */
  lemma HeaderRoundTrip(h: Header, rest: seq<byte>)
    requires Fits(h)
    ensures ParseHeader(HeaderBytes(h) + rest, 0) == h
  {
    var msg := HeaderBytes(h) + rest;
    var a, b, c, d, e, f := U16(h.id), U16(Flags(h)), U16(h.qdcount), U16(h.ancount), U16(h.nscount), U16(h.arcount);
    assert msg == [] + a + (b + c + d + e + f + rest);
    ReadAt(msg, 0, [], h.id, b + c + d + e + f + rest);
    assert msg == a + b + (c + d + e + f + rest);
    ReadAt(msg, 2, a, Flags(h), c + d + e + f + rest);
    assert msg == (a + b) + c + (d + e + f + rest);
    ReadAt(msg, 4, a + b, h.qdcount, d + e + f + rest);
    assert msg == (a + b + c) + d + (e + f + rest);
    ReadAt(msg, 6, a + b + c, h.ancount, e + f + rest);
    assert msg == (a + b + c + d) + e + (f + rest);
    ReadAt(msg, 8, a + b + c + d, h.nscount, f + rest);
    assert msg == (a + b + c + d + e) + f + rest;
    ReadAt(msg, 10, a + b + c + d + e, h.arcount, rest);
    FlagsRoundTrip(h, 0);
  }

  /** dns_pack_header() */
  method PackHeader(pkt: Packet, h: Header) returns (err: int)
    requires pkt.Valid() && Fits(h)
    modifies pkt`ptr, pkt.buf
    ensures err == (if old(pkt.ptr) + HEADER > pkt.end then 1 else 0)
    ensures err == 0 ==>
      pkt.ptr == old(pkt.ptr) + HEADER && Written(old(pkt.buf[..]), pkt.buf[..], old(pkt.ptr), HeaderBytes(h))
  {
    var flags := h.qr * 0x8000 + h.opcode * 0x800 + h.aa * 0x400 + h.tc * 0x200 + h.rd * 0x100 + h.ra * 0x80 + h.rcode;
    assert flags == Flags(h);
    hide Written, HeaderBytes, U16, Flags;
    ghost var b0, p := pkt.buf[..], pkt.ptr;
    err := pkt.PackU16(h.id);
    if err != 0 { return; }
    ghost var b1 := pkt.buf[..];
    err := pkt.PackU16(flags);
    if err != 0 { return; }
    ghost var b2 := pkt.buf[..];
    err := pkt.PackU16(h.qdcount);
    if err != 0 { return; }
    ghost var b3 := pkt.buf[..];
    err := pkt.PackU16(h.ancount);
    if err != 0 { return; }
    ghost var b4 := pkt.buf[..];
    err := pkt.PackU16(h.nscount);
    if err != 0 { return; }
    ghost var b5 := pkt.buf[..];
    err := pkt.PackU16(h.arcount);
    if err != 0 { return; }
    HeaderWritten(b0, b1, b2, b3, b4, b5, pkt.buf[..], p, h);
  }

  lemma HeaderWritten(b0: seq<byte>, b1: seq<byte>, b2: seq<byte>, b3: seq<byte>, b4: seq<byte>, b5: seq<byte>,
                      b6: seq<byte>, p: nat, h: Header)
    requires Fits(h)
    requires Written(b0, b1, p, U16(h.id)) && Written(b1, b2, p + 2, U16(Flags(h)))
    requires Written(b2, b3, p + 4, U16(h.qdcount))
    requires Written(b3, b4, p + 6, U16(h.ancount)) && Written(b4, b5, p + 8, U16(h.nscount))
    requires Written(b5, b6, p + 10, U16(h.arcount))
    ensures Written(b0, b6, p, HeaderBytes(h))
  {
    hide Written, Flags;
    var a, b, c, d, e, f := U16(h.id), U16(Flags(h)), U16(h.qdcount), U16(h.ancount), U16(h.nscount), U16(h.arcount);
    WrittenTwice(b0, b1, b2, p, a, b);
    WrittenTwice(b0, b2, b3, p, a + b, c);
    WrittenTwice(b0, b3, b4, p, a + b + c, d);
    WrittenTwice(b0, b4, b5, p, a + b + c + d, e);
    WrittenTwice(b0, b5, b6, p, a + b + c + d + e, f);
  }

  /** dns_unpack_header() */
  method UnpackHeader(pkt: Packet) returns (err: int, h: Header)
    requires pkt.Valid()
    modifies pkt`ptr
    ensures err == (if old(pkt.ptr) + HEADER > pkt.end then 1 else 0)
    ensures err == 0 ==> pkt.ptr == old(pkt.ptr) + HEADER && h == ParseHeader(pkt.Msg(), old(pkt.ptr)) && Fits(h)
  {
    h := Header(0, 0, 0, 0, 0, 0, 0, 0, 0, 0, 0, 0);
    var id, flags, qd, an, ns, ar;
    err, id := pkt.UnpackU16();
    if err != 0 { return; }
    err, flags := pkt.UnpackU16();
    if err != 0 { return; }
    err, qd := pkt.UnpackU16();
    if err != 0 { return; }
    err, an := pkt.UnpackU16();
    if err != 0 { return; }
    err, ns := pkt.UnpackU16();
    if err != 0 { return; }
    err, ar := pkt.UnpackU16();
    if err != 0 { return; }
    h := HeaderOf(id, flags, qd, an, ns, ar);
  }

  // ----- Questions -----

  /** struct dns_question */
  datatype Question = Question(name: seq<byte>, qtype: nat, qclass: nat)

  predicate Askable(q: Question) {
    0 !in q.name && |q.name| < NAME && Short(Split(q.name)) && q.qtype < 0x1_0000 && q.qclass < 0x1_0000
  }

  function QuestionBytes(q: Question): seq<byte>
    requires Askable(q)
  {
    Wire(Split(q.name)) + U16(q.qtype) + U16(q.qclass)
  }

  function QuestionAt(msg: seq<byte>, at: nat): Option<Question> {
    match NameAt(msg, at, NAME)
    case None => None
    case Some(text) =>
      var p := PastName(msg, at);
      if p + 4 <= |msg| then Some(Question(CString(text), ReadU16(msg, p), ReadU16(msg, p + 2))) else None
  }

  /** dns_pack_question() */
  method PackQuestion(pkt: Packet, q: Question) returns (err: int)
    requires pkt.Valid() && pkt.ptr <= pkt.end
    requires 0 !in q.name && |q.name| < NAME && q.qtype < 0x1_0000 && q.qclass < 0x1_0000
    modifies pkt`ptr, pkt.buf
    ensures err == 0 <==> Askable(q) && old(pkt.ptr) + |QuestionBytes(q)| <= pkt.end
    ensures err == 0 ==>
      && pkt.ptr == old(pkt.ptr) + |QuestionBytes(q)|
      && Written(old(pkt.buf[..]), pkt.buf[..], old(pkt.ptr), QuestionBytes(q))
  {
    hide Written, Wire, Split;
    ghost var b0, p := pkt.buf[..], pkt.ptr;
    err := pkt.PackName(q.name);
    if err != 0 { return; }
    ghost var b1 := pkt.buf[..];
    err := pkt.PackU16(q.qtype);
    if err != 0 { return; }
    ghost var b2 := pkt.buf[..];
    err := pkt.PackU16(q.qclass);
    if err != 0 { return; }
    WrittenTwice(b0, b1, b2, p, Wire(Split(q.name)), U16(q.qtype));
    WrittenTwice(b0, b2, pkt.buf[..], p, Wire(Split(q.name)) + U16(q.qtype), U16(q.qclass));
  }

  /** dns_unpack_question() into a fresh struct dns_question. */
  method UnpackQuestion(pkt: Packet) returns (err: int, q: Question)
    requires pkt.Valid()
    modifies pkt`ptr
    ensures err == 0 <==> QuestionAt(pkt.Msg(), old(pkt.ptr)).Some?
    ensures err == 0 ==>
      q == QuestionAt(pkt.Msg(), old(pkt.ptr)).value && pkt.ptr == PastName(pkt.Msg(), old(pkt.ptr)) + 4
  {
    hide NameAt, PastName, CString, ReadU16;
    q := Question([], 0, 0);
    var qname := new byte[NAME];
    err := pkt.UnpackName(qname);
    if err != 0 { return; }
    ghost var n := |NameAt(pkt.Msg(), old(pkt.ptr), NAME).value|;
    CStringPrefix(qname[..], n);
    assert qname[..][..n] == qname[..n];
    var qtype, qclass;
    err, qtype := pkt.UnpackU16();
    if err != 0 { return; }
    err, qclass := pkt.UnpackU16();
    if err != 0 { return; }
    q := Question(CString(qname[..]), qtype, qclass);
  }

  /** The questions that dns_resolve_question() hands out one after the other, up to the first malformed
      one: at most `count` of them. */
  function Questions(msg: seq<byte>, at: nat, count: nat): seq<Question>
    decreases count
  {
    if count == 0 || QuestionAt(msg, at).None? then []
    else [QuestionAt(msg, at).value] + Questions(msg, PastName(msg, at) + 4, count - 1)
  }

  /** Calling dns_resolve_question() until it returns nonzero. */
  method ReadQuestions(pkt: Packet, qdcount: nat) returns (qs: seq<Question>)
    requires pkt.Valid()
    modifies pkt`ptr
    ensures qs == Questions(pkt.Msg(), old(pkt.ptr), qdcount)
  {
    hide QuestionAt, PastName;
    qs := [];
    var read := 0;
    ghost var msg, all := pkt.Msg(), Questions(pkt.Msg(), pkt.ptr, qdcount);
    assert [] + all == all;
    while read < qdcount
      invariant 0 <= read <= qdcount && pkt.Msg() == msg
      invariant all == qs + Questions(msg, pkt.ptr, qdcount - read)
    {
      ghost var at := pkt.ptr;
      var err, q := UnpackQuestion(pkt);
      if err != 0 {
        assert qs + [] == qs;
        return;
      }
      ghost var more := Questions(msg, pkt.ptr, qdcount - read - 1);
      assert qs + ([q] + more) == qs + [q] + more;
      read := read + 1;
      qs := qs + [q];
    }
    assert qs + [] == qs;
  }

  // ----- Queries -----

  /** The header of a query: dns_resolve_create() sets it up, dns_query_question() counts in it. */
  function QueryHeader(id: nat, qdcount: nat): Header {
    Header(id, 0, 0, 0, 0, 1, 0, 0, qdcount, 0, 0, 0)
  }

  predicate AllAskable(qs: seq<Question>) {
    forall i :: 0 <= i < |qs| ==> Askable(qs[i])
  }

  function QuestionsBytes(qs: seq<Question>): seq<byte>
    requires AllAskable(qs)
  {
    if qs == [] then [] else QuestionBytes(qs[0]) + QuestionsBytes(qs[1..])
  }

  /** The datagram for a query with these questions. */
  function Datagram(id: nat, qs: seq<Question>): seq<byte>
    requires AllAskable(qs) && id < 0x1_0000 && |qs| < 0x1_0000
  {
    HeaderBytes(QueryHeader(id, |qs|)) + QuestionsBytes(qs)
  }

  /** The question as the other side reads it: without the empty labels of its name. */
  function Normalised(q: Question): Question {
    q.(name := Text(Split(q.name)))
  }

  function AllNormalised(qs: seq<Question>): seq<Question> {
    if qs == [] then [] else [Normalised(qs[0])] + AllNormalised(qs[1..])
  }

  lemma {:induction false} QuestionsSnoc(qs: seq<Question>, q: Question)
    requires AllAskable(qs) && Askable(q)
    ensures AllAskable(qs + [q]) && QuestionsBytes(qs + [q]) == QuestionsBytes(qs) + QuestionBytes(q)
  {
    if qs == [] {
      assert [] + [q] == [q];
      assert [q][1..] == [];
      assert QuestionBytes(q) + [] == QuestionBytes(q);
    } else {
      assert (qs + [q])[1..] == qs[1..] + [q];
      QuestionsSnoc(qs[1..], q);
    }
  }

  /** Every question takes at least its zero byte, type and class. */
  lemma {:induction false} QuestionsLength(qs: seq<Question>)
    requires AllAskable(qs)
    ensures 5 * |qs| <= |QuestionsBytes(qs)|
  {
    if qs != [] {
      QuestionsLength(qs[1..]);
    }
  }

  lemma NormalText(name: seq<byte>)
    requires 0 !in name
    ensures CString(Text(Split(name))) == Text(Split(name))
  {
    SplitClean(name, []);
    TextClean(Split(name));
    CStringWhole(Text(Split(name)));
  }

  lemma {:induction false} SplitClean(name: seq<byte>, pending: Label)
    requires 0 !in name && 0 !in pending
    ensures forall i :: 0 <= i < |Split(name, pending)| ==> 0 !in Split(name, pending)[i]
    decreases |name|
  {
    if name != [] {
      SplitClean(name[1..], if name[0] == DOT then [] else pending + [name[0]]);
    }
  }

  lemma {:induction false} TextClean(labels: seq<Label>)
    requires forall i :: 0 <= i < |labels| ==> 0 !in labels[i]
    ensures 0 !in Text(labels)
    decreases |labels|
  {
    if |labels| > 1 {
      TextClean(labels[..|labels| - 1]);
    }
  }

  /** One packed question reads back, normalised, and reading goes on right behind it. */
  lemma QuestionRoundTrip(msg: seq<byte>, at: nat, q: Question)
    requires Askable(q)
    requires at + |QuestionBytes(q)| <= |msg| && msg[at..at + |QuestionBytes(q)|] == QuestionBytes(q)
    ensures QuestionAt(msg, at) == Some(Normalised(q))
    ensures PastName(msg, at) + 4 == at + |QuestionBytes(q)|
  {
    hide Split, Wire, NameAt, PastName, CString;
    var w := Wire(Split(q.name));
    var p := at + |w|;
    assert QuestionBytes(q) == w + (U16(q.qtype) + U16(q.qclass));
    Halve(msg, at, w, U16(q.qtype) + U16(q.qclass));
    Halve(msg, p, U16(q.qtype), U16(q.qclass));
    NameRoundTrip(q.name, msg, at);
    NormalText(q.name);
    U16RoundTrip(q.qtype, msg, p);
    U16RoundTrip(q.qclass, msg, p + 2);
  }

  lemma QuestionsNext(msg: seq<byte>, at: nat, q: Question, rest: seq<Question>)
    requires Askable(q) && QuestionAt(msg, at) == Some(Normalised(q))
    requires PastName(msg, at) + 4 == at + |QuestionBytes(q)|
    requires Questions(msg, at + |QuestionBytes(q)|, |rest|) == AllNormalised(rest)
    ensures Questions(msg, at, |[q] + rest|) == AllNormalised([q] + rest)
  {
    hide QuestionAt, QuestionBytes, Askable, Normalised, PastName;
    assert ([q] + rest)[1..] == rest;
  }

  lemma {:induction false} QuestionsRoundTrip(msg: seq<byte>, at: nat, qs: seq<Question>)
    requires AllAskable(qs)
    requires at + |QuestionsBytes(qs)| <= |msg| && msg[at..at + |QuestionsBytes(qs)|] == QuestionsBytes(qs)
    ensures Questions(msg, at, |qs|) == AllNormalised(qs)
    decreases |qs|
  {
    if qs != [] {
      assert QuestionsBytes(qs) == QuestionBytes(qs[0]) + QuestionsBytes(qs[1..]);
      hide QuestionAt, QuestionBytes, QuestionsBytes, Askable, Normalised, AllNormalised, PastName, Questions;
      Halve(msg, at, QuestionBytes(qs[0]), QuestionsBytes(qs[1..]));
      QuestionRoundTrip(msg, at, qs[0]);
      QuestionsRoundTrip(msg, at + |QuestionBytes(qs[0])|, qs[1..]);
      QuestionsNext(msg, at, qs[0], qs[1..]);
      assert [qs[0]] + qs[1..] == qs;
    }
  }

  /** The datagram of a query decodes to its id, to a recursive query with the right count, and to its
      questions with normalised names. */
  lemma QueryRoundTrip(id: nat, qs: seq<Question>)
    requires AllAskable(qs) && id < 0x1_0000 && |qs| < 0x1_0000
    ensures
      var msg := Datagram(id, qs);
      && ParseHeader(msg, 0) == QueryHeader(id, |qs|)
      && Questions(msg, HEADER, |qs|) == AllNormalised(qs)
  {
    hide ParseHeader, HeaderBytes, Questions, QuestionsBytes, AllNormalised;
    var msg := Datagram(id, qs);
    HeaderRoundTrip(QueryHeader(id, |qs|), QuestionsBytes(qs));
    assert msg[HEADER..] == QuestionsBytes(qs);
    QuestionsRoundTrip(msg, HEADER, qs);
  }

  /** The first twelve bytes of a query: its id, a standard query that asks for recursion, the number of questions, and
      no records; 16-bit numbers have their high byte first. */
  lemma QueryBytes(id: nat, qs: seq<Question>)
    requires AllAskable(qs) && id < 0x1_0000 && |qs| < 0x1_0000
    ensures var msg := Datagram(id, qs);
      && |msg| >= 12 && 256 * (msg[0] as int) + msg[1] == id && msg[2] == 1 && msg[3] == 0
      && 256 * (msg[4] as int) + msg[5] == |qs| && msg[6..12] == [0, 0, 0, 0, 0, 0]
  {
    var msg := Datagram(id, qs);
    var n := |qs|;
    assert HeaderBytes(QueryHeader(id, n)) == U16(id) + [1, 0] + U16(n) + [0, 0] + [0, 0] + [0, 0];
    hide QuestionsBytes, HeaderBytes, AllAskable;
    assert U16(id)[0] == msg[0] && U16(id)[1] == msg[1] && U16(n)[0] == msg[4] && U16(n)[1] == msg[5];
    assert msg[6..12] == [0, 0] + [0, 0] + [0, 0];
  }

  /** A question ends in its type and its class. */
  lemma QuestionEnds(q: Question)
    requires Askable(q)
    ensures var s := QuestionBytes(q); var n := |s|;
      n >= 5 && 256 * (s[n - 4] as int) + s[n - 3] == q.qtype && 256 * (s[n - 2] as int) + s[n - 1] == q.qclass
  {
    hide Split, Bytes;
    var w := Wire(Split(q.name));
    var s := QuestionBytes(q);
    assert s == w + U16(q.qtype) + U16(q.qclass);
    hide Wire;
  }

  /** Where the fields of a header lie in its twelve bytes. */
  lemma HeaderIsRead(msg: seq<byte>)
    requires |msg| >= 12
    ensures var h := ParseHeader(msg, 0);
      && h.id == 256 * (msg[0] as int) + msg[1]
      && h.qr == msg[2] / 128 && h.opcode == msg[2] / 8 % 16 && h.aa == msg[2] / 4 % 2 && h.tc == msg[2] / 2 % 2
      && h.rd == msg[2] % 2 && h.ra == msg[3] / 128 && h.rcode == msg[3] % 16
      && h.qdcount == 256 * (msg[4] as int) + msg[5] && h.ancount == 256 * (msg[6] as int) + msg[7]
      && h.nscount == 256 * (msg[8] as int) + msg[9] && h.arcount == 256 * (msg[10] as int) + msg[11]
  {
    FlagBits(msg[2], msg[3]);
  }

  /** A question is read where its name can be and four bytes follow: its type and then its class. */
  lemma QuestionIsRead(msg: seq<byte>, at: nat)
    ensures var p, q := PastName(msg, at), QuestionAt(msg, at);
      && (q.Some? <==> NameAt(msg, at, 255).Some? && p + 4 <= |msg|)
      && (q.Some? ==>
            && q.value.name == CString(NameAt(msg, at, 255).value)
            && q.value.qtype == 256 * (msg[p] as int) + msg[p + 1]
            && q.value.qclass == 256 * (msg[p + 2] as int) + msg[p + 3])
  {
    hide NameAt, PastName, CString;
  }

  lemma FlagBits(a: int, b: int)
    requires 0 <= a < 256 && 0 <= b < 256
    ensures var f := 256 * a + b;
      && f / 0x8000 % 2 == a / 128 && f / 0x800 % 16 == a / 8 % 16 && f / 0x400 % 2 == a / 4 % 2
      && f / 0x200 % 2 == a / 2 % 2 && f / 0x100 % 2 == a % 2 && f / 0x80 % 2 == b / 128 && f % 16 == b % 16
  {
    var f := 256 * a + b;
    HighBits(f, a, b);
    LowBits(f, a, b);
  }

  lemma HighBits(f: int, a: int, b: int)
    requires 0 <= a < 256 && 0 <= b < 256 && f == 256 * a + b
    ensures f / 0x8000 % 2 == a / 128 && f / 0x800 == a / 8
    ensures f / 0x400 == a / 4 && f / 0x200 == a / 2 && f / 0x100 == a
  {
    Scaled(f, a, b, 128);
    Quotient(a / 128, 0, a / 128, 2);
    Scaled(f, a, b, 8);
    Scaled(f, a, b, 4);
    Scaled(f, a, b, 2);
    Quotient(f, a, b, 256);
  }

  lemma LowBits(f: int, a: int, b: int)
    requires 0 <= a < 256 && 0 <= b < 256 && f == 256 * a + b
    ensures f / 0x80 % 2 == b / 128 && f % 16 == b % 16
  {
    var c := b / 128;
    Quotient(f, 2 * a + c, b % 128, 128);
    Quotient(2 * a + c, a, c, 2);
    Quotient(f, 16 * a + b / 16, b % 16, 16);
  }

  lemma Scaled(f: int, a: int, b: int, m: int)
    requires 0 <= a && 0 <= b < 256 && f == 256 * a + b && m > 0
    ensures f / (256 * m) == a / m
  {
    var q, r := a / m, a % m;
    assert f == q * (256 * m) + (256 * r + b) by {
      assert a == q * m + r;
      assert 256 * (q * m) == q * (256 * m);
    }
    assert 256 * r + b < 256 * m;
    Quotient(f, q, 256 * r + b, 256 * m);
  }

  /** dns_query(): cut the packet at the cursor, rewind, re-pack the header, send what there is. */
  method DnsQuery(pkt: Packet, h: Header) returns (err: int, datagram: seq<byte>)
    requires pkt.Valid() && pkt.ptr <= pkt.buf.Length && Fits(h)
    modifies pkt, pkt.buf
    ensures pkt.Valid() && pkt.end == old(pkt.ptr)
    ensures err == (if old(pkt.ptr) < HEADER then 1 else 0)
    ensures err == 0 ==> pkt.ptr == HEADER && datagram == HeaderBytes(h) + old(pkt.buf[..])[HEADER..old(pkt.ptr)]
  {
    hide HeaderBytes;
    pkt.end := pkt.ptr;
    pkt.ptr := 0;
    datagram := [];
    err := PackHeader(pkt, h);
    if err == 0 {
      datagram := pkt.buf[..pkt.end];
      ghost var before := old(pkt.buf[..]);
      assert pkt.buf[..] == before[..0] + HeaderBytes(h) + before[HEADER..];
      assert datagram == HeaderBytes(h) + before[HEADER..pkt.end];
    }
  }

  /** The query half of struct dns_resolve: the packet under construction and its header. `asked` are
      the questions packed so far. */
  class Query {
    const packet: Packet
    var header: Header
    ghost var asked: seq<Question>

    /** The packet holds a header's worth of bytes and then the questions, and the header counts them. */
    ghost predicate Valid()
      reads this, packet, packet.buf
    {
      && packet.end == packet.buf.Length == PACKET
      && AllAskable(asked) && |asked| < 0x1_0000
      && header == QueryHeader(header.id, |asked|) && header.id < 0x1_0000
      && packet.ptr == HEADER + |QuestionsBytes(asked)| <= PACKET
      && packet.buf[HEADER..packet.ptr] == QuestionsBytes(asked)
    }

    /** dns_resolve_create() */
    constructor ()
      ensures Valid() && asked == [] && fresh(packet) && fresh(packet.buf)
    {
      var p := new Packet(PACKET);
      var err := PackHeader(p, QueryHeader(0, 0));
      packet := p;
      header := QueryHeader(0, 0);
      asked := [];
    }

    /** dns_query_question(). A question is taken exactly when its name passes str_copy(), its labels
        are short enough, and it fits the packet. */
    method AddQuestion(name: seq<byte>, qtype: nat) returns (err: int)
      requires Valid() && 0 !in name && qtype < 0x1_0000
      modifies this`header, this`asked, packet`ptr, packet.buf
      ensures
        var q := Question(name, qtype, IN);
        && (err == 0 <==> Askable(q) && old(packet.ptr) + |QuestionBytes(q)| <= PACKET)
        && (err == 0 ==> Valid() && asked == old(asked) + [q] && header.id == old(header.id))
      ensures err == 0 ==>
        && packet.ptr >= 4 && packet.buf[packet.ptr - 2] == 0 && packet.buf[packet.ptr - 1] == 1
        && 256 * (packet.buf[packet.ptr - 4] as int) + packet.buf[packet.ptr - 3] == qtype
      ensures err != 0 ==> header == old(header) && asked == old(asked)
    {
      hide Split, Wire, QuestionBytes;
      if |name| >= NAME {
        return 1;
      }
      var q := Question(name, qtype, IN);
      err := PackQuestion(packet, q);
      if err != 0 {
        return 1;
      }
      QuestionsSnoc(asked, q);
      QuestionsLength(asked + [q]);
      QuestionEnds(q);
      ghost var before := old(packet.buf[..]);
      assert packet.buf[HEADER..packet.ptr] == before[HEADER..old(packet.ptr)] + QuestionBytes(q);
      assert before[HEADER..old(packet.ptr)] == old(packet.buf[HEADER..packet.ptr]);
      header := header.(qdcount := (header.qdcount + 1) % 0x1_0000);
      asked := asked + [q];
    }

    /** dns_resolve_query()'s dispatch, with the id it allocates. */
    method Send(id: nat) returns (err: int, datagram: seq<byte>)
      requires Valid() && id < 0x1_0000
      modifies this`header, packet, packet.buf
      ensures err == 0 && datagram == Datagram(id, asked)
      ensures header == QueryHeader(id, |asked|) && packet.Valid() && packet.ptr == HEADER <= packet.buf.Length
    {
      header := header.(id := id);
      err, datagram := DnsQuery(packet, header);
      assert old(packet.buf[..])[HEADER..old(packet.ptr)] == old(packet.buf[HEADER..packet.ptr]);
    }

    /** dns_resolve_retry()'s dispatch. The first one left the cursor behind the header, so this one
        cuts the packet there: what goes out again is the header alone, whatever was asked. */
    method Resend() returns (err: int, datagram: seq<byte>)
      requires packet.Valid() && packet.ptr == HEADER <= packet.buf.Length && Fits(header)
      modifies packet, packet.buf
      ensures err == 0 && datagram == HeaderBytes(header)
      ensures packet.Valid() && packet.ptr == HEADER <= packet.buf.Length
    {
      err, datagram := DnsQuery(packet, header);
      assert datagram == HeaderBytes(header) + [];
    }
  }

  /** dns_resolve_retry() counts on the old packet being intact. What it sends equals what was sent
      first exactly when there was nothing to ask. */
  lemma ResendEqualsSendIff(id: nat, qs: seq<Question>)
    requires AllAskable(qs) && id < 0x1_0000 && |qs| < 0x1_0000
    ensures HeaderBytes(QueryHeader(id, |qs|)) == Datagram(id, qs) <==> qs == []
  {
    QuestionsLength(qs);
    if qs == [] {
      assert HeaderBytes(QueryHeader(id, 0)) + [] == HeaderBytes(QueryHeader(id, 0));
    }
  }

  /** dns_response() once a datagram is there. */
  method DnsResponse(pkt: Packet, datagram: seq<byte>) returns (err: int, h: Header)
    requires |datagram| <= pkt.buf.Length
    modifies pkt, pkt.buf
    ensures pkt.Valid() && pkt.Msg() == datagram
    ensures err == (if |datagram| < HEADER then 1 else 0)
    ensures err == 0 ==> pkt.ptr == HEADER && h == ParseHeader(datagram, 0)
  {
    forall i | 0 <= i < |datagram| {
      pkt.buf[i] := datagram[i];
    }
    pkt.ptr := 0;
    pkt.end := |datagram|;
    assert pkt.Msg() == datagram;
    err, h := UnpackHeader(pkt);
  }
}
