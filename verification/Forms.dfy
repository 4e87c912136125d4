/** Form decoding of src/common/url.c: name/value pairs are split off a query string and unquoted, all in place
    in one shared buffer. */
module Forms {
  import opened Options
  import opened CStrings
  import opened Parser
  import Chunks

  const PERCENT: byte := 37
  const AMPERSAND: byte := 38
  const PLUS: byte := 43
  const EQUALS: byte := 61
  const SPACE: byte := 32

  // ----- Unquoting -----

  lemma ShortValue(s: seq<byte>)
    requires Chunks.AllHex(s) && |s| <= 2
    ensures Chunks.Value(s) < 256 && (|s| <= 1 ==> Chunks.Value(s) < 16)
  {
    if s != [] {
      assert Chunks.Value(s) == 16 * Chunks.Value(s[..|s| - 1]) + Chunks.Nibble(s[|s| - 1]);
      assert |s| == 2 ==> Chunks.Value(s[..1]) == 16 * Chunks.Value([]) + Chunks.Nibble(s[0]);
    }
  }

  lemma ShortScan(s: seq<byte>)
    requires |s| == 2
    ensures Chunks.ScanHex(s).Some? ==>
      var n := Chunks.ScanHex(s).value; n < 256 || Chunks.SIZE_MAX - 16 < n <= Chunks.SIZE_MAX
  {
    var t := Chunks.SkipSpace(s);
    hide Chunks.Value, Chunks.HexPrefix, Chunks.SkipSpace;
    var signed := t != [] && (t[0] == 43 || t[0] == 45);
    var u := if signed then t[1..] else t;
    var v := if |u| >= 2 && u[0] == 48 && (u[1] == 120 || u[1] == 88) then u[2..] else u;
    var p := Chunks.HexPrefix(v);
    assert |p| <= |v| <= |u| <= 2 && (signed ==> |u| <= 1);
    ShortValue(p);
  }

  /** sscanf("%x") of two characters, as a byte; 0 is refused. */
  function HexByte(a: byte, b: byte): Option<byte> {
    match Chunks.ScanHex([a, b])
    case None => None
    case Some(n) => if n % 0x1_0000_0000 == 0 then None else Some(n % 0x1_0000_0000 % 256)
  }

  /** No escape inserts a NUL. */
  lemma EscapeIsNotNul(a: byte, b: byte)
    ensures HexByte(a, b) != Some(0)
  {
    ShortScan([a, b]);
    hide Chunks.ScanHex;
  }

  /** Whether the text was unquoted to its end, and what was put out. */
  datatype Unquoted = Unquoted(ok: bool, out: seq<byte>)

  function Put(bytes: seq<byte>, u: Unquoted): Unquoted {
    u.(out := bytes + u.out)
  }

  function Unquoting(s: seq<byte>): (u: Unquoted)
    ensures |u.out| <= |s| && (u.ok && u.out == [] ==> s == [])
  {
    if s == [] then Unquoted(true, [])
    else if s[0] == PLUS then Put([SPACE], Unquoting(s[1..]))
    else if s[0] != PERCENT then Put([s[0]], Unquoting(s[1..]))
    else if |s| < 3 then Unquoted(false, [])
    else
      match HexByte(s[1], s[2])
      case None => Unquoted(false, [])
      case Some(b) => Put([b], Unquoting(s[3..]))
  }

  /** What the caller finds in the buffer: after a bad escape the rest has not been terminated. */
  function Lenient(s: seq<byte>): seq<byte> {
    var u := Unquoting(s);
    if u.ok then u.out else u.out + s[|u.out|..]
  }

  // ----- Splitting -----

  const NAME: int := 0
  const VALUE: int := 1
  const NEXT: int := 2
  const END: int := 3

  const NAME_FIELD: nat := 0
  const VALUE_FIELD: nat := 1
  const NEXT_FIELD: nat := 2
  const FIELDS: nat := 3

  const GROUPS := [
    [Take(NAME, EQUALS, VALUE, NAME_FIELD), Take(NAME, AMPERSAND, NEXT, NAME_FIELD), Take(NAME, 0, END, NAME_FIELD)],
    [Take(VALUE, AMPERSAND, NEXT, VALUE_FIELD), Take(VALUE, 0, END, VALUE_FIELD)],
    [Take(NEXT, 0, NEXT, NEXT_FIELD)]]

  /** The table of url_decode() */
  function Table(): (rules: seq<Rule>)
    ensures StoresIn(rules, FIELDS)
    ensures rules != [] && Sentinel(rules[|rules| - 1])
  {
    FlattenStores(GROUPS, FIELDS);
    Flatten(GROUPS)
  }

  datatype Item = Item(name: seq<byte>, value: Option<seq<byte>>)

  /** The first item of a query string, still quoted, and the query string after it. */
  datatype Split = Split(item: Item, next: Option<seq<byte>>)

  function SplitItem(t: seq<byte>): (r: Split)
    ensures r.next.Some? ==> |r.next.value| < |t|
  {
    var k := First(t, {EQUALS, AMPERSAND});
    if k == |t| then Split(Item(t, None), None)
    else if t[k] == AMPERSAND then Split(Item(t[..k], None), Some(t[k + 1..]))
    else
      var u := t[k + 1..];
      var m := First(u, {AMPERSAND});
      if m == |u| then Split(Item(t[..k], Some(u)), None)
      else Split(Item(t[..k], Some(u[..m])), Some(u[m + 1..]))
  }

  function Clean(item: Item): Item {
    Item(Lenient(item.name), if item.value.Some? then Some(Lenient(item.value.value)) else None)
  }

  /** Everything that can be decoded from a query string. */
  function Items(t: seq<byte>): seq<Item>
    decreases |t|
  {
    if t == [] then []
    else
      var r := SplitItem(t);
      [Clean(r.item)] + if r.next.Some? then Items(r.next.value) else []
  }

  lemma Row(state: int)
    requires NAME <= state <= NEXT
    ensures forall c :: Lookup(Table(), state, c) == Pick(GROUPS[state], state, c)
  {
    assert forall i :: 0 <= i < |GROUPS| ==> GroupOf(GROUPS[i], 0 + i) && |GROUPS[i]| <= 4;
    RowOf(GROUPS, state);
  }

  lemma NamePicks()
    ensures forall b: byte :: b != 0 && b !in {EQUALS, AMPERSAND} ==> Lookup(Table(), NAME, Signed(b)) == None
    ensures Lookup(Table(), NAME, Signed(EQUALS)) == Some(Take(NAME, EQUALS, VALUE, NAME_FIELD))
    ensures Lookup(Table(), NAME, Signed(AMPERSAND)) == Some(Take(NAME, AMPERSAND, NEXT, NAME_FIELD))
    ensures Lookup(Table(), NAME, 0) == Some(Take(NAME, 0, END, NAME_FIELD))
  {
    hide Table, Lookup;
    Row(NAME);
  }

  lemma ValuePicks()
    ensures forall b: byte :: b != 0 && b !in {AMPERSAND} ==> Lookup(Table(), VALUE, Signed(b)) == None
    ensures Lookup(Table(), VALUE, Signed(AMPERSAND)) == Some(Take(VALUE, AMPERSAND, NEXT, VALUE_FIELD))
    ensures Lookup(Table(), VALUE, 0) == Some(Take(VALUE, 0, END, VALUE_FIELD))
  {
    hide Table, Lookup;
    Row(VALUE);
  }

  lemma NextPicks()
    ensures forall b: byte :: b != 0 ==> Lookup(Table(), NEXT, Signed(b)) == None
    ensures Lookup(Table(), NEXT, 0) == Some(Take(NEXT, 0, NEXT, NEXT_FIELD))
  {
    hide Table, Lookup;
    Row(NEXT);
  }

  /** `text` is the string at `at`. */
  ghost predicate Placed(s: seq<byte>, at: nat, text: seq<byte>) {
    Terminated(s, at, at + |text|) && s[at..at + |text|] == text
  }

  /** Where the strings are once the first item has been split off: one after the other, up to `end`. */
  ghost predicate SplitAt(s: seq<byte>, token: nat, end: nat, slots: seq<Option<nat>>, r: Split) {
    && |slots| == FIELDS && slots[NAME_FIELD] == Some(token)
    && Placed(s, token, r.item.name)
    && (slots[VALUE_FIELD].Some? <==> r.item.value.Some?)
    && (slots[VALUE_FIELD].Some? ==>
          && slots[VALUE_FIELD].value == token + |r.item.name| + 1
          && Placed(s, slots[VALUE_FIELD].value, r.item.value.value))
    && (slots[NEXT_FIELD].Some? <==> r.next.Some?)
    && (slots[NEXT_FIELD].Some? ==>
          && slots[NEXT_FIELD].value + |r.next.value| == end
          && Placed(s, slots[NEXT_FIELD].value, r.next.value)
          && token + |r.item.name| < slots[NEXT_FIELD].value
          && (r.item.value.Some? ==> slots[VALUE_FIELD].value + |r.item.value.value| < slots[NEXT_FIELD].value))
  }

  function Slots(name: Option<nat>, value: Option<nat>, next: Option<nat>): (slots: seq<Option<nat>>)
    ensures |slots| == FIELDS
    ensures slots[NAME_FIELD] == name && slots[VALUE_FIELD] == value && slots[NEXT_FIELD] == next
  {
    [name, value, next]
  }

  const NO_SLOTS := Slots(None, None, None)

  lemma SlotsAre(slots: seq<Option<nat>>)
    requires |slots| == FIELDS
    ensures slots == Slots(slots[NAME_FIELD], slots[VALUE_FIELD], slots[NEXT_FIELD])
  {
  }

  lemma TerminatedLater(s: seq<byte>, at: nat, k: nat, end: nat)
    requires Terminated(s, at, end) && at <= k < end
    ensures Terminated(s, k, end) && Terminated(s[k := 0], k + 1, end) && s[k] != 0
  {
  }

  lemma NextState(s: seq<byte>, token: nat, end: nat, slots: seq<Option<nat>>)
    requires Terminated(s, token, end) && |slots| == FIELDS
    ensures Scan(Table(), s, token, end, token, NEXT, slots) == Parsing(s, slots[NEXT_FIELD := Some(token)], NEXT)
  {
    hide Table, Scan, Lookup;
    NextPicks();
    TokenContinues(Table(), s, token, end, token, NEXT, slots, end);
    ScanEnd(Table(), s, end, token, NEXT, slots);
  }

  lemma ValueState(s: seq<byte>, token: nat, end: nat, slots: seq<Option<nat>>)
    requires Terminated(s, token, end) && |slots| == FIELDS
    ensures var m := token + First(s[token..end], {AMPERSAND});
      var stored := slots[VALUE_FIELD := Some(token)];
      Scan(Table(), s, token, end, token, VALUE, slots) ==
      if m == end then Parsing(s, stored, END) else Parsing(s[m := 0], stored[NEXT_FIELD := Some(m + 1)], NEXT)
  {
    hide Table, Scan, Lookup;
    ValuePicks();
    hide First, Terminated;
    var m := Advance(Table(), s, token, token, end, VALUE, slots, {AMPERSAND});
    if m == end {
      ScanEnd(Table(), s, end, token, VALUE, slots);
    } else {
      ValueEnds(s, token, m, end, slots);
    }
  }

  lemma ValueEnds(s: seq<byte>, token: nat, m: nat, end: nat, slots: seq<Option<nat>>)
    requires Terminated(s, m, end) && m < end && s[m] == AMPERSAND && |slots| == FIELDS
    ensures Scan(Table(), s, m, end, token, VALUE, slots) ==
            Parsing(s[m := 0], slots[VALUE_FIELD := Some(token)][NEXT_FIELD := Some(m + 1)], NEXT)
  {
    TerminatedLater(s, m, m, end);
    hide Table, Scan, Lookup, Terminated;
    ValuePicks();
    ScanStep(Table(), s, m, end, token, VALUE, slots);
    NextState(s[m := 0], m + 1, end, slots[VALUE_FIELD := Some(token)]);
  }

  lemma NameEnds(s: seq<byte>, token: nat, k: nat, end: nat)
    requires Terminated(s, k, end) && k < end && (s[k] == EQUALS || s[k] == AMPERSAND)
    ensures Scan(Table(), s, k, end, token, NAME, NO_SLOTS) ==
            Scan(Table(), s[k := 0], k + 1, end, k + 1, if s[k] == EQUALS then VALUE else NEXT,
                 Slots(Some(token), None, None))
  {
    hide Table, Scan, Lookup, Slots;
    NamePicks();
    ScanStep(Table(), s, k, end, token, NAME, NO_SLOTS);
    SlotsAre(NO_SLOTS[NAME_FIELD := Some(token)]);
  }

  lemma NameState(s: seq<byte>, token: nat, end: nat)
    requires Terminated(s, token, end)
    ensures var k := token + First(s[token..end], {EQUALS, AMPERSAND});
      Scan(Table(), s, token, end, token, NAME, NO_SLOTS) ==
      if k == end then Parsing(s, Slots(Some(token), None, None), END)
      else Scan(Table(), s[k := 0], k + 1, end, k + 1, if s[k] == EQUALS then VALUE else NEXT,
                Slots(Some(token), None, None))
  {
    hide Table, Scan, Lookup, Slots, First, Terminated;
    NamePicks();
    var k := Advance(Table(), s, token, token, end, NAME, NO_SLOTS, {EQUALS, AMPERSAND});
    if k == end {
      ScanEnd(Table(), s, end, token, NAME, NO_SLOTS);
      SlotsAre(NO_SLOTS[NAME_FIELD := Some(token)]);
    } else {
      NameEnds(s, token, k, end);
    }
  }

  lemma PlacedBefore(s: seq<byte>, token: nat, k: nat, end: nat)
    requires Terminated(s, token, end) && token <= k < end
    ensures Placed(s[k := 0], token, s[token..k]) && Placed(s[k := 0], k + 1, s[k + 1..end])
    ensures Terminated(s[k := 0], k + 1, end) && s[k := 0][k + 1..end] == s[k + 1..end]
  {
  }

  lemma PlacedKept(s: seq<byte>, t: seq<byte>, at: nat, text: seq<byte>)
    requires Placed(s, at, text) && at + |text| < |t| && s[at..at + |text| + 1] == t[at..at + |text| + 1]
    ensures Placed(t, at, text)
  {
    assert forall i :: at <= i <= at + |text| ==> s[i] == s[at..at + |text| + 1][i - at] == t[i];
  }

  /** A name alone. */
  lemma SplitLast(s: seq<byte>, token: nat, end: nat)
    requires Terminated(s, token, end) && First(s[token..end], {EQUALS, AMPERSAND}) == end - token
    ensures SplitAt(s, token, end, Slots(Some(token), None, None), SplitItem(s[token..end]))
  {
    hide First;
    assert Placed(s, token, s[token..end]);
  }

  /** A name, and more items. */
  lemma SplitName(s: seq<byte>, token: nat, k: nat, end: nat)
    requires Terminated(s, token, end) && token <= k < end && s[k] == AMPERSAND
    requires First(s[token..end], {EQUALS, AMPERSAND}) == k - token
    ensures SplitAt(s[k := 0], token, end, Slots(Some(token), None, Some(k + 1)), SplitItem(s[token..end]))
  {
    PlacedBefore(s, token, k, end);
    var t := s[token..end];
    assert t[k - token] == AMPERSAND && t[..k - token] == s[token..k] && t[k - token + 1..] == s[k + 1..end];
    hide First, Placed, Terminated;
  }

  lemma SplitOfLastValue(s: seq<byte>, token: nat, k: nat, end: nat)
    requires token <= k < end <= |s| && s[k] == EQUALS
    requires First(s[token..end], {EQUALS, AMPERSAND}) == k - token
    requires First(s[k + 1..end], {AMPERSAND}) == end - (k + 1)
    ensures SplitItem(s[token..end]) == Split(Item(s[token..k], Some(s[k + 1..end])), None)
  {
    hide First;
    var t := s[token..end];
    assert t[k - token] == EQUALS && t[..k - token] == s[token..k] && t[k - token + 1..] == s[k + 1..end];
  }

  /** A name and a value. */
  lemma SplitLastValue(s: seq<byte>, token: nat, k: nat, end: nat)
    requires Terminated(s, token, end) && token <= k < end && s[k] == EQUALS
    requires First(s[token..end], {EQUALS, AMPERSAND}) == k - token
    requires First(s[k + 1..end], {AMPERSAND}) == end - (k + 1)
    ensures SplitAt(s[k := 0], token, end, Slots(Some(token), Some(k + 1), None), SplitItem(s[token..end]))
  {
    hide First, SplitItem;
    SplitOfLastValue(s, token, k, end);
    PlacedBefore(s, token, k, end);
    hide Placed, Terminated;
  }

  /** A name and a value, and more items. */
  lemma SplitValue(s: seq<byte>, token: nat, k: nat, m: nat, end: nat)
    requires Terminated(s, token, end) && token <= k < m < end && s[k] == EQUALS
    requires First(s[token..end], {EQUALS, AMPERSAND}) == k - token
    requires First(s[k + 1..end], {AMPERSAND}) == m - (k + 1)
    ensures SplitAt(s[k := 0][m := 0], token, end, Slots(Some(token), Some(k + 1), Some(m + 1)),
                    SplitItem(s[token..end]))
  {
    hide First, SplitItem;
    var cut := s[k := 0];
    SplitOfValue(s, token, k, m, end);
    PlacedBefore(s, token, k, end);
    PlacedBefore(cut, k + 1, m, end);
    PlacedKept(cut, cut[m := 0], token, s[token..k]);
    assert cut[k + 1..m] == s[k + 1..m] && cut[m + 1..end] == s[m + 1..end];
    hide Placed, Terminated;
  }

  lemma SplitOfValue(s: seq<byte>, token: nat, k: nat, m: nat, end: nat)
    requires token <= k < m < end <= |s| && s[k] == EQUALS
    requires First(s[token..end], {EQUALS, AMPERSAND}) == k - token
    requires First(s[k + 1..end], {AMPERSAND}) == m - (k + 1)
    ensures SplitItem(s[token..end]) == Split(Item(s[token..k], Some(s[k + 1..m])), Some(s[m + 1..end]))
  {
    hide First;
    var t, u := s[token..end], s[k + 1..end];
    assert t[k - token] == EQUALS && t[..k - token] == s[token..k] && t[k - token + 1..] == u;
    assert u[..m - (k + 1)] == s[k + 1..m] && u[m - (k + 1) + 1..] == s[m + 1..end];
  }

  /** The parse of url_decode() splits off the first item, and always ends in one of two states. */
  lemma ItemIsSplitOff(s: seq<byte>, token: nat, end: nat)
    requires Terminated(s, token, end)
    ensures var p := Scan(Table(), s, token, end, token, NAME, NO_SLOTS);
      SplitAt(p.s, token, end, p.slots, SplitItem(s[token..end])) && (p.state == NEXT || p.state == END)
  {
    hide Table, Scan, First, SplitAt, SplitItem, Slots;
    var t := s[token..end];
    var k := token + First(t, {EQUALS, AMPERSAND});
    NameState(s, token, end);
    if k == end {
      SplitLast(s, token, end);
    } else {
      assert s[k] == t[k - token];
      var cut := s[k := 0];
      if s[k] == AMPERSAND {
        SlotsAre(Slots(Some(token), None, None)[NEXT_FIELD := Some(k + 1)]);
        NextState(cut, k + 1, end, Slots(Some(token), None, None));
        SplitName(s, token, k, end);
      } else {
        ValueIsSplitOff(s, token, k, end);
      }
    }
  }

  /** The parse from the equals sign on. */
  lemma ValueIsSplitOff(s: seq<byte>, token: nat, k: nat, end: nat)
    requires Terminated(s, token, end) && token <= k < end < |s| && s[k] == EQUALS
    requires First(s[token..end], {EQUALS, AMPERSAND}) == k - token && Terminated(s[k := 0], k + 1, end)
    ensures var p := Scan(Table(), s[k := 0], k + 1, end, k + 1, VALUE, Slots(Some(token), None, None));
      SplitAt(p.s, token, end, p.slots, SplitItem(s[token..end])) && (p.state == NEXT || p.state == END)
  {
    hide Table, Scan, First, SplitAt, SplitItem, Slots, Terminated;
    var cut, u := s[k := 0], s[k + 1..end];
    var m := k + 1 + First(u, {AMPERSAND});
    assert u == cut[k + 1..end];
    ValueState(cut, k + 1, end, Slots(Some(token), None, None));
    if m == end {
      SplitLastValue(s, token, k, end);
      SlotsAre(Slots(Some(token), None, None)[VALUE_FIELD := Some(k + 1)]);
    } else {
      SplitValue(s, token, k, m, end);
      SlotsAre(Slots(Some(token), None, None)[VALUE_FIELD := Some(k + 1)][NEXT_FIELD := Some(m + 1)]);
    }
  }

  // ----- Decoding in place -----

  /** url_unquote_hex(): the escape at `at`, put out at `put`. */
  method UnquoteHex(buf: array<byte>, at: nat, put: nat, ghost end: nat) returns (err: int, next: nat)
    requires Terminated(buf[..], at, end) && put < at
    modifies buf
    ensures err == 0 || err == 1
    ensures err == 0 <==> at + 2 <= end && HexByte(old(buf[at]), old(buf[at + 1])).Some?
    ensures err == 0 ==>
      next == at + 2 && buf[..] == old(buf[..])[put := HexByte(old(buf[at]), old(buf[at + 1])).value]
    ensures err != 0 ==> buf[..] == old(buf[..])
  {
    hide HexByte;
    next := at;
    var a := buf[at];
    if a == 0 {
      return 1, at + 1;
    }
    var b := buf[at + 1];
    if b == 0 {
      return 1, at + 2;
    }
    match HexByte(a, b) {
      case None =>
        return 1, at + 2;
      case Some(v) =>
        buf[put] := v;
        return 0, at + 2;
    }
  }

  /** Up to `inp` the string at `str` has been unquoted, to what is now before `out`. */
  ghost predicate Progress(s: seq<byte>, t: seq<byte>, str: nat, out: nat, inp: nat, end: nat) {
    && str <= out <= inp <= end < |s| == |t| && t[..str] == s[..str] && t[out..] == s[out..] && 0 !in t[str..out]
    && Unquoting(s[str..end]) == Put(t[str..out], Unquoting(s[inp..end]))
  }

  lemma PutByte(s: seq<byte>, t: seq<byte>, str: nat, out: nat, inp: nat, end: nat, b: byte, next: nat)
    requires Progress(s, t, str, out, inp, end) && inp < next <= end && b != 0
    requires Unquoting(s[inp..end]) == Put([b], Unquoting(s[next..end]))
    ensures Progress(s, t[out := b], str, out + 1, next, end)
  {
    hide Unquoting;
    var w := t[out := b];
    assert w[str..out + 1] == t[str..out] + [b];
    assert w[out + 1..] == t[out..][1..] == s[out..][1..] == s[out + 1..];
    assert t[str..out] + ([b] + Unquoting(s[next..end]).out) == w[str..out + 1] + Unquoting(s[next..end]).out;
  }

  /** What has not been unquoted yet is as it was. */
  lemma Ahead(s: seq<byte>, t: seq<byte>, str: nat, out: nat, inp: nat, end: nat)
    requires Progress(s, t, str, out, inp, end) && Terminated(s, str, end)
    ensures Terminated(s, inp, end) && Terminated(t, inp, end) && (forall i :: inp <= i <= end ==> t[i] == s[i])
    ensures t[inp] == 0 <==> inp == end
    ensures t[..str] == s[..str] && t[end..] == s[end..]
  {
    assert forall i :: out <= i < |s| ==> t[i] == t[out..][i - out] == s[out..][i - out] == s[i];
  }

  /** The next character, or escape. */
  lemma NextQuoted(s: seq<byte>, inp: nat, end: nat)
    requires Terminated(s, inp, end) && inp < end
    ensures s[inp] == PLUS ==> Unquoting(s[inp..end]) == Put([SPACE], Unquoting(s[inp + 1..end]))
    ensures s[inp] != PLUS && s[inp] != PERCENT ==> Unquoting(s[inp..end]) == Put([s[inp]], Unquoting(s[inp + 1..end]))
    ensures s[inp] == PERCENT ==>
      if inp + 3 <= end && HexByte(s[inp + 1], s[inp + 2]).Some?
      then Unquoting(s[inp..end]) == Put([HexByte(s[inp + 1], s[inp + 2]).value], Unquoting(s[inp + 3..end]))
      else Unquoting(s[inp..end]) == Unquoted(false, [])
  {
    hide HexByte;
    var t := s[inp..end];
    assert t[1..] == s[inp + 1..end];
    assert |t| >= 3 ==> t[3..] == s[inp + 3..end] && t[1] == s[inp + 1] && t[2] == s[inp + 2];
  }

  lemma AllPut(s: seq<byte>, t: seq<byte>, str: nat, out: nat, end: nat)
    requires Progress(s, t, str, out, end, end)
    ensures Unquoting(s[str..end]).ok && CString(t[out := 0][str..]) == Lenient(s[str..end])
  {
    assert s[end..end] == [];
    assert Unquoting(s[str..end]).out == t[str..out];
    CStringPrefix(t[out := 0][str..], out - str);
    assert t[out := 0][str..][..out - str] == t[str..out];
    CStringWhole(t[str..out]);
  }

  lemma HalfUnquoted(s: seq<byte>, t: seq<byte>, str: nat, out: nat, end: nat)
    requires str <= out <= end < |s| == |t| && t[out..] == s[out..] && 0 !in t[str..out] && Terminated(s, out, end)
    ensures CString(t[str..]) == t[str..out] + s[str..end][out - str..]
  {
    assert forall i :: str <= i < out ==> t[i] == t[str..out][i - str];
    assert forall i :: out <= i <= end ==> t[i] == t[out..][i - out] == s[out..][i - out] == s[i];
    CStringEnds(t, str, end);
    assert s[str..end][out - str..] == s[out..end] == t[out..end];
    assert t[str..end] == t[str..out] + t[out..end];
  }

  lemma BadEscape(s: seq<byte>, t: seq<byte>, str: nat, out: nat, inp: nat, end: nat)
    requires Progress(s, t, str, out, inp, end) && Terminated(s, str, end)
    requires Unquoting(s[inp..end]) == Unquoted(false, [])
    ensures !Unquoting(s[str..end]).ok && CString(t[str..]) == Lenient(s[str..end])
  {
    hide Unquoting;
    HalfUnquoted(s, t, str, out, end);
    assert t[str..out] + [] == t[str..out];
  }

  /** url_unquote(): the string at `str` becomes what it stands for; nothing outside it is touched. */
  method Unquote(buf: array<byte>, str: nat, ghost end: nat) returns (err: int)
    requires Terminated(buf[..], str, end)
    modifies buf
    ensures buf[..str] == old(buf[..str]) && buf[end..] == old(buf[end..])
    ensures err == (if Unquoting(old(buf[str..end])).ok then 0 else -1)
    ensures CString(buf[str..]) == Lenient(old(buf[str..end]))
  {
    hide HexByte, Unquoting, Lenient, Progress;
    var inp: nat, out: nat := str, str;
    ghost var s := buf[..];
    NoProgress(s, str, end);
    Ahead(s, s, str, str, str, end);
    while buf[inp] != 0
      invariant str <= out <= inp <= end < buf.Length
      invariant Progress(s, buf[..], str, out, inp, end) && Terminated(s, inp, end) && Terminated(buf[..], inp, end)
      decreases end - inp
    {
      ghost var t, at := buf[..], inp;
      Ahead(s, t, str, out, inp, end);
      NextQuoted(s, inp, end);
      var c := buf[inp];
      inp := inp + 1;
      if c == PLUS {
        buf[out] := SPACE;
        PutByte(s, t, str, out, at, end, SPACE, inp);
      } else if c == PERCENT {
        var e;
        e, inp := UnquoteHex(buf, inp, out, end);
        if e != 0 {
          BadEscape(s, t, str, out, at, end);
          return -1;
        }
        EscapeIsNotNul(s[at + 1], s[at + 2]);
        PutByte(s, t, str, out, at, end, HexByte(s[at + 1], s[at + 2]).value, inp);
      } else {
        buf[out] := c;
        PutByte(s, t, str, out, at, end, c, inp);
      }
      out := out + 1;
      Ahead(s, buf[..], str, out, inp, end);
    }
    Ahead(s, buf[..], str, out, inp, end);
    AllPut(s, buf[..], str, out, end);
    buf[out] := 0;
    return 0;
  }

  lemma NoProgress(s: seq<byte>, str: nat, end: nat)
    requires Terminated(s, str, end)
    ensures Progress(s, s, str, str, str, end)
  {
    hide Unquoting;
    assert Put([], Unquoting(s[str..end])) == Unquoting(s[str..end]);
  }

  /** An item whose strings are pointed to. */
  function ItemAt(s: seq<byte>, name: Option<nat>, value: Option<nat>): Item
    requires name.Some?
  {
    Item(Field(s, name).value, Field(s, value))
  }

  lemma PlacedFrame(s: seq<byte>, t: seq<byte>, from: nat, at: nat, text: seq<byte>)
    requires Placed(s, at, text) && from <= at && |t| == |s| && from <= |s| && t[from..] == s[from..]
    ensures Placed(t, at, text)
  {
    assert forall i :: from <= i < |s| ==> t[i] == t[from..][i - from] == s[from..][i - from] == s[i];
  }

  lemma UnquotedEnds(s: seq<byte>, t: seq<byte>, at: nat, text: seq<byte>, later: nat)
    requires Placed(s, at, text) && |t| == |s| && at + |text| < later <= |s| && t[at + |text|..] == s[at + |text|..]
    ensures 0 in t[..later][at..]
  {
    assert t[..later][at..][|text|] == t[at + |text|..][0] == s[at + |text|..][0] == 0;
  }

  /** After the name, in `s2`, and the value, in `s3`, have been unquoted. */
  ghost predicate UnquotedIn(s1: seq<byte>, s2: seq<byte>, s3: seq<byte>, token: nat, slots: seq<Option<nat>>, r: Split)
    requires |slots| == FIELDS
  {
    var nameEnd := token + |r.item.name|;
    && |s1| == |s2| == |s3| && nameEnd < |s1|
    && s2[..token] == s1[..token] && s2[nameEnd..] == s1[nameEnd..] && CString(s2[token..]) == Lenient(r.item.name)
    && match r.item.value
       case None => s3 == s2
       case Some(v) =>
         && slots[VALUE_FIELD].Some?
         && var at := slots[VALUE_FIELD].value;
         && at + |v| < |s1|
         && s3[..at] == s2[..at] && s3[at + |v|..] == s2[at + |v|..] && CString(s3[at..]) == Lenient(v)
  }

  lemma StringsAt(s: seq<byte>, token: nat, end: nat, slots: seq<Option<nat>>, r: Split)
    requires SplitAt(s, token, end, slots, r)
    ensures |slots| == FIELDS && slots[NAME_FIELD] == Some(token)
    ensures slots[VALUE_FIELD].Some? <==> r.item.value.Some?
    ensures slots[NEXT_FIELD].Some? <==> r.next.Some?
    ensures var nameEnd := token + |r.item.name|;
      Terminated(s, token, nameEnd) && s[token..nameEnd] == r.item.name
  {
  }

  lemma ValueAt(s: seq<byte>, t: seq<byte>, token: nat, end: nat, slots: seq<Option<nat>>, r: Split)
    requires SplitAt(s, token, end, slots, r) && slots[VALUE_FIELD].Some?
    requires |t| == |s| && token + |r.item.name| < |s| && t[token + |r.item.name|..] == s[token + |r.item.name|..]
    ensures var at := slots[VALUE_FIELD].value;
      && r.item.value.Some? && Terminated(t, at, at + |r.item.value.value|)
      && t[at..at + |r.item.value.value|] == r.item.value.value
  {
    PlacedFrame(s, t, token + |r.item.name|, slots[VALUE_FIELD].value, r.item.value.value);
  }

  lemma NameStays(s1: seq<byte>, s2: seq<byte>, s3: seq<byte>, token: nat, end: nat, slots: seq<Option<nat>>, r: Split)
    requires SplitAt(s1, token, end, slots, r) && UnquotedIn(s1, s2, s3, token, slots, r)
    ensures ItemAt(s3, slots[NAME_FIELD], slots[VALUE_FIELD]) == Clean(r.item) && s3[..token] == s1[..token]
  {
    hide Lenient;
    if slots[VALUE_FIELD].Some? {
      var at := slots[VALUE_FIELD].value;
      UnquotedEnds(s1, s2, token, r.item.name, at);
      FieldKept(s2, s3, token, at);
      assert s3[..token] == s3[..at][..token] && s2[..token] == s2[..at][..token];
    }
  }

  lemma NextStays(s1: seq<byte>, s2: seq<byte>, s3: seq<byte>, token: nat, end: nat, slots: seq<Option<nat>>, r: Split)
    requires SplitAt(s1, token, end, slots, r) && UnquotedIn(s1, s2, s3, token, slots, r) && slots[NEXT_FIELD].Some?
    ensures var next := slots[NEXT_FIELD].value;
      token < next && r.next.Some? && Terminated(s3, next, end) && s3[next..end] == r.next.value
    ensures Settled(s3, [slots[NAME_FIELD], slots[VALUE_FIELD]], slots[NEXT_FIELD].value)
  {
    hide Lenient, CString;
    var next, nameEnd := slots[NEXT_FIELD].value, token + |r.item.name|;
    PlacedFrame(s1, s2, nameEnd, next, r.next.value);
    if slots[VALUE_FIELD].Some? {
      var at, v := slots[VALUE_FIELD].value, r.item.value.value;
      PlacedFrame(s1, s2, nameEnd, at, v);
      PlacedFrame(s2, s3, at + |v|, next, r.next.value);
      UnquotedEnds(s2, s3, at, v, next);
      UnquotedEnds(s1, s2, token, r.item.name, at);
      assert s3[..at] == s2[..at];
      var j: nat :| j < at - token && s2[..at][token..][j] == 0;
      assert s3[..next][token..][j] == s3[..at][token..][j];
    } else {
      UnquotedEnds(s1, s2, token, r.item.name, next);
    }
  }

  /** Unquotes the strings of an item where they are. */
  method UnquoteItem(buf: array<byte>, name: Option<nat>, value: Option<nat>, ghost end: nat,
                     ghost slots: seq<Option<nat>>, ghost r: Split)
    requires name.Some? && SplitAt(buf[..], name.value, end, slots, r)
    requires slots[NAME_FIELD] == name && slots[VALUE_FIELD] == value
    modifies buf
    ensures ItemAt(buf[..], name, value) == Clean(r.item) && buf[..name.value] == old(buf[..name.value])
    ensures slots[NEXT_FIELD].Some? ==>
      var next := slots[NEXT_FIELD].value;
      && name.value < next && r.next.Some? && Terminated(buf[..], next, end) && buf[next..end] == r.next.value
      && Settled(buf[..], [name, value], next)
  {
    hide SplitAt, Settled, Clean, Lenient, Unquoting, CString;
    ghost var s1 := buf[..];
    StringsAt(s1, name.value, end, slots, r);
    var _ := Unquote(buf, name.value, name.value + |r.item.name|);
    ghost var s2 := buf[..];
    if value.Some? {
      ValueAt(s1, s2, name.value, end, slots, r);
      var _ := Unquote(buf, value.value, value.value + |r.item.value.value|);
    }
    ghost var s3 := buf[..];
    NameStays(s1, s2, s3, name.value, end, slots, r);
    if slots[NEXT_FIELD].Some? {
      NextStays(s1, s2, s3, name.value, end, slots, r);
    }
  }

  method NewSlots() returns (slots: array<Option<nat>>)
    ensures fresh(slots) && slots[..] == NO_SLOTS
  {
    slots := new Option<nat>[FIELDS];
    slots[NAME_FIELD], slots[VALUE_FIELD], slots[NEXT_FIELD] := None, None, None;
    SlotsAre(slots[..]);
  }

  class Query {
    const buf: array<byte>
    /** *queryp: what is left to decode. */
    var query: Option<nat>

    constructor (buf: array<byte>, str: nat)
      ensures this.buf == buf && query == Some(str)
    {
      this.buf, query := buf, Some(str);
    }

    ghost predicate Valid(end: nat)
      reads this, buf
    {
      query.Some? ==> Terminated(buf[..], query.value, end)
    }

    ghost function Rest(end: nat): seq<byte>
      requires Valid(end)
      reads this, buf
    {
      if query == None then [] else buf[query.value..end]
    }

    /** url_decode(): takes one item off the query string. Everything before the query string is left alone, and
        the item's strings end before what is left of it, so that items decoded earlier stay as they are. */
    method Decode(ghost end: nat) returns (ret: int, name: Option<nat>, value: Option<nat>)
      requires Valid(end)
      modifies `query, buf
      ensures Valid(end)
      ensures ret == if old(Rest(end)) == [] then 1 else 0
      ensures ret == 1 ==> Rest(end) == [] && buf[..] == old(buf[..])
      ensures ret == 0 ==>
        && name.Some? && Items(old(Rest(end))) == [ItemAt(buf[..], name, value)] + Items(Rest(end))
        && buf[..old(query.value)] == old(buf[..query.value])
        && (query.Some? ==> old(query.value) < query.value && Settled(buf[..], [name, value], query.value))
    {
      hide Scan, SplitItem, SplitAt, Settled, Clean, Lenient, Unquoting, First, CString;
      name, value := None, None;
      if query == None || buf[query.value] == 0 {
        return 1, name, value;
      }
      var str: nat := query.value;
      ghost var t := buf[str..end];
      ghost var r := SplitItem(t);
      assert Items(t) == [Clean(r.item)] + if r.next.Some? then Items(r.next.value) else [];
      assert t != [] && Items([]) == [];
      hide Items, Terminated, Placed;
      var slots := NewSlots();
      ItemIsSplitOff(buf[..], str, end);
      var state := Parse(Table(), buf, str, end, NAME, slots);
      ghost var stored := slots[..];
      StringsAt(buf[..], str, end, stored, r);
      name, value, query := slots[NAME_FIELD], slots[VALUE_FIELD], slots[NEXT_FIELD];
      UnquoteItem(buf, name, value, end, stored, r);
      assert Rest(end) == if r.next.Some? then r.next.value else [];
      return if state == NEXT || state == END then 0 else -1, name, value;
    }

    /** url_decode() until it reports the end: every item, in order, and all their strings are still there when the
        last one has been decoded in the same buffer. */
    method DecodeAll(ghost end: nat) returns (ret: int, pairs: seq<Pair>)
      requires Valid(end)
      modifies `query, buf
      ensures ret == 1 && Valid(end) && Rest(end) == []
      ensures ItemsAt(buf[..], pairs) == Items(old(Rest(end)))
    {
      hide Items, ItemsAt, AllSettled;
      pairs := [];
      ghost var all := Items(Rest(end));
      NothingDecoded(buf[..], all);
      while true
        invariant Valid(end) && ItemsAt(buf[..], pairs) + Items(Rest(end)) == all
        invariant query.Some? ==> AllSettled(buf[..], pairs, query.value)
        decreases |Rest(end)|
      {
        ghost var s, was, at := buf[..], Rest(end), query;
        var name, value;
        ret, name, value := Decode(end);
        if ret != 0 {
          NoItems(ItemsAt(buf[..], pairs));
          return;
        }
        OneMore(s, buf[..], pairs, Pair(name, value), at.value, Items(Rest(end)));
        if query.Some? {
          SettledOnceMore(s, buf[..], pairs, Pair(name, value), at.value, query.value);
        }
        pairs := pairs + [Pair(name, value)];
      }
    }
  }

  /** What url_decode() hands out: the name, and the value if there is one. */
  datatype Pair = Pair(name: Option<nat>, value: Option<nat>)

  /** The items that the pairs point to. */
  function ItemsAt(s: seq<byte>, pairs: seq<Pair>): seq<Item> {
    seq(|pairs|, i requires 0 <= i < |pairs| => PairAt(s, pairs[i]))
  }

  function PairAt(s: seq<byte>, p: Pair): Item {
    if p.name.Some? then ItemAt(s, p.name, p.value) else Item([], None)
  }

  /** All their strings end before `at`. */
  ghost predicate AllSettled(s: seq<byte>, pairs: seq<Pair>, at: nat) {
    forall i :: 0 <= i < |pairs| ==> Settled(s, [pairs[i].name, pairs[i].value], at)
  }

  lemma NothingDecoded(s: seq<byte>, items: seq<Item>)
    ensures ItemsAt(s, []) + items == items && forall at :: AllSettled(s, [], at)
  {
  }

  lemma NoItems(items: seq<Item>)
    ensures items + Items([]) == items
  {
  }

  /** Strings that end before `at` are what they were if nothing before `at` has changed. */
  lemma PairKept(s: seq<byte>, t: seq<byte>, p: Pair, at: nat)
    requires Settled(s, [p.name, p.value], at) && |t| == |s| && t[..at] == s[..at]
    ensures PairAt(t, p) == PairAt(s, p) && Settled(t, [p.name, p.value], at)
  {
    hide Settled, Field;
    ViewKept(s, t, [p.name, p.value], at);
    assert View(s, [p.name, p.value]) == [Field(s, p.name), Field(s, p.value)];
    assert View(t, [p.name, p.value]) == [Field(t, p.name), Field(t, p.value)];
    assert View(t, [p.name, p.value])[0] == Field(t, p.name) && View(t, [p.name, p.value])[1] == Field(t, p.value);
  }

  lemma OneMore(s: seq<byte>, t: seq<byte>, pairs: seq<Pair>, p: Pair, at: nat, rest: seq<Item>)
    requires AllSettled(s, pairs, at) && |t| == |s| && at <= |s| && t[..at] == s[..at] && p.name.Some?
    ensures ItemsAt(t, pairs + [p]) + rest == ItemsAt(s, pairs) + ([ItemAt(t, p.name, p.value)] + rest)
  {
    hide ItemAt, Settled;
    forall i | 0 <= i < |pairs|
      ensures PairAt(t, pairs[i]) == PairAt(s, pairs[i])
    {
      PairKept(s, t, pairs[i], at);
    }
    assert ItemsAt(t, pairs + [p]) == ItemsAt(s, pairs) + [ItemAt(t, p.name, p.value)];
  }

  lemma SettledOnceMore(s: seq<byte>, t: seq<byte>, pairs: seq<Pair>, p: Pair, at: nat, later: nat)
    requires AllSettled(s, pairs, at) && |t| == |s| && at <= later <= |s| && t[..at] == s[..at]
    requires Settled(t, [p.name, p.value], later)
    ensures AllSettled(t, pairs + [p], later)
  {
    hide Settled, PairAt;
    forall i | 0 <= i < |pairs|
      ensures Settled(t, [pairs[i].name, pairs[i].value], later)
    {
      PairKept(s, t, pairs[i], at);
      SettledLater(t, [pairs[i].name, pairs[i].value], at, later);
    }
  }

  // ----- Round trip -----

  /** `e` is `raw` with some characters quoted: as themselves, as a plus for a space, or as two hex digits of
      either case. */
  ghost predicate Quotes(e: seq<byte>, raw: seq<byte>) {
    if raw == [] then e == []
    else
      || (e != [] && e[0] == raw[0] && raw[0] !in {0, PERCENT, AMPERSAND, PLUS, EQUALS} && Quotes(e[1..], raw[1..]))
      || (e != [] && e[0] == PLUS && raw[0] == SPACE && Quotes(e[1..], raw[1..]))
      || (|e| >= 3 && e[0] == PERCENT && Chunks.IsHex(e[1]) && Chunks.IsHex(e[2])
          && raw[0] != 0 && raw[0] == 16 * Chunks.Nibble(e[1]) + Chunks.Nibble(e[2]) && Quotes(e[3..], raw[1..]))
  }

  /** One way to quote: a space as a plus, the characters that mean something else as escapes, and every other one
      as itself. */
  function Quote(raw: seq<byte>): seq<byte> {
    if raw == [] then []
    else if raw[0] == SPACE then [PLUS] + Quote(raw[1..])
    else if raw[0] in {PERCENT, AMPERSAND, PLUS, EQUALS} then
      [PERCENT, Chunks.Digit(raw[0] / 16), Chunks.Digit(raw[0] % 16)] + Quote(raw[1..])
    else [raw[0]] + Quote(raw[1..])
  }

  lemma {:induction false} QuoteQuotes(raw: seq<byte>)
    requires 0 !in raw
    ensures Quotes(Quote(raw), raw)
  {
    if raw != [] {
      QuoteQuotes(raw[1..]);
      var e := Quote(raw);
      if raw[0] in {PERCENT, AMPERSAND, PLUS, EQUALS} {
        assert e[3..] == Quote(raw[1..]);
      } else {
        assert e[1..] == Quote(raw[1..]);
      }
    }
  }

  /** The string can stand in a query string, and stands for `raw`. */
  ghost predicate Means(e: seq<byte>, raw: seq<byte>) {
    Unquoting(e) == Unquoted(true, raw) && forall i :: 0 <= i < |e| ==> e[i] !in {0, AMPERSAND, EQUALS}
  }

  lemma ValueOfTwo(a: byte, b: byte)
    requires Chunks.IsHex(a) && Chunks.IsHex(b)
    ensures Chunks.AllHex([a, b]) && Chunks.Value([a, b]) == 16 * Chunks.Nibble(a) + Chunks.Nibble(b)
  {
    assert [a, b][..1] == [a];
    assert [a][..0] == [];
    assert Chunks.Value([a]) == 16 * Chunks.Value([]) + Chunks.Nibble(a);
  }

  lemma TwoDigits(a: byte, b: byte)
    requires Chunks.IsHex(a) && Chunks.IsHex(b) && 16 * Chunks.Nibble(a) + Chunks.Nibble(b) > 0
    ensures HexByte(a, b) == Some(16 * Chunks.Nibble(a) + Chunks.Nibble(b))
  {
    hide Chunks.ScanHex, Chunks.Value, HexByte;
    ValueOfTwo(a, b);
    Chunks.ScanDigits([a, b]);
    HexByteOf(a, b, 16 * Chunks.Nibble(a) + Chunks.Nibble(b));
  }

  lemma HexByteOf(a: byte, b: byte, n: nat)
    requires Chunks.ScanHex([a, b]) == Some(n) && 0 < n < 256
    ensures HexByte(a, b) == Some(n)
  {
    hide Chunks.ScanHex;
  }

  /** However a string was quoted, unquoting gives it back. */
  lemma {:induction false} QuotedMeans(e: seq<byte>, raw: seq<byte>)
    requires Quotes(e, raw)
    ensures Means(e, raw)
  {
    hide HexByte;
    if raw != [] {
      assert raw == [raw[0]] + raw[1..];
      if |e| >= 3 && e[0] == PERCENT && Quotes(e[3..], raw[1..]) {
        TwoDigits(e[1], e[2]);
        QuotedMeans(e[3..], raw[1..]);
        assert forall i :: 3 <= i < |e| ==> e[i] == e[3..][i - 3];
      } else {
        QuotedMeans(e[1..], raw[1..]);
        assert forall i :: 1 <= i < |e| ==> e[i] == e[1..][i - 1];
      }
    }
  }

  /** A value may also contain the sign that separates it from its name. */
  ghost predicate Encodes(e: Item, item: Item) {
    && Means(e.name, item.name)
    && (e.value.Some? <==> item.value.Some?)
    && (e.value.Some? ==>
          && Unquoting(e.value.value) == Unquoted(true, item.value.value)
          && forall i :: 0 <= i < |e.value.value| ==> e.value.value[i] !in {0, AMPERSAND})
  }

  function ItemText(e: Item): seq<byte> {
    e.name + if e.value.Some? then [EQUALS] + e.value.value else []
  }

  /** A query string of quoted items. */
  function Join(es: seq<Item>): seq<byte> {
    if es == [] then [] else ItemText(es[0]) + if |es| == 1 then [] else [AMPERSAND] + Join(es[1..])
  }

  function Tail(rest: Option<seq<byte>>): seq<byte> {
    if rest.Some? then [AMPERSAND] + rest.value else []
  }

  lemma HeadJoined(head: seq<byte>, tail: seq<byte>, separators: set<byte>)
    requires forall i :: 0 <= i < |head| ==> head[i] !in separators
    requires tail != [] ==> tail[0] in separators
    ensures var t := head + tail;
      && First(t, separators) == |head| && t[..|head|] == head
      && if tail == [] then t == head else t[|head|] == tail[0] && t[|head| + 1..] == tail[1..]
  {
    FirstAt(head + tail, separators, |head|);
  }

  lemma NameJoined(name: seq<byte>, rest: Option<seq<byte>>)
    requires forall i :: 0 <= i < |name| ==> name[i] !in {EQUALS, AMPERSAND}
    ensures SplitItem(name + Tail(rest)) == Split(Item(name, None), rest)
  {
    HeadJoined(name, Tail(rest), {EQUALS, AMPERSAND});
    hide First;
  }

  lemma SplitItemValue(t: seq<byte>, u: seq<byte>, k: nat, m: nat)
    requires k < |t| && t[k] == EQUALS && First(t, {EQUALS, AMPERSAND}) == k
    requires u == t[k + 1..] && First(u, {AMPERSAND}) == m
    ensures SplitItem(t) == if m == |u| then Split(Item(t[..k], Some(u)), None)
                            else Split(Item(t[..k], Some(u[..m])), Some(u[m + 1..]))
  {
    hide First;
  }

  lemma ValueJoined(name: seq<byte>, value: seq<byte>, rest: Option<seq<byte>>)
    requires forall i :: 0 <= i < |name| ==> name[i] !in {EQUALS, AMPERSAND}
    requires forall i :: 0 <= i < |value| ==> value[i] != AMPERSAND
    ensures SplitItem(name + ([EQUALS] + (value + Tail(rest)))) == Split(Item(name, Some(value)), rest)
  {
    hide SplitItem, First;
    var u := value + Tail(rest);
    var t := name + ([EQUALS] + u);
    HeadJoined(value, Tail(rest), {AMPERSAND});
    HeadJoined(name, [EQUALS] + u, {EQUALS, AMPERSAND});
    assert ([EQUALS] + u)[1..] == u;
    SplitItemValue(t, u, |name|, |value|);
  }

  lemma SplitJoined(e: Item, item: Item, rest: Option<seq<byte>>)
    requires Encodes(e, item)
    ensures SplitItem(ItemText(e) + Tail(rest)) == Split(e, rest)
  {
    hide Unquoting, First, SplitItem, Tail;
    if e.value.Some? {
      assert ItemText(e) + Tail(rest) == e.name + ([EQUALS] + (e.value.value + Tail(rest)));
      ValueJoined(e.name, e.value.value, rest);
    } else {
      assert ItemText(e) + Tail(rest) == e.name + Tail(rest);
      NameJoined(e.name, rest);
    }
  }

  lemma CleanEncoded(e: Item, item: Item)
    requires Encodes(e, item)
    ensures Clean(e) == item
  {
  }

  /** The items without a last one that is an empty name without a value. */
  function Kept(items: seq<Item>): seq<Item> {
    if items != [] && items[|items| - 1] == Item([], None) then items[..|items| - 1] else items
  }

  /** Decoding the items of a joined query string gives back all of them but such a last one. */
  lemma {:induction false} FormKept(es: seq<Item>, items: seq<Item>)
    requires |es| == |items| && forall i :: 0 <= i < |es| ==> Encodes(es[i], items[i])
    ensures Items(Join(es)) == Kept(items)
  {
    hide SplitItem, Clean, Encodes;
    if es != [] {
      var e, item := es[0], items[0];
      var rest := if |es| == 1 then None else Some(Join(es[1..]));
      CleanEncoded(e, item);
      SplitJoined(e, item, rest);
      EmptyItem(e, item);
      assert Join(es) == ItemText(e) + Tail(rest);
      if |es| > 1 {
        FormKept(es[1..], items[1..]);
        assert Items(Join(es)) == [item] + Items(rest.value);
        assert Kept(items) == [item] + Kept(items[1..]);
      }
    }
  }

  /** Decoding the items of a joined query string gives them back if and only if the last one is not an empty
      name without a value. */
  lemma FormRoundTripIff(es: seq<Item>, items: seq<Item>)
    requires |es| == |items| && forall i :: 0 <= i < |es| ==> Encodes(es[i], items[i])
    ensures Items(Join(es)) == items <==> items == [] || items[|items| - 1] != Item([], None)
  {
    hide Items, Join, Encodes;
    FormKept(es, items);
  }

  lemma EmptyItem(e: Item, item: Item)
    requires Encodes(e, item)
    ensures ItemText(e) == [] <==> item == Item([], None)
  {
  }

  // ----- A whole form -----

  predicate NulFree(item: Item) {
    0 !in item.name && (item.value.Some? ==> 0 !in item.value.value)
  }

  function QuoteItem(item: Item): Item {
    Item(Quote(item.name), if item.value.Some? then Some(Quote(item.value.value)) else None)
  }

  lemma QuotedEncodes(item: Item)
    requires NulFree(item)
    ensures Encodes(QuoteItem(item), item)
  {
    hide Quotes, Quote, Unquoting;
    QuoteQuotes(item.name);
    QuotedMeans(Quote(item.name), item.name);
    if item.value.Some? {
      QuoteQuotes(item.value.value);
      QuotedMeans(Quote(item.value.value), item.value.value);
    }
  }

  lemma {:induction false} JoinIsNulFree(es: seq<Item>)
    requires forall i :: 0 <= i < |es| ==> NulFree(es[i])
    ensures 0 !in Join(es)
  {
    if es != [] {
      assert 0 !in ItemText(es[0]);
      JoinIsNulFree(es[1..]);
    }
  }

  lemma EncodedIsNulFree(e: Item, item: Item)
    requires Encodes(e, item)
    ensures NulFree(e)
  {
    hide Unquoting;
  }

  /** The strings of a whole query string, decoded in place and then read where they lie. */
  method ReadForm(text: seq<byte>) returns (items: seq<Item>)
    requires 0 !in text
    ensures items == Items(text)
  {
    hide Items, ItemsAt;
    var buf := new byte[|text| + 1];
    forall i | 0 <= i < |text| {
      buf[i] := text[i];
    }
    buf[|text|] := 0;
    assert buf[0..|text|] == text;
    assert forall i :: 0 <= i < |text| ==> buf[i] == text[i];
    var query := new Query(buf, 0);
    var ret, pairs := query.DecodeAll(|text|);
    items := ItemsAt(buf[..], pairs);
  }

  /** Any list of items is quoted, joined and decoded in place: what comes back is the list, without a last item
      that is an empty name without a value. */
  method FormTransfer(items: seq<Item>) returns (back: seq<Item>)
    requires forall i :: 0 <= i < |items| ==> NulFree(items[i])
    ensures back == Kept(items)
    ensures back == items <==> items == [] || items[|items| - 1] != Item([], None)
  {
    hide Items, Join, Encodes, NulFree;
    var es := seq(|items|, i requires 0 <= i < |items| => QuoteItem(items[i]));
    forall i | 0 <= i < |items|
      ensures Encodes(es[i], items[i]) && NulFree(es[i])
    {
      QuotedEncodes(items[i]);
      EncodedIsNulFree(es[i], items[i]);
    }
    JoinIsNulFree(es);
    FormKept(es, items);
    back := ReadForm(Join(es));
  }
}
