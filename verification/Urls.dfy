/** The URL parser and printer of src/common/url.c. The parser is a table for the generic automaton; what it
    reads off a text is stated here without automaton, buffer or pointers. */
module Urls {
  import opened Options
  import opened CStrings
  import opened Parser

  const SLASH: byte := 47
  const COLON: byte := 58
  const QUESTION: byte := 63
  const OPEN: byte := 91
  const CLOSE: byte := 93

  /** enum state of url_parse() */
  const START: int := 0
  const START_SEP: int := 1
  const SCHEME: int := 2
  const SCHEME_SEP: int := 3
  const HOST_PRE: int := 4
  const HOST: int := 5
  const HOST_IPV6: int := 6
  const HOST_POST: int := 7
  const PORT: int := 8
  const PATH: int := 9
  const QUERY: int := 10

  /** struct url: the places where tokens are stored. */
  const SCHEME_FIELD: nat := 0
  const HOST_FIELD: nat := 1
  const PORT_FIELD: nat := 2
  const PATH_FIELD: nat := 3
  const QUERY_FIELD: nat := 4
  const FIELDS: nat := 5

  const URL_MAX: nat := 1024

  const START_RULES := [
    Go(START, SLASH, START_SEP),
    Go(START, COLON, SCHEME).(skip := true),
    Go(START, OPEN, HOST_IPV6),
    Take(START, 0, HOST, HOST_FIELD)]
  const START_SEP_RULES := [
    Go(START_SEP, SLASH, HOST_PRE),
    Take(START_SEP, QUESTION, QUERY, PATH_FIELD),
    Take(START_SEP, 0, PATH, PATH_FIELD),
    Take(START_SEP, WILDCARD, PATH, PATH_FIELD).(keep := true)]
  const SCHEME_RULES := [
    Take(SCHEME, SLASH, SCHEME_SEP, SCHEME_FIELD),
    Take(SCHEME, WILDCARD, PORT, HOST_FIELD).(keep := true)]
  const SCHEME_SEP_RULES := [Go(SCHEME_SEP, SLASH, HOST_PRE)]
  const HOST_PRE_RULES := [
    Go(HOST_PRE, OPEN, HOST_IPV6),
    Take(HOST_PRE, SLASH, PATH, HOST_FIELD),
    Go(HOST_PRE, WILDCARD, HOST).(keep := true)]
  const HOST_RULES := [
    Take(HOST, COLON, PORT, HOST_FIELD),
    Take(HOST, SLASH, PATH, HOST_FIELD),
    Take(HOST, 0, HOST, HOST_FIELD)]
  const HOST_IPV6_RULES := [Take(HOST_IPV6, CLOSE, HOST_POST, HOST_FIELD)]
  const HOST_POST_RULES := [
    Go(HOST_POST, COLON, PORT),
    Go(HOST_POST, SLASH, PATH),
    Go(HOST_POST, 0, HOST_POST),
    Go(HOST_POST, WILDCARD, -1)]
  const PORT_RULES := [
    Take(PORT, SLASH, PATH, PORT_FIELD),
    Take(PORT, 0, PORT, PORT_FIELD)]
  const PATH_RULES := [
    Take(PATH, QUESTION, QUERY, PATH_FIELD),
    Take(PATH, 0, PATH, PATH_FIELD)]
  const QUERY_RULES := [Take(QUERY, 0, QUERY, QUERY_FIELD)]

  const GROUPS := [
    START_RULES, START_SEP_RULES, SCHEME_RULES, SCHEME_SEP_RULES, HOST_PRE_RULES, HOST_RULES, HOST_IPV6_RULES,
    HOST_POST_RULES, PORT_RULES, PATH_RULES, QUERY_RULES]

  /** The table of url_parse() */
  function Table(): (rules: seq<Rule>)
    ensures StoresIn(rules, FIELDS)
    ensures rules != [] && Sentinel(rules[|rules| - 1])
  {
    FlattenStores(GROUPS, FIELDS);
    Flatten(GROUPS)
  }

  // ----- What is read off a text -----

  type Fields = v: seq<Option<seq<byte>>> | |v| == FIELDS witness [None, None, None, None, None]

  /** Whether the text is accepted, and the fields afterwards. */
  datatype Reading = Reading(ok: bool, fields: Fields)

  const NOTHING: Fields := [None, None, None, None, None]

  function PathOf(t: seq<byte>, v: Fields): Reading {
    var k := First(t, {QUESTION});
    if k == |t| then Reading(true, v[PATH_FIELD := Some(t)])
    else Reading(true, v[PATH_FIELD := Some(t[..k])][QUERY_FIELD := Some(t[k + 1..])])
  }

  function PortOf(t: seq<byte>, v: Fields): Reading {
    var k := First(t, {SLASH});
    if k == |t| then Reading(true, v[PORT_FIELD := Some(t)])
    else PathOf(t[k + 1..], v[PORT_FIELD := Some(t[..k])])
  }

  /** The first character is part of the host whatever it is. */
  function HostOf(t: seq<byte>, v: Fields): Reading
    requires t != []
  {
    var k := 1 + First(t[1..], {COLON, SLASH});
    if k == |t| then Reading(true, v[HOST_FIELD := Some(t)])
    else if t[k] == COLON then PortOf(t[k + 1..], v[HOST_FIELD := Some(t[..k])])
    else PathOf(t[k + 1..], v[HOST_FIELD := Some(t[..k])])
  }

  /** After a bracketed host only a port or a path can follow. */
  function HostPostOf(t: seq<byte>, v: Fields): Reading {
    if t == [] then Reading(true, v)
    else if t[0] == COLON then PortOf(t[1..], v)
    else if t[0] == SLASH then PathOf(t[1..], v)
    else Reading(false, v)
  }

  function Ipv6Of(t: seq<byte>, v: Fields): Reading {
    var k := First(t, {CLOSE});
    if k == |t| then Reading(true, v)
    else HostPostOf(t[k + 1..], v[HOST_FIELD := Some(t[..k])])
  }

  function HostPreOf(t: seq<byte>, v: Fields): Reading {
    if t == [] then Reading(true, v)
    else if t[0] == OPEN then Ipv6Of(t[1..], v)
    else if t[0] == SLASH then PathOf(t[1..], v[HOST_FIELD := Some([])])
    else HostOf(t, v)
  }

  function SchemeSepOf(t: seq<byte>, v: Fields): Reading {
    var k := First(t, {SLASH});
    if k == |t| then Reading(true, v) else HostPreOf(t[k + 1..], v)
  }

  /** `head` is what came before the colon. */
  function SchemeOf(head: seq<byte>, t: seq<byte>, v: Fields): Reading {
    if t != [] && t[0] == SLASH then SchemeSepOf(t[1..], v[SCHEME_FIELD := Some(head)])
    else if t == [] then Reading(true, v[HOST_FIELD := Some(head)])
    else PortOf(t, v[HOST_FIELD := Some(head)])
  }

  function StartSepOf(t: seq<byte>, v: Fields): Reading {
    if t != [] && t[0] == SLASH then HostPreOf(t[1..], v) else PathOf(t, v)
  }

  /** What url_parse() reads off a text. */
  function UrlOf(t: seq<byte>, v: Fields): Reading {
    var k := First(t, {SLASH, COLON, OPEN});
    if k == |t| then Reading(true, v[HOST_FIELD := Some(t)])
    else if t[k] == SLASH then StartSepOf(t[k + 1..], v)
    else if t[k] == COLON then SchemeOf(t[..k], t[k + 1..], v)
    else Ipv6Of(t[k + 1..], v)
  }

  /** The rules for one state. */
  lemma Row(state: int)
    requires START <= state <= QUERY
    ensures forall c :: Lookup(Table(), state, c) == Pick(GROUPS[state], state, c)
  {
    assert forall i :: 0 <= i < |GROUPS| ==> GroupOf(GROUPS[i], 0 + i) && |GROUPS[i]| <= 4;
    RowOf(GROUPS, state);
  }

  // ----- The automaton reads what UrlOf says -----

  ghost predicate Reads(s: seq<byte>, token: nat, at: nat, end: nat, state: int, slots: seq<Option<nat>>, r: Reading)
    requires Ready(s, token, at, end, slots) && |slots| == FIELDS
  {
    var p := Scan(Table(), s, at, end, token, state, slots);
    (p.state > 0 <==> r.ok) && View(p.s, p.slots) == r.fields
  }

  lemma QueryState(s: seq<byte>, token: nat, end: nat, slots: seq<Option<nat>>)
    requires Ready(s, token, token, end, slots) && |slots| == FIELDS
    ensures Reads(s, token, token, end, QUERY, slots, Reading(true, View(s, slots)[QUERY_FIELD := Some(s[token..end])]))
  {
    hide Table, Scan, Lookup, View, Settled;
    Row(QUERY);
    var k := Advance(Table(), s, token, token, end, QUERY, slots, {});
    FinishLast(Table(), s, token, end, QUERY, slots, QUERY_RULES[0]);
  }

  lemma PathState(s: seq<byte>, token: nat, end: nat, slots: seq<Option<nat>>)
    requires Ready(s, token, token, end, slots) && |slots| == FIELDS
    ensures Reads(s, token, token, end, PATH, slots, PathOf(s[token..end], View(s, slots)))
  {
    hide Table, Scan, Lookup, View, Settled;
    Row(PATH);
    var k := Advance(Table(), s, token, token, end, PATH, slots, {QUESTION});
    if k == end {
      FinishLast(Table(), s, token, end, PATH, slots, PATH_RULES[1]);
    } else {
      var cut, stored := Finish(Table(), s, token, k, end, PATH, slots, PATH_RULES[0]);
      QueryState(cut, k + 1, end, stored);
      assert s[token..end][..k - token] == s[token..k] && s[token..end][k - token + 1..] == cut[k + 1..end];
    }
  }

  lemma PortState(s: seq<byte>, token: nat, end: nat, slots: seq<Option<nat>>)
    requires Ready(s, token, token, end, slots) && |slots| == FIELDS
    ensures Reads(s, token, token, end, PORT, slots, PortOf(s[token..end], View(s, slots)))
  {
    hide Table, Scan, Lookup, View, Settled, PathOf;
    Row(PORT);
    var k := Advance(Table(), s, token, token, end, PORT, slots, {SLASH});
    if k == end {
      FinishLast(Table(), s, token, end, PORT, slots, PORT_RULES[1]);
    } else {
      var cut, stored := Finish(Table(), s, token, k, end, PORT, slots, PORT_RULES[0]);
      PathState(cut, k + 1, end, stored);
      assert s[token..end][..k - token] == s[token..k] && s[token..end][k - token + 1..] == cut[k + 1..end];
    }
  }

  lemma HostPicks()
    ensures forall b: byte :: b != 0 && b !in {COLON, SLASH} ==> Lookup(Table(), HOST, Signed(b)) == None
    ensures Lookup(Table(), HOST, Signed(COLON)) == Some(HOST_RULES[0])
    ensures Lookup(Table(), HOST, Signed(SLASH)) == Some(HOST_RULES[1])
    ensures Lookup(Table(), HOST, 0) == Some(HOST_RULES[2])
  {
    hide Table, Lookup;
    Row(HOST);
  }

  lemma HostCases(t: seq<byte>, v: Fields, k: nat)
    requires t != [] && k == 1 + First(t[1..], {COLON, SLASH})
    ensures k <= |t| && (k < |t| && t[k] != COLON ==> t[k] == SLASH)
    ensures HostOf(t, v) ==
            if k == |t| then Reading(true, v[HOST_FIELD := Some(t)])
            else if t[k] == COLON then PortOf(t[k + 1..], v[HOST_FIELD := Some(t[..k])])
            else PathOf(t[k + 1..], v[HOST_FIELD := Some(t[..k])])
  {
  }

  lemma HostState(s: seq<byte>, token: nat, end: nat, slots: seq<Option<nat>>)
    requires Ready(s, token, token + 1, end, slots) && |slots| == FIELDS
    ensures Reads(s, token, token + 1, end, HOST, slots, HostOf(s[token..end], View(s, slots)))
  {
    hide Table, Scan, Lookup, Pick, View, Settled, First, PathOf, PortOf, HostOf;
    HostPicks();
    var k := Advance(Table(), s, token, token + 1, end, HOST, slots, {COLON, SLASH});
    var t, v := s[token..end], View(s, slots);
    assert t[1..] == s[token + 1..end];
    HostCases(t, v, k - token);
    if k == end {
      FinishLast(Table(), s, token, end, HOST, slots, HOST_RULES[2]);
    } else if s[k] == COLON {
      var cut, stored := Finish(Table(), s, token, k, end, HOST, slots, HOST_RULES[0]);
      Rest(s, cut, token, k, end);
      assert HostOf(t, v) == PortOf(cut[k + 1..end], View(cut, stored));
      PortState(cut, k + 1, end, stored);
    } else {
      var cut, stored := Finish(Table(), s, token, k, end, HOST, slots, HOST_RULES[1]);
      Rest(s, cut, token, k, end);
      assert HostOf(t, v) == PathOf(cut[k + 1..end], View(cut, stored));
      PathState(cut, k + 1, end, stored);
    }
  }

  /** The state that url_parse() reports as an error has no rules. */
  lemma ErrorState(s: seq<byte>, token: nat, end: nat, slots: seq<Option<nat>>)
    requires Ready(s, token, token, end, slots) && |slots| == FIELDS
    ensures Reads(s, token, token, end, -1, slots, Reading(false, View(s, slots)))
  {
    hide Table, Scan, View, Settled;
    assert forall c :: Lookup(Table(), -1, c) == None by {
      forall c ensures Lookup(Table(), -1, c) == None {
        assert forall i :: 0 <= i < |GROUPS| ==> GroupOf(GROUPS[i], 0 + i);
        assert Table() == Flatten(GROUPS) by {
          TableIsFlat();
        }
        LookupGroup(GROUPS, 0, -1, c);
      }
    }
    TokenContinues(Table(), s, token, end, token, -1, slots, end);
    ScanEnd(Table(), s, end, token, -1, slots);
  }

  lemma TableIsFlat()
    ensures Table() == Flatten(GROUPS)
  {
  }

  lemma HostPostState(s: seq<byte>, token: nat, end: nat, slots: seq<Option<nat>>)
    requires Ready(s, token, token, end, slots) && |slots| == FIELDS
    ensures Reads(s, token, token, end, HOST_POST, slots, HostPostOf(s[token..end], View(s, slots)))
  {
    hide Table, Scan, Lookup, View, Settled, PathOf, PortOf;
    Row(HOST_POST);
    if token == end {
      FinishLast(Table(), s, token, end, HOST_POST, slots, HOST_POST_RULES[2]);
    } else {
      var r :=
        if s[token] == COLON then HOST_POST_RULES[0]
        else if s[token] == SLASH then HOST_POST_RULES[1]
        else HOST_POST_RULES[3];
      var cut, stored := Finish(Table(), s, token, token, end, HOST_POST, slots, r);
      Rest(s, cut, token, token, end);
      if s[token] == COLON {
        PortState(cut, token + 1, end, stored);
      } else if s[token] == SLASH {
        PathState(cut, token + 1, end, stored);
      } else {
        ErrorState(cut, token + 1, end, stored);
      }
    }
  }

  lemma Ipv6State(s: seq<byte>, token: nat, end: nat, slots: seq<Option<nat>>)
    requires Ready(s, token, token, end, slots) && |slots| == FIELDS
    ensures Reads(s, token, token, end, HOST_IPV6, slots, Ipv6Of(s[token..end], View(s, slots)))
  {
    hide Table, Scan, Lookup, View, Settled, First, HostPostOf;
    Row(HOST_IPV6);
    var k := Advance(Table(), s, token, token, end, HOST_IPV6, slots, {CLOSE});
    if k == end {
      ScanEnd(Table(), s, end, token, HOST_IPV6, slots);
    } else {
      var cut, stored := Finish(Table(), s, token, k, end, HOST_IPV6, slots, HOST_IPV6_RULES[0]);
      Rest(s, cut, token, k, end);
      HostPostState(cut, k + 1, end, stored);
    }
  }

  lemma HostPreState(s: seq<byte>, token: nat, end: nat, slots: seq<Option<nat>>)
    requires Ready(s, token, token, end, slots) && |slots| == FIELDS
    ensures Reads(s, token, token, end, HOST_PRE, slots, HostPreOf(s[token..end], View(s, slots)))
  {
    hide Table, Scan, Lookup, View, Settled, PathOf, HostOf, Ipv6Of;
    Row(HOST_PRE);
    if token == end {
      FinishLast(Table(), s, token, end, HOST_PRE, slots, HOST_PRE_RULES[2]);
    } else if s[token] == OPEN {
      var cut, stored := Finish(Table(), s, token, token, end, HOST_PRE, slots, HOST_PRE_RULES[0]);
      Rest(s, cut, token, token, end);
      Ipv6State(cut, token + 1, end, stored);
    } else if s[token] == SLASH {
      var cut, stored := Finish(Table(), s, token, token, end, HOST_PRE, slots, HOST_PRE_RULES[1]);
      Rest(s, cut, token, token, end);
      PathState(cut, token + 1, end, stored);
    } else {
      Keep(Table(), s, token, token, end, HOST_PRE, slots, HOST_PRE_RULES[2]);
      HostState(s, token, end, slots);
    }
  }

  lemma SchemeSepState(s: seq<byte>, token: nat, end: nat, slots: seq<Option<nat>>)
    requires Ready(s, token, token, end, slots) && |slots| == FIELDS
    ensures Reads(s, token, token, end, SCHEME_SEP, slots, SchemeSepOf(s[token..end], View(s, slots)))
  {
    hide Table, Scan, Lookup, View, Settled, First, HostPreOf;
    Row(SCHEME_SEP);
    var k := Advance(Table(), s, token, token, end, SCHEME_SEP, slots, {SLASH});
    if k == end {
      ScanEnd(Table(), s, end, token, SCHEME_SEP, slots);
    } else {
      var cut, stored := Finish(Table(), s, token, k, end, SCHEME_SEP, slots, SCHEME_SEP_RULES[0]);
      Rest(s, cut, token, k, end);
      HostPreState(cut, k + 1, end, stored);
    }
  }

  lemma SchemePicks(b: byte)
    ensures Lookup(Table(), SCHEME, Signed(SLASH)) == Some(SCHEME_RULES[0])
    ensures b != SLASH ==> Lookup(Table(), SCHEME, Signed(b)) == Some(SCHEME_RULES[1])
    ensures b != SLASH && b != 0 ==> Lookup(Table(), PORT, Signed(b)) == None
  {
    hide Table, Lookup;
    Row(SCHEME);
    Row(PORT);
  }

  /** The colon at `k` has been overwritten, and the token before it is still the current one. */
  lemma SchemeState(s: seq<byte>, token: nat, k: nat, end: nat, slots: seq<Option<nat>>)
    requires Terminated(s, k + 1, end) && Terminated(s, token, k) && |slots| == FIELDS && Settled(s, slots, token)
    ensures var p := Scan(Table(), s, k + 1, end, token, SCHEME, slots);
      var r := SchemeOf(s[token..k], s[k + 1..end], View(s, slots));
      (p.state > 0 <==> r.ok) && View(p.s, p.slots) == r.fields
  {
    hide Table, Scan, Lookup, Pick, View, Settled, PortOf, SchemeSepOf;
    assert s[k := 0] == s;
    SchemePicks(s[k + 1]);
    if k + 1 == end {
      StoreToken(s, slots, token, k, HOST_FIELD);
      ScanEnd(Table(), s, end, token, SCHEME, slots);
    } else if s[k + 1] == SLASH {
      SchemeEnds(s, token, k, end, slots);
    } else {
      SchemeWasHost(s, token, k, end, slots);
    }
  }

  /** A slash behind the colon: the token was a scheme. */
  lemma SchemeEnds(s: seq<byte>, token: nat, k: nat, end: nat, slots: seq<Option<nat>>)
    requires Terminated(s, k + 1, end) && Terminated(s, token, k) && |slots| == FIELDS && Settled(s, slots, token)
    requires k + 1 < end && s[k + 1] == SLASH
    ensures var p := Scan(Table(), s, k + 1, end, token, SCHEME, slots);
      var r := SchemeOf(s[token..k], s[k + 1..end], View(s, slots));
      (p.state > 0 <==> r.ok) && View(p.s, p.slots) == r.fields
  {
    hide Table, Scan, Lookup, Pick, View, Settled, PortOf, SchemeSepOf;
    assert s[k := 0] == s;
    SchemePicks(s[k + 1]);
    StoreToken(s, slots, token, k, SCHEME_FIELD);
    ScanStep(Table(), s, k + 1, end, token, SCHEME, slots);
    var cut, stored := s[k + 1 := 0], slots[SCHEME_FIELD := Some(token)];
    CutToken(s, stored, k + 1, k + 1);
    Rest(s, cut, k + 1, k + 1, end);
    SchemeSepState(cut, k + 2, end, stored);
  }

  /** Anything else: it was a host. */
  lemma SchemeWasHost(s: seq<byte>, token: nat, k: nat, end: nat, slots: seq<Option<nat>>)
    requires Terminated(s, k + 1, end) && Terminated(s, token, k) && |slots| == FIELDS && Settled(s, slots, token)
    requires k + 1 < end && s[k + 1] != SLASH
    ensures var p := Scan(Table(), s, k + 1, end, token, SCHEME, slots);
      var r := SchemeOf(s[token..k], s[k + 1..end], View(s, slots));
      (p.state > 0 <==> r.ok) && View(p.s, p.slots) == r.fields
  {
    hide Table, Scan, Lookup, Pick, View, Settled, PortOf, SchemeSepOf;
    assert s[k := 0] == s;
    SchemePicks(s[k + 1]);
    StoreToken(s, slots, token, k, HOST_FIELD);
    Keep(Table(), s, token, k + 1, end, SCHEME, slots, SCHEME_RULES[1]);
    ScanStep(Table(), s, k + 1, end, k + 1, PORT, slots[HOST_FIELD := Some(token)]);
    PortState(s, k + 1, end, slots[HOST_FIELD := Some(token)]);
  }

  /** Wherever the path pointed before, it is stored again. */
  lemma PathStoredAgain(s: seq<byte>, token: nat, end: nat, slots: seq<Option<nat>>, was: Option<nat>)
    requires Ready(s, token, token, end, slots) && |slots| == FIELDS
    ensures Scan(Table(), s, token, end, token, PATH, slots[PATH_FIELD := was]) ==
            Scan(Table(), s, token, end, token, PATH, slots)
  {
    hide Table, Scan, Lookup, View, Settled;
    Row(PATH);
    var other := slots[PATH_FIELD := was];
    var k := Advance(Table(), s, token, token, end, PATH, slots, {QUESTION});
    forall i | token <= i < k
      ensures Lookup(Table(), PATH, Signed(s[i])) == None
    {
      assert s[i] == s[token..end][i - token];
    }
    TokenContinues(Table(), s, token, end, token, PATH, other, k);
    assert other[PATH_FIELD := Some(token)] == slots[PATH_FIELD := Some(token)];
    if k == end {
      ScanEnd(Table(), s, end, token, PATH, slots);
      ScanEnd(Table(), s, end, token, PATH, other);
    } else {
      ScanStep(Table(), s, k, end, token, PATH, slots);
      ScanStep(Table(), s, k, end, token, PATH, other);
    }
  }

  lemma PathBegins(s: seq<byte>, token: nat, end: nat, slots: seq<Option<nat>>)
    requires Ready(s, token, token, end, slots) && |slots| == FIELDS
    requires token < end && s[token] != SLASH && s[token] != QUESTION
    ensures Reads(s, token, token, end, START_SEP, slots, PathOf(s[token..end], View(s, slots)))
  {
    hide Table, Scan, Lookup, View, Settled, PathOf;
    Row(START_SEP);
    Row(PATH);
    Keep(Table(), s, token, token, end, START_SEP, slots, START_SEP_RULES[3]);
    ScanStep(Table(), s, token, end, token, PATH, slots[PATH_FIELD := Some(token)]);
    PathStoredAgain(s, token, end, slots, Some(token));
    PathState(s, token, end, slots);
  }

  lemma StartSepState(s: seq<byte>, token: nat, end: nat, slots: seq<Option<nat>>)
    requires Ready(s, token, token, end, slots) && |slots| == FIELDS
    ensures Reads(s, token, token, end, START_SEP, slots, StartSepOf(s[token..end], View(s, slots)))
  {
    hide Table, Scan, Lookup, View, Settled, HostPreOf;
    Row(START_SEP);
    if token == end {
      FinishLast(Table(), s, token, end, START_SEP, slots, START_SEP_RULES[2]);
    } else if s[token] == SLASH {
      var cut, stored := Finish(Table(), s, token, token, end, START_SEP, slots, START_SEP_RULES[0]);
      Rest(s, cut, token, token, end);
      HostPreState(cut, token + 1, end, stored);
    } else if s[token] == QUESTION {
      var cut, stored := Finish(Table(), s, token, token, end, START_SEP, slots, START_SEP_RULES[1]);
      Rest(s, cut, token, token, end);
      FirstAt(s[token..end], {QUESTION}, 0);
      QueryState(cut, token + 1, end, stored);
    } else {
      PathBegins(s, token, end, slots);
    }
  }

  lemma StartPicks()
    ensures forall b: byte :: b != 0 && b !in {SLASH, COLON, OPEN} ==> Lookup(Table(), START, Signed(b)) == None
    ensures Lookup(Table(), START, Signed(SLASH)) == Some(START_RULES[0])
    ensures Lookup(Table(), START, Signed(COLON)) == Some(START_RULES[1])
    ensures Lookup(Table(), START, Signed(OPEN)) == Some(START_RULES[2])
    ensures Lookup(Table(), START, 0) == Some(START_RULES[3])
  {
    hide Table, Lookup;
    Row(START);
  }

  lemma UrlCases(t: seq<byte>, v: Fields, k: nat)
    requires k == First(t, {SLASH, COLON, OPEN})
    ensures k <= |t| && (k < |t| && t[k] != SLASH && t[k] != COLON ==> t[k] == OPEN)
    ensures UrlOf(t, v) ==
            if k == |t| then Reading(true, v[HOST_FIELD := Some(t)])
            else if t[k] == SLASH then StartSepOf(t[k + 1..], v)
            else if t[k] == COLON then SchemeOf(t[..k], t[k + 1..], v)
            else Ipv6Of(t[k + 1..], v)
  {
    hide First, StartSepOf, SchemeOf, Ipv6Of;
  }

  /** A colon only marks where a scheme, or a host, may end. */
  lemma StartColon(s: seq<byte>, token: nat, k: nat, end: nat, slots: seq<Option<nat>>)
    requires Ready(s, token, k, end, slots) && |slots| == FIELDS && k < end && s[k] == COLON
    ensures Reads(s, token, k, end, START, slots, SchemeOf(s[token..k], s[k + 1..end], View(s, slots)))
  {
    hide Table, Scan, Lookup, View, SchemeOf;
    StartPicks();
    var cut := s[k := 0];
    ScanStep(Table(), s, k, end, token, START, slots);
    ViewKept(s, cut, slots, token);
    assert cut[token..k] == s[token..k] && cut[k + 1..end] == s[k + 1..end];
    hide Settled;
    SchemeState(cut, token, k, end, slots);
  }

  /** The table-driven parse of a text reads exactly what UrlOf says. */
  lemma UrlIsRead(s: seq<byte>, token: nat, end: nat, slots: seq<Option<nat>>)
    requires Ready(s, token, token, end, slots) && |slots| == FIELDS
    ensures Reads(s, token, token, end, START, slots, UrlOf(s[token..end], View(s, slots)))
  {
    hide Table, Scan, Lookup, Pick, View, Settled, First, UrlOf, StartSepOf, SchemeOf, Ipv6Of;
    StartPicks();
    var k := Advance(Table(), s, token, token, end, START, slots, {SLASH, COLON, OPEN});
    var t, v := s[token..end], View(s, slots);
    UrlCases(t, v, k - token);
    if k == end {
      FinishLast(Table(), s, token, end, START, slots, START_RULES[3]);
    } else {
      Rest(s, s, token, k, end);
      if s[k] == COLON {
        StartColon(s, token, k, end, slots);
      } else if s[k] == SLASH {
        var cut, stored := Finish(Table(), s, token, k, end, START, slots, START_RULES[0]);
        StartSepState(cut, k + 1, end, stored);
      } else {
        var cut, stored := Finish(Table(), s, token, k, end, START, slots, START_RULES[2]);
        Ipv6State(cut, k + 1, end, stored);
      }
    }
  }

  /** struct urlbuf: a copy of the text, and the pointers into it. */
  class UrlBuf {
    const buf: array<byte>
    const url: array<Option<nat>>

    constructor ()
      ensures buf.Length == URL_MAX && url.Length == FIELDS && fresh(buf) && fresh(url)
    {
      buf := new byte[URL_MAX];
      url := new Option<nat>[FIELDS];
    }

    /** url_parse() on the string at `str`; the fields keep their values if nothing is read for them. */
    method UrlParse(str: nat, ghost end: nat) returns (err: int)
      requires Ready(buf[..], str, str, end, url[..]) && url.Length == FIELDS
      modifies buf, url
      ensures var r := UrlOf(old(buf[str..end]), View(old(buf[..]), old(url[..])));
        err == (if r.ok then 0 else -1) && View(buf[..], url[..]) == r.fields
    {
      hide UrlOf, Scan, View, Settled;
      ghost var s, slots := buf[..], url[..];
      UrlIsRead(s, str, end, slots);
      var state := Parse(Table(), buf, str, end, START, url);
      assert s[str..end] == old(buf[str..end]);
      return if state <= 0 then -1 else 0;
    }

    /** urlbuf_parse(): a text of exactly URL_MAX bytes loses its last one. */
    method UrlbufParse(text: seq<byte>) returns (err: int)
      requires 0 !in text && buf.Length == URL_MAX && url.Length == FIELDS
      modifies buf, url
      ensures |text| > URL_MAX <==> err == -1
      ensures |text| <= URL_MAX ==>
        var r := UrlOf(if |text| < URL_MAX then text else text[..URL_MAX - 1], NOTHING);
        err == (if r.ok then 0 else 1) && View(buf[..], url[..]) == r.fields
    {
      hide UrlOf, Scan, View, Settled;
      forall i | 0 <= i < FIELDS {
        url[i] := None;
      }
      forall i | 0 <= i < URL_MAX {
        buf[i] := 0;
      }
      if |text| > URL_MAX {
        return -1;
      }
      forall i | 0 <= i < |text| {
        buf[i] := text[i];
      }
      buf[URL_MAX - 1] := 0;
      ghost var end := if |text| < URL_MAX then |text| else URL_MAX - 1;
      ghost var kept := if |text| < URL_MAX then text else text[..URL_MAX - 1];
      assert buf[0..end] == kept;
      NothingStored(buf[..], url[..]);
      err := UrlParse(0, end);
      return if err != 0 then 1 else 0;
    }
  }

  lemma NothingStored(s: seq<byte>, slots: seq<Option<nat>>)
    requires |slots| == FIELDS && forall f :: 0 <= f < FIELDS ==> slots[f] == None
    ensures View(s, slots) == NOTHING && Settled(s, slots, 0)
  {
  }

  // ----- Printing, and when parsing undoes it -----

  function PathPart(v: Fields): seq<byte> {
    if v[PATH_FIELD].Some? then [SLASH] + v[PATH_FIELD].value else []
  }

  function PortPart(v: Fields): seq<byte> {
    (if v[PORT_FIELD].Some? then [COLON] + v[PORT_FIELD].value else []) + PathPart(v)
  }

  function HostPart(v: Fields): seq<byte> {
    (if v[HOST_FIELD].Some? then [SLASH, SLASH] + v[HOST_FIELD].value else []) + PortPart(v)
  }

  /** url_dump() */
  function Dump(v: Fields): seq<byte> {
    (if v[SCHEME_FIELD].Some? then v[SCHEME_FIELD].value + [COLON] else []) + HostPart(v)
  }

  predicate Avoids(field: Option<seq<byte>>, separators: set<byte>) {
    field.Some? ==> forall i :: 0 <= i < |field.value| ==> field.value[i] !in separators
  }

  /** The part after the host can be told apart. */
  predicate TailOk(v: Fields) {
    v[QUERY_FIELD] == None && Avoids(v[PORT_FIELD], {SLASH}) && Avoids(v[PATH_FIELD], {QUESTION})
  }

  predicate HostOk(v: Fields)
    requires v[HOST_FIELD].Some?
  {
    var host := v[HOST_FIELD].value;
    TailOk(v)
    && if host == [] then v[PORT_FIELD] == None && v[PATH_FIELD].Some?
       else host[0] !in {SLASH, OPEN} && Avoids(Some(host[1..]), {COLON, SLASH})
  }

  /** The urls that survive printing and parsing. */
  predicate Printable(v: Fields) {
    && Avoids(v[SCHEME_FIELD], {SLASH, COLON, OPEN})
    && match v[HOST_FIELD]
       case Some(_) => HostOk(v)
       case None =>
         TailOk(v) && v[SCHEME_FIELD] == None && v[PORT_FIELD] == None
         && v[PATH_FIELD].Some? && (v[PATH_FIELD].value != [] ==> v[PATH_FIELD].value[0] != SLASH)
  }

  lemma {:induction false} FirstOf(head: seq<byte>, tail: seq<byte>, separators: set<byte>)
    requires Avoids(Some(head), separators) && (tail != [] ==> tail[0] in separators)
    ensures First(head + tail, separators) == |head|
  {
    FirstAt(head + tail, separators, |head|);
  }

  /** A separator inside the head cuts it short. */
  lemma {:induction false} FirstInside(head: seq<byte>, tail: seq<byte>, separators: set<byte>)
    requires !Avoids(Some(head), separators)
    ensures First(head + tail, separators) == First(head, separators) < |head|
  {
    FirstAt(head + tail, separators, First(head, separators));
  }

  /** The fields that have been read once everything before field `n` has been. */
  function Upto(w: Fields, n: nat): (b: Fields) {
    seq(FIELDS, f requires 0 <= f < FIELDS => if f < n then w[f] else None)
  }

  lemma UptoNext(w: Fields, n: nat)
    requires n < FIELDS
    ensures Upto(w, n)[n := w[n]] == Upto(w, n + 1)
  {
  }

  lemma PathIsReadBack(w: Fields)
    requires w[PATH_FIELD].Some?
    ensures PathOf(w[PATH_FIELD].value, Upto(w, PATH_FIELD)) == Reading(true, w)
            <==> w[QUERY_FIELD] == None && Avoids(w[PATH_FIELD], {QUESTION})
  {
    var p := w[PATH_FIELD].value;
    var r := PathOf(p, Upto(w, PATH_FIELD));
    assert p + [] == p;
    if Avoids(w[PATH_FIELD], {QUESTION}) {
      FirstOf(p, [], {QUESTION});
      assert r.fields[QUERY_FIELD] == None;
      assert w[QUERY_FIELD] == None ==> r.fields == w;
    } else {
      FirstInside(p, [], {QUESTION});
      assert r.fields[PATH_FIELD] != w[PATH_FIELD];
    }
  }

  /** Nothing but perhaps a path follows. */
  lemma PathPartIsReadBack(w: Fields, r: Reading)
    requires var b := Upto(w, PATH_FIELD);
      r == if w[PATH_FIELD] == None then Reading(true, b) else PathOf(w[PATH_FIELD].value, b)
    ensures r == Reading(true, w) <==> w[QUERY_FIELD] == None && Avoids(w[PATH_FIELD], {QUESTION})
  {
    if w[PATH_FIELD] == None {
      assert w[QUERY_FIELD] == None ==> Upto(w, PATH_FIELD) == w;
    } else {
      PathIsReadBack(w);
    }
  }

  lemma PortIsReadBack(w: Fields)
    requires w[PORT_FIELD].Some?
    ensures PortOf(w[PORT_FIELD].value + PathPart(w), Upto(w, PORT_FIELD)) == Reading(true, w) <==> TailOk(w)
  {
    hide PathOf, PortOf, First, Upto, Avoids;
    var p, b := w[PORT_FIELD].value, Upto(w, PORT_FIELD);
    var t := p + PathPart(w);
    if Avoids(w[PORT_FIELD], {SLASH}) {
      FirstOf(p, PathPart(w), {SLASH});
      UptoNext(w, PORT_FIELD);
      assert t[..|p|] == p && (w[PATH_FIELD] == None ==> t == p);
      assert w[PATH_FIELD].Some? ==> t[|p| + 1..] == w[PATH_FIELD].value;
      PortStops(t, |p|, b);
      PathPartIsReadBack(w, PortOf(t, b));
    } else {
      PortIsCutShort(p, PathPart(w), b);
    }
  }

  lemma PortStops(t: seq<byte>, k: nat, v: Fields)
    requires k == First(t, {SLASH})
    ensures k <= |t| && PortOf(t, v) ==
      if k == |t| then Reading(true, v[PORT_FIELD := Some(t)]) else PathOf(t[k + 1..], v[PORT_FIELD := Some(t[..k])])
  {
  }

  lemma PortIsCutShort(port: seq<byte>, tail: seq<byte>, v: Fields)
    requires !Avoids(Some(port), {SLASH})
    ensures PortOf(port + tail, v).fields[PORT_FIELD] != Some(port)
  {
    hide PathOf, First, Avoids;
    var t := port + tail;
    FirstInside(port, tail, {SLASH});
    var k := First(t, {SLASH});
    PathKeeps(t[k + 1..], v[PORT_FIELD := Some(t[..k])]);
    assert |t[..k]| < |port|;
  }

  /** Nothing but perhaps a port and a path follow. */
  lemma PortPartIsReadBack(w: Fields, r: Reading)
    requires var b := Upto(w, PORT_FIELD);
      r == if w[PORT_FIELD].Some? then PortOf(w[PORT_FIELD].value + PathPart(w), b)
           else if w[PATH_FIELD].Some? then PathOf(w[PATH_FIELD].value, b) else Reading(true, b)
    ensures r == Reading(true, w) <==> TailOk(w)
  {
    if w[PORT_FIELD].Some? {
      PortIsReadBack(w);
    } else {
      hide PathOf;
      assert Upto(w, PORT_FIELD) == Upto(w, PATH_FIELD);
      PathPartIsReadBack(w, r);
    }
  }

  lemma HostStops(host: seq<byte>, tail: seq<byte>, v: Fields)
    requires host != [] && Avoids(Some(host[1..]), {COLON, SLASH})
    requires tail != [] ==> tail[0] == COLON || tail[0] == SLASH
    ensures var b := v[HOST_FIELD := Some(host)];
      HostOf(host + tail, v) ==
      if tail == [] then Reading(true, b) else if tail[0] == COLON then PortOf(tail[1..], b) else PathOf(tail[1..], b)
  {
    hide PathOf, PortOf, HostOf;
    var t, k := host + tail, |host|;
    assert t[1..] == host[1..] + tail;
    FirstOf(host[1..], tail, {COLON, SLASH});
    hide First, Avoids;
    HostCases(t, v, k);
    assert t[..k] == host && if tail == [] then t == host else t[k] == tail[0] && t[k + 1..] == tail[1..];
  }

  /** The reader stops where the host was printed to end. */
  lemma HostIsSplitOff(w: Fields)
    requires w[HOST_FIELD].Some? && w[HOST_FIELD].value != [] && Avoids(Some(w[HOST_FIELD].value[1..]), {COLON, SLASH})
    ensures var b := Upto(w, PORT_FIELD);
      HostOf(w[HOST_FIELD].value + PortPart(w), Upto(w, HOST_FIELD)) ==
      if w[PORT_FIELD].Some? then PortOf(w[PORT_FIELD].value + PathPart(w), b)
      else if w[PATH_FIELD].Some? then PathOf(w[PATH_FIELD].value, b) else Reading(true, b)
  {
    hide PathOf, PortOf, HostOf, Upto, Avoids;
    HostStops(w[HOST_FIELD].value, PortPart(w), Upto(w, HOST_FIELD));
    UptoNext(w, HOST_FIELD);
    if w[PORT_FIELD].Some? {
      assert PortPart(w)[1..] == w[PORT_FIELD].value + PathPart(w);
    } else if w[PATH_FIELD].Some? {
      assert PortPart(w)[1..] == w[PATH_FIELD].value;
    }
  }

  lemma HostIsReadBack(w: Fields)
    requires w[HOST_FIELD].Some? && w[HOST_FIELD].value != []
    ensures HostOf(w[HOST_FIELD].value + PortPart(w), Upto(w, HOST_FIELD)) == Reading(true, w)
            <==> TailOk(w) && Avoids(Some(w[HOST_FIELD].value[1..]), {COLON, SLASH})
  {
    hide PathOf, PortOf, HostOf, First, Upto, TailOk, Avoids, PathPart, PortPart;
    var h := w[HOST_FIELD].value;
    var t := h + PortPart(w);
    if Avoids(Some(h[1..]), {COLON, SLASH}) {
      HostIsSplitOff(w);
      PortPartIsReadBack(w, HostOf(t, Upto(w, HOST_FIELD)));
    } else {
      assert t[1..] == h[1..] + PortPart(w);
      FirstInside(h[1..], PortPart(w), {COLON, SLASH});
      HostKeeps(t, Upto(w, HOST_FIELD));
    }
  }

  /** A host that begins with a bracket is not printed as one. */
  lemma BracketIsNotReadBack(w: Fields)
    requires w[HOST_FIELD].Some? && w[HOST_FIELD].value != [] && w[HOST_FIELD].value[0] == OPEN
    ensures Ipv6Of((w[HOST_FIELD].value + PortPart(w))[1..], Upto(w, HOST_FIELD)).fields[HOST_FIELD] != w[HOST_FIELD]
  {
    hide HostPostOf, First;
    var h, t := w[HOST_FIELD].value, w[HOST_FIELD].value + PortPart(w);
    var x := t[1..];
    var k := First(x, {CLOSE});
    if k < |x| {
      HostPostKeeps(x[k + 1..], Upto(w, HOST_FIELD)[HOST_FIELD := Some(x[..k])]);
      if x[..k] == h {
        SameByOne(h, PortPart(w));
        assert false;
      }
    }
  }

  /** A text that is its own shift repeats its first character. */
  lemma {:induction false} SameByOne(h: seq<byte>, tail: seq<byte>)
    requires h != [] && |h| <= |(h + tail)[1..]| && (h + tail)[1..][..|h|] == h
    ensures tail != [] && tail[0] == h[0]
  {
    if |h| == 1 {
      assert (h + tail)[1..][0] == tail[0];
    } else {
      assert (h + tail)[1..] == h[1..] + tail;
      assert h[1..][0] == (h + tail)[1..][0] == h[0];
      assert forall i :: 0 <= i < |h| - 1 ==>
        (h[1..] + tail)[1..][i] == (h + tail)[1..][i + 1] == h[i + 1] == h[1..][i];
      assert (h[1..] + tail)[1..][..|h| - 1] == h[1..];
      SameByOne(h[1..], tail);
    }
  }

  lemma HostPreIsReadBack(w: Fields)
    requires w[HOST_FIELD].Some?
    ensures HostPreOf(w[HOST_FIELD].value + PortPart(w), Upto(w, HOST_FIELD)) == Reading(true, w) <==> HostOk(w)
  {
    hide PathOf, PortOf, HostOf, Ipv6Of, First, Upto, TailOk;
    var h, b := w[HOST_FIELD].value, Upto(w, HOST_FIELD);
    var t := h + PortPart(w);
    UptoNext(w, HOST_FIELD);
    if h == [] {
      assert t == PortPart(w);
      if w[PORT_FIELD].Some? {
        HostKeeps(t, b);
      } else if w[PATH_FIELD].Some? {
        assert t[1..] == w[PATH_FIELD].value;
        PortPartIsReadBack(w, HostPreOf(t, b));
      } else {
        UptoIsNone(w);
      }
    } else if h[0] == OPEN {
      BracketIsNotReadBack(w);
    } else if h[0] == SLASH {
      PathKeeps(t[1..], b[HOST_FIELD := Some([])]);
    } else {
      HostIsReadBack(w);
    }
  }

  // ----- How printed texts begin -----

  lemma AfterColon(head: seq<byte>, t: seq<byte>, v: Fields)
    ensures SchemeOf(head, [SLASH, SLASH] + t, v) == HostPreOf(t, v[SCHEME_FIELD := Some(head)])
  {
    hide HostPreOf;
    assert ([SLASH, SLASH] + t)[1..] == [SLASH] + t;
    FirstAt([SLASH] + t, {SLASH}, 0);
    assert ([SLASH] + t)[1..] == t;
  }

  lemma AtStart(t: seq<byte>, v: Fields)
    ensures UrlOf([SLASH] + t, v) == StartSepOf(t, v) && UrlOf([COLON] + t, v) == SchemeOf([], t, v)
    ensures UrlOf([], v) == Reading(true, v[HOST_FIELD := Some([])])
  {
    hide StartSepOf, SchemeOf, Ipv6Of;
    FirstAt([SLASH] + t, {SLASH, COLON, OPEN}, 0);
    FirstAt([COLON] + t, {SLASH, COLON, OPEN}, 0);
    assert ([SLASH] + t)[1..] == t && ([COLON] + t)[1..] == t && ([COLON] + t)[..0] == [];
  }

  lemma NoHostPart(w: Fields)
    requires w[SCHEME_FIELD].Some? && w[HOST_FIELD] == None
    ensures SchemeOf(w[SCHEME_FIELD].value, HostPart(w), NOTHING) != Reading(true, w)
  {
    hide PortOf, HostPreOf, First;
    var t, b := HostPart(w), NOTHING[SCHEME_FIELD := w[SCHEME_FIELD]];
    if w[PORT_FIELD].Some? {
      PortKeeps(t, NOTHING[HOST_FIELD := w[SCHEME_FIELD]]);
    } else if w[PATH_FIELD].Some? {
      var k := First(t[1..], {SLASH});
      assert b[HOST_FIELD] == None && b[PATH_FIELD] == None;
      if k < |t[1..]| {
        HostPreKeeps(t[1..][k + 1..], b);
      }
    }
  }

  /** After the scheme, the double slash and the host are read back, or something else is read. */
  lemma HostPartIsReadBack(w: Fields)
    requires w[SCHEME_FIELD].Some?
    ensures SchemeOf(w[SCHEME_FIELD].value, HostPart(w), NOTHING) == Reading(true, w)
            <==> w[HOST_FIELD].Some? && HostOk(w)
  {
    hide SchemeOf, HostPreOf, Upto, HostOk, PortPart;
    if w[HOST_FIELD].Some? {
      var rest := w[HOST_FIELD].value + PortPart(w);
      UptoNothing(w);
      UptoNext(w, SCHEME_FIELD);
      assert HostPart(w) == [SLASH, SLASH] + rest;
      AfterColon(w[SCHEME_FIELD].value, rest, NOTHING);
      HostPreIsReadBack(w);
    } else {
      NoHostPart(w);
    }
  }

  lemma UptoNothing(w: Fields)
    ensures Upto(w, SCHEME_FIELD) == NOTHING
  {
  }

  lemma HostWithoutScheme(w: Fields)
    requires w[SCHEME_FIELD] == None && w[HOST_FIELD].Some?
    ensures UrlOf(HostPart(w), NOTHING) == Reading(true, w) <==> HostOk(w)
  {
    hide UrlOf, HostPreOf, PathOf, Upto, HostOk, PortPart;
    var rest := w[HOST_FIELD].value + PortPart(w);
    UptoNothing(w);
    UptoNext(w, SCHEME_FIELD);
    assert Upto(w, HOST_FIELD) == NOTHING;
    assert HostPart(w) == [SLASH] + ([SLASH] + rest) && ([SLASH] + rest)[1..] == rest;
    AtStart([SLASH] + rest, NOTHING);
    HostPreIsReadBack(w);
  }

  lemma NoSchemeIsReadBack(w: Fields)
    requires w[SCHEME_FIELD] == None
    ensures UrlOf(HostPart(w), NOTHING) == Reading(true, w) <==> Printable(w)
  {
    hide UrlOf, HostOk, TailOk, SchemeOf, HostPreOf, PathOf;
    var t := HostPart(w);
    if w[HOST_FIELD].Some? {
      HostWithoutScheme(w);
    } else if w[PORT_FIELD].Some? {
      var rest := w[PORT_FIELD].value + PathPart(w);
      assert t == [COLON] + rest;
      AtStart(rest, NOTHING);
      SchemeKeeps([], rest, NOTHING);
    } else if w[PATH_FIELD].Some? {
      var p := w[PATH_FIELD].value;
      assert t == [SLASH] + p;
      AtStart(p, NOTHING);
      if p != [] && p[0] == SLASH {
        HostPreKeeps(p[1..], NOTHING);
      } else {
        PathOnly(w);
      }
    } else {
      assert t == [];
      AtStart([], NOTHING);
    }
  }

  lemma PathOnly(w: Fields)
    requires w[SCHEME_FIELD] == None && w[HOST_FIELD] == None && w[PORT_FIELD] == None && w[PATH_FIELD].Some?
    ensures PathOf(w[PATH_FIELD].value, NOTHING) == Reading(true, w) <==> TailOk(w)
  {
    hide PathOf;
    assert Upto(w, PATH_FIELD) == NOTHING;
    PathIsReadBack(w);
  }

  /** Printing a url and parsing the text gives the url back if and only if it is printable. */
  lemma UrlRoundTripIff(w: Fields)
    ensures UrlOf(Dump(w), NOTHING) == Reading(true, w) <==> Printable(w)
  {
    hide First, Upto, HostOk, SchemeOf, HostPreOf, PathOf, Ipv6Of, StartSepOf, Avoids;
    var t := Dump(w);
    if w[SCHEME_FIELD].Some? {
      var sc := w[SCHEME_FIELD].value;
      assert t == sc + ([COLON] + HostPart(w));
      if Avoids(w[SCHEME_FIELD], {SLASH, COLON, OPEN}) {
        FirstOf(sc, [COLON] + HostPart(w), {SLASH, COLON, OPEN});
        assert t[..|sc|] == sc && t[|sc| + 1..] == HostPart(w);
        HostPartIsReadBack(w);
      } else {
        FirstInside(sc, [COLON] + HostPart(w), {SLASH, COLON, OPEN});
        var k := First(t, {SLASH, COLON, OPEN});
        StartSepKeeps(t[k + 1..], NOTHING);
        Ipv6Keeps(t[k + 1..], NOTHING);
        SchemeKeeps(t[..k], t[k + 1..], NOTHING);
        assert |t[..k]| < |sc|;
      }
    } else {
      assert t == HostPart(w);
      NoSchemeIsReadBack(w);
    }
  }

  lemma UptoIsNone(w: Fields)
    ensures Upto(w, HOST_FIELD)[HOST_FIELD] == None
  {
  }

  // ----- What the readers leave alone -----

  lemma PathKeeps(t: seq<byte>, v: Fields)
    ensures var u := PathOf(t, v).fields;
      && u[SCHEME_FIELD] == v[SCHEME_FIELD] && u[HOST_FIELD] == v[HOST_FIELD]
      && u[PORT_FIELD] == v[PORT_FIELD]
  {
  }

  lemma PortKeeps(t: seq<byte>, v: Fields)
    ensures var u := PortOf(t, v).fields;
      u[SCHEME_FIELD] == v[SCHEME_FIELD] && u[HOST_FIELD] == v[HOST_FIELD]
  {
    hide PathOf, First;
    var k := First(t, {SLASH});
    if k < |t| {
      PathKeeps(t[k + 1..], v[PORT_FIELD := Some(t[..k])]);
    }
  }

  lemma HostKeeps(t: seq<byte>, v: Fields)
    requires t != []
    ensures var u := HostOf(t, v).fields;
      && u[SCHEME_FIELD] == v[SCHEME_FIELD]
      && 1 + First(t[1..], {COLON, SLASH}) <= |t| && u[HOST_FIELD] == Some(t[..1 + First(t[1..], {COLON, SLASH})])
  {
    hide PathOf, PortOf, First;
    var k := 1 + First(t[1..], {COLON, SLASH});
    if k < |t| {
      PortKeeps(t[k + 1..], v[HOST_FIELD := Some(t[..k])]);
      PathKeeps(t[k + 1..], v[HOST_FIELD := Some(t[..k])]);
    } else {
      assert t[..k] == t;
    }
  }

  lemma HostPostKeeps(t: seq<byte>, v: Fields)
    ensures var u := HostPostOf(t, v).fields;
      u[SCHEME_FIELD] == v[SCHEME_FIELD] && u[HOST_FIELD] == v[HOST_FIELD]
  {
    hide PathOf, PortOf;
    if t != [] {
      PortKeeps(t[1..], v);
      PathKeeps(t[1..], v);
    }
  }

  lemma Ipv6Keeps(t: seq<byte>, v: Fields)
    ensures var u := Ipv6Of(t, v).fields;
      u[SCHEME_FIELD] == v[SCHEME_FIELD] && (u[HOST_FIELD].Some? || u == v)
  {
    hide HostPostOf, First;
    var k := First(t, {CLOSE});
    if k < |t| {
      HostPostKeeps(t[k + 1..], v[HOST_FIELD := Some(t[..k])]);
    }
  }

  lemma HostPreKeeps(t: seq<byte>, v: Fields)
    ensures var u := HostPreOf(t, v).fields;
      u[SCHEME_FIELD] == v[SCHEME_FIELD] && (u[HOST_FIELD].Some? || u == v)
  {
    hide Ipv6Of, HostOf, PathOf, First;
    if t != [] {
      Ipv6Keeps(t[1..], v);
      PathKeeps(t[1..], v[HOST_FIELD := Some([])]);
      HostKeeps(t, v);
    }
  }

  lemma StartSepKeeps(t: seq<byte>, v: Fields)
    ensures StartSepOf(t, v).fields[SCHEME_FIELD] == v[SCHEME_FIELD]
  {
    hide HostPreOf, PathOf;
    PathKeeps(t, v);
    if t != [] {
      HostPreKeeps(t[1..], v);
    }
  }

  lemma SchemeKeeps(head: seq<byte>, t: seq<byte>, v: Fields)
    ensures var u := SchemeOf(head, t, v).fields;
      (u[SCHEME_FIELD] == Some(head) || (u[SCHEME_FIELD] == v[SCHEME_FIELD] && u[HOST_FIELD].Some?))
  {
    hide HostPreOf, PortOf, First;
    PortKeeps(t, v[HOST_FIELD := Some(head)]);
    if t != [] && t[0] == SLASH {
      var k := First(t[1..], {SLASH});
      if k < |t[1..]| {
        HostPreKeeps(t[1..][k + 1..], v[SCHEME_FIELD := Some(head)]);
      }
    }
  }

  // ----- Which urls that were read survive printing and reading again -----

  /** No field holds a character that ends it. */
  predicate Tidy(v: Fields) {
    Avoids(v[SCHEME_FIELD], {SLASH, COLON, OPEN}) && Avoids(v[PORT_FIELD], {SLASH}) && Avoids(v[PATH_FIELD], {QUESTION})
  }

  /** A host that could be read without brackets. */
  predicate PlainHost(host: seq<byte>) {
    host != [] ==> host[0] !in {SLASH, OPEN} && Avoids(Some(host[1..]), {COLON, SLASH})
  }

  lemma PathIsTidy(t: seq<byte>, v: Fields)
    requires Tidy(v)
    ensures Tidy(PathOf(t, v).fields)
  {
  }

  lemma PortIsTidy(t: seq<byte>, v: Fields)
    requires Tidy(v)
    ensures Tidy(PortOf(t, v).fields)
  {
    hide PathOf;
    var k := First(t, {SLASH});
    if k < |t| {
      PathIsTidy(t[k + 1..], v[PORT_FIELD := Some(t[..k])]);
    }
  }

  lemma HostIsTidy(t: seq<byte>, v: Fields)
    requires t != [] && Tidy(v)
    ensures Tidy(HostOf(t, v).fields)
    ensures t[0] !in {SLASH, OPEN} ==> var h := HostOf(t, v).fields[HOST_FIELD]; h.Some? && PlainHost(h.value)
  {
    HostKeeps(t, v);
    hide PathOf, PortOf;
    var k := 1 + First(t[1..], {COLON, SLASH});
    if k < |t| {
      PortIsTidy(t[k + 1..], v[HOST_FIELD := Some(t[..k])]);
      PathIsTidy(t[k + 1..], v[HOST_FIELD := Some(t[..k])]);
    }
    assert t[..k][1..] == t[1..][..k - 1];
  }

  lemma HostPostIsTidy(t: seq<byte>, v: Fields)
    requires Tidy(v)
    ensures Tidy(HostPostOf(t, v).fields)
  {
    hide PathOf, PortOf, Tidy;
    if t != [] {
      PortIsTidy(t[1..], v);
      PathIsTidy(t[1..], v);
    }
  }

  lemma Ipv6IsTidy(t: seq<byte>, v: Fields)
    requires Tidy(v)
    ensures Tidy(Ipv6Of(t, v).fields)
  {
    hide HostPostOf, First;
    var k := First(t, {CLOSE});
    if k < |t| {
      HostPostIsTidy(t[k + 1..], v[HOST_FIELD := Some(t[..k])]);
    }
  }

  lemma HostPreIsTidy(t: seq<byte>, v: Fields)
    requires Tidy(v)
    ensures Tidy(HostPreOf(t, v).fields)
    ensures OPEN !in t && v[HOST_FIELD] == None ==>
      var h := HostPreOf(t, v).fields[HOST_FIELD]; h.Some? ==> PlainHost(h.value)
  {
    hide Ipv6Of, HostOf, PathOf, Avoids;
    if t != [] {
      Ipv6IsTidy(t[1..], v);
      PathIsTidy(t[1..], v[HOST_FIELD := Some([])]);
      PathKeeps(t[1..], v[HOST_FIELD := Some([])]);
      HostIsTidy(t, v);
    }
  }

  /** What can be said of every url that was read. */
  predicate Parsed(v: Fields, brackets: bool) {
    && Tidy(v)
    && (v[HOST_FIELD].Some? && !brackets ==> PlainHost(v[HOST_FIELD].value))
    && (v[HOST_FIELD] == None && v[PATH_FIELD].Some? ==>
          && v[SCHEME_FIELD] == None && v[PORT_FIELD] == None
          && (v[PATH_FIELD].value != [] ==> v[PATH_FIELD].value[0] != SLASH))
  }

  lemma HostPreIsParsed(t: seq<byte>, v: Fields)
    requires Tidy(v) && v[HOST_FIELD] == None && v[PATH_FIELD] == None
    ensures Parsed(HostPreOf(t, v).fields, OPEN in t)
  {
    hide HostPreOf, Tidy, PlainHost;
    HostPreIsTidy(t, v);
    HostPreKeeps(t, v);
  }

  lemma StartSepIsParsed(t: seq<byte>)
    ensures Parsed(StartSepOf(t, NOTHING).fields, OPEN in t)
  {
    if t != [] && t[0] == SLASH {
      hide HostPreOf, Parsed;
      HostPreIsParsed(t[1..], NOTHING);
      ParsedWithBrackets(HostPreOf(t[1..], NOTHING).fields, OPEN in t[1..], OPEN in t);
    } else {
      PathIsTidy(t, NOTHING);
      PathKeeps(t, NOTHING);
      hide Tidy, PlainHost;
      PathBeginsLike(t, NOTHING);
    }
  }

  lemma PathBeginsLike(t: seq<byte>, v: Fields)
    ensures var p := PathOf(t, v).fields[PATH_FIELD];
      p.Some? && (p.value != [] ==> t != [] && p.value[0] == t[0])
  {
  }

  lemma ParsedWithBrackets(v: Fields, some: bool, more: bool)
    requires Parsed(v, some) && (some ==> more)
    ensures Parsed(v, more)
  {
  }

  lemma SchemeIsParsed(head: seq<byte>, t: seq<byte>)
    requires Avoids(Some(head), {SLASH, COLON, OPEN})
    ensures Parsed(SchemeOf(head, t, NOTHING).fields, OPEN in t)
  {
    var b := NOTHING[HOST_FIELD := Some(head)];
    if t != [] && t[0] == SLASH {
      var k := First(t[1..], {SLASH});
      if k < |t[1..]| {
        hide HostPreOf, First;
        var u := t[1..][k + 1..];
        HostPreIsParsed(u, NOTHING[SCHEME_FIELD := Some(head)]);
        ParsedWithBrackets(HostPreOf(u, NOTHING[SCHEME_FIELD := Some(head)]).fields, OPEN in u, OPEN in t);
      }
    } else if t != [] {
      hide PortOf;
      PortIsTidy(t, b);
      PortKeeps(t, b);
    }
  }

  lemma UrlIsParsed(t: seq<byte>)
    ensures Parsed(UrlOf(t, NOTHING).fields, OPEN in t)
  {
    hide StartSepOf, SchemeOf, Ipv6Of, First, PlainHost, Avoids;
    var k := First(t, {SLASH, COLON, OPEN});
    FirstIs(t);
    if k < |t| {
      var u := t[k + 1..];
      assert OPEN in u ==> OPEN in t;
      StartSepIsParsed(u);
      ParsedWithBrackets(StartSepOf(u, NOTHING).fields, OPEN in u, OPEN in t);
      SchemeIsParsed(t[..k], u);
      ParsedWithBrackets(SchemeOf(t[..k], u, NOTHING).fields, OPEN in u, OPEN in t);
      Ipv6IsTidy(u, NOTHING);
      Ipv6Keeps(u, NOTHING);
    }
  }

  /** What comes before the first separator avoids them, and is a plain host. */
  lemma FirstIs(t: seq<byte>)
    ensures var k := First(t, {SLASH, COLON, OPEN});
      && Avoids(Some(t[..k]), {SLASH, COLON, OPEN}) && PlainHost(t[..k]) && (k == |t| ==> t[..k] == t)
      && (k < |t| ==> t[k] == SLASH || t[k] == COLON || t[k] == OPEN)
    ensures Tidy(NOTHING)
  {
  }

  /** A url that was read survives printing and reading again if and only if it has no query, its host could be read
      without brackets, and it has something to tell it by: a path if it has no host, or a path and no port if its
      host is empty. */
  lemma ReadUrlSurvivesIff(t: seq<byte>)
    requires UrlOf(t, NOTHING).ok
    ensures var v := UrlOf(t, NOTHING).fields;
      UrlOf(Dump(v), NOTHING) == Reading(true, v) <==>
      && v[QUERY_FIELD] == None
      && match v[HOST_FIELD]
         case None => v[PATH_FIELD].Some?
         case Some(h) => PlainHost(h) && (h == [] ==> v[PORT_FIELD] == None && v[PATH_FIELD].Some?)
    ensures var v := UrlOf(t, NOTHING).fields;
      OPEN !in t && v[HOST_FIELD].Some? && v[HOST_FIELD].value != [] ==>
      (UrlOf(Dump(v), NOTHING) == Reading(true, v) <==> v[QUERY_FIELD] == None)
  {
    UrlIsParsed(t);
    UrlRoundTripIff(UrlOf(t, NOTHING).fields);
    hide UrlOf, Dump;
  }

  lemma BracketsAreRead(host: seq<byte>)
    requires CLOSE !in host
    ensures UrlOf([SLASH] + ([SLASH, OPEN] + (host + [CLOSE])), NOTHING) ==
            Reading(true, NOTHING[HOST_FIELD := Some(host)])
  {
    hide UrlOf, First, PathOf, PortOf, HostOf;
    var u := host + [CLOSE];
    var t := [SLASH, OPEN] + u;
    AtStart(t, NOTHING);
    FirstAt(u, {CLOSE}, |host|);
    assert u[..|host|] == host && u[|host| + 1..] == [];
    assert Ipv6Of(u, NOTHING) == Reading(true, NOTHING[HOST_FIELD := Some(host)]);
    hide Ipv6Of;
    assert t[0] == SLASH && t[1..][0] == OPEN && t[1..][1..] == u;
  }

  /** The brackets of an IPv6 host are lost in print: what is printed is read as another url. */
  lemma BracketsAreLost()
    ensures var v := NOTHING[HOST_FIELD := Some([COLON, COLON])];
      && UrlOf([SLASH, SLASH, OPEN, COLON, COLON, CLOSE], NOTHING) == Reading(true, v)
      && Dump(v) == [SLASH, SLASH, COLON, COLON]
      && UrlOf([SLASH, SLASH, COLON, COLON], NOTHING) != Reading(true, v)
  {
    var host: seq<byte> := [COLON, COLON];
    var v: Fields := NOTHING[HOST_FIELD := Some(host)];
    BracketsAreRead(host);
    assert [SLASH] + ([SLASH, OPEN] + (host + [CLOSE])) == [SLASH, SLASH, OPEN, COLON, COLON, CLOSE];
    assert host[1..][0] == COLON;
    assert !Printable(v) && Dump(v) == [SLASH, SLASH, COLON, COLON];
    hide UrlOf, Printable, Dump;
    UrlRoundTripIff(v);
  }
}
