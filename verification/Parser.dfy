/** The table-driven parser of src/common/parse.c: one pass over a NUL-terminated string that cuts it into
    tokens in place and stores pointers to them. Pointers are offsets into the buffer. */
module Parser {
  import opened Options
  import opened CStrings

  /** PARSE_NONE or PARSE_STRING, with the place where the token is stored. */
  datatype Store = Nothing | Text(slot: nat)

  /** struct parse */
  datatype Rule = Rule(state: int, c: int, next: int, store: Store, keep: bool, skip: bool)

  const WILDCARD: int := -1

  /** A rule that ends the token, without or with storing it. */
  function Go(state: int, c: int, next: int): Rule {
    Rule(state, c, next, Nothing, false, false)
  }

  function Take(state: int, c: int, next: int, slot: nat): Rule {
    Rule(state, c, next, Text(slot), false, false)
  }

  const LAST := Rule(0, 0, 0, Nothing, false, false)

  predicate Sentinel(r: Rule) {
    r.state == 0 && r.c == 0 && r.next == 0
  }

  /** A byte as a C char. */
  function Signed(b: byte): int {
    if b < 128 then b else b - 256
  }

  predicate Matches(r: Rule, state: int, c: int) {
    r.state == state && (r.c == c || r.c == WILDCARD)
  }

  /** The first rule that matches, before the sentinel. */
  function Lookup(rules: seq<Rule>, state: int, c: int): (p: Option<Rule>)
    ensures p.Some? ==> p.value in rules && Matches(p.value, state, c)
  {
    if rules == [] || Sentinel(rules[0]) then None
    else if Matches(rules[0], state, c) then Some(rules[0])
    else Lookup(rules[1..], state, c)
  }

  /** The rule found is the first one that matches, and no sentinel comes before it; none is found only if a
      sentinel, or the end of the table, comes before any that matches. */
  lemma {:induction false} LookupIsFirst(rules: seq<Rule>, state: int, c: int) returns (i: nat)
    ensures i <= |rules| && forall j :: 0 <= j < i ==> !Sentinel(rules[j]) && !Matches(rules[j], state, c)
    ensures match Lookup(rules, state, c)
      case None => i == |rules| || Sentinel(rules[i])
      case Some(r) => i < |rules| && rules[i] == r && !Sentinel(r) && Matches(r, state, c)
  {
    if rules == [] || Sentinel(rules[0]) || Matches(rules[0], state, c) {
      return 0;
    }
    i := LookupIsFirst(rules[1..], state, c);
    i := i + 1;
    assert forall j :: 0 < j < |rules| ==> rules[j] == rules[1..][j - 1];
  }

  /** parse_step() */
  method ParseStep(rules: seq<Rule>, state: int, c: int) returns (p: Option<Rule>)
    requires rules != [] && Sentinel(rules[|rules| - 1])
    ensures p == Lookup(rules, state, c)
  {
    var i := 0;
    while !Sentinel(rules[i])
      invariant i < |rules|
      invariant Lookup(rules, state, c) == Lookup(rules[i..], state, c)
      decreases |rules| - i
    {
      if rules[i].state == state && rules[i].c == c {
        return Some(rules[i]);
      }
      if rules[i].state == state && rules[i].c == WILDCARD {
        return Some(rules[i]);
      }
      assert rules[i..][1..] == rules[i + 1..];
      i := i + 1;
    }
    return None;
  }

  // ----- The whole parse -----

  /** The string that starts at `at` ends at `end`. */
  predicate Terminated(s: seq<byte>, at: nat, end: nat) {
    at <= end < |s| && s[end] == 0 && forall i :: at <= i < end ==> s[i] != 0
  }

  predicate StoresIn(rules: seq<Rule>, n: nat) {
    forall r :: r in rules && r.store.Text? ==> r.store.slot < n
  }

  /** The buffer, the stored pointers and the value returned. */
  datatype Parsing = Parsing(s: seq<byte>, slots: seq<Option<nat>>, state: int)

  function Stored(store: Store, token: nat, slots: seq<Option<nat>>): seq<Option<nat>>
    requires store.Text? ==> store.slot < |slots|
  {
    if store.Text? then slots[store.slot := Some(token)] else slots
  }

  /** parse() from position `at`. A final rule that stores nothing makes it return 1. */
  function Scan(rules: seq<Rule>, s: seq<byte>, at: nat, end: nat, token: nat, state: int,
                slots: seq<Option<nat>>): (p: Parsing)
    requires Terminated(s, at, end) && StoresIn(rules, |slots|)
    ensures |p.s| == |s| && |p.slots| == |slots| && p.s[..at] == s[..at] && p.s[end..] == s[end..]
    ensures forall i :: 0 <= i < |s| ==> p.s[i] == s[i] || p.s[i] == 0
    decreases end - at
  {
    if at == end then
      match Lookup(rules, state, 0)
      case None => Parsing(s, slots, state)
      case Some(r) => Parsing(s, Stored(r.store, token, slots), if r.store == Nothing then 1 else r.next)
    else
      match Lookup(rules, state, Signed(s[at]))
      case None => Scan(rules, s, at + 1, end, token, state, slots)
      case Some(r) =>
        var cut := if r.keep then s else s[at := 0];
        var next := if r.skip then token else if r.keep then at else at + 1;
        var p := Scan(rules, cut, at + 1, end, next, r.next, Stored(r.store, token, slots));
        assert p.s[..at] == p.s[..at + 1][..at] && cut[..at] == cut[..at + 1][..at];
        p
  }

  /** parse() */
  method Parse(rules: seq<Rule>, buf: array<byte>, str: nat, ghost end: nat, start: int, slots: array<Option<nat>>)
    returns (state: int)
    requires Terminated(buf[..], str, end) && StoresIn(rules, slots.Length)
    requires rules != [] && Sentinel(rules[|rules| - 1])
    modifies buf, slots
    ensures Parsing(buf[..], slots[..], state) == Scan(rules, old(buf[..]), str, end, str, start, old(slots[..]))
  {
    hide Scan, Lookup;
    var strp: nat, token: nat := str, str;
    state := start;
    ghost var result := Scan(rules, buf[..], str, end, str, start, slots[..]);
    var p;
    while buf[strp] != 0
      invariant Terminated(buf[..], strp, end)
      invariant result == Scan(rules, buf[..], strp, end, token, state, slots[..])
      decreases end - strp
    {
      ghost var s, t := buf[..], slots[..];
      ghost var was := token;
      ScanStep(rules, s, strp, end, token, state, t);
      p := ParseStep(rules, state, Signed(buf[strp]));
      if p == None {
        strp := strp + 1;
      } else {
        var rule := p.value;
        if !rule.keep {
          buf[strp] := 0;
        }
        if rule.store.Text? {
          slots[rule.store.slot] := Some(token);
        }
        state := rule.next;
        token := if rule.skip then token else if rule.keep then strp else strp + 1;
        assert buf[..] == (if rule.keep then s else s[strp := 0]) && slots[..] == Stored(rule.store, was, t);
        strp := strp + 1;
      }
    }
    ghost var t := slots[..];
    ScanEnd(rules, buf[..], end, token, state, t);
    p := ParseStep(rules, state, 0);
    if p != None {
      state := p.value.next;
      if p.value.store.Text? {
        slots[p.value.store.slot] := Some(token);
      } else {
        state := 1;
      }
      assert slots[..] == Stored(p.value.store, token, t);
    }
  }

  lemma ScanStep(rules: seq<Rule>, s: seq<byte>, at: nat, end: nat, token: nat, state: int, slots: seq<Option<nat>>)
    requires Terminated(s, at, end) && StoresIn(rules, |slots|) && at < end
    ensures Lookup(rules, state, Signed(s[at])) == None ==>
      Scan(rules, s, at, end, token, state, slots) == Scan(rules, s, at + 1, end, token, state, slots)
    ensures Lookup(rules, state, Signed(s[at])).Some? ==>
      var r := Lookup(rules, state, Signed(s[at])).value;
      Scan(rules, s, at, end, token, state, slots) ==
      Scan(rules, if r.keep then s else s[at := 0], at + 1, end,
           if r.skip then token else if r.keep then at else at + 1, r.next, Stored(r.store, token, slots))
  {
    hide Lookup;
  }

  lemma ScanEnd(rules: seq<Rule>, s: seq<byte>, end: nat, token: nat, state: int, slots: seq<Option<nat>>)
    requires Terminated(s, end, end) && StoresIn(rules, |slots|)
    ensures var p := Scan(rules, s, end, end, token, state, slots);
      match Lookup(rules, state, 0)
      case None => p == Parsing(s, slots, state)
      case Some(r) => p == Parsing(s, Stored(r.store, token, slots), if r.store == Nothing then 1 else r.next)
  {
    hide Lookup;
  }

  /** Characters that no rule mentions are part of the token. */
  lemma {:induction false} TokenContinues(rules: seq<Rule>, s: seq<byte>, at: nat, end: nat, token: nat, state: int,
                                          slots: seq<Option<nat>>, k: nat)
    requires Terminated(s, at, end) && StoresIn(rules, |slots|) && at <= k <= end
    requires forall i :: at <= i < k ==> Lookup(rules, state, Signed(s[i])) == None
    ensures Scan(rules, s, at, end, token, state, slots) == Scan(rules, s, k, end, token, state, slots)
    decreases k - at
  {
    if at < k {
      TokenContinues(rules, s, at + 1, end, token, state, slots, k);
    }
  }

  // ----- Tables that are grouped by state -----

  function Flatten(groups: seq<seq<Rule>>): (rules: seq<Rule>)
    ensures rules != [] && Sentinel(rules[|rules| - 1])
  {
    if groups == [] then [LAST] else groups[0] + Flatten(groups[1..])
  }

  predicate GroupOf(group: seq<Rule>, state: int) {
    forall r :: r in group ==> r.state == state && !Sentinel(r)
  }

  predicate Grouped(groups: seq<seq<Rule>>, first: int) {
    forall i :: 0 <= i < |groups| ==> GroupOf(groups[i], first + i)
  }

  lemma {:induction false} LookupAppend(group: seq<Rule>, rules: seq<Rule>, own: int, state: int, c: int)
    requires GroupOf(group, own)
    ensures Lookup(group + rules, state, c) ==
            if state == own && Lookup(group, state, c).Some? then Lookup(group, state, c) else Lookup(rules, state, c)
  {
    if group == [] {
      assert group + rules == rules;
    } else {
      assert group[0] in group;
      assert (group + rules)[1..] == group[1..] + rules;
      LookupAppend(group[1..], rules, own, state, c);
    }
  }

  lemma {:induction false} LookupGroup(groups: seq<seq<Rule>>, first: int, state: int, c: int)
    requires Grouped(groups, first)
    ensures Lookup(Flatten(groups), state, c) ==
            if first <= state < first + |groups| then Lookup(groups[state - first], state, c) else None
  {
    if groups != [] {
      assert forall i :: 0 <= i < |groups[1..]| ==> groups[1..][i] == groups[i + 1];
      assert GroupOf(groups[0], first + 0);
      LookupGroup(groups[1..], first + 1, state, c);
      LookupAppend(groups[0], Flatten(groups[1..]), first, state, c);
    }
  }

  function Pick(group: seq<Rule>, state: int, c: int): Option<Rule> {
    if |group| > 0 && Matches(group[0], state, c) then Some(group[0])
    else if |group| > 1 && Matches(group[1], state, c) then Some(group[1])
    else if |group| > 2 && Matches(group[2], state, c) then Some(group[2])
    else if |group| > 3 && Matches(group[3], state, c) then Some(group[3])
    else None
  }

  lemma {:induction false} LookupPick(group: seq<Rule>, state: int, c: int)
    requires GroupOf(group, state) && |group| <= 4
    ensures Lookup(group, state, c) == Pick(group, state, c)
  {
    if group != [] {
      assert group[0] in group;
      LookupPick(group[1..], state, c);
    }
  }

  /** The rules for one state. */
  lemma RowOf(groups: seq<seq<Rule>>, state: nat)
    requires Grouped(groups, 0) && state < |groups| && |groups[state]| <= 4
    ensures forall c :: Lookup(Flatten(groups), state, c) == Pick(groups[state], state, c)
  {
    forall c
      ensures Lookup(Flatten(groups), state, c) == Pick(groups[state], state, c)
    {
      LookupGroup(groups, 0, state, c);
      assert GroupOf(groups[state], 0 + state);
      LookupPick(groups[state], state, c);
    }
  }

  lemma {:induction false} FlattenStores(groups: seq<seq<Rule>>, n: nat)
    requires forall i :: 0 <= i < |groups| ==> StoresIn(groups[i], n)
    ensures StoresIn(Flatten(groups), n)
  {
    if groups != [] {
      FlattenStores(groups[1..], n);
      assert StoresIn(groups[0], n);
    }
  }

  // ----- The strings that stored pointers point to -----

  /** Every stored string ends before `at`. */
  predicate Settled(s: seq<byte>, slots: seq<Option<nat>>, at: nat) {
    && at <= |s|
    && forall f :: 0 <= f < |slots| && slots[f].Some? ==> slots[f].value <= at && 0 in s[..at][slots[f].value..]
  }

  function Field(s: seq<byte>, slot: Option<nat>): Option<seq<byte>> {
    match slot
    case None => None
    case Some(o) => Some(if o <= |s| then CString(s[o..]) else [])
  }

  function View(s: seq<byte>, slots: seq<Option<nat>>): (v: seq<Option<seq<byte>>>)
    ensures |v| == |slots|
  {
    seq(|slots|, f requires 0 <= f < |slots| => Field(s, slots[f]))
  }

  lemma {:induction false} CStringEnds(s: seq<byte>, o: nat, end: nat)
    requires Terminated(s, o, end)
    ensures CString(s[o..]) == s[o..end]
  {
    CStringPrefix(s[o..], end - o);
    assert s[o..][..end - o] == s[o..end];
    CStringWhole(s[o..end]);
  }

  lemma {:induction false} FieldKept(s: seq<byte>, t: seq<byte>, o: nat, at: nat)
    requires |t| == |s| && o <= at <= |s| && t[..at] == s[..at] && 0 in s[..at][o..]
    ensures CString(t[o..]) == CString(s[o..])
  {
    var j: nat :| j < at - o && s[..at][o..][j] == 0;
    assert t[..at][o..][j] == 0;
    CStringPrefix(s[o..], j);
    CStringPrefix(t[o..], j);
    assert s[o..][..j] == s[..at][o..o + j] && t[o..][..j] == t[..at][o..o + j];
  }

  /** Writing behind the settled strings does not change them. */
  lemma ViewKept(s: seq<byte>, t: seq<byte>, slots: seq<Option<nat>>, at: nat)
    requires Settled(s, slots, at) && |t| == |s| && t[..at] == s[..at]
    ensures View(t, slots) == View(s, slots) && Settled(t, slots, at)
  {
    forall f | 0 <= f < |slots| && slots[f].Some?
      ensures Field(t, slots[f]) == Field(s, slots[f])
    {
      FieldKept(s, t, slots[f].value, at);
    }
  }

  lemma SettledLater(s: seq<byte>, slots: seq<Option<nat>>, at: nat, later: nat)
    requires Settled(s, slots, at) && at <= later <= |s|
    ensures Settled(s, slots, later)
  {
    forall f | 0 <= f < |slots| && slots[f].Some?
      ensures slots[f].value <= later && 0 in s[..later][slots[f].value..]
    {
      var o := slots[f].value;
      var j: nat :| j < at - o && s[..at][o..][j] == 0;
      assert s[..later][o..][j] == 0;
    }
  }

  /** Ending the token at `k` without storing it. */
  lemma CutToken(s: seq<byte>, slots: seq<Option<nat>>, token: nat, k: nat)
    requires Settled(s, slots, token) && token <= k < |s|
    ensures View(s[k := 0], slots) == View(s, slots) && Settled(s[k := 0], slots, k + 1)
  {
    ViewKept(s, s[k := 0], slots, token);
    SettledLater(s[k := 0], slots, token, k + 1);
  }

  /** Ending the token at `k` and storing it. */
  lemma StoreToken(s: seq<byte>, slots: seq<Option<nat>>, token: nat, k: nat, f: nat)
    requires Settled(s, slots, token) && token <= k < |s| && f < |slots|
    requires forall i :: token <= i < k ==> s[i] != 0
    ensures Settled(s[k := 0], slots[f := Some(token)], k + 1)
    ensures View(s[k := 0], slots[f := Some(token)]) == View(s, slots)[f := Some(s[token..k])]
  {
    var t := s[k := 0];
    CutToken(s, slots, token, k);
    assert t[..k + 1][token..][k - token] == 0;
    CStringEnds(t, token, k);
    assert t[token..k] == s[token..k];
    var v, w := View(t, slots[f := Some(token)]), View(s, slots)[f := Some(s[token..k])];
    assert forall g :: 0 <= g < |slots| && g != f ==> v[g] == View(t, slots)[g];
    assert v == w;
  }

  // ----- One token -----

  /** The position of the first separator, or the length if there is none. */
  function First(t: seq<byte>, separators: set<byte>): (k: nat)
    ensures k <= |t| && (k < |t| ==> t[k] in separators)
    ensures forall i :: 0 <= i < k ==> t[i] !in separators
  {
    if t == [] || t[0] in separators then 0 else 1 + First(t[1..], separators)
  }

  lemma {:induction false} FirstAt(t: seq<byte>, separators: set<byte>, k: nat)
    requires k <= |t| && (k < |t| ==> t[k] in separators)
    requires forall i :: 0 <= i < k ==> t[i] !in separators
    ensures First(t, separators) == k
  {
    if k > 0 {
      FirstAt(t[1..], separators, k - 1);
    }
  }

  /** The parser is at `at`, in the middle of a token, and everything stored so far is settled. */
  ghost predicate Ready(s: seq<byte>, token: nat, at: nat, end: nat, slots: seq<Option<nat>>) {
    Terminated(s, token, end) && token <= at <= end && Settled(s, slots, token)
  }

  /** No rule of the state applies before the first separator. */
  lemma Advance(rules: seq<Rule>, s: seq<byte>, token: nat, at: nat, end: nat, state: int, slots: seq<Option<nat>>,
                separators: set<byte>)
    returns (k: nat)
    requires Terminated(s, at, end) && StoresIn(rules, |slots|)
    requires forall b: byte :: b != 0 && b !in separators ==> Lookup(rules, state, Signed(b)) == None
    ensures k == at + First(s[at..end], separators) <= end && Terminated(s, k, end)
    ensures k < end ==> s[k] in separators
    ensures Scan(rules, s, at, end, token, state, slots) == Scan(rules, s, k, end, token, state, slots)
  {
    hide Scan, Lookup;
    k := at + First(s[at..end], separators);
    assert forall i :: at <= i < k ==> s[i] == s[at..end][i - at];
    TokenContinues(rules, s, at, end, token, state, slots, k);
  }

  /** At `k` the rule `r` ends the token and stores it, and the next token begins. */
  lemma Finish(rules: seq<Rule>, s: seq<byte>, token: nat, k: nat, end: nat, state: int, slots: seq<Option<nat>>,
               r: Rule)
    returns (cut: seq<byte>, stored: seq<Option<nat>>)
    requires Ready(s, token, k, end, slots) && StoresIn(rules, |slots|) && k < end
    requires Lookup(rules, state, Signed(s[k])) == Some(r) && !r.keep && !r.skip
    ensures Ready(cut, k + 1, k + 1, end, stored) && |stored| == |slots|
    ensures |cut| == |s| && cut[k + 1..end] == s[k + 1..end]
    ensures View(cut, stored) ==
            if r.store.Text? then View(s, slots)[r.store.slot := Some(s[token..k])] else View(s, slots)
    ensures Scan(rules, s, k, end, token, state, slots) == Scan(rules, cut, k + 1, end, k + 1, r.next, stored)
  {
    hide Scan, Lookup, View, Settled;
    cut, stored := s[k := 0], Stored(r.store, token, slots);
    ScanStep(rules, s, k, end, token, state, slots);
    if r.store.Text? {
      StoreToken(s, slots, token, k, r.store.slot);
    } else {
      CutToken(s, slots, token, k);
    }
  }

  /** At the end the rule `r` stores the last token. */
  lemma FinishLast(rules: seq<Rule>, s: seq<byte>, token: nat, end: nat, state: int, slots: seq<Option<nat>>, r: Rule)
    requires Ready(s, token, end, end, slots) && StoresIn(rules, |slots|)
    requires Lookup(rules, state, 0) == Some(r)
    ensures var p := Scan(rules, s, end, end, token, state, slots);
      && p.state == (if r.store.Text? then r.next else 1)
      && View(p.s, p.slots) ==
         if r.store.Text? then View(s, slots)[r.store.slot := Some(s[token..end])] else View(s, slots)
  {
    hide Scan, Lookup, View, Settled;
    ScanEnd(rules, s, end, token, state, slots);
    if r.store.Text? {
      StoreToken(s, slots, token, end, r.store.slot);
      assert s[end := 0] == s;
    }
  }

  /** A rule that keeps its character starts a token with it. */
  lemma Keep(rules: seq<Rule>, s: seq<byte>, token: nat, at: nat, end: nat, state: int, slots: seq<Option<nat>>,
             r: Rule)
    requires Terminated(s, at, end) && at < end && StoresIn(rules, |slots|)
    requires Lookup(rules, state, Signed(s[at])) == Some(r) && r.keep && !r.skip
    ensures Scan(rules, s, at, end, token, state, slots) ==
            Scan(rules, s, at + 1, end, at, r.next, Stored(r.store, token, slots))
  {
    hide Scan, Lookup;
    ScanStep(rules, s, at, end, token, state, slots);
  }

  /** What is left of a token that started at `token` and was ended at `k`. */
  lemma Rest(s: seq<byte>, cut: seq<byte>, token: nat, k: nat, end: nat)
    requires token <= k < end <= |s| && |cut| == |s| && cut[k + 1..end] == s[k + 1..end]
    ensures s[token..end][..k - token] == s[token..k] && s[token..end][k - token] == s[k]
    ensures s[token..end][k - token + 1..] == cut[k + 1..end]
  {
  }
}
