/** What url_parse() reads off texts that are put together from their parts, with the separators written out:
    a colon is 58, a slash 47, a question mark 63, brackets are 91 and 93. */
module UrlLaws {
  import opened Options
  import opened CStrings
  import opened Parser
  import opened Urls

  // ----- Texts with a host -----

  function QueryText(w: Fields): seq<byte> {
    if w[QUERY_FIELD].Some? then [63] + w[QUERY_FIELD].value else []
  }

  function PathText(w: Fields): seq<byte> {
    if w[PATH_FIELD].Some? then [47] + (w[PATH_FIELD].value + QueryText(w)) else []
  }

  function PortText(w: Fields): seq<byte> {
    if w[PORT_FIELD].Some? then [58] + (w[PORT_FIELD].value + PathText(w)) else PathText(w)
  }

  function HostText(w: Fields, brackets: bool): seq<byte>
    requires w[HOST_FIELD].Some?
  {
    (if brackets then [91] + (w[HOST_FIELD].value + [93]) else w[HOST_FIELD].value) + PortText(w)
  }

  /** scheme://host:port/path?query, with or without any of the parts but the host. */
  function UrlText(w: Fields, brackets: bool): seq<byte>
    requires w[HOST_FIELD].Some?
  {
    var rest := [47] + ([47] + HostText(w, brackets));
    if w[SCHEME_FIELD].Some? then w[SCHEME_FIELD].value + ([58] + rest) else rest
  }

  /** No part holds what ends it. */
  predicate TailHolds(w: Fields) {
    && Avoids(w[PORT_FIELD], {47}) && Avoids(w[PATH_FIELD], {63})
    && (w[QUERY_FIELD].Some? ==> w[PATH_FIELD].Some?)
  }

  /** A bracketed host may hold anything but the closing one; another one holds no colon and no slash behind its first
      character, and begins with neither a slash nor a bracket. */
  predicate HostHolds(host: seq<byte>, brackets: bool) {
    if brackets then 93 !in host
    else host != [] && host[0] != 47 && host[0] != 91 && Avoids(Some(host[1..]), {58, 47})
  }

  lemma PathTextIsRead(w: Fields)
    requires w[PATH_FIELD].Some? && TailHolds(w)
    ensures PathOf(w[PATH_FIELD].value + QueryText(w), Upto(w, PATH_FIELD)) == Reading(true, w)
  {
    var p := w[PATH_FIELD].value;
    FirstOf(p, QueryText(w), {QUESTION});
    var t := p + QueryText(w);
    assert t[..|p|] == p;
    if w[QUERY_FIELD].Some? {
      assert t[|p| + 1..] == w[QUERY_FIELD].value;
    } else {
      assert t == p;
    }
    hide First;
    assert w[QUERY_FIELD] == None ==> Upto(w, PATH_FIELD)[PATH_FIELD := w[PATH_FIELD]] == w;
    assert Upto(w, PATH_FIELD)[PATH_FIELD := w[PATH_FIELD]][QUERY_FIELD := w[QUERY_FIELD]] == w;
  }

  /** What follows the host, as `r`, once the separator has been passed. */
  lemma PathPartIsRead(w: Fields, r: Reading)
    requires TailHolds(w)
    requires var b := Upto(w, PATH_FIELD);
      r == if w[PATH_FIELD] == None then Reading(true, b) else PathOf(w[PATH_FIELD].value + QueryText(w), b)
    ensures r == Reading(true, w)
  {
    if w[PATH_FIELD] == None {
      assert Upto(w, PATH_FIELD) == w;
    } else {
      PathTextIsRead(w);
    }
  }

  lemma PortTextIsRead(w: Fields)
    requires w[PORT_FIELD].Some? && TailHolds(w)
    ensures PortOf(w[PORT_FIELD].value + PathText(w), Upto(w, PORT_FIELD)) == Reading(true, w)
  {
    hide PathOf, PortOf, First, Upto, QueryText;
    var p, b := w[PORT_FIELD].value, Upto(w, PORT_FIELD);
    var t := p + PathText(w);
    FirstOf(p, PathText(w), {SLASH});
    UptoNext(w, PORT_FIELD);
    assert t[..|p|] == p && (w[PATH_FIELD] == None ==> t == p);
    assert w[PATH_FIELD].Some? ==> t[|p| + 1..] == w[PATH_FIELD].value + QueryText(w);
    PortStops(t, |p|, b);
    PathPartIsRead(w, PortOf(t, b));
  }

  /** The rest of a text, from the separator behind the host on. */
  function TailOf(t: seq<byte>, v: Fields): Reading {
    if t == [] then Reading(true, v) else if t[0] == COLON then PortOf(t[1..], v) else PathOf(t[1..], v)
  }

  lemma TailIsRead(w: Fields)
    requires TailHolds(w)
    ensures TailOf(PortText(w), Upto(w, PORT_FIELD)) == Reading(true, w)
    ensures PortText(w) != [] ==> PortText(w)[0] == 58 || PortText(w)[0] == 47
  {
    hide PathOf, PortOf, QueryText;
    if w[PORT_FIELD].Some? {
      assert PortText(w)[1..] == w[PORT_FIELD].value + PathText(w);
      PortTextIsRead(w);
    } else {
      assert Upto(w, PORT_FIELD) == Upto(w, PATH_FIELD);
      if w[PATH_FIELD].Some? {
        assert PortText(w)[1..] == w[PATH_FIELD].value + QueryText(w);
      }
      PathPartIsRead(w, TailOf(PortText(w), Upto(w, PORT_FIELD)));
    }
  }

  lemma BracketedHost(host: seq<byte>, tail: seq<byte>, v: Fields)
    requires 93 !in host && (tail != [] ==> tail[0] == 58 || tail[0] == 47)
    ensures HostPreOf([91] + (host + [93]) + tail, v) == TailOf(tail, v[HOST_FIELD := Some(host)])
  {
    hide First, PathOf, PortOf, HostOf;
    var u := host + [93] + tail;
    var t := [91] + (host + [93]) + tail;
    assert t[0] == OPEN && t[1..] == u;
    FirstAt(u, {CLOSE}, |host|);
    assert u[..|host|] == host && u[|host| + 1..] == tail;
  }

  lemma UnbracketedHost(host: seq<byte>, tail: seq<byte>, v: Fields)
    requires HostHolds(host, false) && (tail != [] ==> tail[0] == 58 || tail[0] == 47)
    ensures HostPreOf(host + tail, v) == TailOf(tail, v[HOST_FIELD := Some(host)])
  {
    HostStops(host, tail, v);
    hide PathOf, PortOf, HostOf, Ipv6Of;
    assert (host + tail)[0] == host[0];
  }

  lemma HostTextIsRead(w: Fields, brackets: bool)
    requires w[HOST_FIELD].Some? && HostHolds(w[HOST_FIELD].value, brackets) && TailHolds(w)
    ensures HostPreOf(HostText(w, brackets), Upto(w, HOST_FIELD)) == Reading(true, w)
  {
    TailIsRead(w);
    UptoNext(w, HOST_FIELD);
    hide HostPreOf, TailOf, Upto, PortText;
    if brackets {
      BracketedHost(w[HOST_FIELD].value, PortText(w), Upto(w, HOST_FIELD));
    } else {
      UnbracketedHost(w[HOST_FIELD].value, PortText(w), Upto(w, HOST_FIELD));
    }
  }

  /** A url with a host is read as the parts it is put together from: every part is stored in its own field, and
      nothing else is. */
  lemma UrlTextIsRead(w: Fields, brackets: bool)
    requires w[HOST_FIELD].Some? && HostHolds(w[HOST_FIELD].value, brackets) && TailHolds(w)
    requires Avoids(w[SCHEME_FIELD], {47, 58, 91})
    ensures UrlOf(UrlText(w, brackets), NOTHING) == Reading(true, w)
  {
    hide UrlOf, SchemeOf, HostPreOf, PathOf, Upto, HostText, First, Avoids;
    var h := HostText(w, brackets);
    HostTextIsRead(w, brackets);
    UptoNothing(w);
    UptoNext(w, SCHEME_FIELD);
    if w[SCHEME_FIELD].Some? {
      var sc := w[SCHEME_FIELD].value;
      AfterScheme(sc, [47] + ([47] + h), NOTHING);
      assert [47] + ([47] + h) == [SLASH, SLASH] + h;
      AfterColon(sc, h, NOTHING);
    } else {
      NoSchemeFields(w);
      AtStart([47] + h, NOTHING);
      assert ([47] + h)[1..] == h;
    }
  }

  lemma NoSchemeFields(w: Fields)
    requires w[SCHEME_FIELD] == None
    ensures Upto(w, HOST_FIELD) == NOTHING
  {
  }

  lemma AfterScheme(head: seq<byte>, t: seq<byte>, v: Fields)
    requires Avoids(Some(head), {47, 58, 91})
    ensures UrlOf(head + ([58] + t), v) == SchemeOf(head, t, v)
  {
    hide SchemeOf, StartSepOf, Ipv6Of;
    var s := head + ([58] + t);
    FirstOf(head, [58] + t, {SLASH, COLON, OPEN});
    hide First;
    assert s[|head|] == COLON && s[..|head|] == head && s[|head| + 1..] == t;
  }

  // ----- Other texts -----

  /** A text without a slash, a colon or a bracket is a host, also with a colon behind it. */
  lemma HostIsRead(host: seq<byte>)
    requires Avoids(Some(host), {47, 58, 91})
    ensures UrlOf(host, NOTHING) == Reading(true, NOTHING[HOST_FIELD := Some(host)])
    ensures UrlOf(host + [58], NOTHING) == Reading(true, NOTHING[HOST_FIELD := Some(host)])
  {
    FirstOf(host, [], {SLASH, COLON, OPEN});
    hide First, PortOf, SchemeSepOf, StartSepOf, Ipv6Of;
    assert host + [] == host && host + ([58] + []) == host + [58];
    AfterScheme(host, [], NOTHING);
  }

  /** What follows the colon, unless it begins with a slash, is a port and perhaps a path and a query. */
  lemma HostPortIsRead(w: Fields)
    requires w[SCHEME_FIELD] == None && w[HOST_FIELD].Some? && Avoids(w[HOST_FIELD], {47, 58, 91}) && TailHolds(w)
    requires w[PORT_FIELD].Some? && w[PORT_FIELD].value != []
    ensures UrlOf(w[HOST_FIELD].value + PortText(w), NOTHING) == Reading(true, w)
  {
    var h, t := w[HOST_FIELD].value, w[PORT_FIELD].value + PathText(w);
    NoSchemeFields(w);
    UptoNext(w, HOST_FIELD);
    PortTextIsRead(w);
    assert t[0] == w[PORT_FIELD].value[0] && Avoids(w[PORT_FIELD], {47});
    hide UrlOf, PortOf, Upto, PathText, SchemeSepOf;
    AfterScheme(h, t, NOTHING);
  }

  /** A text that begins with one slash is a path, and perhaps a query. */
  lemma PathAloneIsRead(w: Fields)
    requires w[SCHEME_FIELD] == w[HOST_FIELD] == w[PORT_FIELD] == None && w[PATH_FIELD].Some? && TailHolds(w)
    requires w[PATH_FIELD].value != [] ==> w[PATH_FIELD].value[0] != 47
    ensures UrlOf(PathText(w), NOTHING) == Reading(true, w)
  {
    hide UrlOf, PathOf, HostPreOf, First;
    var t := w[PATH_FIELD].value + QueryText(w);
    AtStart(t, NOTHING);
    PathTextIsRead(w);
    NothingYet(w);
    assert t != [] ==> t[0] != SLASH by {
      assert QueryText(w) != [] ==> QueryText(w)[0] == 63;
    }
    hide QueryText, TailHolds, Upto;
  }

  lemma NothingYet(w: Fields)
    requires w[SCHEME_FIELD] == w[HOST_FIELD] == w[PORT_FIELD] == None
    ensures Upto(w, PATH_FIELD) == NOTHING
  {
  }

  /** Anything but a colon or a slash behind a closing bracket is refused. */
  lemma JunkIsRefused(host: seq<byte>, c: byte, more: seq<byte>)
    requires 93 !in host && c != 58 && c != 47
    ensures !UrlOf([91] + (host + ([93, c] + more)), NOTHING).ok
  {
    var u := host + ([93, c] + more);
    FirstAt([91] + u, {SLASH, COLON, OPEN}, 0);
    assert ([91] + u)[1..] == u;
    FirstAt(u, {CLOSE}, |host|);
    assert u[|host| + 1..] == [c] + more;
    hide First, PathOf, PortOf;
  }

  /** A bracket that is not closed is not refused, and nothing is read. */
  lemma OpenBracketIsIgnored(host: seq<byte>)
    requires 93 !in host
    ensures UrlOf([91] + host, NOTHING) == Reading(true, NOTHING)
  {
    FirstAt([91] + host, {SLASH, COLON, OPEN}, 0);
    assert ([91] + host)[1..] == host;
    NoneOf(host);
    hide First;
  }

  lemma NoneOf(s: seq<byte>)
    requires 93 !in s
    ensures First(s, {CLOSE}) == |s|
  {
  }

  /** Between the first slash behind a scheme and the next one, anything is passed over. */
  lemma PassedOver(scheme: seq<byte>, skipped: seq<byte>, t: seq<byte>)
    requires Avoids(Some(scheme), {47, 58, 91}) && 47 !in skipped
    ensures UrlOf(scheme + ([58] + ([47] + (skipped + ([47] + t)))), NOTHING) ==
            HostPreOf(t, NOTHING[SCHEME_FIELD := Some(scheme)])
  {
    hide UrlOf, HostPreOf, PortOf;
    var u := skipped + ([47] + t);
    AfterScheme(scheme, [47] + u, NOTHING);
    assert ([47] + u)[1..] == u;
    FirstAt(u, {SLASH}, |skipped|);
    assert u[|skipped| + 1..] == t;
    hide First;
  }
}
