/** `URL`: parsing and printing (src/URL.cpp). */
module Urls {
  import opened Wrappers
  import opened Text

  datatype Protocol = HTTP | HTTPS | SAP

  datatype Url = Url(protocol: Protocol, host: string, port: int, endpoint: string)

  datatype Error = BAD_PPROTOCOL | RANGE

  datatype Result = Ok(url: Url) | Err(error: Error)

  /** The port constants belong to the network library and are not part of this model; every
      result holds for any values. */
  datatype Defaults = Defaults(web: int, secure: int, sap: int)

  function DefaultPort(d: Defaults, p: Protocol): int {
    match p
    case HTTP => d.web
    case HTTPS => d.secure
    case SAP => d.sap
  }

  /** The public constructor: a missing port is the protocol's default. */
  function MakeUrl(d: Defaults, protocol: Protocol, host: string, port: Option<int>, endpoint: string): Url {
    Url(protocol, host, port.GetOr(DefaultPort(d, protocol)), endpoint)
  }

  const SEPARATOR := "://"

  function FindSeparator(s: string): (n: Option<nat>)
    ensures n.Some? ==> n.value + 3 <= |s| && s == s[..n.value] + (SEPARATOR + s[n.value + 3..])
    decreases |s|
  {
    if |s| < 3 then None
    else if s[..3] == SEPARATOR then Some(0)
    else
      match FindSeparator(s[1..])
      case None => None
      case Some(n) =>
        SeparatorLater(s, n);
        Some(n + 1)
  }

  lemma SeparatorLater(s: string, n: nat)
    requires s != "" && n + 3 <= |s[1..]| && s[1..] == s[1..][..n] + (SEPARATOR + s[1..][n + 3..])
    ensures s == s[..n + 1] + (SEPARATOR + s[n + 4..])
  {
    assert s[1..][..n] == s[1..n + 1] && s[1..][n + 3..] == s[n + 4..];
    assert s == [s[0]] + s[1..];
    assert s[..n + 1] == [s[0]] + s[1..n + 1];
  }

  lemma {:induction false} SeparatorAfter(a: string, rest: string)
    requires ':' !in a
    ensures FindSeparator(a + (SEPARATOR + rest)) == Some(|a|)
  {
    var s := a + (SEPARATOR + rest);
    if a == "" {
      assert s[..3] == SEPARATOR;
    } else {
      assert s[..3][0] == a[0] && s[1..] == a[1..] + (SEPARATOR + rest);
      SeparatorAfter(a[1..], rest);
    }
  }

  function ProtocolOf(text: string): Option<Protocol> {
    if text == "http" then Some(HTTP)
    else if text == "https" then Some(HTTPS)
    else if text == "sap" then Some(SAP)
    else None
  }

  function ProtocolText(p: Protocol): string {
    match p
    case HTTP => "http"
    case HTTPS => "https"
    case SAP => "sap"
  }

  // ----- What parsing accepts -------------------------------------------------------------

  /** A URL taken apart: protocol, host, the text after the colon if there is one, the rest. */
  datatype Parts = Parts(protocol: Protocol, host: string, portText: Option<string>, rest: string)

  predicate PortText(t: string) {
    match Stoi(t)
    case Some(v) => 0 < v <= 65535
    case None => false
  }

  predicate Legal(p: Parts) {
    && p.host != "" && '/' !in p.host && ':' !in p.host
    && (p.portText.Some? ==> '/' !in p.portText.value && PortText(p.portText.value))
    && (p.rest == "" || p.rest[0] == '/')
  }

  function Authority(host: string, portText: Option<string>): string {
    match portText
    case Some(t) => host + (":" + t)
    case None => host
  }

  function Written(p: Parts): string {
    ProtocolText(p.protocol) + (SEPARATOR + (Authority(p.host, p.portText) + p.rest))
  }

  function UrlOf(d: Defaults, p: Parts): Url
    requires Legal(p)
  {
    Url(p.protocol, p.host,
        if p.portText.Some? then Stoi(p.portText.value).value else DefaultPort(d, p.protocol),
        if p.rest == "" then "/" else p.rest)
  }

  // ----- Parsing --------------------------------------------------------------------------

  /** The host and port of what stands before the first slash. */
  function ParseAuthority(d: Defaults, protocol: Protocol, hostPort: string, endpoint: string): Result {
    var n := IndexOf(hostPort, ':');
    if n < |hostPort| && !PortText(hostPort[n + 1..]) then Err(RANGE)
    else if n == 0 then Err(RANGE)
    else Ok(Url(protocol, hostPort[..n],
                if n < |hostPort| then Stoi(hostPort[n + 1..]).value else DefaultPort(d, protocol),
                endpoint))
  }

  function Parse(d: Defaults, s: string): Result {
    match FindSeparator(s)
    case None => Err(BAD_PPROTOCOL)
    case Some(n) =>
      match ProtocolOf(s[..n])
      case None => Err(BAD_PPROTOCOL)
      case Some(protocol) =>
        var after := s[n + 3..];
        var slash := IndexOf(after, '/');
        ParseAuthority(d, protocol, after[..slash], if slash == |after| then "/" else after[slash..])
  }

  /** `URL::parse`: the fields are filled in one after the other, with early returns. */
  method ParseUrl(d: Defaults, s: string) returns (r: Result)
    ensures r == Parse(d, s)
  {
    var protocolEnd := FindSeparator(s);
    if protocolEnd.None? {
      return Err(BAD_PPROTOCOL);
    }
    var protocolStr := s[..protocolEnd.value];
    var protocol;
    var port;
    if protocolStr == "http" {
      protocol, port := HTTP, d.web;
    } else if protocolStr == "https" {
      protocol, port := HTTPS, d.secure;
    } else if protocolStr == "sap" {
      protocol, port := SAP, d.sap;
    } else {
      return Err(BAD_PPROTOCOL);
    }
    var after := s[protocolEnd.value + 3..];
    var slash := IndexOf(after, '/');
    var hostPort, endpoint;
    if slash == |after| {
      hostPort, endpoint := after, "/";
      assert after[..slash] == after;
    } else {
      hostPort, endpoint := after[..slash], after[slash..];
    }
    r := ParseHostPort(Url(protocol, "", port, endpoint), d, hostPort);
  }

  /** The second half of `URL::parse`, on the partly filled `url` whose port is the default. */
  method ParseHostPort(url: Url, d: Defaults, hostPort: string) returns (r: Result)
    requires url.port == DefaultPort(d, url.protocol)
    ensures r == ParseAuthority(d, url.protocol, hostPort, url.endpoint)
  {
    var host, port := hostPort, url.port;
    var colon := IndexOf(hostPort, ':');
    assert hostPort[..|hostPort|] == hostPort;
    if colon != |hostPort| {
      host := hostPort[..colon];
      var number := Stoi(hostPort[colon + 1..]);
      if number.None? || number.value <= 0 || number.value > 65535 {
        return Err(RANGE);
      }
      port := number.value;
    }
    if host == "" {
      return Err(RANGE);
    }
    r := Ok(url.(host := host, port := port));
  }

  lemma ProtocolTexts(p: Protocol)
    ensures ':' !in ProtocolText(p) && ProtocolOf(ProtocolText(p)) == Some(p)
  {
  }

  lemma AuthorityParsed(d: Defaults, p: Parts, endpoint: string)
    requires Legal(p)
    ensures ParseAuthority(d, p.protocol, Authority(p.host, p.portText), endpoint)
            == Ok(UrlOf(d, p).(endpoint := endpoint))
  {
    var a := Authority(p.host, p.portText);
    if p.portText.Some? {
      IndexOfAppend(p.host, ':', ":" + p.portText.value);
      assert a[..|p.host|] == p.host && a[|p.host| + 1..] == p.portText.value;
    } else {
      IndexOfAppend(p.host, ':', "");
      assert p.host + "" == p.host && a[..|p.host|] == p.host;
    }
  }

  lemma {:induction false} SplitAtSlash(a: string, rest: string)
    requires '/' !in a && (rest == "" || rest[0] == '/')
    ensures IndexOf(a + rest, '/') == |a| && (a + rest)[..|a|] == a && (a + rest)[|a|..] == rest
  {
    IndexOfAppend(a, '/', rest);
  }

  /** What is written in a legal form is parsed back. */
  lemma WrittenIsParsed(d: Defaults, p: Parts)
    requires Legal(p)
    ensures Parse(d, Written(p)) == Ok(UrlOf(d, p))
  {
    var scheme, a := ProtocolText(p.protocol), Authority(p.host, p.portText);
    ProtocolTexts(p.protocol);
    AuthorityHasNoSlash(p);
    SchemeIsParsed(d, scheme, p.protocol, a, p.rest);
    AuthorityParsed(d, p, if p.rest == "" then "/" else p.rest);
  }

  lemma AuthorityHasNoSlash(p: Parts)
    requires Legal(p)
    ensures '/' !in Authority(p.host, p.portText)
  {
  }

  lemma SchemeIsParsed(d: Defaults, scheme: string, protocol: Protocol, a: string, rest: string)
    requires ':' !in scheme && ProtocolOf(scheme) == Some(protocol)
    requires '/' !in a && (rest == "" || rest[0] == '/')
    ensures Parse(d, scheme + (SEPARATOR + (a + rest))) ==
            ParseAuthority(d, protocol, a, if rest == "" then "/" else rest)
  {
    SeparatorAfter(scheme, a + rest);
    SchemeParts(scheme, a + rest);
    SplitAtSlash(a, rest);
  }

  lemma SchemeParts(scheme: string, after: string)
    ensures var s := scheme + (SEPARATOR + after);
            s[..|scheme|] == scheme && s[|scheme| + 3..] == after
  {
  }

  /** The parts of an accepted text. */
  lemma AcceptedParts(d: Defaults, s: string) returns (p: Parts)
    requires Parse(d, s).Ok?
    ensures Legal(p) && Written(p) == s && UrlOf(d, p) == Parse(d, s).url
  {
    var n := FindSeparator(s).value;
    var scheme, after := s[..n], s[n + 3..];
    ProtocolRead(scheme);
    p := AuthorityParts(d, ProtocolOf(scheme).value, after);
    assert Written(p) == scheme + (SEPARATOR + after) == s;
  }

  lemma ProtocolRead(text: string)
    requires ProtocolOf(text).Some?
    ensures ProtocolText(ProtocolOf(text).value) == text
  {
  }

  lemma AuthorityParts(d: Defaults, protocol: Protocol, after: string) returns (p: Parts)
    requires var slash := IndexOf(after, '/');
      ParseAuthority(d, protocol, after[..slash], if slash == |after| then "/" else after[slash..]).Ok?
    ensures Legal(p) && p.protocol == protocol && Authority(p.host, p.portText) + p.rest == after
    ensures var slash := IndexOf(after, '/');
      Ok(UrlOf(d, p)) == ParseAuthority(d, protocol, after[..slash], if slash == |after| then "/" else after[slash..])
  {
    var slash := IndexOf(after, '/');
    var hostPort, rest := after[..slash], after[slash..];
    var colon := IndexOf(hostPort, ':');
    AuthoritySplit(hostPort);
    p := Parts(protocol, hostPort[..colon], if colon < |hostPort| then Some(hostPort[colon + 1..]) else None, rest);
    assert after == hostPort + rest;
    PartsHaveNoSlash(hostPort, colon);
  }

  lemma PartsHaveNoSlash(hostPort: string, n: nat)
    requires '/' !in hostPort && n <= |hostPort|
    ensures '/' !in hostPort[..n] && (n < |hostPort| ==> '/' !in hostPort[n + 1..])
  {
  }

  lemma {:induction false} AuthoritySplit(hostPort: string)
    ensures var colon := IndexOf(hostPort, ':');
            hostPort == Authority(hostPort[..colon], if colon < |hostPort| then Some(hostPort[colon + 1..]) else None)
  {
    var colon := IndexOf(hostPort, ':');
    if colon == |hostPort| {
      assert hostPort[..colon] == hostPort;
    } else {
      CutAt(hostPort, colon);
    }
  }

  /** Parsing accepts exactly the texts of the documented form, and reads them as written. */
  lemma ParseExact(d: Defaults, s: string, u: Url)
    ensures Parse(d, s) == Ok(u) <==> exists p :: Legal(p) && Written(p) == s && UrlOf(d, p) == u
  {
    if Parse(d, s) == Ok(u) {
      var p := AcceptedParts(d, s);
    }
    if exists p :: Legal(p) && Written(p) == s && UrlOf(d, p) == u {
      var p :| Legal(p) && Written(p) == s && UrlOf(d, p) == u;
      WrittenIsParsed(d, p);
    }
  }

  /** Scheme, host, decimal port and endpoint, written out, parse to what the constructor makes
      of them. */
  lemma {:induction false} FullFormIsParsed(d: Defaults, protocol: Protocol, host: string, port: int, endpoint: string)
    requires host != "" && '/' !in host && ':' !in host && 0 < port <= 65535
    requires endpoint != "" && endpoint[0] == '/'
    ensures Parse(d, ProtocolText(protocol) + (SEPARATOR + (host + (":" + Decimal(port)) + endpoint)))
            == Ok(MakeUrl(d, protocol, host, Some(port), endpoint))
    ensures Parse(d, ProtocolText(protocol) + (SEPARATOR + (host + endpoint)))
            == Ok(MakeUrl(d, protocol, host, None, endpoint))
  {
    DecimalRoundTrip(port);
    assert '/' !in Decimal(port) by { assert AllDigits(Decimal(port)); }
    WrittenIsParsed(d, Parts(protocol, host, Some(Decimal(port)), endpoint));
    WrittenIsParsed(d, Parts(protocol, host, None, endpoint));
  }

  // ----- Schemes and ports ----------------------------------------------------------------

  lemma Starts()
    ensures ProtocolText(HTTP) + SEPARATOR == "http://"
    ensures ProtocolText(HTTPS) + SEPARATOR == "https://"
    ensures ProtocolText(SAP) + SEPARATOR == "sap://"
  {
  }

  lemma {:induction false} StartIsParsed(d: Defaults, start: string, p: Parts)
    requires Legal(p) && start == ProtocolText(p.protocol) + SEPARATOR
    ensures Parse(d, start + (Authority(p.host, p.portText) + p.rest)) == Ok(UrlOf(d, p))
  {
    WrittenIsParsed(d, p);
    JoinLists(ProtocolText(p.protocol), SEPARATOR, Authority(p.host, p.portText) + p.rest);
  }

  /** A text without a port has the port of its scheme. */
  lemma {:induction false} SchemePorts(d: Defaults, host: string, rest: string)
    requires host != "" && '/' !in host && ':' !in host && (rest == "" || rest[0] == '/')
    ensures var endpoint := if rest == "" then "/" else rest;
            && Parse(d, "http://" + (host + rest)) == Ok(Url(HTTP, host, d.web, endpoint))
            && Parse(d, "https://" + (host + rest)) == Ok(Url(HTTPS, host, d.secure, endpoint))
            && Parse(d, "sap://" + (host + rest)) == Ok(Url(SAP, host, d.sap, endpoint))
  {
    Starts();
    StartIsParsed(d, "http://", Parts(HTTP, host, None, rest));
    StartIsParsed(d, "https://", Parts(HTTPS, host, None, rest));
    StartIsParsed(d, "sap://", Parts(SAP, host, None, rest));
  }

  lemma {:induction false} DecimalPort(port: int)
    requires 0 < port <= 65535
    ensures Stoi(Decimal(port)) == Some(port) && '/' !in Decimal(port)
  {
    DecimalRoundTrip(port);
    assert AllDigits(Decimal(port));
  }

  /** A text with a legal port has that port, whatever its scheme. */
  lemma {:induction false} WrittenPort(d: Defaults, protocol: Protocol, host: string, port: int, rest: string)
    requires host != "" && '/' !in host && ':' !in host && (rest == "" || rest[0] == '/')
    requires 0 < port <= 65535
    ensures var start := match protocol case HTTP => "http://" case HTTPS => "https://" case SAP => "sap://";
            Parse(d, start + ((host + (":" + Decimal(port))) + rest)) ==
            Ok(Url(protocol, host, port, if rest == "" then "/" else rest))
  {
    Starts();
    DecimalPort(port);
    StartIsParsed(d, ProtocolText(protocol) + SEPARATOR, Parts(protocol, host, Some(Decimal(port)), rest));
  }

  /** The constructor: the port given, or the one of the scheme. */
  lemma MadePorts(d: Defaults, protocol: Protocol, host: string, port: int, endpoint: string)
    ensures MakeUrl(d, protocol, host, Some(port), endpoint) == Url(protocol, host, port, endpoint)
    ensures MakeUrl(d, HTTP, host, None, endpoint) == Url(HTTP, host, d.web, endpoint)
    ensures MakeUrl(d, HTTPS, host, None, endpoint) == Url(HTTPS, host, d.secure, endpoint)
    ensures MakeUrl(d, SAP, host, None, endpoint) == Url(SAP, host, d.sap, endpoint)
  {
  }

  /** The text starts with one of the three schemes. */
  predicate KnownScheme(s: string) {
    "http://" <= s || "https://" <= s || "sap://" <= s
  }

  lemma {:induction false} SchemeFound(scheme: string, s: string)
    requires ':' !in scheme
    ensures scheme + SEPARATOR <= s <==> FindSeparator(s) == Some(|scheme|) && s[..|scheme|] == scheme
  {
    var start := scheme + SEPARATOR;
    if start <= s {
      var rest := s[|start|..];
      JoinLists(scheme, SEPARATOR, rest);
      assert s == start + rest;
      SeparatorAfter(scheme, rest);
      SchemeParts(scheme, rest);
    }
    if FindSeparator(s) == Some(|scheme|) && s[..|scheme|] == scheme {
      JoinLists(scheme, SEPARATOR, s[|scheme| + 3..]);
    }
  }

  /** A text is refused for its protocol exactly if it starts with none of the three schemes; every
      other refusal is for its host or port. */
  lemma {:induction false} ErrorExact(d: Defaults, s: string)
    ensures Parse(d, s) == Err(BAD_PPROTOCOL) <==> !KnownScheme(s)
  {
    Starts();
    SchemeFound("http", s);
    SchemeFound("https", s);
    SchemeFound("sap", s);
    ProtocolKnown(s);
  }

  lemma {:induction false} ProtocolKnown(s: string)
    ensures var n := FindSeparator(s);
            n.Some? && ProtocolOf(s[..n.value]).Some? <==>
            || (n == Some(4) && s[..4] == "http")
            || (n == Some(5) && s[..5] == "https")
            || (n == Some(3) && s[..3] == "sap")
  {
  }

  // ----- Printing -------------------------------------------------------------------------

  /** `URL::to_string`: the port is not printed, and everything but HTTP prints as "https". */
  function ToString(u: Url): string {
    (if u.protocol == HTTP then "http" else "https") + (SEPARATOR + (u.host + u.endpoint))
  }

  /** Printing an accepted URL and parsing the text again: the text is stable for all three
      schemes, host and endpoint are kept, and the URL itself comes back exactly when its scheme
      is not SAP and its port is the default one. */
  lemma PrintAndReparse(d: Defaults, s: string)
    requires Parse(d, s).Ok?
    ensures var u := Parse(d, s).url;
            var again := Parse(d, ToString(u));
            && again.Ok? && ToString(again.url) == ToString(u)
            && again.url.host == u.host && again.url.endpoint == u.endpoint
            && (u.protocol != SAP ==> again.url.protocol == u.protocol)
            && (again.url == u <==> u.protocol != SAP && u.port == DefaultPort(d, u.protocol))
  {
    var u := Parse(d, s).url;
    var p := AcceptedParts(d, s);
    var printed := if u.protocol == HTTP then HTTP else HTTPS;
    assert ProtocolText(printed) == if u.protocol == HTTP then "http" else "https";
    FullFormIsParsed(d, printed, u.host, 80, u.endpoint);
  }
}
