/** The two printers, HttpClient::send_request_connected (src/HttpClient.cpp:42-107) and
    HttpServer::create_reply_string (src/HttpServer.cpp:196-301), and the proofs that the parser
    reads back what they print. */
module Messages {
  import opened Wrappers
  import opened Text
  import opened OrderedMaps
  import opened HttpParsing

  // ----- Header lines ---------------------------------------------------------------------

  /** A printed message: each line ended by CR LF, a blank line, the body. */
  function MessageText(lines: seq<string>, body: string): string {
    if lines == [] then CRLF + body else lines[0] + (CRLF + MessageText(lines[1..], body))
  }

  /** What a run of appends has produced. */
  ghost function Printed(lines: seq<string>): string {
    if lines == [] then "" else Printed(lines[..|lines| - 1]) + (lines[|lines| - 1] + CRLF)
  }

  lemma {:induction false} PrintedAppend(lines: seq<string>, line: string)
    ensures Printed(lines + [line]) == Printed(lines) + (line + CRLF)
  {
    assert (lines + [line])[..|lines|] == lines;
  }

  lemma {:induction false} PrintedIsPrefix(a: seq<string>, b: seq<string>, body: string)
    ensures Printed(a) + MessageText(b, body) == MessageText(a + b, body)
  {
    if a == [] {
      assert a + b == b;
    } else {
      var init, last := a[..|a| - 1], a[|a| - 1];
      assert ([last] + b)[1..] == b;
      assert a + b == init + ([last] + b);
      PrintedIsPrefix(init, [last] + b, body);
      assert (last + CRLF) + MessageText(b, body) == MessageText([last] + b, body);
    }
  }

  /** No line is empty or contains LF. */
  predicate Printable(lines: seq<string>) {
    forall i :: 0 <= i < |lines| ==> OneLine(lines[i])
  }

  predicate OneLine(line: string) {
    line != "" && LF !in line
  }

  lemma PrintableAppend(a: seq<string>, b: seq<string>)
    requires Printable(a) && Printable(b)
    ensures Printable(a + b)
  {
  }

  /** The lines as the parser gets them: without the LF, still with the CR. */
  function WithCR(lines: seq<string>): seq<string> {
    if lines == [] then [] else [lines[0] + "\r"] + WithCR(lines[1..])
  }

  lemma SplitTerminator(line: string, rest: string)
    ensures line + (CRLF + rest) == (line + "\r") + ([LF] + rest)
  {
  }

  lemma SplitBody(line: string, rest: string, body: string)
    ensures line + (CRLF + (rest + body)) == line + (CRLF + rest) + body
  {
  }

  lemma {:induction false} ScanBlankLine(body: string)
    ensures ScanHeaders(CRLF + body) == Scan([], 2)
  {
    var s := "\r" + ([LF] + body);
    IndexOfAppend("\r", LF, [LF] + body);
    assert s[..1] == "\r";
    SplitTerminator("", body);
    assert "" + (CRLF + body) == CRLF + body && "" + "\r" == "\r";
  }

  /** The scan returns exactly the printed lines, and stops at the printed blank line whatever
      the body contains. */
  lemma {:induction false} ScanReadsPrinted(lines: seq<string>, body: string)
    requires Printable(lines)
    ensures ScanHeaders(MessageText(lines, body)) ==
            Scan(WithCR(lines), |MessageText(lines, "")|)
    ensures MessageText(lines, body) == MessageText(lines, "") + body
  {
    if lines == [] {
      ScanBlankLine(body);
      assert CRLF + "" == CRLF;
    } else {
      var rest := MessageText(lines[1..], body);
      ScanReadsPrinted(lines[1..], body);
      SplitTerminator(lines[0], rest);
      assert OneLine(lines[0]);
      ScanOneLine(lines[0] + "\r", rest);
      SplitBody(lines[0], MessageText(lines[1..], ""), body);
    }
  }

  /** A line with a name, a colon and a blank is read back as the name and the trimmed value,
      with or without the CR. */
  lemma FieldOfHeaderLine(prefix: string, name: string, value: string)
    requires prefix == name + ": " && ':' !in name && Tight(name)
    ensures FieldOf(prefix + value + "\r") == FieldOf(prefix + value) == Some(Field(name, Trim(value)))
  {
    assert prefix + value + "\r" == name + (":" + (" " + value + "\r"));
    assert prefix + value == name + (":" + (" " + value));
    FieldOfParts(name, " " + value + "\r");
    FieldOfParts(name, " " + value);
    TrimPadded(value);
  }

  lemma FieldOfParts(name: string, rest: string)
    requires ':' !in name && Tight(name)
    ensures FieldOf(name + (":" + rest)) == Some(Field(name, Trim(rest)))
  {
    IndexOfAppend(name, ':', ":" + rest);
    ColonParts(name, rest);
    TrimTight(name);
  }

  lemma ColonParts(name: string, rest: string)
    ensures var line := name + (":" + rest);
            line[..|name|] == name && line[|name| + 1..] == rest
  {
  }

  /** A parser given a printed message whose fields announce the body's length. */
  lemma {:induction false} MessageRead(first: string, fields: seq<string>, body: string)
    requires OneLine(first) && Printable(fields) && |body| < SIZE_LIMIT
    requires FirstField(WithCR(fields), CONTENT_LENGTH) == Some(Decimal(|body|))
    ensures var p := Parse(FRESH, MessageText([first] + fields, body));
            && METHOD in p.headers && p.headers[METHOD] == Trim(first + "\r")
            && p.payload == body
            && ContentSizeOf(p) == Size(|body|)
    ensures var head := MessageText([first] + fields, "");
            && ScanHeaders(head).end == |head|
            && FirstField(FieldLines(head), CONTENT_LENGTH) == Some(Decimal(|body|))
            && head + body == MessageText([first] + fields, body)
  {
    var lines := [first] + fields;
    assert lines[1..] == fields;
    ScanReadsPrinted(lines, body);
    ScanReadsPrinted(lines, "");
    ParseLookup(FRESH, MessageText(lines, body), CONTENT_LENGTH);
    DecimalRoundTrip(|body|);
  }

  lemma {:induction false} FirstLineRead(p: Parser, a: string, b: string, c: string)
    requires METHOD in p.headers && p.headers[METHOD] == Trim(ThreeWords(a, b, c) + "\r")
    requires a != "" && !IsSpace(a[0]) && ' ' !in a && ' ' !in b
    requires c != "" && !IsSpace(c[|c| - 1])
    ensures FirstLineTokens(p) == [a] + ([b] + SplitOn(c, ' '))
  {
    ThreeWordsRead(a, b, c);
    TrimTight(ThreeWords(a, b, c));
  }

  lemma OneLineWords(a: string, b: string, c: string)
    requires LF !in a && LF !in b && LF !in c
    ensures OneLine(ThreeWords(a, b, c))
  {
  }

  // ----- Requests -------------------------------------------------------------------------

  function MethodToString(m: HttpMethod): string {
    match m
    case UNKNOWN => "???"
    case GET => "get"
    case POST => "post"
    case PUT => "put"
    case DELETE => "delete"
    case OPTIONS => "options"
    case PATCH => "patch"
  }

  function RequestLine(m: HttpMethod, endpoint: string): string {
    ThreeWords(ToUpper(MethodToString(m)), endpoint, "HTTP/1.1")
  }

  function RequestFields(payload: string): seq<string> {
    ["Host: localhost", "Content-Length: " + Decimal(|payload|)] + LaterRequestFields(payload != "")
  }

  function LaterRequestFields(hasPayload: bool): seq<string> {
    ["Application-Agent: Flex-Audio-Client/1.0"]
    + (if hasPayload then ["Content-Type: application/json"] else [])
    + ["Connection: close"]
  }

  /** The header section of a printed request, blank line included. */
  function RequestHead(m: HttpMethod, endpoint: string, payload: string): string {
    MessageText([RequestLine(m, endpoint)] + RequestFields(payload), "")
  }

  function RequestText(m: HttpMethod, endpoint: string, payload: string): string {
    MessageText([RequestLine(m, endpoint)] + RequestFields(payload), payload)
  }

  /** The request printer, append by append. */
  method PrintRequest(m: HttpMethod, endpoint: string, payload: string) returns (data: string)
    ensures data == RequestText(m, endpoint, payload)
  {
    data := "";
    data := data + ToUpper(MethodToString(m));
    data := data + " ";
    data := data + endpoint;
    data := data + (" HTTP/1.1" + CRLF);
    FirstLinePrinted(ToUpper(MethodToString(m)), endpoint, "HTTP/1.1");
    ghost var lines := [RequestLine(m, endpoint)];
    data := PrintRequestFields(payload, data, lines);
    lines := lines + RequestFields(payload);
    data := data + (CRLF + payload);
    EndOfMessage(lines, payload);
  }

  lemma {:induction false} EndOfMessage(lines: seq<string>, body: string)
    ensures Printed(lines) + (CRLF + body) == MessageText(lines, body)
  {
    PrintedIsPrefix(lines, [], body);
    assert lines + [] == lines;
  }

  method PrintRequestFields(payload: string, start: string, ghost before: seq<string>) returns (data: string)
    requires start == Printed(before)
    ensures data == Printed(before + RequestFields(payload))
  {
    ghost var lines;
    data, lines := PutLine(start, before, "Host: localhost");
    data, lines := PutLine(data, lines, "Content-Length: " + Decimal(|payload|));
    data, lines := PutLine(data, lines, "Application-Agent: Flex-Audio-Client/1.0");
    if payload != "" {
      data, lines := PutLine(data, lines, "Content-Type: application/json");
    }
    data, lines := PutLine(data, lines, "Connection: close");
    assert lines == before + RequestFields(payload);
  }

  /** `data += line + "\r\n"`, with the lines printed so far. */
  method PutLine(data: string, ghost lines: seq<string>, line: string)
    returns (data': string, ghost lines': seq<string>)
    requires data == Printed(lines)
    ensures lines' == lines + [line] && data' == Printed(lines') == data + (line + CRLF)
  {
    PrintedAppend(lines, line);
    data', lines' := data + (line + CRLF), lines + [line];
  }

  lemma FirstLinePrinted(a: string, b: string, c: string)
    ensures "" + a + " " + b + ((" " + c) + CRLF) == Printed([ThreeWords(a, b, c)])
  {
    assert Printed([]) == "";
    PrintedAppend([], ThreeWords(a, b, c));
    assert [] + [ThreeWords(a, b, c)] == [ThreeWords(a, b, c)];
  }

  function MethodToken(m: HttpMethod): string {
    match m
    case UNKNOWN => "???"
    case GET => "GET"
    case POST => "POST"
    case PUT => "PUT"
    case DELETE => "DELETE"
    case OPTIONS => "OPTIONS"
    case PATCH => "PATCH"
  }

  lemma UpperMethod(m: HttpMethod)
    ensures ToUpper(MethodToString(m)) == MethodToken(m)
  {
  }

  lemma {:induction false} DecimalLine(n: nat)
    ensures FieldOf("Content-Length: " + Decimal(n) + "\r") == Some(Field(CONTENT_LENGTH, Decimal(n)))
    ensures FieldOf("Content-Length: " + Decimal(n)) == Some(Field(CONTENT_LENGTH, Decimal(n)))
  {
    assert "Content-Length: " == CONTENT_LENGTH + ": ";
    FieldOfHeaderLine("Content-Length: ", CONTENT_LENGTH, Decimal(n));
    DecimalRoundTrip(n);
    TrimTight(Decimal(n));
  }

  lemma {:induction false} DecimalLinePrintable(n: nat)
    ensures OneLine("Content-Length: " + Decimal(n))
  {
    DecimalRoundTrip(n);
    OneLineAppend("Content-Length: ", Decimal(n));
  }

  lemma {:induction false} SkipField(lines: seq<string>, k: string, f: Field)
    requires lines != [] && FieldOf(lines[0] + "\r") == Some(f) && f.name != k
    ensures FirstField(WithCR(lines), k) == FirstField(WithCR(lines[1..]), k)
  {
    assert WithCR(lines)[1..] == WithCR(lines[1..]);
  }

  lemma {:induction false} FoundField(lines: seq<string>, k: string, f: Field)
    requires lines != [] && FieldOf(lines[0] + "\r") == Some(f) && f.name == k
    ensures FirstField(WithCR(lines), k) == Some(f.value)
  {
  }

  lemma {:induction false} RequestContentLength(host: string, payload: string, more: seq<string>)
    requires host == "Host: localhost"
    ensures FirstField(WithCR([host, "Content-Length: " + Decimal(|payload|)] + more), CONTENT_LENGTH)
            == Some(Decimal(|payload|))
  {
    var size := "Content-Length: " + Decimal(|payload|);
    var lines := [host, size] + more;
    assert host == "Host: " + "localhost" && "Host: " == "Host" + ": ";
    FieldOfHeaderLine("Host: ", "Host", "localhost");
    DecimalLine(|payload|);
    SkipField(lines, CONTENT_LENGTH, Field("Host", Trim("localhost")));
    assert lines[1..][0] == size;
    FoundField(lines[1..], CONTENT_LENGTH, Field(CONTENT_LENGTH, Decimal(|payload|)));
  }

  lemma LaterRequestFieldsPrintable(hasPayload: bool)
    ensures Printable(LaterRequestFields(hasPayload))
  {
    assert OneLine("Application-Agent: Flex-Audio-Client/1.0");
    assert OneLine("Content-Type: application/json");
    assert OneLine("Connection: close");
  }

  lemma RequestFieldsPrintable(payload: string)
    ensures Printable(RequestFields(payload))
  {
    var early := ["Host: localhost", "Content-Length: " + Decimal(|payload|)];
    assert Printable(early) by {
      DecimalLinePrintable(|payload|);
      assert OneLine("Host: localhost");
    }
    LaterRequestFieldsPrintable(payload != "");
    PrintableAppend(early, LaterRequestFields(payload != ""));
  }

  lemma MethodTokenRead(m: HttpMethod)
    ensures var t := MethodToken(m);
            t != "" && !IsSpace(t[0]) && ' ' !in t && LF !in t && ToUpper(MethodToString(m)) == t
  {
    UpperMethod(m);
  }

  /** The request's head and body, as the reassembling side sees them. */
  lemma {:induction false} RequestParsed(m: HttpMethod, endpoint: string, payload: string)
    requires LF !in endpoint && |payload| < SIZE_LIMIT
    ensures var p := Parse(FRESH, RequestText(m, endpoint, payload));
            && METHOD in p.headers
            && p.headers[METHOD] == Trim(ThreeWords(MethodToken(m), endpoint, "HTTP/1.1") + "\r")
            && p.payload == payload
            && ContentSizeOf(p) == Size(|payload|)
    ensures var head := RequestHead(m, endpoint, payload);
            && ScanHeaders(head).end == |head|
            && FirstField(FieldLines(head), CONTENT_LENGTH) == Some(Decimal(|payload|))
            && head + payload == RequestText(m, endpoint, payload)
  {
    MethodTokenRead(m);
    OneLineWords(MethodToken(m), endpoint, "HTTP/1.1");
    RequestFieldsPrintable(payload);
    RequestContentLength("Host: localhost", payload, LaterRequestFields(payload != ""));
    MessageRead(RequestLine(m, endpoint), RequestFields(payload), payload);
  }

  /** What a client prints, a fresh parser reads: method, endpoint, payload and its length. */
  lemma RequestRoundTrip(m: HttpMethod, endpoint: string, payload: string)
    requires endpoint != "" && ' ' !in endpoint && LF !in endpoint
    requires |payload| < SIZE_LIMIT
    ensures var p := Parse(FRESH, RequestText(m, endpoint, payload));
            && TypeOf(p) == Some(m)
            && EndpointOf(p) == Some(endpoint)
            && p.payload == payload
            && ContentSizeOf(p) == Size(|payload|)
  {
    RequestParsed(m, endpoint, payload);
    MethodTokenRead(m);
    var p := Parse(FRESH, RequestText(m, endpoint, payload));
    FirstLineRead(p, MethodToken(m), endpoint, "HTTP/1.1");
    TokenTells(p, m);
  }

  lemma TokenTells(p: Parser, m: HttpMethod)
    requires FirstLineTokens(p)[0] == MethodToken(m)
    ensures TypeOf(p) == Some(m)
  {
  }

  /** A blank or an LF in the endpoint is exactly what breaks the round trip. */
  lemma EndpointRoundTripExact(m: HttpMethod, endpoint: string, payload: string)
    requires endpoint != "" && |payload| < SIZE_LIMIT
    ensures EndpointOf(Parse(FRESH, RequestText(m, endpoint, payload))) == Some(endpoint) <==>
            ' ' !in endpoint && LF !in endpoint
  {
    if ' ' !in endpoint && LF !in endpoint {
      RequestRoundTrip(m, endpoint, payload);
    } else {
      var text := RequestText(m, endpoint, payload);
      var p := Parse(FRESH, text);
      assert ParseAll([text]) == p by { assert [text][..0] == []; }
      if METHOD in p.headers {
        ParsedHeadersHaveNoLF([text], METHOD);
      }
      var tokens := FirstLineTokens(p);
      assert |tokens| >= 2 ==> ' ' !in tokens[1] && LF !in tokens[1];
    }
  }

  // ----- Replies --------------------------------------------------------------------------

  datatype ReplyContentType = APPLICATION_JSON | APPLICATION_SDP | TEXT_PLAIN

  /** What the reply takes from its surroundings. */
  datatype Environment = Environment(serverName: string, date: string, address: string)

  function StatusCodeToString(c: nat): string {
    if c == 404 then "Not Found"
    else if c == 200 then "OK"
    else if c == 400 then "Bad Request"
    else if c == 500 then "Internal Server Error"
    else if c == 403 then "Forbidden"
    else "unknown: " + Decimal(c)
  }

  function ContentTypeLine(t: ReplyContentType): string {
    match t
    case APPLICATION_JSON => "Content-Type: application/json"
    case TEXT_PLAIN => "Content-Type: text/plain"
    case APPLICATION_SDP => "Content-Type: application/sdp"
  }

  const REQUEST_HEADERS := "Access-Control-Request-Headers"
  const REQUEST_METHOD := "Access-Control-Request-Method"
  const ALLOW_HEADERS := "Access-Control-Allow-Headers"
  const ALLOW_METHODS := "Access-Control-Allow-Methods"

  type HeaderMap = seq<Entry<string>>

  predicate HasKey(m: HeaderMap, key: string) {
    exists i :: 0 <= i < |m| && m[i].key == key
  }

  function ExtraLines(extra: HeaderMap): seq<string> {
    seq(|extra|, i requires 0 <= i < |extra| => extra[i].key + ": " + extra[i].value)
  }

  /** Echo a request header as a reply header, unless the handler has set that one itself. */
  function EchoLines(request: Headers, asked: string, prefix: string, handled: bool): seq<string> {
    if !handled && asked in request then [prefix + request[asked]] else []
  }

  function StatusLine(status: nat): string {
    ThreeWords("HTTP/1.1", Decimal(status), StatusCodeToString(status))
  }

  function FixedReplyFields(env: Environment, size: nat, contentType: ReplyContentType): seq<string> {
    ["Date: " + env.date,
     "Server: " + env.serverName,
     "Last-Modified: " + env.date,
     "Content-Length: " + Decimal(size),
     ContentTypeLine(contentType),
     "Access-Control-Allow-Origin: http://" + env.address]
  }

  function AddedReplyFields(request: Headers, extra: HeaderMap): seq<string> {
    ExtraLines(extra)
    + EchoLines(request, REQUEST_HEADERS, "Access-Control-Allow-Headers: ", HasKey(extra, ALLOW_HEADERS))
    + EchoLines(request, REQUEST_METHOD, "Access-Control-Allow-Methods: ", HasKey(extra, ALLOW_METHODS))
    + ["Connection: Closed"]
  }

  function ReplyLines(env: Environment, status: nat, payload: string, request: Headers,
                      extra: HeaderMap, contentType: ReplyContentType): seq<string> {
    [StatusLine(status)]
    + (FixedReplyFields(env, |payload|, contentType) + AddedReplyFields(request, extra))
  }

  function ReplyText(env: Environment, status: nat, payload: string, request: Headers,
                     extra: HeaderMap, contentType: ReplyContentType): string {
    MessageText(ReplyLines(env, status, payload, request, extra, contentType), payload)
  }

  method PrintFixedReplyLines(env: Environment, status: nat, size: nat, contentType: ReplyContentType)
    returns (reply: string)
    ensures reply == Printed([StatusLine(status)] + FixedReplyFields(env, size, contentType))
  {
    reply := "";
    ghost var lines := [];
    reply, lines := PutLine(reply, lines, StatusLine(status));
    reply, lines := PutLine(reply, lines, "Date: " + env.date);
    reply, lines := PutLine(reply, lines, "Server: " + env.serverName);
    reply, lines := PutLine(reply, lines, "Last-Modified: " + env.date);
    reply, lines := PutLine(reply, lines, "Content-Length: " + Decimal(size));
    match contentType {
      case APPLICATION_JSON => reply, lines := PutLine(reply, lines, "Content-Type: application/json");
      case TEXT_PLAIN => reply, lines := PutLine(reply, lines, "Content-Type: text/plain");
      case APPLICATION_SDP => reply, lines := PutLine(reply, lines, "Content-Type: application/sdp");
    }
    reply, lines := PutLine(reply, lines, "Access-Control-Allow-Origin: http://" + env.address);
    SevenLines(StatusLine(status), FixedReplyFields(env, size, contentType), lines);
  }

  lemma SevenLines(first: string, rest: seq<string>, lines: seq<string>)
    requires |rest| == 6
    requires lines == [] + [first] + [rest[0]] + [rest[1]] + [rest[2]] + [rest[3]] + [rest[4]] + [rest[5]]
    ensures lines == [first] + rest
  {
  }

  /** The handler's own headers, and whether they included the two allow-lists. */
  method PrintExtraLines(extra: HeaderMap, start: string, ghost before: seq<string>)
    returns (reply: string, handledHeaders: bool, handledMethods: bool)
    requires start == Printed(before)
    ensures reply == Printed(before + ExtraLines(extra))
    ensures handledHeaders == HasKey(extra, ALLOW_HEADERS)
    ensures handledMethods == HasKey(extra, ALLOW_METHODS)
  {
    reply := start;
    ghost var lines := before;
    handledHeaders, handledMethods := false, false;
    for i := 0 to |extra|
      invariant lines == before + ExtraLines(extra)[..i]
      invariant reply == Printed(lines)
      invariant handledHeaders == HasKey(extra[..i], ALLOW_HEADERS)
      invariant handledMethods == HasKey(extra[..i], ALLOW_METHODS)
    {
      var it := extra[i];
      reply, lines := PutLine(reply, lines, it.key + ": " + it.value);
      OneMoreLine(before, ExtraLines(extra), i);
      if it.key == ALLOW_HEADERS {
        handledHeaders := true;
      }
      if it.key == ALLOW_METHODS {
        handledMethods := true;
      }
      KeysSoFar(extra, i, ALLOW_HEADERS);
      KeysSoFar(extra, i, ALLOW_METHODS);
    }
    assert extra[..|extra|] == extra;
    assert ExtraLines(extra)[..|extra|] == ExtraLines(extra);
  }

  lemma OneMoreLine(before: seq<string>, lines: seq<string>, i: nat)
    requires i < |lines|
    ensures before + lines[..i] + [lines[i]] == before + lines[..i + 1]
  {
  }

  method PrintEcho(request: Headers, asked: string, prefix: string, handled: bool, start: string,
                   ghost before: seq<string>)
    returns (reply: string)
    requires start == Printed(before)
    ensures reply == Printed(before + EchoLines(request, asked, prefix, handled))
  {
    reply := start;
    ghost var lines := before;
    if !handled {
      if asked in request {
        reply, lines := PutLine(reply, lines, prefix + request[asked]);
      }
    }
    assert lines == before + EchoLines(request, asked, prefix, handled);
  }

  lemma Reassociate<T>(a: seq<T>, b: seq<T>, c: seq<T>, d: seq<T>, e: seq<T>)
    ensures a + b + c + d + e == a + (b + c + d + e)
  {
  }

  /** Everything between the fixed lines and the blank line. */
  method PrintAddedFields(request: Headers, extra: HeaderMap, start: string, ghost before: seq<string>)
    returns (reply: string)
    requires start == Printed(before)
    ensures reply == Printed(before + AddedReplyFields(request, extra))
  {
    ghost var lines := before;
    var handledHeaders, handledMethods;
    reply, handledHeaders, handledMethods := PrintExtraLines(extra, start, lines);
    lines := lines + ExtraLines(extra);
    reply := PrintEcho(request, REQUEST_HEADERS, "Access-Control-Allow-Headers: ", handledHeaders, reply, lines);
    lines := lines + EchoLines(request, REQUEST_HEADERS, "Access-Control-Allow-Headers: ", handledHeaders);
    reply := PrintEcho(request, REQUEST_METHOD, "Access-Control-Allow-Methods: ", handledMethods, reply, lines);
    lines := lines + EchoLines(request, REQUEST_METHOD, "Access-Control-Allow-Methods: ", handledMethods);
    reply, lines := PutLine(reply, lines, "Connection: Closed");
    Reassociate(before, ExtraLines(extra),
                EchoLines(request, REQUEST_HEADERS, "Access-Control-Allow-Headers: ", handledHeaders),
                EchoLines(request, REQUEST_METHOD, "Access-Control-Allow-Methods: ", handledMethods),
                ["Connection: Closed"]);
  }

  /** The reply printer: fixed lines, the handler's headers, the echoed ones, the payload. */
  method CreateReplyString(env: Environment, status: nat, payload: string, request: Headers,
                           extra: HeaderMap, contentType: ReplyContentType) returns (reply: string)
    ensures reply == ReplyText(env, status, payload, request, extra, contentType)
  {
    reply := PrintFixedReplyLines(env, status, |payload|, contentType);
    ghost var lines := [StatusLine(status)] + FixedReplyFields(env, |payload|, contentType);
    reply := PrintAddedFields(request, extra, reply, lines);
    lines := lines + AddedReplyFields(request, extra);
    reply := reply + (CRLF + payload);
    EndOfMessage(lines, payload);
    JoinLists([StatusLine(status)], FixedReplyFields(env, |payload|, contentType), AddedReplyFields(request, extra));
  }

  lemma KeysSoFar(extra: HeaderMap, i: nat, key: string)
    requires i < |extra|
    ensures HasKey(extra[..i + 1], key) <==> HasKey(extra[..i], key) || extra[i].key == key
  {
    if HasKey(extra[..i + 1], key) {
      var k :| 0 <= k < i + 1 && extra[..i + 1][k].key == key;
      assert k < i ==> extra[..i][k].key == key;
    }
    if HasKey(extra[..i], key) {
      var k :| 0 <= k < i && extra[..i][k].key == key;
      assert extra[..i + 1][k].key == key;
    }
    assert extra[..i + 1][i] == extra[i];
  }

  /** No text that goes into the reply's header section contains an LF. */
  predicate OneLineTexts(env: Environment, request: Headers, extra: HeaderMap) {
    && LF !in env.serverName && LF !in env.date && LF !in env.address
    && (forall i :: 0 <= i < |extra| ==> LF !in extra[i].key && LF !in extra[i].value)
    && (REQUEST_HEADERS in request ==> LF !in request[REQUEST_HEADERS])
    && (REQUEST_METHOD in request ==> LF !in request[REQUEST_METHOD])
  }

  lemma StatusTextEnds(status: nat)
    ensures var t := StatusCodeToString(status); t != "" && !IsSpace(t[|t| - 1]) && LF !in t
  {
    if status == 404 {
    } else if status == 200 {
    } else if status == 400 {
    } else if status == 500 {
    } else if status == 403 {
    } else {
      UnknownTextEnds(Decimal(status));
    }
  }

  lemma UnknownTextEnds(digits: string)
    requires digits != "" && AllDigits(digits)
    ensures var t := "unknown: " + digits; !IsSpace(t[|t| - 1]) && LF !in t
  {
    LastOfAppend("unknown: ", digits);
    assert IsDigit(digits[|digits| - 1]);
    assert LF !in digits;
  }

  lemma OneLineAppend(prefix: string, value: string)
    requires OneLine(prefix) && LF !in value
    ensures OneLine(prefix + value)
  {
  }

  lemma FixedFieldsPrintable(env: Environment, size: nat, contentType: ReplyContentType)
    requires LF !in env.serverName && LF !in env.date && LF !in env.address
    ensures Printable(FixedReplyFields(env, size, contentType))
  {
    DecimalLinePrintable(size);
    OneLineAppend("Date: ", env.date);
    OneLineAppend("Server: ", env.serverName);
    OneLineAppend("Last-Modified: ", env.date);
    OriginPrintable(env.address);
    ContentTypePrintable(contentType);
  }

  lemma OriginPrintable(address: string)
    requires LF !in address
    ensures OneLine("Access-Control-Allow-Origin: http://" + address)
  {
    OneLineAppend("Access-Control-Allow-Origin: http://", address);
  }

  lemma ContentTypePrintable(contentType: ReplyContentType)
    ensures OneLine(ContentTypeLine(contentType))
  {
  }

  lemma AddedFieldsPrintable(env: Environment, request: Headers, extra: HeaderMap)
    requires OneLineTexts(env, request, extra)
    ensures Printable(AddedReplyFields(request, extra))
  {
    assert Printable(ExtraLines(extra));
    if REQUEST_HEADERS in request {
      OneLineAppend("Access-Control-Allow-Headers: ", request[REQUEST_HEADERS]);
    }
    if REQUEST_METHOD in request {
      OneLineAppend("Access-Control-Allow-Methods: ", request[REQUEST_METHOD]);
    }
    assert OneLine("Connection: Closed");
  }

  lemma {:induction false} ReplyContentLength(date: string, server: string, size: nat, more: seq<string>)
    ensures FirstField(WithCR(["Date: " + date, "Server: " + server, "Last-Modified: " + date,
                               "Content-Length: " + Decimal(size)] + more), CONTENT_LENGTH)
            == Some(Decimal(size))
  {
    var d, s, l := "Date: " + date, "Server: " + server, "Last-Modified: " + date;
    var c := "Content-Length: " + Decimal(size);
    assert "Date: " == "Date" + ": " && "Server: " == "Server" + ": ";
    assert "Last-Modified: " == "Last-Modified" + ": ";
    FieldOfHeaderLine("Date: ", "Date", date);
    FieldOfHeaderLine("Server: ", "Server", server);
    FieldOfHeaderLine("Last-Modified: ", "Last-Modified", date);
    DecimalLine(size);
    FourthField(d, s, l, c, more, Field("Date", Trim(date)), Field("Server", Trim(server)),
                Field("Last-Modified", Trim(date)), Field(CONTENT_LENGTH, Decimal(size)));
  }

  lemma {:induction false} FourthField(a: string, b: string, c: string, d: string, more: seq<string>,
                                       fa: Field, fb: Field, fc: Field, fd: Field)
    requires FieldOf(a + "\r") == Some(fa) && FieldOf(b + "\r") == Some(fb)
    requires FieldOf(c + "\r") == Some(fc) && FieldOf(d + "\r") == Some(fd)
    requires fd.name !in {fa.name, fb.name, fc.name}
    ensures FirstField(WithCR([a, b, c, d] + more), fd.name) == Some(fd.value)
  {
    var lines := [a, b, c, d] + more;
    SkipField(lines, fd.name, fa);
    assert lines[1..] == [b, c, d] + more;
    SkipField(lines[1..], fd.name, fb);
    assert lines[1..][1..] == [c, d] + more;
    SkipField([c, d] + more, fd.name, fc);
    assert ([c, d] + more)[1..] == [d] + more;
    FoundField([d] + more, fd.name, fd);
  }

  lemma {:induction false} ReplyFieldsRead(env: Environment, size: nat, contentType: ReplyContentType,
                                           more: seq<string>)
    ensures FirstField(WithCR(FixedReplyFields(env, size, contentType) + more), CONTENT_LENGTH) == Some(Decimal(size))
  {
    var fields := FixedReplyFields(env, size, contentType);
    var rest := [fields[4], fields[5]] + more;
    assert fields + more == [fields[0], fields[1], fields[2], fields[3]] + rest;
    ReplyContentLength(env.date, env.serverName, size, rest);
  }

  lemma StatusLineOneLine(status: nat)
    ensures OneLine(StatusLine(status))
  {
    StatusTextEnds(status);
    DecimalRoundTrip(status);
    OneLineWords("HTTP/1.1", Decimal(status), StatusCodeToString(status));
  }

  /** What the server prints, the client reads: status, payload and its length, whatever headers
      the handler added (its own Content-Length and "method" included). */
  lemma ReplyRoundTrip(env: Environment, status: nat, payload: string, request: Headers,
                       extra: HeaderMap, contentType: ReplyContentType)
    requires status < 0x1_0000 && |payload| < SIZE_LIMIT && OneLineTexts(env, request, extra)
    ensures var p := Parse(FRESH, ReplyText(env, status, payload, request, extra, contentType));
            && StatusCodeOf(p) == status
            && p.payload == payload
            && ContentSizeOf(p) == Size(|payload|)
  {
    var fields, added := FixedReplyFields(env, |payload|, contentType), AddedReplyFields(request, extra);
    FixedFieldsPrintable(env, |payload|, contentType);
    AddedFieldsPrintable(env, request, extra);
    PrintableAppend(fields, added);
    ReplyFieldsRead(env, |payload|, contentType, added);
    StatusLineOneLine(status);
    MessageRead(StatusLine(status), fields + added, payload);
    StatusRead(Parse(FRESH, MessageText([StatusLine(status)] + (fields + added), payload)), status);
  }

  lemma StatusRead(p: Parser, status: nat)
    requires METHOD in p.headers && p.headers[METHOD] == Trim(StatusLine(status) + "\r")
    requires status < 0x1_0000
    ensures StatusCodeOf(p) == status
  {
    StatusTextEnds(status);
    DecimalRoundTrip(status);
    FirstLineRead(p, "HTTP/1.1", Decimal(status), StatusCodeToString(status));
    StatusOfTokens(p, status, SplitOn(StatusCodeToString(status), ' '));
  }

  lemma {:induction false} StatusOfTokens(p: Parser, status: nat, more: seq<string>)
    requires FirstLineTokens(p) == ["HTTP/1.1"] + ([Decimal(status)] + more) && more != []
    requires status < 0x1_0000
    ensures StatusCodeOf(p) == status
  {
    DecimalRoundTrip(status);
  }

  // ----- The client's side of a reply -----------------------------------------------------

  datatype HttpResult = HttpResult(statusCode: nat, payload: string)

  /** What the receive callback makes of a reply message. */
  function ReadReply(message: string): HttpResult {
    var p := Parse(FRESH, message);
    HttpResult(StatusCodeOf(p), p.payload)
  }
}
