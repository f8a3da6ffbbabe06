/** The headers the printers always write, as they are read back: those of a reply, those of a
    request, and the two first lines (src/HttpServer.cpp:196-241, src/HttpClient.cpp:50-64). */
module FixedHeaders {
  import opened Wrappers
  import opened Text
  import opened HttpParsing
  import opened Messages
  import opened ReplyHeaders

  // ----- The fixed headers ----------------------------------------------------------------

  function FixedNameAt(j: nat): string
    requires j < 6
  {
    if j == 0 then "Date"
    else if j == 1 then "Server"
    else if j == 2 then "Last-Modified"
    else if j == 3 then CONTENT_LENGTH
    else if j == 4 then "Content-Type"
    else "Access-Control-Allow-Origin"
  }

  function FixedValueAt(env: Environment, size: nat, t: ReplyContentType, j: nat): string
    requires j < 6
  {
    if j == 0 || j == 2 then Trim(env.date)
    else if j == 1 then Trim(env.serverName)
    else if j == 3 then Decimal(size)
    else if j == 4 then TypeValue(t)
    else Trim("http://" + env.address)
  }

  lemma FixedNamesDiffer(i: nat, j: nat)
    requires i < j < 6
    ensures FixedNameAt(i) != FixedNameAt(j)
  {
    assert |FixedNameAt(i)| != |FixedNameAt(j)|;
  }

  lemma TypeValueTight(t: ReplyContentType)
    ensures Tight(TypeValue(t))
  {
  }

  lemma ContentTypeField(t: ReplyContentType)
    ensures FieldOf(ContentTypeLine(t) + "\r") == Some(Field("Content-Type", TypeValue(t)))
  {
    TypeText(t);
    assert "Content-Type: " == "Content-Type" + ": ";
    FieldOfHeaderLine("Content-Type: ", "Content-Type", TypeValue(t));
    TypeValueTight(t);
    TrimTight(TypeValue(t));
  }

  lemma OriginField(address: string)
    ensures FieldOf("Access-Control-Allow-Origin: http://" + address + "\r") ==
            Some(Field("Access-Control-Allow-Origin", Trim("http://" + address)))
  {
    assert "Access-Control-Allow-Origin: " == "Access-Control-Allow-Origin" + ": ";
    JoinText("Access-Control-Allow-Origin: ", "http://", "Access-Control-Allow-Origin: http://", address);
    FieldOfHeaderLine("Access-Control-Allow-Origin: ", "Access-Control-Allow-Origin", "http://" + address);
  }

  lemma DateFields(date: string, server: string)
    ensures FieldOf("Date: " + date + "\r") == Some(Field("Date", Trim(date)))
    ensures FieldOf("Server: " + server + "\r") == Some(Field("Server", Trim(server)))
    ensures FieldOf("Last-Modified: " + date + "\r") == Some(Field("Last-Modified", Trim(date)))
  {
    assert "Date: " == "Date" + ": " && "Server: " == "Server" + ": ";
    assert "Last-Modified: " == "Last-Modified" + ": ";
    FieldOfHeaderLine("Date: ", "Date", date);
    FieldOfHeaderLine("Server: ", "Server", server);
    FieldOfHeaderLine("Last-Modified: ", "Last-Modified", date);
  }

  lemma FixedFieldAt(env: Environment, size: nat, t: ReplyContentType, j: nat)
    requires j < 6
    ensures FieldOf(FixedReplyFields(env, size, t)[j] + "\r") ==
            Some(Field(FixedNameAt(j), FixedValueAt(env, size, t, j)))
  {
    if j < 3 {
      DateFields(env.date, env.serverName);
    } else if j == 3 {
      DecimalLine(size);
    } else if j == 4 {
      ContentTypeField(t);
    } else {
      OriginField(env.address);
    }
  }

  /** The first line with a name is found behind lines with other names. */
  lemma {:induction false} FieldBehind(lines: seq<string>, j: nat, f: Field)
    requires j < |lines| && FieldOf(lines[j] + "\r") == Some(f)
    requires forall i :: 0 <= i < j ==> FieldOf(lines[i] + "\r").Some? && FieldOf(lines[i] + "\r").value.name != f.name
    ensures FirstField(WithCR(lines), f.name) == Some(f.value)
  {
    if j == 0 {
      FoundField(lines, f.name, f);
    } else {
      SkipField(lines, f.name, FieldOf(lines[0] + "\r").value);
      FieldBehind(lines[1..], j - 1, f);
    }
  }

  lemma {:induction false} FixedFieldFound(env: Environment, size: nat, t: ReplyContentType, j: nat)
    requires j < 6
    ensures FirstField(WithCR(FixedReplyFields(env, size, t)), FixedNameAt(j)) == Some(FixedValueAt(env, size, t, j))
  {
    var fields := FixedReplyFields(env, size, t);
    forall i | 0 <= i < j
      ensures FieldOf(fields[i] + "\r").Some? && FieldOf(fields[i] + "\r").value.name != FixedNameAt(j)
    {
      FixedFieldAt(env, size, t, i);
      FixedNamesDiffer(i, j);
    }
    FixedFieldAt(env, size, t, j);
    FieldBehind(fields, j, Field(FixedNameAt(j), FixedValueAt(env, size, t, j)));
  }

  lemma {:induction false} FixedHeaderRead(env: Environment, status: nat, payload: string, request: Headers,
                                           extra: HeaderMap, t: ReplyContentType, j: nat)
    requires OneLineTexts(env, request, extra) && j < 6
    ensures Lookup(Parse(FRESH, ReplyText(env, status, payload, request, extra, t)).headers, FixedNameAt(j)) ==
            Some(FixedValueAt(env, |payload|, t, j))
  {
    var fields, added := FixedReplyFields(env, |payload|, t), AddedReplyFields(request, extra);
    FixedFieldsPrintable(env, |payload|, t);
    AddedFieldsPrintable(env, request, extra);
    PrintableAppend(fields, added);
    StatusLineOneLine(status);
    FixedNotMethod(j);
    PrintedFieldRead(StatusLine(status), fields + added, payload, FixedNameAt(j));
    FieldsInTurn(fields, added, FixedNameAt(j));
    FixedFieldFound(env, |payload|, t, j);
  }

  lemma FixedNotMethod(j: nat)
    requires j < 6
    ensures FixedNameAt(j) != METHOD
  {
    assert FixedNameAt(j)[0] != METHOD[0];
  }

  /** The fixed headers a client reads from a reply, whatever the handler added. */
  lemma {:induction false} FixedHeadersRead(env: Environment, status: nat, payload: string, request: Headers,
                                            extra: HeaderMap, t: ReplyContentType)
    requires OneLineTexts(env, request, extra)
    ensures var h := Parse(FRESH, ReplyText(env, status, payload, request, extra, t)).headers;
            && Lookup(h, "Date") == Some(Trim(env.date))
            && Lookup(h, "Server") == Some(Trim(env.serverName))
            && Lookup(h, "Last-Modified") == Some(Trim(env.date))
            && Lookup(h, "Content-Length") == Some(Decimal(|payload|))
            && Lookup(h, "Content-Type") ==
               Some(match t
                    case APPLICATION_JSON => "application/json"
                    case TEXT_PLAIN => "text/plain"
                    case APPLICATION_SDP => "application/sdp")
            && Lookup(h, "Access-Control-Allow-Origin") == Some(Trim("http://" + env.address))
  {
    FixedHeaderRead(env, status, payload, request, extra, t, 0);
    FixedHeaderRead(env, status, payload, request, extra, t, 1);
    FixedHeaderRead(env, status, payload, request, extra, t, 2);
    FixedHeaderRead(env, status, payload, request, extra, t, 3);
    FixedHeaderRead(env, status, payload, request, extra, t, 4);
    FixedHeaderRead(env, status, payload, request, extra, t, 5);
  }

  // ----- The status line ------------------------------------------------------------------

  lemma {:induction false} ThreeDigits(n: nat)
    requires 100 <= n < 1000
    ensures Decimal(n) == [Digit(n / 100), Digit(n / 10 % 10), Digit(n % 10)]
  {
    assert Decimal(n / 100) == [Digit(n / 100)];
    assert n / 10 / 10 == n / 100;
    assert Decimal(n / 10) == Decimal(n / 100) + [Digit(n / 10 % 10)];
  }

  /** The first line of a reply, as it is read: version, code and reason. */
  lemma {:induction false} StatusLineRead(env: Environment, status: nat, payload: string, request: Headers,
                                          extra: HeaderMap, t: ReplyContentType)
    requires OneLineTexts(env, request, extra) && |payload| < SIZE_LIMIT
    ensures Lookup(Parse(FRESH, ReplyText(env, status, payload, request, extra, t)).headers, METHOD) ==
            Some("HTTP/1.1" + (" " + (Decimal(status) + (" " + StatusCodeToString(status)))))
  {
    var fields, added := FixedReplyFields(env, |payload|, t), AddedReplyFields(request, extra);
    FixedFieldsPrintable(env, |payload|, t);
    AddedFieldsPrintable(env, request, extra);
    PrintableAppend(fields, added);
    ReplyFieldsRead(env, |payload|, t, added);
    StatusLineOneLine(status);
    MessageRead(StatusLine(status), fields + added, payload);
    StatusTextEnds(status);
    StatusLineTight(status);
    TrimTight(StatusLine(status));
  }

  lemma StatusLineTight(status: nat)
    ensures Tight(StatusLine(status))
  {
    StatusTextEnds(status);
    DecimalRoundTrip(status);
    ThreeWordsRead("HTTP/1.1", Decimal(status), StatusCodeToString(status));
  }

  /** The five statuses that have a reason phrase, and what any other one gets. */
  lemma {:induction false} ReasonPhrases(status: nat)
    ensures status == 200 ==> Decimal(status) == "200" && StatusCodeToString(status) == "OK"
    ensures status == 400 ==> Decimal(status) == "400" && StatusCodeToString(status) == "Bad Request"
    ensures status == 403 ==> Decimal(status) == "403" && StatusCodeToString(status) == "Forbidden"
    ensures status == 404 ==> Decimal(status) == "404" && StatusCodeToString(status) == "Not Found"
    ensures status == 500 ==> Decimal(status) == "500" && StatusCodeToString(status) == "Internal Server Error"
    ensures status !in {200, 400, 403, 404, 500} ==> StatusCodeToString(status) == "unknown: " + Decimal(status)
  {
    if 100 <= status < 1000 {
      ThreeDigits(status);
    }
  }

  /** A status code of any size: what does not fit an `int` reads as 400, the rest is cut to 16
      bits. */
  lemma {:induction false} AnyStatusRead(p: Parser, code: nat, more: seq<string>)
    requires FirstLineTokens(p) == ["HTTP/1.1"] + ([Decimal(code)] + more) && more != []
    ensures StatusCodeOf(p) == if code < 0x8000_0000 then code % 0x1_0000 else 400
  {
    ScanDecimal(code);
  }

  // ----- The headers of a request ---------------------------------------------------------

  function RequestNameAt(hasPayload: bool, j: nat): string
    requires j < if hasPayload then 5 else 4
  {
    if j == 0 then "Host"
    else if j == 1 then CONTENT_LENGTH
    else if j == 2 then "Application-Agent"
    else if j == 3 && hasPayload then "Content-Type"
    else "Connection"
  }

  function RequestValueAt(payload: string, j: nat): string
    requires j < if payload != "" then 5 else 4
  {
    if j == 0 then "localhost"
    else if j == 1 then Decimal(|payload|)
    else if j == 2 then "Flex-Audio-Client/1.0"
    else if j == 3 && payload != "" then "application/json"
    else "close"
  }

  lemma RequestNamesDiffer(hasPayload: bool, i: nat, j: nat)
    requires i < j < if hasPayload then 5 else 4
    ensures RequestNameAt(hasPayload, i) != RequestNameAt(hasPayload, j)
  {
    assert |RequestNameAt(hasPayload, i)| != |RequestNameAt(hasPayload, j)|;
  }

  /** The first line a server reads from a request. */
  lemma {:induction false} RequestLineRead(m: HttpMethod, endpoint: string, payload: string)
    requires LF !in endpoint && |payload| < SIZE_LIMIT
    ensures var word := match m
                        case GET => "GET"
                        case POST => "POST"
                        case PUT => "PUT"
                        case DELETE => "DELETE"
                        case OPTIONS => "OPTIONS"
                        case PATCH => "PATCH"
                        case UNKNOWN => "???";
            Lookup(Parse(FRESH, RequestText(m, endpoint, payload)).headers, METHOD) ==
            Some(word + (" " + (endpoint + (" " + "HTTP/1.1"))))
  {
    RequestParsed(m, endpoint, payload);
    MethodTokenRead(m);
    LineIsTight(MethodToken(m), endpoint);
    TrimTight(ThreeWords(MethodToken(m), endpoint, "HTTP/1.1"));
  }

  lemma LineIsTight(word: string, endpoint: string)
    requires word != "" && !IsSpace(word[0])
    ensures Tight(ThreeWords(word, endpoint, "HTTP/1.1"))
  {
    LastOfAppend(endpoint, " " + "HTTP/1.1");
    LastOfAppend(word, " " + (endpoint + (" " + "HTTP/1.1")));
  }

  lemma WordField(line: string, prefix: string, name: string, value: string)
    requires line == prefix + value && prefix == name + ": " && ':' !in name && Tight(name) && Tight(value)
    ensures FieldOf(line + "\r") == Some(Field(name, value))
  {
    FieldOfHeaderLine(prefix, name, value);
    TrimTight(value);
  }

  lemma HostField()
    ensures FieldOf("Host: localhost" + "\r") == Some(Field("Host", "localhost"))
  {
    WordField("Host: localhost", "Host: ", "Host", "localhost");
  }

  lemma AgentField()
    ensures FieldOf("Application-Agent: Flex-Audio-Client/1.0" + "\r") ==
            Some(Field("Application-Agent", "Flex-Audio-Client/1.0"))
  {
    assert "Application-Agent: Flex-Audio-Client/1.0" == "Application-Agent: " + "Flex-Audio-Client/1.0";
    WordField("Application-Agent: Flex-Audio-Client/1.0", "Application-Agent: ", "Application-Agent",
              "Flex-Audio-Client/1.0");
  }

  lemma CloseField()
    ensures FieldOf("Connection: close" + "\r") == Some(Field("Connection", "close"))
  {
    WordField("Connection: close", "Connection: ", "Connection", "close");
  }

  lemma JsonField()
    ensures FieldOf("Content-Type: application/json" + "\r") == Some(Field("Content-Type", "application/json"))
  {
    ContentTypeField(APPLICATION_JSON);
  }

  lemma RequestFieldAt(payload: string, j: nat)
    requires j < if payload != "" then 5 else 4
    ensures j < |RequestFields(payload)| == (if payload != "" then 5 else 4)
    ensures FieldOf(RequestFields(payload)[j] + "\r") ==
            Some(Field(RequestNameAt(payload != "", j), RequestValueAt(payload, j)))
  {
    if j == 0 {
      HostField();
    } else if j == 1 {
      DecimalLine(|payload|);
    } else if j == 2 {
      AgentField();
    } else if j == 3 && payload != "" {
      JsonField();
    } else {
      CloseField();
    }
  }

  lemma {:induction false} RequestFieldFound(payload: string, j: nat)
    requires j < if payload != "" then 5 else 4
    ensures FirstField(WithCR(RequestFields(payload)), RequestNameAt(payload != "", j)) ==
            Some(RequestValueAt(payload, j))
  {
    var fields := RequestFields(payload);
    RequestFieldAt(payload, j);
    forall i | 0 <= i < j
      ensures FieldOf(fields[i] + "\r").Some? && FieldOf(fields[i] + "\r").value.name != RequestNameAt(payload != "", j)
    {
      RequestFieldAt(payload, i);
      RequestNamesDiffer(payload != "", i, j);
    }
    FieldBehind(fields, j, Field(RequestNameAt(payload != "", j), RequestValueAt(payload, j)));
  }

  lemma {:induction false} RequestHeaderRead(m: HttpMethod, endpoint: string, payload: string, k: string)
    requires LF !in endpoint && k != METHOD
    ensures Lookup(Parse(FRESH, RequestText(m, endpoint, payload)).headers, k) ==
            FirstField(WithCR(RequestFields(payload)), k)
  {
    MethodTokenRead(m);
    OneLineWords(MethodToken(m), endpoint, "HTTP/1.1");
    RequestFieldsPrintable(payload);
    PrintedFieldRead(RequestLine(m, endpoint), RequestFields(payload), payload, k);
  }

  /** The headers a server reads from a request: these, and a content type exactly if there is a
      payload. */
  lemma {:induction false} RequestHeadersRead(m: HttpMethod, endpoint: string, payload: string)
    requires LF !in endpoint
    ensures var h := Parse(FRESH, RequestText(m, endpoint, payload)).headers;
            && Lookup(h, "Host") == Some("localhost")
            && Lookup(h, "Content-Length") == Some(Decimal(|payload|))
            && Lookup(h, "Application-Agent") == Some("Flex-Audio-Client/1.0")
            && Lookup(h, "Connection") == Some("close")
            && Lookup(h, "Content-Type") == if payload != "" then Some("application/json") else None
  {
    var last := if payload != "" then 4 else 3;
    RequestFieldFound(payload, 0);
    RequestFieldFound(payload, 1);
    RequestFieldFound(payload, 2);
    RequestFieldFound(payload, last);
    RequestHeaderRead(m, endpoint, payload, "Host");
    RequestHeaderRead(m, endpoint, payload, CONTENT_LENGTH);
    RequestHeaderRead(m, endpoint, payload, "Application-Agent");
    RequestHeaderRead(m, endpoint, payload, "Connection");
    RequestHeaderRead(m, endpoint, payload, "Content-Type");
    if payload != "" {
      RequestFieldFound(payload, 3);
    } else {
      OtherRequestHeader(payload, false, "Content-Type");
    }
  }

  /** No request has another header. */
  lemma {:induction false} NoOtherHeaders(m: HttpMethod, endpoint: string, payload: string, k: string)
    requires LF !in endpoint
    requires k !in {METHOD, "Host", "Content-Length", "Application-Agent", "Content-Type", "Connection"}
    ensures k !in Parse(FRESH, RequestText(m, endpoint, payload)).headers
  {
    RequestHeaderRead(m, endpoint, payload, k);
    OtherRequestHeader(payload, payload != "", k);
  }

  lemma {:induction false} OtherRequestHeader(payload: string, hasPayload: bool, k: string)
    requires hasPayload == (payload != "")
    requires forall j :: 0 <= j < (if hasPayload then 5 else 4) ==> k != RequestNameAt(hasPayload, j)
    ensures FirstField(WithCR(RequestFields(payload)), k) == None
  {
    forall j | 0 <= j < |RequestFields(payload)|
      ensures FieldOf(RequestFields(payload)[j] + "\r").Some?
      ensures FieldOf(RequestFields(payload)[j] + "\r").value.name != k
    {
      RequestFieldAt(payload, j);
    }
    OtherFields(RequestFields(payload), k);
  }

  lemma {:induction false} OtherFields(lines: seq<string>, k: string)
    requires forall i :: 0 <= i < |lines| ==>
      FieldOf(lines[i] + "\r").Some? && FieldOf(lines[i] + "\r").value.name != k
    ensures FirstField(WithCR(lines), k) == None
  {
    if lines != [] {
      OtherFields(lines[1..], k);
      SkipField(lines, k, FieldOf(lines[0] + "\r").value);
    }
  }

  /** A parser takes the first word of a request line for a method exactly if it is one of the six;
      anything else is UNKNOWN. */
  lemma {:induction false} MethodsExact(word: string, endpoint: string, fields: seq<string>, body: string)
    requires word != "" && !IsSpace(word[0]) && ' ' !in word && LF !in word
    requires ' ' !in endpoint && LF !in endpoint && Printable(fields)
    ensures TypeOf(Parse(FRESH, MessageText([word + (" " + (endpoint + (" " + "HTTP/1.1")))] + fields, body))) ==
            Some(if word == "GET" then GET
                 else if word == "POST" then POST
                 else if word == "PUT" then PUT
                 else if word == "DELETE" then DELETE
                 else if word == "OPTIONS" then OPTIONS
                 else if word == "PATCH" then PATCH
                 else UNKNOWN)
  {
    var first := ThreeWords(word, endpoint, "HTTP/1.1");
    OneLineWords(word, endpoint, "HTTP/1.1");
    var lines := [first] + fields;
    ScanReadsPrinted(lines, body);
    assert WithCR(lines)[0] == first + "\r";
    ParseLookup(FRESH, MessageText(lines, body), METHOD);
    FirstLineRead(Parse(FRESH, MessageText(lines, body)), word, endpoint, "HTTP/1.1");
  }
}
