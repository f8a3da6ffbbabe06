/** Which headers a client reads from a reply: the handler's own, the two allow-lists echoed from
    the request when the handler set none, and the fixed ones (src/HttpServer.cpp:207-293). */
module ReplyHeaders {
  import opened Wrappers
  import opened Text
  import opened OrderedMaps
  import opened HttpParsing
  import opened Messages

  /** The value the handler gave for `k`, as it is read back. */
  function ExtraValue(extra: HeaderMap, k: string): Option<string> {
    if extra == [] then None
    else if extra[0].key == k then Some(Trim(extra[0].value))
    else ExtraValue(extra[1..], k)
  }

  function TrimmedLookup(h: Headers, k: string): Option<string> {
    if k in h then Some(Trim(h[k])) else None
  }

  /** What a reply says for a header name that is not one of the fixed ones. */
  function ReplyHeader(request: Headers, extra: HeaderMap, k: string): Option<string> {
    if ExtraValue(extra, k).Some? then ExtraValue(extra, k)
    else if k == ALLOW_HEADERS then TrimmedLookup(request, REQUEST_HEADERS)
    else if k == ALLOW_METHODS then TrimmedLookup(request, REQUEST_METHOD)
    else if k == "Connection" then Some("Closed")
    else None
  }

  predicate FixedName(k: string) {
    k in {"Date", "Server", "Last-Modified", CONTENT_LENGTH, "Content-Type", "Access-Control-Allow-Origin"}
  }

  /** A header name that survives being printed and read. */
  predicate NamesAreReadable(extra: HeaderMap) {
    forall i :: 0 <= i < |extra| ==> ':' !in extra[i].key && Tight(extra[i].key)
  }

  lemma {:induction false} ExtraValueFound(extra: HeaderMap, k: string)
    ensures ExtraValue(extra, k).Some? <==> HasKey(extra, k)
  {
    if extra != [] {
      ExtraValueFound(extra[1..], k);
      assert forall i :: 0 < i < |extra| ==> extra[i] == extra[1..][i - 1];
      if HasKey(extra[1..], k) {
        var i :| 0 <= i < |extra[1..]| && extra[1..][i].key == k;
        assert extra[i + 1].key == k;
      }
    }
  }

  lemma {:induction false} WithCRAppend(a: seq<string>, b: seq<string>)
    ensures WithCR(a + b) == WithCR(a) + WithCR(b)
  {
    if a == [] {
      assert a + b == b;
    } else {
      assert (a + b)[1..] == a[1..] + b;
      WithCRAppend(a[1..], b);
    }
  }

  lemma {:induction false} FieldsInTurn(a: seq<string>, b: seq<string>, k: string)
    ensures FirstField(WithCR(a + b), k) ==
            if FirstField(WithCR(a), k).Some? then FirstField(WithCR(a), k) else FirstField(WithCR(b), k)
  {
    WithCRAppend(a, b);
    FirstFieldAppend(WithCR(a), WithCR(b), k);
  }

  lemma {:induction false} OneField(line: string, f: Field, k: string)
    requires FieldOf(line + "\r") == Some(f)
    ensures FirstField(WithCR([line]), k) == if f.name == k then Some(f.value) else None
  {
    assert WithCR([line]) == [line + "\r"];
    assert [line + "\r"][1..] == [];
  }

  predicate HasFixedName(line: string) {
    FieldOf(line + "\r").Some? && FixedName(FieldOf(line + "\r").value.name)
  }

  lemma FixedNameDiffers(f: Field, k: string)
    requires FixedName(f.name) && !FixedName(k)
    ensures f.name != k
  {
  }

  lemma {:induction false} FixedLine(line: string, rest: seq<string>, k: string)
    requires HasFixedName(line) && !FixedName(k)
    ensures FirstField(WithCR([line] + rest), k) == FirstField(WithCR(rest), k)
  {
    FixedNameDiffers(FieldOf(line + "\r").value, k);
    SkipField([line] + rest, k, FieldOf(line + "\r").value);
    assert ([line] + rest)[1..] == rest;
  }

  lemma {:induction false} FixedLines(lines: seq<string>, k: string)
    requires (forall i :: 0 <= i < |lines| ==> HasFixedName(lines[i])) && !FixedName(k)
    ensures FirstField(WithCR(lines), k) == None
  {
    if lines != [] {
      FixedLines(lines[1..], k);
      FixedLine(lines[0], lines[1..], k);
      assert lines == [lines[0]] + lines[1..];
    }
  }

  lemma NamedLine(line: string, prefix: string, name: string, value: string)
    requires line == prefix + value && prefix == name + ": "
    requires ':' !in name && Tight(name) && FixedName(name)
    ensures HasFixedName(line)
  {
    FieldOfHeaderLine(prefix, name, value);
  }

  lemma JsonText()
    ensures "Content-Type: application/json" == "Content-Type: " + "application/json"
  {
  }

  lemma PlainText()
    ensures "Content-Type: text/plain" == "Content-Type: " + "text/plain"
  {
  }

  lemma SdpText()
    ensures "Content-Type: application/sdp" == "Content-Type: " + "application/sdp"
  {
  }

  function TypeValue(t: ReplyContentType): string {
    match t
    case APPLICATION_JSON => "application/json"
    case TEXT_PLAIN => "text/plain"
    case APPLICATION_SDP => "application/sdp"
  }

  lemma TypeText(t: ReplyContentType)
    ensures ContentTypeLine(t) == "Content-Type: " + TypeValue(t)
  {
    match t
    case APPLICATION_JSON => JsonText();
    case TEXT_PLAIN => PlainText();
    case APPLICATION_SDP => SdpText();
  }

  lemma ContentTypeName(t: ReplyContentType)
    ensures HasFixedName(ContentTypeLine(t))
  {
    TypeText(t);
    assert "Content-Type: " == "Content-Type" + ": ";
    NamedLine(ContentTypeLine(t), "Content-Type: ", "Content-Type", TypeValue(t));
  }

  lemma JoinText(a: string, b: string, ab: string, c: string)
    requires a + b == ab
    ensures ab + c == a + (b + c)
  {
  }

  lemma OriginName(address: string)
    ensures HasFixedName("Access-Control-Allow-Origin: http://" + address)
  {
    assert "Access-Control-Allow-Origin: " == "Access-Control-Allow-Origin" + ": ";
    JoinText("Access-Control-Allow-Origin: ", "http://", "Access-Control-Allow-Origin: http://", address);
    NamedLine("Access-Control-Allow-Origin: http://" + address, "Access-Control-Allow-Origin: ",
              "Access-Control-Allow-Origin", "http://" + address);
  }

  lemma DatesName(date: string, server: string)
    ensures HasFixedName("Date: " + date) && HasFixedName("Server: " + server)
    ensures HasFixedName("Last-Modified: " + date)
  {
    assert "Date: " == "Date" + ": " && "Server: " == "Server" + ": ";
    assert "Last-Modified: " == "Last-Modified" + ": ";
    NamedLine("Date: " + date, "Date: ", "Date", date);
    NamedLine("Server: " + server, "Server: ", "Server", server);
    NamedLine("Last-Modified: " + date, "Last-Modified: ", "Last-Modified", date);
  }

  lemma {:induction false} LengthName(size: nat)
    ensures HasFixedName("Content-Length: " + Decimal(size))
  {
    DecimalLine(size);
  }

  lemma {:induction false} FixedFieldsAreFixed(env: Environment, size: nat, t: ReplyContentType, k: string)
    requires !FixedName(k)
    ensures FirstField(WithCR(FixedReplyFields(env, size, t)), k) == None
  {
    DatesName(env.date, env.serverName);
    LengthName(size);
    ContentTypeName(t);
    OriginName(env.address);
    AllSix("Date: " + env.date, "Server: " + env.serverName, "Last-Modified: " + env.date,
           "Content-Length: " + Decimal(size), ContentTypeLine(t),
           "Access-Control-Allow-Origin: http://" + env.address, HasFixedName);
    FixedLines(FixedReplyFields(env, size, t), k);
  }

  lemma AllSix(a: string, b: string, c: string, d: string, e: string, f: string, p: string -> bool)
    requires p(a) && p(b) && p(c) && p(d) && p(e) && p(f)
    ensures forall i :: 0 <= i < 6 ==> p([a, b, c, d, e, f][i])
  {
  }

  lemma ExtraLinesTail(extra: HeaderMap)
    requires extra != []
    ensures ExtraLines(extra) == [extra[0].key + ": " + extra[0].value] + ExtraLines(extra[1..])
  {
  }

  lemma {:induction false} ExtraFields(extra: HeaderMap, k: string)
    requires NamesAreReadable(extra)
    ensures FirstField(WithCR(ExtraLines(extra)), k) == ExtraValue(extra, k)
  {
    if extra == [] {
      assert ExtraLines(extra) == [];
    } else {
      var e := extra[0];
      FieldOfHeaderLine(e.key + ": ", e.key, e.value);
      OneField(e.key + ": " + e.value, Field(e.key, Trim(e.value)), k);
      assert NamesAreReadable(extra[1..]);
      ExtraFields(extra[1..], k);
      ExtraLinesTail(extra);
      FieldsInTurn([e.key + ": " + e.value], ExtraLines(extra[1..]), k);
    }
  }

  lemma {:induction false} EchoField(request: Headers, asked: string, name: string, handled: bool, k: string)
    requires ':' !in name && Tight(name)
    ensures FirstField(WithCR(EchoLines(request, asked, name + ": ", handled)), k) ==
            if !handled && k == name then TrimmedLookup(request, asked) else None
  {
    if !handled && asked in request {
      FieldOfHeaderLine(name + ": ", name, request[asked]);
      OneField(name + ": " + request[asked], Field(name, Trim(request[asked])), k);
    }
  }

  lemma {:induction false} ClosedField(k: string)
    ensures FirstField(WithCR(["Connection: Closed"]), k) == if k == "Connection" then Some("Closed") else None
  {
    assert "Connection: " == "Connection" + ": ";
    assert "Connection: Closed" == "Connection: " + "Closed";
    FieldOfHeaderLine("Connection: ", "Connection", "Closed");
    TrimTight("Closed");
    OneField("Connection: Closed", Field("Connection", "Closed"), k);
  }

  lemma {:induction false} AddedFieldsRead(request: Headers, extra: HeaderMap, k: string)
    requires NamesAreReadable(extra)
    ensures FirstField(WithCR(AddedReplyFields(request, extra)), k) == ReplyHeader(request, extra, k)
  {
    var own := ExtraLines(extra);
    var headers := EchoLines(request, REQUEST_HEADERS, ALLOW_HEADERS + ": ", HasKey(extra, ALLOW_HEADERS));
    var methods := EchoLines(request, REQUEST_METHOD, ALLOW_METHODS + ": ", HasKey(extra, ALLOW_METHODS));
    AllowPrefixes();
    FieldsInTurn(own + headers + methods, ["Connection: Closed"], k);
    FieldsInTurn(own + headers, methods, k);
    FieldsInTurn(own, headers, k);
    ExtraFields(extra, k);
    ExtraValueFound(extra, k);
    EchoField(request, REQUEST_HEADERS, ALLOW_HEADERS, HasKey(extra, ALLOW_HEADERS), k);
    EchoField(request, REQUEST_METHOD, ALLOW_METHODS, HasKey(extra, ALLOW_METHODS), k);
    ClosedField(k);
  }

  lemma AllowPrefixes()
    ensures "Access-Control-Allow-Headers: " == ALLOW_HEADERS + ": "
    ensures "Access-Control-Allow-Methods: " == ALLOW_METHODS + ": "
    ensures ':' !in ALLOW_HEADERS && Tight(ALLOW_HEADERS) && ':' !in ALLOW_METHODS && Tight(ALLOW_METHODS)
    ensures ALLOW_HEADERS != ALLOW_METHODS && "Connection" != ALLOW_HEADERS && "Connection" != ALLOW_METHODS
  {
  }

  lemma {:induction false} PrintedFieldRead(first: string, fields: seq<string>, body: string, k: string)
    requires OneLine(first) && Printable(fields) && k != METHOD
    ensures Lookup(Parse(FRESH, MessageText([first] + fields, body)).headers, k) == FirstField(WithCR(fields), k)
  {
    var lines := [first] + fields;
    assert lines[1..] == fields;
    ScanReadsPrinted(lines, body);
    assert WithCR(lines)[1..] == WithCR(fields);
    ParseLookup(FRESH, MessageText(lines, body), k);
  }

  /** Apart from the fixed headers a client reads from a reply exactly the handler's headers, the
      allow-lists it asked for where the handler set none, and the closing of the connection. */
  lemma {:induction false} ReplyHeadersRead(env: Environment, status: nat, payload: string, request: Headers,
                                            extra: HeaderMap, t: ReplyContentType, k: string)
    requires OneLineTexts(env, request, extra) && NamesAreReadable(extra)
    requires k != METHOD && !FixedName(k)
    ensures Lookup(Parse(FRESH, ReplyText(env, status, payload, request, extra, t)).headers, k) ==
            ReplyHeader(request, extra, k)
  {
    var fields, added := FixedReplyFields(env, |payload|, t), AddedReplyFields(request, extra);
    FixedFieldsPrintable(env, |payload|, t);
    AddedFieldsPrintable(env, request, extra);
    PrintableAppend(fields, added);
    StatusLineOneLine(status);
    PrintedFieldRead(StatusLine(status), fields + added, payload, k);
    FieldsInTurn(fields, added, k);
    FixedFieldsAreFixed(env, |payload|, t, k);
    AddedFieldsRead(request, extra, k);
  }
}
