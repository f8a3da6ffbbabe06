/** `HttpParser`: the header scan over a string stream, the header map it fills, and what the
    accessors read back (include/http/HttpParser.hpp). */
module HttpParsing {
  import opened Wrappers
  import opened Text

  // ----- What one scan reads --------------------------------------------------------------

  /** The lines the loop consumed, and the stream position it ended at (-1 when `tellg` fails). */
  datatype Scan = Scan(lines: seq<string>, end: int)

  /** The `getline` loop: lines up to the first line equal to CR.  `tellg` succeeds only if that
      line was itself ended by LF; otherwise the stream has hit its end. */
  function ScanHeaders(s: string): (r: Scan)
    ensures r.end == -1 || 2 <= r.end <= |s|
    decreases |s|
  {
    if s == "" then Scan([], -1)
    else
      var n := IndexOf(s, LF);
      if s[..n] == "\r" then Scan([], if n < |s| then n + 1 else -1)
      else if n == |s| then Scan([s], -1)
      else
        var rest := ScanHeaders(s[n + 1..]);
        Scan([s[..n]] + rest.lines, if rest.end == -1 then -1 else n + 1 + rest.end)
  }

  /** Moves a stream position by `n`, keeping -1 for a failed one. */
  ghost function Shift(n: nat, end: int): int {
    if end == -1 then -1 else n + end
  }

  /** `s[..e]` ends with a line that is just CR LF. */
  predicate BlankLineEndsAt(s: string, e: int) {
    2 <= e <= |s| && s[e - 2] == '\r' && s[e - 1] == LF && (e == 2 || s[e - 3] == LF)
  }

  /** The scan stops at the first blank line and nowhere else. */
  lemma {:induction false} ScanFindsFirstBlankLine(s: string, e: int)
    ensures ScanHeaders(s).end == e && e != -1 <==>
            BlankLineEndsAt(s, e) && forall d :: BlankLineEndsAt(s, d) ==> e <= d
    ensures ScanHeaders(s).end == -1 <==> forall d :: !BlankLineEndsAt(s, d)
    decreases |s|
  {
    var end := ScanHeaders(s).end;
    ScanEndIsBlankLine(s);
    forall d | BlankLineEndsAt(s, d)
      ensures end != -1 && end <= d
    {
      ScanEndIsFirst(s, d);
    }
  }

  lemma {:induction false} ScanEndIsBlankLine(s: string)
    ensures ScanHeaders(s).end != -1 ==> BlankLineEndsAt(s, ScanHeaders(s).end)
    decreases |s|
  {
    if s != "" {
      var n := IndexOf(s, LF);
      if s[..n] == "\r" {
        assert s[0] == s[..n][0];
      } else if n < |s| {
        ScanEndIsBlankLine(s[n + 1..]);
      }
    }
  }

  lemma {:induction false} ScanEndIsFirst(s: string, d: int)
    requires BlankLineEndsAt(s, d)
    ensures ScanHeaders(s).end != -1 && ScanHeaders(s).end <= d
    decreases |s|
  {
    var n := IndexOf(s, LF);
    IndexOfLeast(s, LF, d - 1);
    if d == 2 {
      assert s[..1] == "\r";
    } else {
      IndexOfLeast(s, LF, d - 3);
    }
    if s[..n] != "\r" {
      assert BlankLineEndsAt(s[n + 1..], d - n - 1);
      ScanEndIsFirst(s[n + 1..], d - n - 1);
    }
  }

  /** Once the blank line is there, more input changes nothing the scan reports. */
  lemma {:induction false} ScanStable(s: string, t: string)
    requires ScanHeaders(s).end != -1
    ensures ScanHeaders(s + t) == ScanHeaders(s)
    decreases |s|
  {
    var n := IndexOf(s, LF);
    assert n < |s|;
    IndexOfExtend(s, LF, t);
    assert (s + t)[..n] == s[..n];
    if s[..n] != "\r" {
      assert (s + t)[n + 1..] == s[n + 1..] + t;
      ScanStable(s[n + 1..], t);
    }
  }

  /** Reading one more line off the front. */
  lemma {:induction false} ScanOneLine(line: string, rest: string)
    requires LF !in line && line != "\r"
    ensures ScanHeaders(line + ([LF] + rest)) ==
            Scan([line] + ScanHeaders(rest).lines, Shift(|line| + 1, ScanHeaders(rest).end))
  {
    var s := line + ([LF] + rest);
    IndexOfAppend(line, LF, [LF] + rest);
    assert s[..|line|] == line && s[|line| + 1..] == rest;
  }

  lemma {:induction false} ScanLinesHaveNoLF(s: string)
    ensures forall i :: 0 <= i < |ScanHeaders(s).lines| ==> LF !in ScanHeaders(s).lines[i]
    decreases |s|
  {
    if s != "" && s[..IndexOf(s, LF)] != "\r" && IndexOf(s, LF) < |s| {
      ScanLinesHaveNoLF(s[IndexOf(s, LF) + 1..]);
    }
  }

  function Terminated(lines: seq<string>): string {
    if lines == [] then "" else lines[0] + ([LF] + Terminated(lines[1..]))
  }

  /** `text` is the input up to a blank line that ends at `end`; without a blank line it is all of
      the input, which may lack its last LF or have a lone CR behind its last line. */
  ghost predicate ReadsAs(s: string, text: string, end: int) {
    if end != -1 then 0 <= end <= |s| && s[..end] == text + CRLF
    else s == text || s + [LF] == text || s == text + "\r"
  }

  /** The lines are exactly the input up to the blank line, cut at each LF. */
  lemma {:induction false} ScanReadsTheInput(s: string)
    ensures var lines := ScanHeaders(s).lines;
            && (forall i :: 0 <= i < |lines| ==> LF !in lines[i] && lines[i] != "\r")
            && ReadsAs(s, Terminated(lines), ScanHeaders(s).end)
    decreases |s|
  {
    var n := IndexOf(s, LF);
    if s == "" {
    } else if s[..n] == "\r" {
      assert n < |s| ==> s[..2] == CRLF;
    } else if n == |s| {
      assert s[..n] == s;
      assert [s][1..] == [];
    } else {
      var line, rest := s[..n], s[n + 1..];
      ScanReadsTheInput(rest);
      CutAt(s, n);
      ScanOneLine(line, rest);
      assert ([line] + ScanHeaders(rest).lines)[1..] == ScanHeaders(rest).lines;
      ReadsOneMore(line, rest, Terminated(ScanHeaders(rest).lines), ScanHeaders(rest).end);
    }
  }

  lemma ReadsOneMore(line: string, rest: string, text: string, end: int)
    requires ReadsAs(rest, text, end) && -1 <= end
    ensures ReadsAs(line + ([LF] + rest), line + ([LF] + text), Shift(|line| + 1, end))
  {
    LineAndTail(line, text, CRLF);
    LineAndTail(line, text, "\r");
    LineAndTail(line, rest, [LF]);
    if end != -1 {
      LineAndTake(line, rest, end);
    }
  }

  lemma LineAndTail(line: string, text: string, tail: string)
    ensures (line + ([LF] + text)) + tail == line + ([LF] + (text + tail))
  {
  }

  lemma LineAndTake(line: string, rest: string, n: nat)
    requires n <= |rest|
    ensures (line + ([LF] + rest))[..|line| + 1 + n] == line + ([LF] + rest[..n])
  {
  }

  // ----- Header fields --------------------------------------------------------------------

  datatype Field = Field(name: string, value: string)

  /** A line with a colon is a field; a line without one is skipped. */
  function FieldOf(line: string): Option<Field> {
    var n := IndexOf(line, ':');
    if n == |line| then None else Some(Field(Trim(line[..n]), Trim(line[n + 1..])))
  }

  /** The value of the first line that declares `name`. */
  function FirstField(lines: seq<string>, name: string): Option<string> {
    if lines == [] then None
    else
      match FieldOf(lines[0])
      case Some(f) => if f.name == name then Some(f.value) else FirstField(lines[1..], name)
      case None => FirstField(lines[1..], name)
  }

  /** The lines after the request or status line. */
  function FieldLines(s: string): seq<string> {
    var lines := ScanHeaders(s).lines;
    if lines == [] then [] else lines[1..]
  }

  lemma {:induction false} FirstFieldAppend(a: seq<string>, b: seq<string>, name: string)
    ensures FirstField(a + b, name) ==
            if FirstField(a, name).Some? then FirstField(a, name) else FirstField(b, name)
  {
    if a == [] {
      assert a + b == b;
    } else {
      assert (a + b)[1..] == a[1..] + b;
      FirstFieldAppend(a[1..], b, name);
    }
  }

  // ----- The parser's state ---------------------------------------------------------------

  const METHOD := "method"
  const CONTENT_LENGTH := "Content-Length"

  type Headers = map<string, string>

  function Lookup(h: Headers, name: string): Option<string> {
    if name in h then Some(h[name]) else None
  }

  lemma SameLookups(a: Headers, b: Headers)
    requires forall k :: Lookup(a, k) == Lookup(b, k)
    ensures a == b
  {
    assert forall k :: k in a <==> Lookup(a, k).Some?;
    assert forall k :: k in b <==> Lookup(b, k).Some?;
    assert forall k :: k in a ==> Lookup(a, k) == Some(a[k]);
    assert forall k :: k in b ==> Lookup(b, k) == Some(b[k]);
  }

  /** The fields of an `HttpParser` object as one value. */
  datatype Parser = Parser(headers: Headers, payload: string, headerSize: int)

  const FRESH := Parser(map[], "", 0)

  /** `std::map::insert`: a name already present keeps its value. */
  function Insert(h: Headers, line: string): Headers {
    match FieldOf(line)
    case Some(f) => if f.name in h then h else h[f.name := f.value]
    case None => h
  }

  function InsertAll(h: Headers, lines: seq<string>): Headers
    decreases |lines|
  {
    if lines == [] then h else InsertAll(Insert(h, lines[0]), lines[1..])
  }

  /** The first line overwrites the "method" entry; the others are inserted. */
  function Absorb(h: Headers, lines: seq<string>): Headers {
    if lines == [] then h else InsertAll(h[METHOD := Trim(lines[0])], lines[1..])
  }

  /** One call of `parse`, on a parser that may already have parsed something. */
  function Parse(p: Parser, input: string): Parser {
    if input == "" then p
    else
      var scan := ScanHeaders(input);
      Parser(Absorb(p.headers, scan.lines),
             if scan.end == -1 then p.payload else input[scan.end..],
             scan.end)
  }

  lemma {:induction false} InsertAllLookup(h: Headers, lines: seq<string>, k: string)
    ensures Lookup(InsertAll(h, lines), k) ==
            if k in h then Some(h[k]) else FirstField(lines, k)
    decreases |lines|
  {
    if lines != [] {
      InsertAllLookup(Insert(h, lines[0]), lines[1..], k);
    }
  }

  lemma {:induction false} ParseLookup(p: Parser, input: string, k: string)
    ensures k != METHOD ==>
      Lookup(Parse(p, input).headers, k) ==
      if k in p.headers then Some(p.headers[k]) else FirstField(FieldLines(input), k)
    ensures Lookup(Parse(p, input).headers, METHOD) ==
      if ScanHeaders(input).lines == [] then Lookup(p.headers, METHOD)
      else Some(Trim(ScanHeaders(input).lines[0]))
  {
    var lines := ScanHeaders(input).lines;
    if lines != [] {
      var h := p.headers[METHOD := Trim(lines[0])];
      InsertAllLookup(h, lines[1..], k);
      InsertAllLookup(h, lines[1..], METHOD);
    }
  }

  /** One parser run over several inputs in turn, as a session does. */
  function ParseAll(inputs: seq<string>): Parser {
    if inputs == [] then FRESH
    else Parse(ParseAll(inputs[..|inputs| - 1]), inputs[|inputs| - 1])
  }

  /** The first value any of the inputs declares for `name`. */
  function FirstOver(inputs: seq<string>, name: string): Option<string> {
    if inputs == [] then None
    else
      var earlier := FirstOver(inputs[..|inputs| - 1], name);
      if earlier.Some? then earlier else FirstField(FieldLines(inputs[|inputs| - 1]), name)
  }

  /** The first line of the last input that has one. */
  function LastFirstLine(inputs: seq<string>): Option<string> {
    if inputs == [] then None
    else
      var lines := ScanHeaders(inputs[|inputs| - 1]).lines;
      if lines == [] then LastFirstLine(inputs[..|inputs| - 1]) else Some(Trim(lines[0]))
  }

  /** However often a parser is reused, each name keeps the first value ever declared for it,
      except "method", which is the latest first line. */
  lemma {:induction false} HeadersAfterManyParses(inputs: seq<string>, k: string)
    ensures Lookup(ParseAll(inputs).headers, k) ==
            if k == METHOD then LastFirstLine(inputs) else FirstOver(inputs, k)
  {
    if inputs != [] {
      HeadersAfterManyParses(inputs[..|inputs| - 1], k);
      ParseLookup(ParseAll(inputs[..|inputs| - 1]), inputs[|inputs| - 1], k);
    }
  }

  /** A parser never holds a header text with an LF in it, so echoing one cannot end a line. */
  lemma {:induction false} ParsedHeadersHaveNoLF(inputs: seq<string>, k: string)
    requires k in ParseAll(inputs).headers
    ensures LF !in ParseAll(inputs).headers[k]
  {
    var rest := inputs[..|inputs| - 1];
    var input := inputs[|inputs| - 1];
    var lines := ScanHeaders(input).lines;
    ScanLinesHaveNoLF(input);
    ParseLookup(ParseAll(rest), input, k);
    if k == METHOD && lines != [] {
      TrimKeepsOut(lines[0], LF);
    } else if k in ParseAll(rest).headers {
      ParsedHeadersHaveNoLF(rest, k);
    } else {
      FirstFieldHasNoLF(lines[1..], k);
    }
  }

  lemma {:induction false} FirstFieldHasNoLF(lines: seq<string>, k: string)
    requires forall i :: 0 <= i < |lines| ==> LF !in lines[i]
    ensures FirstField(lines, k).Some? ==> LF !in FirstField(lines, k).value
  {
    if lines != [] {
      var n := IndexOf(lines[0], ':');
      if n < |lines[0]| {
        TrimKeepsOut(lines[0][n + 1..], LF);
      }
      FirstFieldHasNoLF(lines[1..], k);
    }
  }

  /** Header bytes and payload make up the input. */
  lemma HeaderAndPayloadAreTheInput(p: Parser, input: string)
    ensures var q := Parse(p, input);
            input != "" && q.headerSize != -1 ==>
              0 <= q.headerSize <= |input| && input[..q.headerSize] + q.payload == input
  {
  }

  // ----- What the accessors read ----------------------------------------------------------

  datatype HttpMethod = UNKNOWN | GET | POST | PUT | DELETE | OPTIONS | PATCH

  /** The tokens of the first line; a missing "method" entry reads as the empty string. */
  function FirstLineTokens(p: Parser): seq<string> {
    SplitOn(if METHOD in p.headers then p.headers[METHOD] else "", ' ')
  }

  function EndpointOf(p: Parser): Option<string> {
    var tokens := FirstLineTokens(p);
    if |tokens| < 2 then None else Some(tokens[1])
  }

  function TypeOf(p: Parser): Option<HttpMethod> {
    var tokens := FirstLineTokens(p);
    if |tokens| < 1 then None
    else if tokens[0] == "GET" then Some(GET)
    else if tokens[0] == "POST" then Some(POST)
    else if tokens[0] == "PUT" then Some(PUT)
    else if tokens[0] == "DELETE" then Some(DELETE)
    else if tokens[0] == "OPTIONS" then Some(OPTIONS)
    else if tokens[0] == "PATCH" then Some(PATCH)
    else Some(UNKNOWN)
  }

  /** The accessors index the map, so they leave an empty "method" entry behind. */
  function Touch(p: Parser): Parser {
    if METHOD in p.headers then p else p.(headers := p.headers[METHOD := ""])
  }

  const BAD_REQUEST: nat := 400

  /** `get_status_code`: the second token as an `int`, cut to the enum's 16 bits. */
  function StatusCodeOf(p: Parser): (code: nat)
    ensures code < 0x1_0000
  {
    var tokens := FirstLineTokens(p);
    if |tokens| < 3 then BAD_REQUEST
    else
      match Stoi(tokens[1])
      case Some(code) => code % 0x1_0000
      case None => BAD_REQUEST
  }

  datatype ContentSize = Absent | Malformed | Size(n: nat)

  /** `get_content_size`; `Malformed` is the exception `std::stoul` throws. */
  function ContentSizeOf(p: Parser): ContentSize {
    if CONTENT_LENGTH !in p.headers then Absent
    else
      match Stoul(p.headers[CONTENT_LENGTH])
      case Some(n) => Size(n)
      case None => Malformed
  }

  /** `get_header_size`: the signed field read as `std::size_t`. */
  function HeaderSize(p: Parser): int {
    if p.headerSize == -1 then SIZE_LIMIT - 1 else p.headerSize
  }

  // ----- The C++ objects ------------------------------------------------------------------

  /** The part of `std::istringstream` the parser uses. */
  class InputStream {
    const text: string
    var pos: nat
    var eof: bool
    var fail: bool

    ghost predicate Valid()
      reads this
    {
      pos <= |text| && (eof ==> pos == |text|) && (fail ==> eof)
    }

    /** What is still to be read. */
    ghost function Rest(): string
      reads this
      requires Valid()
    {
      text[pos..]
    }

    constructor (text: string)
      ensures Valid() && this.text == text && pos == 0 && !eof && !fail
    {
      this.text := text;
      pos, eof, fail := 0, false, false;
    }

    /** `std::getline`: false when not one character (nor a delimiter) could be extracted. */
    method GetLine() returns (ok: bool, line: string)
      requires Valid()
      modifies this
      ensures Valid()
      ensures ok == (!old(eof) && old(Rest()) != "")
      ensures ok ==> var n := IndexOf(old(Rest()), LF);
                     && line == old(Rest())[..n]
                     && eof == (n == |old(Rest())|) && !fail
                     && pos == (if eof then |text| else old(pos) + n + 1)
                     && Rest() == if eof then "" else old(Rest())[n + 1..]
      ensures !ok ==> eof && fail && pos == old(pos)
    {
      line := "";
      if eof || pos == |text| {
        eof, fail := true, true;
        return false, line;
      }
      var n := IndexOf(text[pos..], LF);
      line := text[pos..pos + n];
      assert line == old(Rest())[..n];
      if pos + n == |text| {
        pos, eof := |text|, true;
      } else {
        pos := pos + n + 1;
      }
      fail := false;
      ok := true;
    }

    /** `tellg` fails on a stream that has reached its end. */
    method Tellg() returns (p: int)
      requires Valid()
      modifies `fail
      ensures Valid() && p == if eof || fail then -1 else pos
    {
      if eof {
        fail := true;
      }
      p := if fail then -1 else pos;
    }
  }

  /** What the loop still reads, once `header` has been extracted and `rest` is left. */
  ghost function AfterLine(header: string, eof: bool, rest: string): Scan {
    if header == "\r" then Scan([], if eof then -1 else 0)
    else if eof then Scan([header], -1)
    else Scan([header] + ScanHeaders(rest).lines, ScanHeaders(rest).end)
  }

  lemma {:induction false} ReadOneLine(s: string)
    ensures s == "" ==> ScanHeaders(s) == Scan([], -1)
    ensures s != "" ==>
      var n := IndexOf(s, LF);
      var left := AfterLine(s[..n], n == |s|, if n == |s| then "" else s[n + 1..]);
      ScanHeaders(s) == Scan(left.lines, Shift(n + 1, left.end))
  {
    assert s[..|s|] == s;
  }

  lemma {:induction false} AbsorbOne(h: Headers, line: string, lines: seq<string>)
    ensures Absorb(h, [line] + lines) == InsertAll(h[METHOD := Trim(line)], lines)
    ensures InsertAll(h, [line] + lines) == InsertAll(Insert(h, line), lines)
  {
    assert ([line] + lines)[1..] == lines;
  }

  /** The loop's bookkeeping: what is still to be stored after a line has been. */
  lemma {:induction false} TakenLine(h: Headers, line: string, rest: seq<string>, all: Headers, first: bool)
    requires all == if first then Absorb(h, [line] + rest) else InsertAll(h, [line] + rest)
    ensures all == InsertAll(if first then h[METHOD := Trim(line)] else Insert(h, line), rest)
  {
    AbsorbOne(h, line, rest);
  }

  class HttpParser {
    var headers: Headers
    var payload: string
    var headerSize: int

    ghost function View(): Parser
      reads this
    {
      Parser(headers, payload, headerSize)
    }

    constructor ()
      ensures View() == FRESH
    {
      headers, payload, headerSize := map[], "", 0;
    }

    /** `parse`; `ok` is its `error::Error::OK`. */
    method ParseInput(input: string) returns (ok: bool)
      modifies this
      ensures View() == Parse(old(View()), input)
      ensures ok == (ScanHeaders(input).end != -1)
    {
      if input == "" {
        return false;
      }
      var stream := new InputStream(input);
      assert input[0..] == input;
      ParseHeaders(stream);
      headerSize := stream.Tellg();
      if headerSize == -1 {
        return false;
      }
      payload := input[headerSize..];
      ok := true;
    }

    /** The loop body: the first line replaces "method", a later one is inserted. */
    method TakeLine(first: bool, header: string)
      modifies `headers
      ensures headers == if first then old(headers)[METHOD := Trim(header)] else Insert(old(headers), header)
    {
      if first {
        headers := headers[METHOD := Trim(header)];
        return;
      }
      var index := IndexOf(header, ':');
      if index != |header| {
        var name := Trim(header[..index]);
        if name !in headers {
          headers := headers[name := Trim(header[index + 1..])];
        }
      }
    }

    /** One `getline`, seen as a step of the header scan. */
    static method NextLine(stream: InputStream) returns (more: bool, header: string)
      requires stream.Valid()
      modifies stream
      ensures stream.Valid() && stream.pos >= old(stream.pos)
      ensures more == (!old(stream.eof) && old(stream.Rest()) != "")
      ensures more ==>
        var left := AfterLine(header, stream.eof, stream.Rest());
        && !stream.fail && (stream.pos > old(stream.pos) || stream.eof)
        && ScanHeaders(old(stream.Rest())) == Scan(left.lines, Shift(stream.pos - old(stream.pos), left.end))
      ensures !more ==> stream.eof && stream.pos == old(stream.pos)
    {
      ReadOneLine(stream.Rest());
      more, header := stream.GetLine();
    }

    method ParseHeaders(stream: InputStream)
      requires stream.Valid() && !stream.eof && stream.pos == 0
      modifies this`headers, stream
      ensures stream.Valid()
      ensures headers == Absorb(old(headers), ScanHeaders(stream.text).lines)
      ensures ScanHeaders(stream.text).end == if stream.eof || stream.fail then -1 else stream.pos
    {
      ghost var whole := ScanHeaders(stream.text);
      ghost var all := Absorb(headers, whole.lines);
      var ix := 0;
      assert stream.text == stream.Rest();
      var more, header := NextLine(stream);
      ghost var left := AfterLine(header, stream.eof, stream.Rest());
      while more && header != "\r"
        invariant stream.Valid() && (more ==> !stream.fail)
        invariant 0 <= ix
        invariant more ==> left == AfterLine(header, stream.eof, stream.Rest())
        invariant more ==> all == if ix == 0 then Absorb(headers, left.lines) else InsertAll(headers, left.lines)
        invariant more ==> whole.end == Shift(stream.pos, left.end)
        invariant !more ==> stream.eof && whole.end == -1 && headers == all
        decreases |stream.text| - stream.pos, !stream.eof, more
      {
        ghost var rest := if stream.eof then Scan([], -1) else ScanHeaders(stream.Rest());
        assert left == Scan([header] + rest.lines, rest.end);
        TakenLine(headers, header, rest.lines, all, ix == 0);
        TakeLine(ix == 0, header);
        assert all == InsertAll(headers, rest.lines);
        ix := ix + 1;
        more, header := NextLine(stream);
        left := AfterLine(header, stream.eof, stream.Rest());
        assert more ==> rest.lines == left.lines;
      }
    }

    // The accessors index the map, so a missing "method" entry becomes an empty one.

    method GetEndpoint() returns (endpoint: Option<string>)
      modifies `headers
      ensures View() == Touch(old(View()))
      ensures endpoint == EndpointOf(old(View()))
    {
      if METHOD !in headers {
        headers := headers[METHOD := ""];
      }
      var split := SplitOn(headers[METHOD], ' ');
      if |split| < 2 {
        return None;
      }
      endpoint := Some(split[1]);
    }

    method GetType() returns (kind: Option<HttpMethod>)
      modifies `headers
      ensures View() == Touch(old(View()))
      ensures kind == TypeOf(old(View()))
    {
      if METHOD !in headers {
        headers := headers[METHOD := ""];
      }
      var split := SplitOn(headers[METHOD], ' ');
      if |split| < 1 {
        return None;
      }
      if split[0] == "GET" { return Some(GET); }
      if split[0] == "POST" { return Some(POST); }
      if split[0] == "PUT" { return Some(PUT); }
      if split[0] == "DELETE" { return Some(DELETE); }
      if split[0] == "OPTIONS" { return Some(OPTIONS); }
      if split[0] == "PATCH" { return Some(PATCH); }
      kind := Some(UNKNOWN);
    }

    method GetStatusCode() returns (code: nat)
      modifies `headers
      ensures View() == Touch(old(View()))
      ensures code == StatusCodeOf(old(View()))
    {
      if METHOD !in headers {
        headers := headers[METHOD := ""];
      }
      var split := SplitOn(headers[METHOD], ' ');
      if |split| < 3 {
        return BAD_REQUEST;
      }
      var number := Stoi(split[1]);
      match number {
        case Some(n) => code := n % 0x1_0000;
        case None => code := BAD_REQUEST;
      }
    }

    method GetContentSize() returns (size: ContentSize)
      ensures size == ContentSizeOf(View())
    {
      if CONTENT_LENGTH !in headers {
        return Absent;
      }
      var number := Stoul(headers[CONTENT_LENGTH]);
      match number {
        case Some(n) => size := Size(n);
        case None => size := Malformed;
      }
    }

    method GetHeaderSize() returns (size: int)
      ensures size == HeaderSize(View())
    {
      size := if headerSize == -1 then SIZE_LIMIT - 1 else headerSize;
    }
  }
}
