/** What a client reads when the first message it receives holds only part of the reply: it takes
    that message for the whole and closes (src/HttpClient.cpp:86-104). */
module ReplyCuts {
  import opened Wrappers
  import opened Text
  import opened HttpParsing
  import opened HttpSessions
  import opened Messages

  // ----- A status line cut off ------------------------------------------------------------

  /** Two words, each followed by a blank. */
  function WordsStart(a: string, b: string): string {
    a + (" " + (b + " "))
  }

  function StatusStart(status: nat): string {
    WordsStart("HTTP/1.1", Decimal(status))
  }

  lemma ThreeWordsSplit(a: string, b: string, c: string)
    ensures ThreeWords(a, b, c) == WordsStart(a, b) + c
  {
  }

  lemma NoSpaceInFront(s: string, l: string, m: string, r: string)
    requires s == l + m + r && AllSpace(l) && AllSpace(r)
    requires s != "" && !IsSpace(s[0])
    ensures l == "" && m != ""
  {
    assert forall i :: 0 <= i < |l| ==> s[i] == l[i];
    assert forall i :: 0 <= i < |r| ==> s[|l + m| + i] == r[i];
  }

  lemma TightStopsBefore(y: string, p: string)
    requires y <= p + " " && Tight(y)
    ensures y <= p
  {
    assert (p + " ")[|p|] == ' ';
  }

  lemma TrimAfter(p: string, t: string)
    requires p != "" && !IsSpace(p[0]) && t != "" && !IsSpace(t[0])
    ensures Trim(p + t) == p + Trim(t)
    ensures Trim(t) != "" && Tight(Trim(t))
  {
    var l, r := TrimParts(t);
    NoSpaceInFront(t, l, Trim(t), r);
    TightAfter(p, Trim(t));
    TrimUnique("", p + Trim(t), r);
    assert p + t == "" + (p + Trim(t)) + r;
  }

  lemma TightAfter(p: string, m: string)
    requires p != "" && !IsSpace(p[0]) && m != "" && Tight(m)
    ensures Tight(p + m)
  {
    LastOfAppend(p, m);
  }

  /** A text without leading white space is trimmed to a prefix. */
  lemma TrimIsPrefix(x: string)
    requires x != "" && !IsSpace(x[0])
    ensures Trim(x) <= x && Tight(Trim(x))
  {
    var l, r := TrimParts(x);
    NoSpaceInFront(x, l, Trim(x), r);
    assert x == Trim(x) + r;
  }

  lemma {:induction false} NoSplit(y: string, c: char)
    requires c !in y
    ensures SplitOn(y, c) == [y]
  {
    IndexOfAppend(y, c, "");
    assert y + "" == y;
  }

  lemma {:induction false} TwoTokens(y: string, a: string, b: string)
    requires y <= a + (" " + b) && ' ' !in a && ' ' !in b
    ensures |SplitOn(y, ' ')| <= 2
  {
    if |y| <= |a| {
      assert y == a[..|y|];
      NoSplit(y, ' ');
    } else {
      var rest := b[..|y| - |a| - 1];
      assert y == a + ([' '] + rest);
      SplitOnFirst(a, ' ', rest);
      NoSplit(rest, ' ');
    }
  }

  /** Until something follows the second blank there are not three tokens. */
  lemma {:induction false} StartHasTwoTokens(a: string, b: string, n: nat)
    requires a != "" && !IsSpace(a[0]) && ' ' !in a && ' ' !in b
    requires 0 < n <= |WordsStart(a, b)|
    ensures |SplitOn(Trim(WordsStart(a, b)[..n]), ' ')| <= 2
  {
    var p, y := WordsStart(a, b), Trim(WordsStart(a, b)[..n]);
    assert p == a + (" " + b) + " ";
    TrimIsPrefix(p[..n]);
    TightStopsBefore(y, a + (" " + b));
    TwoTokens(y, a, b);
  }

  lemma {:induction false} StatusTextStarts(status: nat)
    ensures var t := StatusCodeToString(status); t != "" && !IsSpace(t[0])
  {
  }

  /** The first `n` bytes of the status line, CR included. */
  function StatusLineCut(status: nat, n: nat): string {
    var line := StatusLine(status) + "\r";
    if n < |line| then line[..n] else line
  }

  lemma StatusLineParts(status: nat)
    ensures StatusLine(status) + "\r" == StatusStart(status) + (StatusCodeToString(status) + "\r")
    ensures StatusStart(status) != "" && !IsSpace(StatusStart(status)[0])
  {
    ThreeWordsSplit("HTTP/1.1", Decimal(status), StatusCodeToString(status));
    JoinLists(StatusStart(status), StatusCodeToString(status), "\r");
  }

  lemma CutParts(p: string, t: string, n: nat)
    requires n <= |p + t|
    ensures (p + t)[..n] == if n <= |p| then p[..n] else p + t[..n - |p|]
  {
  }

  /** The status survives exactly when the second blank and one more byte have arrived. */
  lemma {:induction false} CutStatusRead(p: Parser, status: nat, n: nat)
    requires METHOD in p.headers && p.headers[METHOD] == Trim(StatusLineCut(status, n))
    requires n > 0 && status < 0x1_0000
    ensures StatusCodeOf(p) == if n > |StatusStart(status)| then status else BAD_REQUEST
  {
    var start, text := StatusStart(status), StatusCodeToString(status) + "\r";
    StatusLineParts(status);
    StatusTextStarts(status);
    var cut := |StatusLineCut(status, n)|;
    CutParts(start, text, cut);
    assert StatusLineCut(status, n) == (start + text)[..cut];
    if n <= |start| {
      DecimalHasNoBlank(status);
      StartHasTwoTokens("HTTP/1.1", Decimal(status), n);
    } else {
      var t := text[..cut - |start|];
      assert t[0] == text[0] == StatusCodeToString(status)[0];
      LongerCutRead(p, status, t);
    }
  }

  lemma {:induction false} DecimalHasNoBlank(n: nat)
    ensures ' ' !in Decimal(n) && LF !in Decimal(n)
  {
    assert AllDigits(Decimal(n));
  }

  lemma {:induction false} LongerCutRead(p: Parser, status: nat, t: string)
    requires METHOD in p.headers && p.headers[METHOD] == Trim(StatusStart(status) + t)
    requires t != "" && !IsSpace(t[0]) && status < 0x1_0000
    ensures StatusCodeOf(p) == status
  {
    StatusLineParts(status);
    TrimAfter(StatusStart(status), t);
    DecimalHasNoBlank(status);
    ThreeWordsSplit("HTTP/1.1", Decimal(status), Trim(t));
    ThreeWordsRead("HTTP/1.1", Decimal(status), Trim(t));
    StatusOfTokens(p, status, SplitOn(Trim(t), ' '));
  }

  // ----- A reply cut off ------------------------------------------------------------------

  lemma {:induction false} FirstLineCut(line: string, rest: string, n: nat)
    requires OneLine(line) && line[0] != '\r'
    ensures FirstLineSeen(line + (CRLF + rest), n) ==
            if n == 0 then None
            else Some(Trim(if n < |line + "\r"| then (line + "\r")[..n] else line + "\r"))
  {
    var l, head := line + "\r", line + (CRLF + rest);
    SplitTerminator(line, rest);
    if 0 < n <= |l| {
      var m := head[..n];
      assert m == l[..n] && m[..|m|] == m;
      assert LF !in m;
      IndexOfAppend(m, LF, "");
      assert m + "" == m;
      assert ScanHeaders(m).lines == [m];
      assert n == |l| ==> m == l;
    } else if n > |l| {
      var m := Visible(head, n);
      var more := m[|l| + 1..];
      assert m == l + ([LF] + more);
      ScanOneLine(l, more);
    }
  }

  /** The reply's header section, blank line included. */
  function ReplyHead(env: Environment, status: nat, payload: string, request: Headers,
                     extra: HeaderMap, t: ReplyContentType): string {
    MessageText(ReplyLines(env, status, payload, request, extra, t), "")
  }

  lemma {:induction false} ReplyParts(env: Environment, status: nat, payload: string, request: Headers,
                                      extra: HeaderMap, t: ReplyContentType)
    requires OneLineTexts(env, request, extra)
    ensures var head := ReplyHead(env, status, payload, request, extra, t);
            && ReplyText(env, status, payload, request, extra, t) == head + payload
            && ScanHeaders(head).end == |head|
            && exists rest :: head == StatusLine(status) + (CRLF + rest)
  {
    var fields := FixedReplyFields(env, |payload|, t) + AddedReplyFields(request, extra);
    var lines := ReplyLines(env, status, payload, request, extra, t);
    FixedFieldsPrintable(env, |payload|, t);
    AddedFieldsPrintable(env, request, extra);
    PrintableAppend(FixedReplyFields(env, |payload|, t), AddedReplyFields(request, extra));
    StatusLineOneLine(status);
    assert lines[1..] == fields;
    ScanReadsPrinted(lines, payload);
    ScanReadsPrinted(lines, "");
    assert MessageText(lines, "") == StatusLine(status) + (CRLF + MessageText(fields, ""));
  }

  /** A parser given the first `n` bytes of a message. */
  lemma {:induction false} CutMessageRead(head: string, payload: string, n: nat)
    requires ScanHeaders(head).end == |head| && n <= |head + payload|
    ensures var p := Parse(FRESH, (head + payload)[..n]);
            && p.payload == (if n < |head| then "" else payload[..n - |head|])
            && Lookup(p.headers, METHOD) == FirstLineSeen(head, n)
  {
    var buffer := (head + payload)[..n];
    BufferScan(head, payload, n);
    CutParts(head, payload, n);
    ParseLookup(FRESH, buffer, METHOD);
    if n > 0 && n >= |head| {
      assert buffer[|head|..] == payload[..n - |head|];
    }
  }

  /** What the client makes of the first `n` bytes of a message with that status line. */
  lemma {:induction false} CutResultRead(head: string, rest: string, payload: string, status: nat, n: nat)
    requires head == StatusLine(status) + (CRLF + rest) && ScanHeaders(head).end == |head|
    requires status < 0x1_0000 && n <= |head + payload|
    ensures ReadReply((head + payload)[..n]) ==
            HttpResult(if n > |StatusStart(status)| then status else BAD_REQUEST,
                       if n < |head| then "" else payload[..n - |head|])
  {
    StatusLineOneLine(status);
    FirstLineCut(StatusLine(status), rest, n);
    CutMessageRead(head, payload, n);
    if n == 0 {
      NoSplit("", ' ');
    } else {
      CutStatusRead(Parse(FRESH, (head + payload)[..n]), status, n);
    }
  }

  /** What the client makes of the first `n` bytes of a reply. */
  lemma {:induction false} CutReplyRead(env: Environment, status: nat, payload: string, request: Headers,
                                        extra: HeaderMap, t: ReplyContentType, n: nat)
    requires status < 0x1_0000 && OneLineTexts(env, request, extra)
    requires n <= |ReplyText(env, status, payload, request, extra, t)|
    ensures var head := ReplyHead(env, status, payload, request, extra, t);
            && |ReplyText(env, status, payload, request, extra, t)| == |head| + |payload|
            && ReadReply(ReplyText(env, status, payload, request, extra, t)[..n]) ==
               HttpResult(if n > |StatusStart(status)| then status else BAD_REQUEST,
                          if n < |head| then "" else payload[..n - |head|])
  {
    var head := ReplyHead(env, status, payload, request, extra, t);
    ReplyParts(env, status, payload, request, extra, t);
    var rest :| head == StatusLine(status) + (CRLF + rest);
    CutResultRead(head, rest, payload, status, n);
  }

  /** Enough of the reply is in the first message: all of it or, if it has no payload, the status
      code and a byte of what follows (or nothing, if the status is what a missing one reads as). */
  predicate EnoughArrived(status: nat, payload: string, length: nat, n: nat) {
    n == length || (payload == "" && (n > |StatusStart(status)| || status == BAD_REQUEST))
  }

  /** The client reads the status and payload that were sent exactly when enough of the reply is in
      the first message it receives. */
  lemma {:induction false} CutReplyExact(env: Environment, status: nat, payload: string, request: Headers,
                                         extra: HeaderMap, t: ReplyContentType, n: nat)
    requires status < 0x1_0000 && OneLineTexts(env, request, extra)
    requires n <= |ReplyText(env, status, payload, request, extra, t)|
    ensures var reply := ReplyText(env, status, payload, request, extra, t);
            ReadReply(reply[..n]) == HttpResult(status, payload) <==>
            EnoughArrived(status, payload, |reply|, n)
  {
    CutReplyRead(env, status, payload, request, extra, t, n);
    HeadIsLonger(env, status, payload, request, extra, t);
    var head := ReplyHead(env, status, payload, request, extra, t);
    if n >= |head| {
      assert n == |head| + |payload| ==> payload[..n - |head|] == payload;
    }
  }

  lemma {:induction false} HeadIsLonger(env: Environment, status: nat, payload: string, request: Headers,
                                        extra: HeaderMap, t: ReplyContentType)
    requires OneLineTexts(env, request, extra)
    ensures |ReplyHead(env, status, payload, request, extra, t)| > |StatusStart(status)|
  {
    ReplyParts(env, status, payload, request, extra, t);
    StatusLineParts(status);
  }
}
