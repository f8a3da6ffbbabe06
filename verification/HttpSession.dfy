/** `HttpSession`: packets are appended to one buffer, and the whole buffer is parsed again by the
    same parser after each (src/HttpServer.cpp:339-387).  The main result says exactly which
    packet boundaries leave a message intact. */
module HttpSessions {
  import opened Wrappers
  import opened Text
  import opened HttpParsing

  datatype Session = Session(partial: string, parser: Parser)

  /** `Failed` is the exception `std::stoul` lets out. */
  datatype SessionState = INCOMPLETE | COMPLETE | Failed

  const NEW_SESSION := Session("", FRESH)

  /** `std::size_t` subtraction. */
  function SizeSub(a: int, b: int): int {
    (a - b) % SIZE_LIMIT
  }

  /** The completeness test, in the order the code makes it. */
  function Decide(p: Parser, size: nat): SessionState {
    match ContentSizeOf(p)
    case Absent => COMPLETE
    case Malformed => Failed
    case Size(n) =>
      if HeaderSize(p) > size then INCOMPLETE
      else if n > SizeSub(size, HeaderSize(p)) then INCOMPLETE
      else COMPLETE
  }

  /** One packet; an empty one means the peer closed. */
  function Feed(s: Session, data: string): Session {
    if data == "" then s
    else Session(s.partial + data, Parse(s.parser, s.partial + data))
  }

  function Verdict(s: Session, data: string): SessionState {
    if data == "" then COMPLETE
    else Decide(Feed(s, data).parser, |Feed(s, data).partial|)
  }

  /** The subtraction never wraps: the guard before it has compared the same two numbers. */
  lemma GuardedSubtraction(p: Parser, size: nat)
    requires -1 <= p.headerSize && size < SIZE_LIMIT
    requires HeaderSize(p) <= size
    ensures SizeSub(size, HeaderSize(p)) == size - HeaderSize(p)
    ensures size != SIZE_LIMIT - 1 ==> p.headerSize != -1
  {
  }

  // ----- A session fed with several packets -----------------------------------------------

  function Concat(packets: seq<string>): string {
    if packets == [] then "" else Concat(packets[..|packets| - 1]) + packets[|packets| - 1]
  }

  /** What the buffer holds after each packet. */
  function Buffers(packets: seq<string>): (bs: seq<string>)
    ensures |bs| == |packets|
  {
    if packets == [] then [] else Buffers(packets[..|packets| - 1]) + [Concat(packets)]
  }

  function After(packets: seq<string>): Session {
    if packets == [] then NEW_SESSION
    else Feed(After(packets[..|packets| - 1]), packets[|packets| - 1])
  }

  function VerdictAfter(packets: seq<string>): SessionState
    requires packets != []
  {
    Verdict(After(packets[..|packets| - 1]), packets[|packets| - 1])
  }

  predicate NonEmptyPackets(packets: seq<string>) {
    forall i :: 0 <= i < |packets| ==> packets[i] != ""
  }

  lemma {:induction false} AfterPackets(packets: seq<string>)
    requires NonEmptyPackets(packets)
    ensures After(packets) == Session(Concat(packets), ParseAll(Buffers(packets)))
    ensures packets != [] ==>
      VerdictAfter(packets) == Decide(ParseAll(Buffers(packets)), |Concat(packets)|)
  {
    if packets != [] {
      var init := packets[..|packets| - 1];
      AfterPackets(init);
      assert Buffers(packets)[..|packets| - 1] == Buffers(init);
    }
  }

  /** After any packets, header bytes and payload make up the buffer once the header section is
      complete, and there is no payload before that. */
  lemma {:induction false} PayloadIsTheRest(packets: seq<string>)
    requires NonEmptyPackets(packets) && packets != []
    ensures var s := After(packets);
            && s.partial == Concat(packets)
            && s.parser.headerSize == ScanHeaders(s.partial).end
            && if s.parser.headerSize == -1 then s.parser.payload == ""
               else s.partial[..s.parser.headerSize] + s.parser.payload == Concat(packets)
  {
    var init, last := packets[..|packets| - 1], packets[|packets| - 1];
    AfterPackets(packets);
    if init != [] {
      PayloadIsTheRest(init);
      AfterPackets(init);
      assert Concat(packets) == Concat(init) + last;
      if ScanHeaders(Concat(init)).end != -1 {
        ScanStable(Concat(init), last);
      }
    }
    HeaderAndPayloadAreTheInput(After(init).parser, Concat(packets));
  }

  // ----- Lines of a cut message -----------------------------------------------------------

  /** `part` is `whole` cut off somewhere: all but its last line are whole, the last a prefix. */
  ghost predicate Truncates(part: seq<string>, whole: seq<string>) {
    part == [] ||
    var j := |part| - 1;
    j < |whole| && part[..j] == whole[..j] && part[j] <= whole[j]
  }

  lemma {:induction false} ScanTruncates(s: string, cut: nat)
    requires cut <= |s|
    ensures Truncates(ScanHeaders(s[..cut]).lines, ScanHeaders(s).lines)
    decreases |s|
  {
    var n := IndexOf(s, LF);
    var t := s[..cut];
    IndexOfPrefix(s, LF, cut);
    if n < cut {
      assert t[..n] == s[..n];
      assert t[n + 1..] == s[n + 1..][..cut - n - 1];
      ScanTruncates(s[n + 1..], cut - n - 1);
      if s[..n] != "\r" {
        TruncatesCons(s[..n], ScanHeaders(t[n + 1..]).lines, ScanHeaders(s[n + 1..]).lines);
      }
    } else if cut > 0 {
      LastLineCut(s, cut);
    }
  }

  lemma TruncatesCons(line: string, part: seq<string>, whole: seq<string>)
    requires Truncates(part, whole)
    ensures Truncates([line] + part, [line] + whole)
  {
    if part != [] {
      var j := |part| - 1;
      assert ([line] + part)[..j + 1] == [line] + part[..j];
      assert ([line] + whole)[..j + 1] == [line] + whole[..j];
    }
  }

  lemma {:induction false} LastLineCut(s: string, cut: nat)
    requires 0 < cut <= IndexOf(s, LF)
    ensures Truncates(ScanHeaders(s[..cut]).lines, ScanHeaders(s).lines)
  {
    var n := IndexOf(s, LF);
    var t := s[..cut];
    IndexOfPrefix(s, LF, cut);
    assert t[..cut] == t <= s[..n];
    if s[..n] == "\r" {
      assert t == "\r";
    } else if t != "\r" {
      assert ScanHeaders(t).lines == [t];
      assert s[..|s|] == s;
      assert ScanHeaders(s).lines[0] == s[..n];
    }
  }

  lemma FieldLinesTruncate(s: string, cut: nat)
    requires cut <= |s|
    ensures Truncates(FieldLines(s[..cut]), FieldLines(s))
  {
    ScanTruncates(s, cut);
    var part, whole := ScanHeaders(s[..cut]).lines, ScanHeaders(s).lines;
    if |part| > 1 {
      var j := |part| - 1;
      assert part[1..][..j - 1] == part[..j][1..] == whole[..j][1..] == whole[1..][..j - 1];
    }
  }

  /** A longer prefix of a line with a colon names the same field. */
  lemma {:induction false} FieldOfLonger(x: string, y: string)
    requires x <= y && FieldOf(x).Some?
    ensures FieldOf(y).Some? && FieldOf(y).value.name == FieldOf(x).value.name
    ensures IndexOf(y, ':') == IndexOf(x, ':') < |x|
  {
    IndexOfPrefix(y, ':', |x|);
    assert y[..|x|] == x;
    var n := IndexOf(x, ':');
    assert y[..n] == x[..n];
  }

  lemma {:induction false} FirstFieldOfTruncation(a: seq<string>, b: seq<string>, k: string)
    requires Truncates(a, b) && a != []
    ensures var j := |a| - 1;
      var f := FieldOf(a[j]);
      if FirstField(a[..j], k).Some? then
        FirstField(a, k) == FirstField(b, k) == FirstField(a[..j], k)
      else if f.Some? && f.value.name == k then
        && FirstField(a, k) == Some(f.value.value)
        && FieldOf(b[j]).Some? && FieldOf(b[j]).value.name == k
        && FirstField(b, k) == Some(FieldOf(b[j]).value.value)
      else FirstField(a, k) == None
  {
    var j := |a| - 1;
    FirstFieldAppend(a[..j], [a[j]], k);
    assert a == a[..j] + [a[j]];
    FirstFieldAppend(b[..j], b[j..], k);
    assert b == b[..j] + b[j..];
    assert [a[j]][1..] == [];
    if FieldOf(a[j]).Some? {
      FieldOfLonger(a[j], b[j]);
    }
  }

  /** Names stay declared as a message grows, and a value that is right stays right. */
  lemma {:induction false} GrowingKeeps(a: seq<string>, b: seq<string>, whole: seq<string>, k: string)
    requires Truncates(a, b) && Truncates(b, whole) && Truncates(a, whole)
    requires FirstField(a, k).Some?
    ensures FirstField(b, k).Some?
    ensures FirstField(a, k) == FirstField(whole, k) ==> FirstField(b, k) == FirstField(whole, k)
  {
    var j := |a| - 1;
    FirstFieldOfTruncation(a, b, k);
    FirstFieldOfTruncation(a, whole, k);
    LineOfTruncation(b, whole, j);
    if FirstField(a[..j], k).None? {
      ValueSettles(a[j], b[j], whole[j]);
    }
  }

  lemma LineOfTruncation(b: seq<string>, whole: seq<string>, j: nat)
    requires Truncates(b, whole) && j < |b|
    ensures j < |whole| && b[j] <= whole[j]
  {
    if j < |b| - 1 {
      assert b[..|b| - 1][j] == whole[..|b| - 1][j];
    }
  }

  lemma ValueSettles(x: string, y: string, w: string)
    requires x <= y <= w && FieldOf(x).Some?
    ensures FieldOf(x) == FieldOf(w) ==> FieldOf(y) == FieldOf(w)
  {
    FieldOfLonger(x, y);
    FieldOfLonger(x, w);
    if FieldOf(x) == FieldOf(w) {
      var n := IndexOf(x, ':') + 1;
      assert x[n..] <= y[n..] <= w[n..];
      TrimSettles(x[n..], y[n..], w[n..]);
    }
  }

  // ----- Which cuts are safe --------------------------------------------------------------

  /** The header section that is visible when `cut` bytes of the message have arrived. */
  function Visible(head: string, cut: nat): string {
    if cut < |head| then head[..cut] else head
  }

  /** The last visible field line is harmless: it declares nothing, or a name already declared
      or the reserved "method", or cutting it off has not changed its (trimmed) value. */
  predicate CleanTail(seen: seq<string>, whole: seq<string>) {
    seen == [] ||
    var j := |seen| - 1;
    match FieldOf(seen[j])
    case None => true
    case Some(f) =>
      || f.name == METHOD
      || FirstField(seen[..j], f.name).Some?
      || (j < |whole| && FieldOf(whole[j]) == Some(f))
  }

  /** A packet may end after `cut` bytes: Content-Length is already visible and the last visible
      line is harmless. */
  predicate SafeCut(head: string, cut: nat) {
    FirstField(FieldLines(Visible(head, cut)), CONTENT_LENGTH).Some? && CleanCut(head, cut)
  }

  predicate CleanCut(head: string, cut: nat) {
    CleanTail(FieldLines(Visible(head, cut)), FieldLines(head))
  }

  /** Every packet so far ended at a harmless place. */
  ghost predicate CleanCuts(head: string, packets: seq<string>) {
    forall i :: 0 < i <= |packets| ==> CleanCut(head, |Concat(packets[..i])|)
  }

  lemma {:induction false} CleanTailMeansAgreement(seen: seq<string>, whole: seq<string>)
    requires Truncates(seen, whole)
    ensures CleanTail(seen, whole) <==>
            forall k :: k != METHOD && FirstField(seen, k).Some? ==> FirstField(seen, k) == FirstField(whole, k)
  {
    if seen != [] {
      var j := |seen| - 1;
      var f := FieldOf(seen[j]);
      forall k | CleanTail(seen, whole) && k != METHOD && FirstField(seen, k).Some?
        ensures FirstField(seen, k) == FirstField(whole, k)
      {
        FirstFieldOfTruncation(seen, whole, k);
      }
      if f.Some? {
        FirstFieldOfTruncation(seen, whole, f.value.name);
        FieldOfLonger(seen[j], whole[j]);
      }
    }
  }

  /** `head` is a complete header section and, if it declares a length, `body` has that length. */
  predicate Message(head: string, body: string) {
    && ScanHeaders(head).end == |head|
    && |head| + |body| < SIZE_LIMIT - 1
    && match FirstField(FieldLines(head), CONTENT_LENGTH)
       case Some(v) => Stoul(v) == Some(|body|)
       case None => true
  }

  /** Delivery in packets did what one parse of the whole message does, and only at the end. */
  ghost predicate Reassembled(head: string, body: string, packets: seq<string>)
    requires packets != []
  {
    && (forall i :: 0 < i < |packets| ==> VerdictAfter(packets[..i]) == INCOMPLETE)
    && VerdictAfter(packets) == COMPLETE
    && After(packets).parser == Parse(FRESH, head + body)
    && After(packets).parser.payload == body
  }

  // ----- Buffers of one message -----------------------------------------------------------

  lemma {:induction false} BufferScan(head: string, body: string, cut: nat)
    requires ScanHeaders(head).end == |head| && cut <= |head + body|
    ensures var buffer := (head + body)[..cut];
            && ScanHeaders(buffer).lines == ScanHeaders(Visible(head, cut)).lines
            && ScanHeaders(buffer).end == if cut < |head| then -1 else |head|
  {
    var buffer := (head + body)[..cut];
    if cut < |head| {
      assert buffer == head[..cut];
      ScanFindsFirstBlankLine(head, |head|);
      ScanFindsFirstBlankLine(buffer, -1);
      assert forall d :: BlankLineEndsAt(buffer, d) ==> BlankLineEndsAt(head, d);
    } else {
      assert buffer == head + body[..cut - |head|];
      ScanStable(head, body[..cut - |head|]);
    }
  }

  lemma VisibleTruncates(head: string, c: nat, d: nat)
    requires c <= d
    ensures Truncates(FieldLines(Visible(head, c)), FieldLines(Visible(head, d)))
  {
    var m := Visible(head, d);
    var k := if c < |m| then c else |m|;
    assert Visible(head, c) == m[..k];
    FieldLinesTruncate(m, k);
  }

  lemma {:induction false} ConcatTake(packets: seq<string>, i: nat)
    requires i <= |packets|
    ensures Concat(packets[..i]) <= Concat(packets)
    ensures NonEmptyPackets(packets) && i < |packets| ==> |Concat(packets[..i])| < |Concat(packets)|
    decreases |packets|
  {
    if i < |packets| {
      var init := packets[..|packets| - 1];
      assert packets[..i] == init[..i];
      ConcatTake(init, i);
    } else {
      assert packets[..i] == packets;
    }
  }

  /** `packets` carry a prefix of `head + body`. */
  ghost predicate Carries(head: string, body: string, packets: seq<string>) {
    && ScanHeaders(head).end == |head|
    && NonEmptyPackets(packets)
    && Concat(packets) <= head + body
  }

  /** The value of `k` visible after the last packet. */
  ghost function Seen(head: string, packets: seq<string>, k: string): Option<string> {
    FirstField(FieldLines(Visible(head, |Concat(packets)|)), k)
  }

  lemma LastBuffer(head: string, body: string, packets: seq<string>, k: string)
    requires Carries(head, body, packets) && packets != []
    ensures FirstField(FieldLines(Buffers(packets)[|packets| - 1]), k) == Seen(head, packets, k)
    ensures FirstOver(Buffers(packets), k) ==
            var earlier := FirstOver(Buffers(packets[..|packets| - 1]), k);
            if earlier.Some? then earlier else Seen(head, packets, k)
    ensures Carries(head, body, packets[..|packets| - 1])
  {
    var init := packets[..|packets| - 1];
    var buffer := Concat(packets);
    assert buffer == (head + body)[..|buffer|];
    BufferScan(head, body, |buffer|);
    assert Buffers(packets)[..|packets| - 1] == Buffers(init);
    assert Concat(init) <= buffer;
  }

  /** The header map holds a name exactly when it is visible now, and if it holds the right
      value then the right value is visible now. */
  lemma {:induction false} MapFollowsView(head: string, body: string, packets: seq<string>, k: string)
    requires Carries(head, body, packets) && packets != []
    ensures var held, right := FirstOver(Buffers(packets), k), FirstField(FieldLines(head), k);
            && held.Some? == Seen(head, packets, k).Some?
            && (held.Some? && held == right ==> Seen(head, packets, k) == right)
    decreases |packets|
  {
    LastBuffer(head, body, packets, k);
    var init := packets[..|packets| - 1];
    if init != [] {
      MapFollowsView(head, body, init, k);
      if Seen(head, init, k).Some? {
        var c, d := |Concat(init)|, |Concat(packets)|;
        VisibleTruncates(head, c, d);
        VisibleTruncates(head, c, |head| + d);
        VisibleTruncates(head, d, |head| + d);
        GrowingKeeps(FieldLines(Visible(head, c)), FieldLines(Visible(head, d)), FieldLines(head), k);
      }
    }
  }

  /** If no cut was harmful, the map only holds right values. */
  lemma {:induction false} SafeCutsKeepValues(head: string, body: string, packets: seq<string>, k: string)
    requires Carries(head, body, packets) && packets != [] && k != METHOD && CleanCuts(head, packets)
    ensures FirstOver(Buffers(packets), k).Some? ==>
            FirstOver(Buffers(packets), k) == FirstField(FieldLines(head), k)
    decreases |packets|
  {
    LastBuffer(head, body, packets, k);
    var init := packets[..|packets| - 1];
    if init != [] {
      CleanCutsTake(head, packets, |packets| - 1);
      SafeCutsKeepValues(head, body, init, k);
    }
    assert packets[..|packets|] == packets;
    CleanCutAgrees(head, |Concat(packets)|, k);
  }

  lemma CleanCutsTake(head: string, packets: seq<string>, n: nat)
    requires CleanCuts(head, packets) && n <= |packets|
    ensures CleanCuts(head, packets[..n])
  {
    assert forall i :: 0 < i <= n ==> packets[..n][..i] == packets[..i];
  }

  lemma {:induction false} CleanCutAgrees(head: string, cut: nat, k: string)
    requires CleanCut(head, cut) && k != METHOD
    ensures var seen := FirstField(FieldLines(Visible(head, cut)), k);
            seen.Some? ==> seen == FirstField(FieldLines(head), k)
  {
    VisibleTruncates(head, cut, |head| + cut);
    CleanTailMeansAgreement(FieldLines(Visible(head, cut)), FieldLines(head));
  }

  /** First wins: what an earlier buffer declared is never replaced. */
  lemma {:induction false} FirstOverKeeps(packets: seq<string>, i: nat, k: string)
    requires i <= |packets|
    ensures FirstOver(Buffers(packets[..i]), k).Some? ==>
            FirstOver(Buffers(packets), k) == FirstOver(Buffers(packets[..i]), k)
    decreases |packets|
  {
    if i < |packets| {
      var init := packets[..|packets| - 1];
      assert init[..i] == packets[..i];
      FirstOverKeeps(init, i, k);
      assert Buffers(packets)[..|packets| - 1] == Buffers(init);
    } else {
      assert packets[..i] == packets;
    }
  }

  // ----- The verdict after some packets ---------------------------------------------------

  lemma {:induction false} LastParse(inputs: seq<string>)
    requires inputs != [] && inputs[|inputs| - 1] != ""
    ensures ParseAll(inputs).headerSize == ScanHeaders(inputs[|inputs| - 1]).end
    ensures ScanHeaders(inputs[|inputs| - 1]).end != -1 ==>
      ParseAll(inputs).payload == inputs[|inputs| - 1][ScanHeaders(inputs[|inputs| - 1]).end..]
  {
  }

  lemma {:induction false} VerdictFollowsMap(head: string, body: string, packets: seq<string>)
    requires Carries(head, body, packets) && packets != []
    requires |head| + |body| < SIZE_LIMIT - 1
    ensures var held := FirstOver(Buffers(packets), CONTENT_LENGTH);
            var size := |Concat(packets)|;
            VerdictAfter(packets) ==
            if held.None? then COMPLETE
            else if Stoul(held.value).None? then Failed
            else if size < |head| || Stoul(held.value).value > size - |head| then INCOMPLETE
            else COMPLETE
  {
    AfterPackets(packets);
    var buffer := Concat(packets);
    assert buffer == (head + body)[..|buffer|];
    BufferScan(head, body, |buffer|);
    ConcatTake(packets, 0);
    assert packets[..0] == [];
    LastParse(Buffers(packets));
    HeadersAfterManyParses(Buffers(packets), CONTENT_LENGTH);
    DecideByMap(ParseAll(Buffers(packets)), |buffer|);
  }

  lemma DecideByMap(p: Parser, size: nat)
    requires -1 <= p.headerSize && size < SIZE_LIMIT - 1
    ensures Decide(p, size) ==
            var held := Lookup(p.headers, CONTENT_LENGTH);
            if held.None? then COMPLETE
            else if Stoul(held.value).None? then Failed
            else if p.headerSize == -1 || size < p.headerSize || Stoul(held.value).value > size - p.headerSize
            then INCOMPLETE
            else COMPLETE
  {
    if HeaderSize(p) <= size {
      GuardedSubtraction(p, size);
    }
  }

  /** The first line, as far as it is visible after `cut` bytes. */
  function FirstLineSeen(head: string, cut: nat): Option<string> {
    var lines := ScanHeaders(Visible(head, cut)).lines;
    if lines == [] then None else Some(Trim(lines[0]))
  }

  /** The "method" entry is the first line as far as it is visible. */
  lemma {:induction false} FirstLineFollowsView(head: string, body: string, packets: seq<string>)
    requires Carries(head, body, packets)
    ensures LastFirstLine(Buffers(packets)) == FirstLineSeen(head, |Concat(packets)|)
    decreases |packets|
  {
    var c := |Concat(packets)|;
    if packets == [] {
      assert Visible(head, 0) == "" || head == "";
    } else {
      var init := packets[..|packets| - 1];
      assert Concat(packets) == (head + body)[..c];
      BufferScan(head, body, c);
      assert Buffers(packets)[..|packets| - 1] == Buffers(init);
      assert Concat(init) <= Concat(packets);
      FirstLineFollowsView(head, body, init);
      if ScanHeaders(Visible(head, c)).lines == [] {
        NoLinesBefore(head, |Concat(init)|, c);
      }
    }
  }

  lemma NoLinesBefore(head: string, c: nat, d: nat)
    requires c <= d && ScanHeaders(Visible(head, d)).lines == []
    ensures ScanHeaders(Visible(head, c)).lines == []
  {
    var m := Visible(head, d);
    var k := if c < |m| then c else |m|;
    assert Visible(head, c) == m[..k];
    ScanTruncates(m, k);
  }

  // ----- Reassembly -----------------------------------------------------------------------

  lemma {:induction false} OneParse(head: string, body: string, k: string)
    requires ScanHeaders(head).end == |head|
    ensures var p := Parse(FRESH, head + body);
      && p.headerSize == |head| && p.payload == body
      && Lookup(p.headers, k) ==
         if k != METHOD then FirstField(FieldLines(head), k)
         else if ScanHeaders(head).lines == [] then None
         else Some(Trim(ScanHeaders(head).lines[0]))
  {
    ScanStable(head, body);
    ParseLookup(FRESH, head + body, k);
  }

  lemma {:induction false} SafeCutsReassemble(head: string, body: string, packets: seq<string>)
    requires Message(head, body) && NonEmptyPackets(packets) && packets != []
    requires Concat(packets) == head + body
    requires forall i :: 0 < i < |packets| ==> SafeCut(head, |Concat(packets[..i])|)
    ensures Reassembled(head, body, packets)
  {
    CleanCutsComplete(head, body, packets);
    forall i | 0 < i < |packets|
      ensures VerdictAfter(packets[..i]) == INCOMPLETE
    {
      CleanCutVerdict(head, body, packets, i);
    }
  }

  /** After clean cuts the session waits if Content-Length is visible, and calls the request
      complete if it is not. */
  lemma {:induction false} CleanCutVerdict(head: string, body: string, packets: seq<string>, i: nat)
    requires Message(head, body) && NonEmptyPackets(packets) && 0 < i < |packets|
    requires Concat(packets) == head + body && CleanCuts(head, packets)
    ensures VerdictAfter(packets[..i]) ==
            if FirstField(FieldLines(Visible(head, |Concat(packets[..i])|)), CONTENT_LENGTH).Some?
            then INCOMPLETE else COMPLETE
  {
    var some := packets[..i];
    ConcatTake(packets, i);
    CleanCutsTake(head, packets, i);
    SafeCutsKeepValues(head, body, some, CONTENT_LENGTH);
    MapFollowsView(head, body, some, CONTENT_LENGTH);
    VerdictFollowsMap(head, body, some);
  }

  lemma {:induction false} CleanCutsComplete(head: string, body: string, packets: seq<string>)
    requires Message(head, body) && NonEmptyPackets(packets) && packets != []
    requires Concat(packets) == head + body
    requires forall i :: 0 < i < |packets| ==> CleanCut(head, |Concat(packets[..i])|)
    ensures CleanCuts(head, packets) && VerdictAfter(packets) == COMPLETE
    ensures After(packets).parser == Parse(FRESH, head + body)
    ensures After(packets).parser.payload == body
  {
    var whole := FieldLines(head);
    assert packets[..|packets|] == packets;
    assert CleanTail(whole, whole);
    assert CleanCuts(head, packets);
    SafeCutsKeepValues(head, body, packets, CONTENT_LENGTH);
    MapFollowsView(head, body, packets, CONTENT_LENGTH);
    VerdictFollowsMap(head, body, packets);
    FinalHeaders(head, body, packets);
  }

  lemma {:induction false} FinalHeaders(head: string, body: string, packets: seq<string>)
    requires Carries(head, body, packets) && packets != [] && Concat(packets) == head + body
    requires CleanCuts(head, packets)
    ensures After(packets).parser == Parse(FRESH, head + body)
    ensures After(packets).parser.payload == body
  {
    AfterPackets(packets);
    var inputs := Buffers(packets);
    forall k
      ensures Lookup(ParseAll(inputs).headers, k) == Lookup(Parse(FRESH, head + body).headers, k)
    {
      HeadersAfterManyParses(inputs, k);
      OneParse(head, body, k);
      if k == METHOD {
        FirstLineFollowsView(head, body, packets);
        assert Visible(head, |head + body|) == head;
      } else {
        SafeCutsKeepValues(head, body, packets, k);
        MapFollowsView(head, body, packets, k);
      }
    }
    SameLookups(ParseAll(inputs).headers, Parse(FRESH, head + body).headers);
    OneParse(head, body, METHOD);
    LastParse(inputs);
    ScanStable(head, body);
  }

  /** If the header map ends up right, every cut was clean. */
  lemma {:induction false} RightHeadersNeedCleanCut(head: string, body: string, packets: seq<string>, i: nat)
    requires Message(head, body) && NonEmptyPackets(packets) && 0 < i < |packets|
    requires Concat(packets) == head + body
    requires After(packets).parser.headers == Parse(FRESH, head + body).headers
    ensures CleanCut(head, |Concat(packets[..i])|)
  {
    var some := packets[..i];
    var cut := |Concat(some)|;
    var seen, whole := FieldLines(Visible(head, cut)), FieldLines(head);
    ConcatTake(packets, i);
    VisibleTruncates(head, cut, |head| + cut);
    CleanTailMeansAgreement(seen, whole);
    forall k | k != METHOD && FirstField(seen, k).Some?
      ensures FirstField(seen, k) == FirstField(whole, k)
    {
      MapFollowsView(head, body, some, k);
      FirstOverKeeps(packets, i, k);
      AfterPackets(packets);
      HeadersAfterManyParses(Buffers(packets), k);
      OneParse(head, body, k);
    }
  }

  lemma {:induction false} ReassemblyNeedsSafeCut(head: string, body: string, packets: seq<string>, i: nat)
    requires Message(head, body) && NonEmptyPackets(packets) && 0 < i < |packets|
    requires Concat(packets) == head + body && Reassembled(head, body, packets)
    ensures SafeCut(head, |Concat(packets[..i])|)
  {
    ConcatTake(packets, i);
    VerdictFollowsMap(head, body, packets[..i]);
    MapFollowsView(head, body, packets[..i], CONTENT_LENGTH);
    RightHeadersNeedCleanCut(head, body, packets, i);
  }

  /** A message cut into packets is put together again exactly when every cut is safe. */
  lemma {:induction false} ReassemblyExact(head: string, body: string, packets: seq<string>)
    requires Message(head, body) && NonEmptyPackets(packets) && packets != []
    requires Concat(packets) == head + body
    ensures Reassembled(head, body, packets) <==>
            forall i :: 0 < i < |packets| ==> SafeCut(head, |Concat(packets[..i])|)
  {
    if forall i :: 0 < i < |packets| ==> SafeCut(head, |Concat(packets[..i])|) {
      SafeCutsReassemble(head, body, packets);
    }
    if Reassembled(head, body, packets) {
      forall i | 0 < i < |packets|
        ensures SafeCut(head, |Concat(packets[..i])|)
      {
        ReassemblyNeedsSafeCut(head, body, packets, i);
      }
    }
  }

  // ----- Cuts a sender can rely on --------------------------------------------------------

  /** Whole lines and what follows them are scanned one after the other. */
  lemma {:induction false} ScanWholeLines(s: string, t: string)
    requires s == "" || s[|s| - 1] == LF
    requires ScanHeaders(s).end == -1
    ensures ScanHeaders(s + t).lines == ScanHeaders(s).lines + ScanHeaders(t).lines
    decreases |s|
  {
    if s == "" {
      assert s + t == t;
    } else {
      var line, rest := FirstWholeLine(s, t);
      ScanWholeLines(rest, t);
      JoinLists([line], ScanHeaders(rest).lines, ScanHeaders(t).lines);
    }
  }

  lemma FirstWholeLine(s: string, t: string) returns (line: string, rest: string)
    requires s != "" && s[|s| - 1] == LF && ScanHeaders(s).end == -1
    ensures |rest| < |s| && (rest == "" || rest[|rest| - 1] == LF) && ScanHeaders(rest).end == -1
    ensures ScanHeaders(s).lines == [line] + ScanHeaders(rest).lines
    ensures ScanHeaders(s + t).lines == [line] + ScanHeaders(rest + t).lines
  {
    IndexOfLeast(s, LF, |s| - 1);
    var n := IndexOf(s, LF);
    line, rest := s[..n], s[n + 1..];
    IndexOfExtend(s, LF, t);
    assert (s + t)[..n] == line && (s + t)[n + 1..] == rest + t;
  }

  /** Cutting at the end of a header line, or after the header section, is safe as soon as
      Content-Length has been declared. */
  lemma LineEndsAreSafe(head: string, cut: nat)
    requires |head| <= cut || (cut > 0 && head[cut - 1] == LF)
    requires FirstField(FieldLines(Visible(head, cut)), CONTENT_LENGTH).Some?
    ensures SafeCut(head, cut)
  {
    var seen, whole := FieldLines(Visible(head, cut)), FieldLines(head);
    if cut < |head| {
      WholeLinesStay(head, cut);
    }
    assert seen[|seen| - 1] == whole[|seen| - 1];
  }

  lemma WholeLinesStay(head: string, cut: nat)
    requires 0 < cut <= |head| && head[cut - 1] == LF
    ensures var seen, whole := FieldLines(head[..cut]), FieldLines(head);
            seen != [] ==> |seen| <= |whole| && seen[|seen| - 1] == whole[|seen| - 1]
  {
    var s, t := head[..cut], head[cut..];
    assert head == s + t;
    if ScanHeaders(s).end == -1 {
      ScanWholeLines(s, t);
    } else {
      ScanStable(s, t);
    }
  }

  // ----- The C++ object -------------------------------------------------------------------

  class HttpSession {
    var partialData: string
    const parser: HttpParser

    ghost function View(): Session
      reads this, parser
    {
      Session(partialData, parser.View())
    }

    constructor ()
      ensures View() == NEW_SESSION && fresh(parser)
    {
      partialData := "";
      parser := new HttpParser();
    }

    method HandleIncomingHttpPacket(data: string) returns (state: SessionState)
      modifies this, parser
      ensures View() == Feed(old(View()), data)
      ensures state == Verdict(old(View()), data)
    {
      if data == "" {
        return COMPLETE;
      }
      partialData := partialData + data;
      var _ := parser.ParseInput(partialData);
      var size := parser.GetContentSize();
      match size {
        case Absent => return COMPLETE;
        case Malformed => return Failed;
        case Size(n) =>
          var headerSize := parser.GetHeaderSize();
          if headerSize > |partialData| {
            return INCOMPLETE;
          }
          if n > SizeSub(|partialData|, headerSize) {
            return INCOMPLETE;
          }
          return COMPLETE;
      }
    }
  }
}
