/** Why the packet boundaries matter: a cut inside the Content-Length line can leave a smaller
    number behind, and the first number wins. */
module Truncation {
  import opened Wrappers
  import opened Text
  import opened HttpParsing
  import opened HttpSessions
  import opened Messages

  /** The header section with a first line and one field. */
  function HeadOf(first: string, line: string): string {
    MessageText([first, line], "")
  }

  function FirstPacket(first: string, short: string): string {
    first + (CRLF + short)
  }

  function SecondPacket(last: string, arrived: string): string {
    last + (CRLF + (CRLF + arrived))
  }

  lemma PacketsRejoin(first: string, short: string, last: string, arrived: string)
    ensures FirstPacket(first, short) + SecondPacket(last, arrived) == HeadOf(first, short + last) + arrived
  {
    var line := short + last;
    assert [first, line][1..] == [line] && [line][1..] == [];
    assert MessageText([line], "") == line + (CRLF + (CRLF + ""));
    assert HeadOf(first, line) == first + (CRLF + (line + (CRLF + (CRLF + ""))));
  }

  lemma FirstPacketFields(first: string, short: string, v: string)
    requires OneLine(first) && OneLine(short)
    requires FieldOf(short) == Some(Field(CONTENT_LENGTH, v)) && short != "\r"
    ensures FirstField(FieldLines(FirstPacket(first, short)), CONTENT_LENGTH) == Some(v)
  {
    SplitTerminator(first, short);
    ScanOneLine(first + "\r", short);
    IndexOfAppend(short, LF, "");
    assert short + "" == short && short[..|short|] == short;
    assert FieldLines(FirstPacket(first, short)) == [short];
  }

  lemma FirstBufferWins(p: string, q: string)
    requires FirstField(FieldLines(p), CONTENT_LENGTH).Some?
    ensures FirstOver(Buffers([p, q]), CONTENT_LENGTH) == FirstField(FieldLines(p), CONTENT_LENGTH)
  {
    assert [p][..0] == [] && [p, q][..1] == [p];
    assert Concat([p]) == "" + p == p;
    assert Buffers([p]) == [p];
    FirstOverKeeps([p, q], 1, CONTENT_LENGTH);
  }

  lemma ConcatTwo(p: string, q: string)
    ensures Concat([p, q]) == p + q
  {
    var packets := [p, q];
    assert packets[..|packets| - 1] == [p];
    assert [p][..|[p]| - 1] == [];
    assert Concat([p]) == "" + p == p;
  }

  lemma ConcatThree(p: string, q: string, r: string)
    ensures Concat([p, q, r]) == (p + q) + r && [p, q, r][..2] == [p, q]
  {
    var packets := [p, q, r];
    assert packets[..|packets| - 1] == packets[..2] == [p, q];
    ConcatTwo(p, q);
  }

  /** If the Content-Length line is cut so that what is left reads as a smaller number `k`, the
      session reports the request complete after `k` body bytes and hands those out. */
  lemma ShortLengthWins(first: string, short: string, last: string, v: string, k: nat, body: string)
    requires OneLine(first) && OneLine(short) && short != "\r"
    requires FieldOf(short) == Some(Field(CONTENT_LENGTH, v)) && Stoul(v) == Some(k) && k < |body|
    requires Message(HeadOf(first, short + last), body)
    ensures var head := HeadOf(first, short + last);
            var packets := [FirstPacket(first, short), SecondPacket(last, body[..k]), body[k..]];
            && Concat(packets) == head + body
            && VerdictAfter(packets[..2]) == COMPLETE
            && After(packets[..2]).parser.payload == body[..k]
            && !Reassembled(head, body, packets)
  {
    var head, arrived := HeadOf(first, short + last), body[..k];
    var p, q := FirstPacket(first, short), SecondPacket(last, arrived);
    FirstPacketFields(first, short, v);
    FirstBufferWins(p, q);
    assert p + q == head + arrived by { PacketsRejoin(first, short, last, arrived); }
    assert |q| > 0;
    ConcatTwo(p, q);
    ConcatThree(p, q, body[k..]);
    RestJoins(head, body, k);
    TwoThenRest(head, body, [p, q], [p, q, body[k..]], k);
  }

  lemma RestJoins(head: string, body: string, k: nat)
    requires k <= |body|
    ensures (head + body[..k]) + body[k..] == head + body
  {
  }

  lemma {:induction false} TwoThenRest(head: string, body: string, two: seq<string>, packets: seq<string>, k: nat)
    requires Message(head, body) && k <= |body| && |two| == 2 && NonEmptyPackets(two)
    requires |packets| == 3 && packets[..2] == two && Concat(two) == head + body[..k]
    requires FirstOver(Buffers(two), CONTENT_LENGTH).Some?
    requires Stoul(FirstOver(Buffers(two), CONTENT_LENGTH).value) == Some(k)
    ensures VerdictAfter(packets[..2]) == COMPLETE
    ensures After(packets[..2]).parser.payload == body[..k]
    ensures !Reassembled(head, body, packets)
  {
    TwoPackets(head, body, two, k);
    CompleteTooEarly(head, body, packets, 2);
  }

  lemma CompleteTooEarly(head: string, body: string, packets: seq<string>, i: nat)
    requires 0 < i < |packets| && VerdictAfter(packets[..i]) == COMPLETE
    ensures !Reassembled(head, body, packets)
  {
  }

  lemma {:induction false} TwoPackets(head: string, body: string, two: seq<string>, k: nat)
    requires Message(head, body) && k <= |body| && |two| == 2 && NonEmptyPackets(two)
    requires Concat(two) == head + body[..k]
    requires FirstOver(Buffers(two), CONTENT_LENGTH).Some?
    requires Stoul(FirstOver(Buffers(two), CONTENT_LENGTH).value) == Some(k)
    ensures VerdictAfter(two) == COMPLETE && After(two).parser.payload == body[..k]
  {
    assert head + body[..k] <= head + body;
    VerdictFollowsMap(head, body, two);
    AfterPackets(two);
    LastParse(Buffers(two));
    ScanStable(head, body[..k]);
    assert (head + body[..k])[|head|..] == body[..k];
  }

  lemma {:induction false} LengthHead(first: string, body: string)
    requires OneLine(first)
    requires |HeadOf(first, "Content-Length: " + Decimal(|body|))| + |body| < SIZE_LIMIT - 1
    ensures Message(HeadOf(first, "Content-Length: " + Decimal(|body|)), body)
  {
    var line := "Content-Length: " + Decimal(|body|);
    DecimalLine(|body|);
    DecimalLinePrintable(|body|);
    FoundField([line], CONTENT_LENGTH, Field(CONTENT_LENGTH, Decimal(|body|)));
    assert [first] + [line] == [first, line];
    MessageRead(first, [line], body);
    DecimalRoundTrip(|body|);
  }

  /** This happens to every message of ten or more body bytes when the cut falls before the last
      digit: a tenth of the body is taken for the whole. */
  lemma {:induction false} CutInsideContentLength(first: string, body: string)
    requires OneLine(first) && |body| >= 10
    requires |HeadOf(first, "Content-Length: " + Decimal(|body|))| + |body| < SIZE_LIMIT - 1
    ensures var short := "Content-Length: " + Decimal(|body| / 10);
            var head := HeadOf(first, "Content-Length: " + Decimal(|body|));
            var packets := [FirstPacket(first, short),
                            SecondPacket([Digit(|body| % 10)], body[..|body| / 10]),
                            body[|body| / 10..]];
            && Message(head, body) && Concat(packets) == head + body
            && VerdictAfter(packets[..2]) == COMPLETE
            && After(packets[..2]).parser.payload == body[..|body| / 10]
            && !Reassembled(head, body, packets)
  {
    var k, last := |body| / 10, [Digit(|body| % 10)];
    LengthHead(first, body);
    DecimalLine(k);
    DecimalLinePrintable(k);
    DecimalRoundTrip(k);
    LongLine("Content-Length: ", Decimal(k), last);
    ShortLengthWins(first, "Content-Length: " + Decimal(k), last, Decimal(k), k, body);
  }

  lemma LongLine(prefix: string, digits: string, last: string)
    ensures (prefix + digits) + last == prefix + (digits + last)
  {
  }
}
