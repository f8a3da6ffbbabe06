/** `HttpServer`: one session per port, dispatch of completed requests, replies
    (src/HttpServer.cpp:123-146, 304-337, 390-435). */
module HttpServers {
  import opened Wrappers
  import opened Text
  import opened OrderedMaps
  import opened HttpParsing
  import opened HttpSessions
  import opened Routing
  import opened Messages

  type Port = nat
  type StatusCode = c: nat | c < 0x1_0000

  datatype HandlerResult =
    HandlerResult(reply: string, status: StatusCode, contentType: ReplyContentType, headers: HeaderMap)

  /** A handler gets the endpoint, the payload and the bound parameters. */
  type Handler = (string, string, Params) -> HandlerResult
  type HandlerMap = map<HttpMethod, seq<Entry<Handler>>>

  /** The arguments of one call of `handle_endpoint`. */
  datatype Dispatch = Dispatch(endpoint: string, method_: HttpMethod, headers: Headers, payload: string)

  datatype Outcome = Waiting | MissingEndpoint | MissingType | Threw | Dispatched(d: Dispatch)

  // ----- One packet -----------------------------------------------------------------------

  /** The rest of the handler once a session reports a complete request; `None` is an erased
      session.  A session whose request has no endpoint is kept, with the "method" entry that
      reading the endpoint inserted. */
  function Finish(s: Session): (Option<Session>, Outcome) {
    var p := Touch(s.parser);
    var kept := Some(Session(s.partial, p));
    if EndpointOf(p).None? then (kept, MissingEndpoint)
    else if TypeOf(p).None? then (kept, MissingType)
    else (None, Dispatched(Dispatch(EndpointOf(p).value, TypeOf(p).value, p.headers, p.payload)))
  }

  /** What a packet does to the session of its port. */
  function Receive(s: Session, data: string): (Option<Session>, Outcome) {
    match Verdict(s, data)
    case Failed => (Some(Feed(s, data)), Threw)
    case INCOMPLETE => (Some(Feed(s, data)), Waiting)
    case COMPLETE => Finish(Feed(s, data))
  }

  /** A session is erased exactly when its request is dispatched. */
  lemma ErasedWhenDispatched(s: Session, data: string)
    ensures Receive(s, data).0 == None <==> Receive(s, data).1.Dispatched?
  {
  }

  type Sessions = map<Port, Session>

  lemma SameEntry(ss: Sessions, port: Port)
    requires port in ss
    ensures ss[port := ss[port]] == ss
  {
  }

  function SessionAt(ss: Sessions, port: Port): Session {
    if port in ss then ss[port] else NEW_SESSION
  }

  function Replace(ss: Sessions, port: Port, next: Option<Session>): Sessions {
    match next
    case Some(t) => ss[port := t]
    case None => ss - {port}
  }

  lemma FinishKeeps(ss: Sessions, port: Port)
    requires port in ss
    ensures var s := ss[port];
            var touched := ss[port := s.(parser := Touch(s.parser))];
            Replace(ss, port, Finish(s).0) == if Finish(s).1.Dispatched? then touched - {port} else touched
  {
  }

  function StepSessions(ss: Sessions, port: Port, data: string): Sessions {
    Replace(ss, port, Receive(SessionAt(ss, port), data).0)
  }

  lemma StepCases(ss: Sessions, port: Port, data: string)
    ensures var s := SessionAt(ss, port);
            var fed := ss[port := s][port := Feed(s, data)];
            match Verdict(s, data)
            case COMPLETE =>
              && StepSessions(ss, port, data) == Replace(fed, port, Finish(fed[port]).0)
              && StepOutcome(ss, port, data) == Finish(fed[port]).1
            case INCOMPLETE => StepSessions(ss, port, data) == fed && StepOutcome(ss, port, data) == Waiting
            case Failed => StepSessions(ss, port, data) == fed && StepOutcome(ss, port, data) == Threw
  {
  }

  function StepOutcome(ss: Sessions, port: Port, data: string): Outcome {
    Receive(SessionAt(ss, port), data).1
  }

  // ----- Runs over many ports -------------------------------------------------------------

  datatype Packet = Packet(port: Port, data: string)
  datatype Logged = Logged(port: Port, outcome: Outcome)

  function RunSessions(packets: seq<Packet>): Sessions {
    if packets == [] then map[]
    else
      var last := packets[|packets| - 1];
      StepSessions(RunSessions(packets[..|packets| - 1]), last.port, last.data)
  }

  function RunLog(packets: seq<Packet>): seq<Logged> {
    if packets == [] then []
    else
      var init, last := packets[..|packets| - 1], packets[|packets| - 1];
      RunLog(init) + [Logged(last.port, StepOutcome(RunSessions(init), last.port, last.data))]
  }

  /** The data one port received. */
  function DataOf(packets: seq<Packet>, port: Port): seq<string> {
    if packets == [] then []
    else
      var init, last := packets[..|packets| - 1], packets[|packets| - 1];
      DataOf(init, port) + (if last.port == port then [last.data] else [])
  }

  function OutcomesOf(log: seq<Logged>, port: Port): seq<Outcome> {
    if log == [] then []
    else
      var init, last := log[..|log| - 1], log[|log| - 1];
      OutcomesOf(init, port) + (if last.port == port then [last.outcome] else [])
  }

  /** A port on its own: what remains of its session, and the outcome of each packet. */
  function PortSession(data: seq<string>): Option<Session> {
    if data == [] then None
    else Receive(PortSession(data[..|data| - 1]).GetOr(NEW_SESSION), data[|data| - 1]).0
  }

  function PortOutcomes(data: seq<string>): seq<Outcome> {
    if data == [] then []
    else
      var init := data[..|data| - 1];
      PortOutcomes(init) + [Receive(PortSession(init).GetOr(NEW_SESSION), data[|data| - 1]).1]
  }

  /** However packets interleave, a port's session and outcomes are those of a fresh server that
      is fed that port's packets only. */
  lemma {:induction false} PortsAreIndependent(packets: seq<Packet>, port: Port)
    ensures PortSession(DataOf(packets, port)) ==
            if port in RunSessions(packets) then Some(RunSessions(packets)[port]) else None
    ensures OutcomesOf(RunLog(packets), port) == PortOutcomes(DataOf(packets, port))
  {
    if packets != [] {
      var init, last := packets[..|packets| - 1], packets[|packets| - 1];
      PortsAreIndependent(init, port);
      var log := RunLog(packets);
      assert log[..|log| - 1] == RunLog(init);
      var data := DataOf(packets, port);
      if last.port == port {
        assert data[..|data| - 1] == DataOf(init, port);
      } else {
        assert data == DataOf(init, port);
      }
    }
  }

  /** The packets of a port since its last dispatch. */
  function Backlog(packets: seq<Packet>, port: Port): seq<string> {
    if packets == [] then []
    else
      var init, last := packets[..|packets| - 1], packets[|packets| - 1];
      if last.port != port then Backlog(init, port)
      else if StepOutcome(RunSessions(init), port, last.data).Dispatched? then []
      else Backlog(init, port) + [last.data]
  }

  /** A stored session is a function of its port's packets since the last dispatch, and there is
      one exactly when there are such packets. */
  lemma {:induction false} SessionsHoldTheBacklog(packets: seq<Packet>, port: Port)
    ensures port in RunSessions(packets) <==> Backlog(packets, port) != []
    ensures port in RunSessions(packets) ==> PortSession(Backlog(packets, port)) == Some(RunSessions(packets)[port])
  {
    if packets != [] {
      var init, last := packets[..|packets| - 1], packets[|packets| - 1];
      SessionsHoldTheBacklog(init, port);
      if last.port == port {
        BacklogStep(RunSessions(init), Backlog(init, port), port, last.data);
      }
    }
  }

  lemma {:induction false} BacklogStep(ss: Sessions, backlog: seq<string>, port: Port, data: string)
    requires port in ss <==> backlog != []
    requires port in ss ==> PortSession(backlog) == Some(ss[port])
    ensures var next := StepSessions(ss, port, data);
      if StepOutcome(ss, port, data).Dispatched? then port !in next
      else port in next && PortSession(backlog + [data]) == Some(next[port])
  {
    ErasedWhenDispatched(SessionAt(ss, port), data);
    PortStep(backlog, data);
  }

  // ----- Whole requests -------------------------------------------------------------------

  datatype Request = Request(head: string, body: string, packets: seq<string>)

  /** A message with an endpoint, cut into packets in any way. */
  predicate Sendable(r: Request) {
    && Message(r.head, r.body)
    && EndpointOf(Parse(FRESH, r.head + r.body)).Some?
    && r.packets != [] && NonEmptyPackets(r.packets) && Concat(r.packets) == r.head + r.body
  }

  predicate EndpointVisible(head: string, cut: nat) {
    |SplitOn(FirstLineSeen(head, cut).GetOr(""), ' ')| >= 2
  }

  predicate LengthVisible(head: string, cut: nat) {
    FirstField(FieldLines(Visible(head, cut)), CONTENT_LENGTH).Some?
  }

  /** A cut the server survives: the last visible line is harmless, and the request does not yet
      look complete, either because its length is known or because it has no endpoint so far. */
  predicate HarmlessCut(head: string, cut: nat) {
    CleanCut(head, cut) && (LengthVisible(head, cut) || !EndpointVisible(head, cut))
  }

  predicate Deliverable(r: Request) {
    && Sendable(r)
    && forall i :: 0 < i < |r.packets| ==> HarmlessCut(r.head, |Concat(r.packets[..i])|)
  }

  /** What one parse of the whole request says. */
  function DispatchOf(r: Request): Dispatch {
    var p := Parse(FRESH, r.head + r.body);
    Dispatch(EndpointOf(p).GetOr(""), TypeOf(p).GetOr(UNKNOWN), p.headers, p.payload)
  }

  function AllPackets(rs: seq<Request>): seq<string> {
    if rs == [] then [] else AllPackets(rs[..|rs| - 1]) + rs[|rs| - 1].packets
  }

  function Dispatches(outcomes: seq<Outcome>): seq<Dispatch> {
    if outcomes == [] then []
    else
      var last := outcomes[|outcomes| - 1];
      Dispatches(outcomes[..|outcomes| - 1]) + (if last.Dispatched? then [last.d] else [])
  }

  function Expected(rs: seq<Request>): seq<Dispatch> {
    if rs == [] then [] else Expected(rs[..|rs| - 1]) + [DispatchOf(rs[|rs| - 1])]
  }

  lemma {:induction false} PortStep(data: seq<string>, packet: string)
    ensures var (next, outcome) := Receive(PortSession(data).GetOr(NEW_SESSION), packet);
            && PortSession(data + [packet]) == next
            && PortOutcomes(data + [packet]) == PortOutcomes(data) + [outcome]
            && Dispatches(PortOutcomes(data + [packet])) ==
               Dispatches(PortOutcomes(data)) + (if outcome.Dispatched? then [outcome.d] else [])
  {
    var longer := data + [packet];
    assert longer[..|longer| - 1] == data;
    var outcomes := PortOutcomes(longer);
    assert outcomes[..|outcomes| - 1] == PortOutcomes(data);
  }

  // ----- A request on its way -------------------------------------------------------------

  /** `s` is `t`, or `t` after an accessor looked for a first line and left an empty one. */
  predicate Touched(s: Session, t: Session) {
    s == t || s == t.(parser := Touch(t.parser))
  }

  /** The empty entry changes neither the verdict nor the endpoint, and the next first line
      overwrites it. */
  lemma TouchedFeed(s: Session, t: Session, data: string)
    requires Touched(s, t)
    ensures Touched(Feed(s, data), Feed(t, data))
    ensures Verdict(s, data) == Verdict(t, data)
    ensures EndpointOf(Feed(s, data).parser) == EndpointOf(Feed(t, data).parser)
    ensures EndpointOf(Feed(t, data).parser).Some? ==> Feed(s, data) == Feed(t, data)
  {
    if data != "" {
      TouchedParse(t.parser, t.partial + data);
    }
    EndpointNeedsMethod(Feed(t, data).parser);
  }

  lemma TouchedParse(p: Parser, input: string)
    ensures var q := Parse(p, input);
            Parse(Touch(p), input) == q || Parse(Touch(p), input) == Touch(q)
  {
    var h, lines := p.headers, ScanHeaders(input).lines;
    if lines != [] {
      assert h[METHOD := ""][METHOD := Trim(lines[0])] == h[METHOD := Trim(lines[0])];
    }
  }

  /** An endpoint needs a first line, so there is nothing left for an accessor to insert. */
  lemma EndpointNeedsMethod(p: Parser)
    ensures EndpointOf(p).Some? ==> Touch(p) == p && TypeOf(p).Some?
    ensures EndpointOf(Touch(p)) == EndpointOf(p) && ContentSizeOf(Touch(p)) == ContentSizeOf(p)
  {
    assert SplitOn("", ' ') == [""];
  }

  function PortNow(data: seq<string>): Session {
    PortSession(data).GetOr(NEW_SESSION)
  }

  function ServedCount(data: seq<string>): nat {
    |Dispatches(PortOutcomes(data))|
  }

  lemma SplitRun(before: seq<string>, packets: seq<string>, n: nat)
    requires n <= |packets|
    ensures before + packets[..n] + packets[n..] == before + packets
    ensures n + 1 == |packets| ==> packets[n..] == [packets[n]]
  {
  }

  lemma {:induction false} CountStep(data: seq<string>, packet: string)
    ensures Dispatches(PortOutcomes(data)) <= Dispatches(PortOutcomes(data + [packet]))
    ensures PortSession(data + [packet]) == None ==> ServedCount(data) < ServedCount(data + [packet])
  {
    PortStep(data, packet);
    ErasedWhenDispatched(PortNow(data), packet);
  }

  /** What was dispatched stays dispatched, and a port that ends idle ended with a dispatch. */
  lemma {:induction false} DispatchesGrow(data: seq<string>, more: seq<string>)
    ensures Dispatches(PortOutcomes(data)) <= Dispatches(PortOutcomes(data + more))
    ensures more != [] && PortSession(data + more) == None ==> ServedCount(data) < ServedCount(data + more)
  {
    if more == [] {
      assert data + more == data;
    } else {
      var init, last := more[..|more| - 1], more[|more| - 1];
      DispatchesGrow(data, init);
      CountStep(data + init, last);
      SplitRun(data, more, |init|);
    }
  }

  predicate LooksDone(t: Session, packet: string) {
    Verdict(t, packet) == COMPLETE && EndpointOf(Feed(t, packet).parser).Some?
  }

  lemma ReceiveTouched(s: Session, t: Session, packet: string)
    requires Touched(s, t)
    ensures LooksDone(t, packet) ==>
      Finish(Feed(t, packet)).1.Dispatched? && Receive(s, packet) == (None, Finish(Feed(t, packet)).1)
    ensures !LooksDone(t, packet) ==>
      && !Receive(s, packet).1.Dispatched? && Receive(s, packet).0.Some?
      && Touched(Receive(s, packet).0.value, Feed(t, packet))
  {
    TouchedFeed(s, t, packet);
    EndpointNeedsMethod(Feed(t, packet).parser);
    EndpointNeedsMethod(Feed(s, packet).parser);
  }

  /** One packet at a port whose session is that of `t`. */
  lemma {:induction false} PacketArrives(data: seq<string>, packet: string, t: Session)
    requires Touched(PortNow(data), t)
    ensures var was, now := Dispatches(PortOutcomes(data)), Dispatches(PortOutcomes(data + [packet]));
      if LooksDone(t, packet) then
        && PortSession(data + [packet]) == None
        && Finish(Feed(t, packet)).1.Dispatched? && now == was + [Finish(Feed(t, packet)).1.d]
      else Touched(PortNow(data + [packet]), Feed(t, packet)) && now == was
  {
    PortStep(data, packet);
    ReceiveTouched(PortNow(data), t, packet);
  }

  lemma PacketIsQuiet(data: seq<string>, packet: string, t: Session)
    requires Touched(PortNow(data), t) && ServedCount(data + [packet]) == ServedCount(data)
    ensures Touched(PortNow(data + [packet]), Feed(t, packet))
  {
    PacketArrives(data, packet, t);
  }

  /** Nothing was dispatched while `packets` arrived. */
  predicate Quiet(before: seq<string>, packets: seq<string>) {
    ServedCount(before + packets) == ServedCount(before)
  }

  lemma LastOfPrefix(packets: seq<string>, n: nat)
    requires n < |packets|
    ensures packets[..n + 1] == packets[..n] + [packets[n]]
    ensures n + 1 == |packets| ==> packets == packets[..n] + [packets[n]]
  {
  }

  lemma Rejoin(before: seq<string>, packets: seq<string>, packet: string)
    ensures before + (packets + [packet]) == (before + packets) + [packet]
  {
  }

  lemma {:induction false} AfterOneMore(packets: seq<string>, packet: string)
    ensures After(packets + [packet]) == Feed(After(packets), packet)
    ensures VerdictAfter(packets + [packet]) == Verdict(After(packets), packet)
  {
    var longer := packets + [packet];
    assert longer[..|longer| - 1] == packets;
  }

  lemma {:induction false} QuietBefore(before: seq<string>, packets: seq<string>)
    requires packets != [] && Quiet(before, packets)
    ensures var init, last := packets[..|packets| - 1], packets[|packets| - 1];
            Quiet(before, init) && before + packets == (before + init) + [last]
  {
    var init, last := packets[..|packets| - 1], packets[|packets| - 1];
    LastOfPrefix(packets, |packets| - 1);
    Rejoin(before, init, last);
    CountStep(before + init, last);
    DispatchesGrow(before, init);
  }

  /** While nothing is dispatched, the port keeps the session the packets lead to. */
  lemma {:induction false} QuietFollows(before: seq<string>, packets: seq<string>)
    requires PortSession(before) == None && Quiet(before, packets)
    ensures Touched(PortNow(before + packets), After(packets))
  {
    if packets == [] {
      assert before + packets == before;
    } else {
      var init, last := packets[..|packets| - 1], packets[|packets| - 1];
      QuietBefore(before, packets);
      QuietFollows(before, init);
      PacketIsQuiet(before + init, last, After(init));
    }
  }

  lemma {:induction false} QuietSame(before: seq<string>, packets: seq<string>)
    requires Quiet(before, packets)
    ensures Dispatches(PortOutcomes(before + packets)) == Dispatches(PortOutcomes(before))
  {
    DispatchesGrow(before, packets);
  }

  /** The packet that makes the request look complete is the one that dispatches it. */
  lemma {:induction false} QuietStep(before: seq<string>, packets: seq<string>, packet: string)
    requires PortSession(before) == None && Quiet(before, packets)
    ensures var all := before + (packets + [packet]);
      if LooksDone(After(packets), packet) then
        && PortSession(all) == None
        && Finish(Feed(After(packets), packet)).1.Dispatched?
        && Dispatches(PortOutcomes(all)) ==
           Dispatches(PortOutcomes(before)) + [Finish(Feed(After(packets), packet)).1.d]
      else Quiet(before, packets + [packet])
  {
    QuietSame(before, packets);
    QuietFollows(before, packets);
    Rejoin(before, packets, packet);
    PacketArrives(before + packets, packet, After(packets));
  }

  /** If the last packet of a request is also its first dispatch, it was quiet up to there. */
  lemma {:induction false} OnceMeansQuiet(before: seq<string>, packets: seq<string>, n: nat)
    requires n < |packets| && PortSession(before + packets) == None
    requires ServedCount(before + packets) == ServedCount(before) + 1
    ensures Quiet(before, packets[..n])
  {
    DispatchesGrow(before, packets[..n]);
    DispatchesGrow(before + packets[..n], packets[n..]);
    SplitRun(before, packets, n);
  }

  lemma {:induction false} QuietMeansNotDone(before: seq<string>, packets: seq<string>, packet: string)
    requires PortSession(before) == None && Quiet(before, packets) && Quiet(before, packets + [packet])
    ensures !LooksDone(After(packets), packet)
  {
    QuietStep(before, packets, packet);
  }

  lemma {:induction false} OnceIsNotEarly(before: seq<string>, packets: seq<string>, i: nat)
    requires 0 < i < |packets| && PortSession(before) == None && PortSession(before + packets) == None
    requires ServedCount(before + packets) == ServedCount(before) + 1
    ensures !LooksDone(After(packets[..i - 1]), packets[i - 1])
  {
    OnceMeansQuiet(before, packets, i - 1);
    OnceMeansQuiet(before, packets, i);
    LastOfPrefix(packets, i - 1);
    QuietMeansNotDone(before, packets[..i - 1], packets[i - 1]);
  }

  /** The endpoint the session knows is the one that can be seen in the bytes so far. */
  lemma EndpointFollowsView(r: Request, i: nat)
    requires Sendable(r) && 0 < i <= |r.packets|
    ensures EndpointOf(After(r.packets[..i]).parser).Some? <==> EndpointVisible(r.head, |Concat(r.packets[..i])|)
  {
    var some := r.packets[..i];
    ConcatTake(r.packets, i);
    AfterPackets(some);
    HeadersAfterManyParses(Buffers(some), METHOD);
    FirstLineFollowsView(r.head, r.body, some);
  }

  /** If every cut is clean, the request looks complete early exactly at the harmful cuts. */
  lemma EarlyMeansHarmful(r: Request, i: nat)
    requires Sendable(r) && 0 < i < |r.packets| && CleanCuts(r.head, r.packets)
    ensures LooksDone(After(r.packets[..i - 1]), r.packets[i - 1]) <==>
            !HarmlessCut(r.head, |Concat(r.packets[..i])|)
  {
    EndpointFollowsView(r, i);
    AfterOneMore(r.packets[..i - 1], r.packets[i - 1]);
    LastOfPrefix(r.packets, i - 1);
    CleanCutVerdict(r.head, r.body, r.packets, i);
    assert CleanCut(r.head, |Concat(r.packets[..i])|);
  }

  lemma HarmlessIsNotDone(r: Request, i: nat)
    requires Deliverable(r) && 0 < i < |r.packets| && CleanCuts(r.head, r.packets)
    ensures !LooksDone(After(r.packets[..i - 1]), r.packets[i - 1])
  {
    EarlyMeansHarmful(r, i);
  }

  lemma {:induction false} QuietGoesOn(before: seq<string>, packets: seq<string>, packet: string)
    requires PortSession(before) == None && Quiet(before, packets) && !LooksDone(After(packets), packet)
    ensures Quiet(before, packets + [packet])
  {
    QuietStep(before, packets, packet);
  }

  lemma {:induction false} HarmlessCutsAreQuiet(before: seq<string>, r: Request, n: nat)
    requires Deliverable(r) && PortSession(before) == None
    requires n < |r.packets| && CleanCuts(r.head, r.packets)
    ensures Quiet(before, r.packets[..n])
  {
    if n == 0 {
      assert before + r.packets[..0] == before;
    } else {
      HarmlessCutsAreQuiet(before, r, n - 1);
      HarmlessIsNotDone(r, n);
      OnePacketMore(before, r.packets, n - 1);
    }
  }

  lemma {:induction false} OnePacketMore(before: seq<string>, packets: seq<string>, n: nat)
    requires n < |packets| && PortSession(before) == None && Quiet(before, packets[..n])
    requires !LooksDone(After(packets[..n]), packets[n])
    ensures Quiet(before, packets[..n + 1])
  {
    LastOfPrefix(packets, n);
    QuietGoesOn(before, packets[..n], packets[n]);
  }

  /** The port is idle again and this request was dispatched, once and as if parsed alone. */
  ghost predicate ServedOnce(before: seq<string>, r: Request) {
    && PortSession(before + r.packets) == None
    && Dispatches(PortOutcomes(before + r.packets)) == Dispatches(PortOutcomes(before)) + [DispatchOf(r)]
  }

  lemma FinishWhole(s: Session, r: Request)
    requires Sendable(r) && s.parser == Parse(FRESH, r.head + r.body)
    ensures EndpointOf(s.parser).Some? && Finish(s).1 == Dispatched(DispatchOf(r))
  {
    EndpointNeedsMethod(s.parser);
  }

  /** The last packet completes the request, so it dispatches it. */
  lemma {:induction false} LastPacketServes(before: seq<string>, packets: seq<string>, n: nat, d: Dispatch)
    requires |packets| == n + 1 && PortSession(before) == None && Quiet(before, packets[..n])
    requires VerdictAfter(packets) == COMPLETE && EndpointOf(After(packets).parser).Some?
    requires Finish(After(packets)).1 == Dispatched(d)
    ensures PortSession(before + packets) == None
    ensures Dispatches(PortOutcomes(before + packets)) == Dispatches(PortOutcomes(before)) + [d]
  {
    AfterOneMore(packets[..n], packets[n]);
    LastOfPrefix(packets, n);
    QuietStep(before, packets[..n], packets[n]);
  }

  lemma {:induction false} DeliverableIsDone(r: Request)
    requires Deliverable(r)
    ensures CleanCuts(r.head, r.packets) && VerdictAfter(r.packets) == COMPLETE
    ensures EndpointOf(After(r.packets).parser).Some?
    ensures Finish(After(r.packets)).1 == Dispatched(DispatchOf(r))
  {
    CleanCutsComplete(r.head, r.body, r.packets);
    FinishWhole(After(r.packets), r);
  }

  lemma {:induction false} RequestCompletes(before: seq<string>, r: Request)
    requires Deliverable(r) && PortSession(before) == None
    ensures ServedOnce(before, r)
  {
    DeliverableIsDone(r);
    HarmlessCutsAreQuiet(before, r, |r.packets| - 1);
    LastPacketServes(before, r.packets, |r.packets| - 1, DispatchOf(r));
  }

  /** What is dispatched has the headers the session holds by then. */
  lemma {:induction false} ServedHeaders(before: seq<string>, packets: seq<string>, d: Dispatch)
    requires packets != [] && PortSession(before) == None && PortSession(before + packets) == None
    requires Dispatches(PortOutcomes(before + packets)) == Dispatches(PortOutcomes(before)) + [d]
    ensures After(packets).parser.headers == d.headers
  {
    var n := |packets| - 1;
    OnceMeansQuiet(before, packets, n);
    LastOfPrefix(packets, n);
    LastServedHeaders(before, packets[..n], packets[n], d);
  }

  lemma {:induction false} LastServedHeaders(before: seq<string>, init: seq<string>, last: string, d: Dispatch)
    requires PortSession(before) == None && Quiet(before, init)
    requires Dispatches(PortOutcomes(before + (init + [last]))) == Dispatches(PortOutcomes(before)) + [d]
    ensures After(init + [last]).parser.headers == d.headers
  {
    AfterOneMore(init, last);
    QuietStep(before, init, last);
    EndpointNeedsMethod(Feed(After(init), last).parser);
    LastOfSnoc(Dispatches(PortOutcomes(before)), Finish(Feed(After(init), last)).1.d, d);
  }

  lemma LastOfSnoc<T>(s: seq<T>, x: T, y: T)
    requires s + [x] == s + [y]
    ensures x == y
  {
    assert (s + [x])[|s|] == (s + [y])[|s|];
  }

  lemma {:induction false} ServedOnceNeedsHarmlessCuts(before: seq<string>, r: Request)
    requires Sendable(r) && PortSession(before) == None && ServedOnce(before, r)
    ensures Deliverable(r)
  {
    ServedHeaders(before, r.packets, DispatchOf(r));
    forall i | 0 < i < |r.packets|
      ensures CleanCut(r.head, |Concat(r.packets[..i])|)
    {
      RightHeadersNeedCleanCut(r.head, r.body, r.packets, i);
    }
    CleanCutsComplete(r.head, r.body, r.packets);
    forall i | 0 < i < |r.packets|
      ensures HarmlessCut(r.head, |Concat(r.packets[..i])|)
    {
      OnceIsNotEarly(before, r.packets, i);
      EarlyMeansHarmful(r, i);
    }
  }

  /** On an idle port a request is dispatched once, as if parsed alone, and leaves the port idle,
      exactly when every cut is harmless. */
  lemma {:induction false} ServedOnceExact(before: seq<string>, r: Request)
    requires Sendable(r) && PortSession(before) == None
    ensures ServedOnce(before, r) <==> Deliverable(r)
  {
    if Deliverable(r) {
      RequestCompletes(before, r);
    }
    if ServedOnce(before, r) {
      ServedOnceNeedsHarmlessCuts(before, r);
    }
  }

  lemma {:induction false} RequestsInTurn(rs: seq<Request>)
    requires forall i :: 0 <= i < |rs| ==> Deliverable(rs[i])
    ensures PortSession(AllPackets(rs)) == None
    ensures Dispatches(PortOutcomes(AllPackets(rs))) == Expected(rs)
  {
    if rs != [] {
      var init := rs[..|rs| - 1];
      RequestsInTurn(init);
      RequestCompletes(AllPackets(init), rs[|rs| - 1]);
    }
  }

  /** Requests sent in turn on one port, each cut harmlessly, are dispatched exactly once each, in
      order, as if parsed alone, whatever happens on other ports; and nothing is left behind. */
  lemma {:induction false} RequestsAreDispatchedInOrder(packets: seq<Packet>, port: Port, rs: seq<Request>)
    requires forall i :: 0 <= i < |rs| ==> Deliverable(rs[i])
    requires DataOf(packets, port) == AllPackets(rs)
    ensures Dispatches(OutcomesOf(RunLog(packets), port)) == Expected(rs)
    ensures port !in RunSessions(packets)
  {
    PortsAreIndependent(packets, port);
    RequestsInTurn(rs);
  }

  // ----- Packets that do not fit ----------------------------------------------------------

  /** An empty packet (the peer closed) ends the request with what has arrived: it is dispatched if
      it has an endpoint, and the session is kept if it has none. */
  lemma {:induction false} EmptyPacketEndsRequest(data: seq<string>)
    ensures var p := PortNow(data).parser;
      if EndpointOf(p).Some? then
        && PortSession(data + [""]) == None
        && PortOutcomes(data + [""]) == PortOutcomes(data) +
           [Dispatched(Dispatch(EndpointOf(p).value, TypeOf(p).value, p.headers, p.payload))]
      else
        && PortSession(data + [""]).Some? && Touched(PortSession(data + [""]).value, PortNow(data))
        && PortOutcomes(data + [""]) == PortOutcomes(data) + [MissingEndpoint]
  {
    PortStep(data, "");
    EndpointNeedsMethod(PortNow(data).parser);
  }

  /** A Content-Length that is no number. */
  predicate BadLength(s: Session) {
    CONTENT_LENGTH in s.parser.headers && Stoul(s.parser.headers[CONTENT_LENGTH]).None?
  }

  lemma BadLengthStays(s: Session, packet: string)
    requires BadLength(s) && packet != ""
    ensures BadLength(Feed(s, packet)) && Receive(s, packet) == (Some(Feed(s, packet)), Threw)
  {
    ParseLookup(s.parser, s.partial + packet, CONTENT_LENGTH);
    assert Lookup(Feed(s, packet).parser.headers, CONTENT_LENGTH) == Some(s.parser.headers[CONTENT_LENGTH]);
  }

  function Throws(n: nat): seq<Outcome> {
    if n == 0 then [] else Throws(n - 1) + [Threw]
  }

  /** Once such a Content-Length is held every further packet throws, and nothing is dispatched on
      the port again before the peer closes. */
  lemma {:induction false} BadLengthIsStuck(data: seq<string>, more: seq<string>)
    requires PortSession(data).Some? && BadLength(PortNow(data)) && NonEmptyPackets(more)
    ensures PortSession(data + more).Some? && BadLength(PortNow(data + more))
    ensures PortOutcomes(data + more) == PortOutcomes(data) + Throws(|more|)
  {
    if more == [] {
      assert data + more == data;
    } else {
      var init, last := more[..|more| - 1], more[|more| - 1];
      BadLengthIsStuck(data, init);
      BadLengthStep(data + init, last);
      SplitRun(data, more, |init|);
      JoinLists(PortOutcomes(data), Throws(|init|), [Threw]);
    }
  }

  lemma {:induction false} BadLengthStep(data: seq<string>, packet: string)
    requires PortSession(data).Some? && BadLength(PortNow(data)) && packet != ""
    ensures PortSession(data + [packet]).Some? && BadLength(PortNow(data + [packet]))
    ensures PortOutcomes(data + [packet]) == PortOutcomes(data) + [Threw]
  {
    BadLengthStays(PortNow(data), packet);
    PortStep(data, packet);
  }

  // ----- Answering a dispatched request ---------------------------------------------------

  function HandlersFor(handlers: HandlerMap, m: HttpMethod): seq<Entry<Handler>> {
    if m in handlers then handlers[m] else []
  }

  /** Dispatching may add an empty list of handlers, never more. */
  ghost predicate SameHandlers(a: HandlerMap, b: HandlerMap) {
    forall m :: HandlersFor(b, m) == HandlersFor(a, m)
  }

  /** What `handle_endpoint` sends; `None` when the assertion in `split` fails. */
  function ReplyTo(handlers: HandlerMap, env: Environment, d: Dispatch): Option<string> {
    var entries := HandlersFor(handlers, d.method_);
    match RouteFrom(entries, d.endpoint, 0)
    case AssertionFailed => None
    case NotFound => Some(ReplyText(env, 404, "{}", d.headers, [], APPLICATION_JSON))
    case Found(i) =>
      var params := Bind(Segments(entries[i].key), Segments(d.endpoint));
      var result := entries[i].value(d.endpoint, d.payload, params);
      Some(ReplyText(env, result.status, result.reply, d.headers, result.headers, result.contentType))
  }

  // ----- Registered handlers --------------------------------------------------------------

  datatype Registration = Registration(method_: HttpMethod, endpoint: string, func: Handler)

  /** The function registered last for a method under a template. */
  ghost function LastRegistered(regs: seq<Registration>, m: HttpMethod, endpoint: string): Option<Handler> {
    if regs == [] then None
    else
      var last := regs[|regs| - 1];
      if last.method_ == m && last.endpoint == endpoint then Some(last.func)
      else LastRegistered(regs[..|regs| - 1], m, endpoint)
  }

  /** The handler map says what the registrations said, each method's templates in map order. */
  ghost predicate Registered(handlers: HandlerMap, regs: seq<Registration>) {
    forall m :: Sorted(HandlersFor(handlers, m)) && Lists(HandlersFor(handlers, m), regs, m)
  }

  ghost predicate Lists(entries: seq<Entry<Handler>>, regs: seq<Registration>, m: HttpMethod) {
    forall e, f :: Entry(e, f) in entries <==> LastRegistered(regs, m, e) == Some(f)
  }

  lemma {:induction false} LastRegisteredAfter(regs: seq<Registration>, reg: Registration, m: HttpMethod, e: string)
    ensures LastRegistered(regs + [reg], m, e) ==
            if reg.method_ == m && reg.endpoint == e then Some(reg.func) else LastRegistered(regs, m, e)
  {
    assert (regs + [reg])[..|regs|] == regs;
  }

  lemma {:induction false} PutLists(entries: seq<Entry<Handler>>, regs: seq<Registration>, reg: Registration)
    requires Sorted(entries) && Lists(entries, regs, reg.method_)
    ensures Sorted(Put(entries, reg.endpoint, reg.func))
    ensures Lists(Put(entries, reg.endpoint, reg.func), regs + [reg], reg.method_)
  {
    PutKeepsOrder(entries, reg.endpoint, reg.func);
    var r := Put(entries, reg.endpoint, reg.func);
    forall e: string, f: Handler
      ensures Entry(e, f) in r <==> LastRegistered(regs + [reg], reg.method_, e) == Some(f)
    {
      LastRegisteredAfter(regs, reg, reg.method_, e);
    }
  }

  /** `m_handler_map[method][endpoint] = func`. */
  function Register(handlers: HandlerMap, m: HttpMethod, endpoint: string, func: Handler): HandlerMap {
    handlers[m := Put(HandlersFor(handlers, m), endpoint, func)]
  }

  lemma {:induction false} RegisterKeeps(handlers: HandlerMap, regs: seq<Registration>, reg: Registration)
    requires Registered(handlers, regs)
    ensures Registered(Register(handlers, reg.method_, reg.endpoint, reg.func), regs + [reg])
  {
    var after := Register(handlers, reg.method_, reg.endpoint, reg.func);
    forall m
      ensures Sorted(HandlersFor(after, m)) && Lists(HandlersFor(after, m), regs + [reg], m)
    {
      assert Sorted(HandlersFor(handlers, m)) && Lists(HandlersFor(handlers, m), regs, m);
      if m == reg.method_ {
        PutLists(HandlersFor(handlers, m), regs, reg);
      } else {
        forall e: string, f: Handler
          ensures Entry(e, f) in HandlersFor(after, m) <==> LastRegistered(regs + [reg], m, e) == Some(f)
        {
          LastRegisteredAfter(regs, reg, m, e);
        }
      }
    }
  }

  lemma NothingRegistered()
    ensures Registered(map[], [])
  {
  }

  /** Looking methods up changes nothing that was registered. */
  lemma StillRegistered(before: HandlerMap, after: HandlerMap, regs: seq<Registration>)
    requires Registered(before, regs) && SameHandlers(before, after)
    ensures Registered(after, regs)
  {
  }

  /** The least template in byte order that is registered for the method and matches the path. */
  ghost predicate Chosen(regs: seq<Registration>, m: HttpMethod, path: string, e: string) {
    && LastRegistered(regs, m, e).Some? && MatchesPath(e, path)
    && forall f :: LastRegistered(regs, m, f).Some? && MatchesPath(f, path) ==> f == e || Less(e, f)
  }

  ghost predicate NoneMatches(regs: seq<Registration>, m: HttpMethod, path: string) {
    forall e :: LastRegistered(regs, m, e).Some? ==> !MatchesPath(e, path)
  }

  ghost predicate AllRegisteredRooted(regs: seq<Registration>, m: HttpMethod) {
    forall e :: LastRegistered(regs, m, e).Some? ==> Rooted(e)
  }

  /** A registered handler is called with the path, the payload and the values the path has for its
      template, and its result is printed; without one the reply is 404 with an empty object. */
  ghost predicate RightReply(regs: seq<Registration>, env: Environment, d: Dispatch, reply: Option<string>) {
    && (forall e :: Chosen(regs, d.method_, d.endpoint, e) ==>
          var result := LastRegistered(regs, d.method_, e).value(
                          d.endpoint, d.payload, Bind(Segments(e), Segments(d.endpoint)));
          reply == Some(ReplyText(env, result.status, result.reply, d.headers, result.headers,
                                  result.contentType)))
    && (NoneMatches(regs, d.method_, d.endpoint) ==>
          reply == Some(ReplyText(env, 404, "{}", d.headers, [], APPLICATION_JSON)))
    && (NoneMatches(regs, d.method_, d.endpoint) || exists e :: Chosen(regs, d.method_, d.endpoint, e))
  }

  lemma {:induction false} ListedIsRegistered(entries: seq<Entry<Handler>>, regs: seq<Registration>, m: HttpMethod)
    requires Lists(entries, regs, m)
    ensures forall i :: 0 <= i < |entries| ==> LastRegistered(regs, m, entries[i].key) == Some(entries[i].value)
  {
    forall i | 0 <= i < |entries|
      ensures LastRegistered(regs, m, entries[i].key) == Some(entries[i].value)
    {
      assert Entry(entries[i].key, entries[i].value) == entries[i];
      assert entries[i] in entries;
    }
  }

  lemma RegisteredIsListed(entries: seq<Entry<Handler>>, regs: seq<Registration>, m: HttpMethod, e: string)
      returns (i: nat)
    requires Lists(entries, regs, m) && LastRegistered(regs, m, e).Some?
    ensures i < |entries| && entries[i].key == e
  {
    assert Entry(e, LastRegistered(regs, m, e).value) in entries;
    i :| i < |entries| && entries[i].key == e;
  }

  /** The first match in the list is the chosen template. */
  lemma {:induction false} FoundIsChosen(entries: seq<Entry<Handler>>, regs: seq<Registration>, m: HttpMethod,
                                         path: string)
    requires Sorted(entries) && Lists(entries, regs, m) && AllRooted(entries) && Rooted(path)
    ensures var r := RouteFrom(entries, path, 0);
            match r
            case Found(i) => i < |entries| && Chosen(regs, m, path, entries[i].key)
            case NotFound => NoneMatches(regs, m, path)
            case AssertionFailed => false
  {
    RouteIsLeast(entries, path, 0);
    ListedIsRegistered(entries, regs, m);
    var r := RouteFrom(entries, path, 0);
    forall f | LastRegistered(regs, m, f).Some? && MatchesPath(f, path)
      ensures r.Found? && (f == entries[r.index].key || Less(entries[r.index].key, f))
    {
      var k := RegisteredIsListed(entries, regs, m, f);
      assert MatchesPath(entries[k].key, path);
    }
  }

  lemma ChosenIsUnique(regs: seq<Registration>, m: HttpMethod, path: string, a: string, b: string)
    requires Chosen(regs, m, path, a) && Chosen(regs, m, path, b)
    ensures a == b
  {
    if a != b {
      LessTransitive(a, b, a);
      LessIrreflexive(a);
    }
  }

  /** Whatever was registered before, for this method or for others, a request is answered by the
      function last registered for its method under the least matching template. */
  lemma RegisteredHandlerAnswers(handlers: HandlerMap, regs: seq<Registration>, env: Environment, d: Dispatch)
    requires Registered(handlers, regs)
    requires Rooted(d.endpoint) && AllRegisteredRooted(regs, d.method_)
    ensures RightReply(regs, env, d, ReplyTo(handlers, env, d))
  {
    var entries := HandlersFor(handlers, d.method_);
    ListedIsRegistered(entries, regs, d.method_);
    assert AllRooted(entries);
    FoundIsChosen(entries, regs, d.method_, d.endpoint);
    var r := RouteFrom(entries, d.endpoint, 0);
    forall e | Chosen(regs, d.method_, d.endpoint, e)
      ensures r.Found? && e == entries[r.index].key
    {
      if r.Found? {
        ChosenIsUnique(regs, d.method_, d.endpoint, e, entries[r.index].key);
      }
    }
  }

  // ----- The C++ object -------------------------------------------------------------------

  /** The session objects and the parsers they own. */
  ghost function ObjectsOf(sessions: map<Port, HttpSession>): set<object> {
    (set p | p in sessions.Keys :: sessions[p] as object)
    + (set p | p in sessions.Keys :: sessions[p].parser as object)
  }

  lemma ObjectsAdded(sessions: map<Port, HttpSession>, port: Port, created: HttpSession)
    requires port !in sessions
    ensures ObjectsOf(sessions[port := created]) == ObjectsOf(sessions) + {created, created.parser}
  {
    var more := sessions[port := created];
    assert created == more[port];
    assert forall p :: p in sessions ==> p in more && more[p] == sessions[p];
  }

  lemma NotAmongObjects(sessions: map<Port, HttpSession>, created: HttpSession)
    requires created !in ObjectsOf(sessions) && created.parser !in ObjectsOf(sessions)
    ensures forall p :: p in sessions ==> sessions[p] != created && sessions[p].parser != created.parser
  {
  }

  class HttpServer {
    const env: Environment
    var handlerMap: HandlerMap
    var activeSessions: map<Port, HttpSession>
    /** Everything registered so far. */
    ghost var registrations: seq<Registration>

    ghost function Objects(): set<object>
      reads this`activeSessions
    {
      ObjectsOf(activeSessions)
    }

    /** Ports do not share sessions, and every registered list of templates is in map order. */
    ghost predicate Valid()
      reads this
    {
      && (forall m :: m in handlerMap ==> Sorted(handlerMap[m]))
      && forall p, q :: p in activeSessions && q in activeSessions && p != q ==>
           activeSessions[p] != activeSessions[q] && activeSessions[p].parser != activeSessions[q].parser
    }

    /** The handler map holds what has been registered. */
    ghost predicate HandlersRegistered()
      reads this`handlerMap, this`registrations
    {
      Registered(handlerMap, registrations)
    }

    ghost function View(): Sessions
      reads this`activeSessions, Objects()
    {
      map p | p in activeSessions :: activeSessions[p].View()
    }

    constructor (env: Environment)
      ensures Valid() && View() == map[] && handlerMap == map[] && this.env == env
      ensures registrations == [] && HandlersRegistered()
    {
      this.env := env;
      handlerMap := map[];
      activeSessions := map[];
      registrations := [];
      NothingRegistered();
    }

    /** `m_handler_map[method][endpoint] = func`: a later registration replaces an earlier one. */
    method RegisterEndpointHandler(endpoint: string, m: HttpMethod, func: Handler)
      requires Valid() && HandlersRegistered()
      modifies `handlerMap, `registrations
      ensures Valid() && HandlersRegistered()
      ensures registrations == old(registrations) + [Registration(m, endpoint, func)]
      ensures handlerMap == Register(old(handlerMap), m, endpoint, func)
    {
      var entries := if m in handlerMap then handlerMap[m] else [];
      PutKeepsOrder(entries, endpoint, func);
      RegisterKeeps(handlerMap, registrations, Registration(m, endpoint, func));
      handlerMap := handlerMap[m := Put(entries, endpoint, func)];
      registrations := registrations + [Registration(m, endpoint, func)];
    }

    /** Looking a method up creates its (empty) list of templates. */
    method FindHandler(endpoint: string, m: HttpMethod) returns (route: Route, params: Params)
      requires Valid()
      modifies `handlerMap
      ensures Valid()
      ensures handlerMap == old(handlerMap)[m := HandlersFor(old(handlerMap), m)]
      ensures route == RouteFrom(HandlersFor(old(handlerMap), m), endpoint, 0)
      ensures route.Found? ==>
        params == Bind(Segments(HandlersFor(old(handlerMap), m)[route.index].key), Segments(endpoint))
    {
      if m !in handlerMap {
        handlerMap := handlerMap[m := []];
      }
      route, params := FindInOrder(handlerMap[m], endpoint);
    }

    method HandleEndpoint(d: Dispatch) returns (reply: Option<string>)
      requires Valid()
      modifies `handlerMap
      ensures Valid()
      ensures SameHandlers(old(handlerMap), handlerMap)
      ensures reply == ReplyTo(old(handlerMap), env, d)
    {
      var route, params := FindHandler(d.endpoint, d.method_);
      match route {
        case AssertionFailed =>
          reply := None;
        case Found(i) =>
          var handler := handlerMap[d.method_][i].value;
          var ret := handler(d.endpoint, d.payload, params);
          var text := CreateReplyString(env, ret.status, ret.reply, d.headers, ret.headers, ret.contentType);
          reply := Some(text);
        case NotFound =>
          var text := CreateReplyString(env, 404, "{}", d.headers, [], APPLICATION_JSON);
          reply := Some(text);
      }
    }

    /** Reads endpoint and type off a complete session. */
    static method ReadRequest(session: HttpSession) returns (outcome: Outcome)
      modifies session.parser
      ensures outcome == Finish(old(session.View())).1
      ensures session.View() == old(session.View()).(parser := Touch(old(session.View()).parser))
    {
      var endpoint := session.parser.GetEndpoint();
      if endpoint.None? {
        return MissingEndpoint;
      }
      var kind := session.parser.GetType();
      if kind.None? {
        return MissingType;
      }
      outcome := Dispatched(Dispatch(endpoint.value, kind.value, session.parser.headers, session.parser.payload));
    }

    twostate lemma SameView()
      requires activeSessions == old(activeSessions)
      requires forall p :: p in activeSessions ==> unchanged(activeSessions[p]) && unchanged(activeSessions[p].parser)
      ensures View() == old(View())
    {
    }

    /** `handle_endpoint` leaves the sessions alone. */
    method Answer(d: Dispatch) returns (reply: Option<string>)
      requires Valid()
      modifies `handlerMap
      ensures Valid() && View() == old(View()) && Objects() == old(Objects())
      ensures SameHandlers(old(handlerMap), handlerMap)
      ensures reply == ReplyTo(old(handlerMap), env, d)
    {
      reply := HandleEndpoint(d);
      SameView();
    }

    method ReadRequestOf(port: Port) returns (outcome: Outcome)
      requires Valid() && port in activeSessions
      modifies activeSessions[port].parser
      ensures Valid() && Objects() == old(Objects())
      ensures outcome == Finish(old(View())[port]).1
      ensures View() == old(View())[port := old(View())[port].(parser := Touch(old(View())[port].parser))]
    {
      var session := activeSessions[port];
      assert session.View() == View()[port];
      outcome := ReadRequest(session);
    }

    /** The part of the handler that runs when the session of `port` is complete. */
    method FinishRequest(port: Port) returns (outcome: Outcome, reply: Option<string>)
      requires Valid() && port in activeSessions
      modifies `handlerMap, `activeSessions, activeSessions[port].parser
      ensures Valid() && Objects() <= old(Objects())
      ensures outcome == Finish(old(View())[port]).1
      ensures View() == Replace(old(View()), port, Finish(old(View())[port]).0)
      ensures reply == if outcome.Dispatched? then ReplyTo(old(handlerMap), env, outcome.d) else None
      ensures SameHandlers(old(handlerMap), handlerMap)
    {
      reply := None;
      ghost var before := View();
      FinishKeeps(before, port);
      outcome := ReadRequestOf(port);
      if outcome.Dispatched? {
        reply := Answer(outcome.d);
        EraseSession(port);
      }
    }

    method EraseSession(port: Port)
      requires Valid()
      modifies `activeSessions
      ensures Valid() && Objects() <= old(Objects())
      ensures View() == old(View()) - {port}
    {
      activeSessions := activeSessions - {port};
    }

    /** Makes sure `port` has a session. */
    method EnsureSession(port: Port)
      requires Valid()
      modifies `activeSessions
      ensures Valid() && fresh(Objects() - old(Objects())) && port in activeSessions
      ensures View() == old(View())[port := SessionAt(old(View()), port)]
    {
      if port !in activeSessions {
        AddSession(port);
      } else {
        SameEntry(View(), port);
      }
    }

    method AddSession(port: Port)
      requires Valid() && port !in activeSessions
      modifies `activeSessions
      ensures Valid() && fresh(Objects() - old(Objects())) && port in activeSessions
      ensures View() == old(View())[port := NEW_SESSION]
    {
      var created := new HttpSession();
      PutSession(port, created);
    }

    method PutSession(port: Port, created: HttpSession)
      requires Valid() && port !in activeSessions && created !in Objects() && created.parser !in Objects()
      modifies `activeSessions
      ensures Valid() && port in activeSessions && Objects() == old(Objects()) + {created, created.parser}
      ensures View() == old(View())[port := created.View()]
    {
      ObjectsAdded(activeSessions, port, created);
      NotAmongObjects(activeSessions, created);
      activeSessions := activeSessions[port := created];
    }

    /** Hands a packet to the session of `port`. */
    method FeedSession(port: Port, data: string) returns (state: SessionState)
      requires Valid() && port in activeSessions
      modifies activeSessions[port], activeSessions[port].parser
      ensures Valid() && Objects() == old(Objects())
      ensures View() == old(View())[port := Feed(old(View())[port], data)]
      ensures state == Verdict(old(View())[port], data)
    {
      var session := activeSessions[port];
      assert session.View() == View()[port];
      state := session.HandleIncomingHttpPacket(data);
    }

    /** One received packet: the reply is what is sent on the packet's socket, if anything. */
    method HandleIncomingHttpPacket(port: Port, data: string) returns (outcome: Outcome, reply: Option<string>)
      requires Valid() && HandlersRegistered()
      modifies `handlerMap, `activeSessions, Objects()
      ensures Valid() && fresh(Objects() - old(Objects())) && HandlersRegistered()
      ensures View() == StepSessions(old(View()), port, data)
      ensures outcome == StepOutcome(old(View()), port, data)
      ensures reply == if outcome.Dispatched? then ReplyTo(old(handlerMap), env, outcome.d) else None
      ensures outcome.Dispatched? && Rooted(outcome.d.endpoint) &&
              AllRegisteredRooted(registrations, outcome.d.method_) ==>
                RightReply(registrations, env, outcome.d, reply)
    {
      ghost var handlers := handlerMap;
      outcome, reply := ReceivePacket(port, data);
      StillRegistered(handlers, handlerMap, registrations);
      if outcome.Dispatched? && Rooted(outcome.d.endpoint) && AllRegisteredRooted(registrations, outcome.d.method_) {
        RegisteredHandlerAnswers(handlers, registrations, env, outcome.d);
      }
    }

    /** The session's part of it, and the answer. */
    method ReceivePacket(port: Port, data: string) returns (outcome: Outcome, reply: Option<string>)
      requires Valid()
      modifies `handlerMap, `activeSessions, Objects()
      ensures Valid() && fresh(Objects() - old(Objects()))
      ensures View() == StepSessions(old(View()), port, data)
      ensures outcome == StepOutcome(old(View()), port, data)
      ensures reply == if outcome.Dispatched? then ReplyTo(old(handlerMap), env, outcome.d) else None
      ensures SameHandlers(old(handlerMap), handlerMap)
    {
      reply := None;
      ghost var before := View();
      EnsureSession(port);
      var state := FeedSession(port, data);
      StepCases(before, port, data);
      match state {
        case Failed => return Threw, reply;
        case INCOMPLETE => return Waiting, reply;
        case COMPLETE => outcome, reply := FinishRequest(port);
      }
    }
  }
}
