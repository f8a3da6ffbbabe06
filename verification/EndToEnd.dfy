/** From a client's call to the result its caller gets, through both printers, both parsers,
    reassembly, dispatch and routing. */
module EndToEnd {
  import opened Wrappers
  import opened Text
  import opened OrderedMaps
  import opened HttpParsing
  import opened HttpSessions
  import opened Routing
  import opened Messages
  import opened HttpServers
  import opened ReplyCuts
  import opened ReplyHeaders
  import opened FixedHeaders
  import Pool = ClientPool

  datatype Call = Call(method_: HttpMethod, endpoint: string, payload: string)

  predicate WellFormedCall(c: Call) {
    && Rooted(c.endpoint) && ' ' !in c.endpoint && LF !in c.endpoint
    && |RequestHead(c.method_, c.endpoint, c.payload)| + |c.payload| < SIZE_LIMIT - 1
  }

  function CallText(c: Call): string {
    RequestText(c.method_, c.endpoint, c.payload)
  }

  /** The call's bytes, cut at harmless places. */
  predicate SentSafely(c: Call, packets: seq<string>) {
    && packets != [] && NonEmptyPackets(packets) && Concat(packets) == CallText(c)
    && forall i :: 0 < i < |packets| ==>
         HarmlessCut(RequestHead(c.method_, c.endpoint, c.payload), |Concat(packets[..i])|)
  }

  /** What the function registered for the call returns, or the 404 the server makes up. */
  ghost function HandlerAnswer(regs: seq<Registration>, c: Call): HandlerResult {
    if exists e :: Chosen(regs, c.method_, c.endpoint, e) then
      var e :| Chosen(regs, c.method_, c.endpoint, e);
      LastRegistered(regs, c.method_, e).value(c.endpoint, c.payload, Bind(Segments(e), Segments(c.endpoint)))
    else HandlerResult("{}", 404, APPLICATION_JSON, [])
  }

  function RequestOf(c: Call, packets: seq<string>): Request {
    Request(RequestHead(c.method_, c.endpoint, c.payload), c.payload, packets)
  }

  lemma CallIsDeliverable(c: Call, packets: seq<string>)
    requires WellFormedCall(c) && SentSafely(c, packets)
    ensures Deliverable(RequestOf(c, packets))
    ensures var d := DispatchOf(RequestOf(c, packets));
      && d.endpoint == c.endpoint && d.method_ == c.method_ && d.payload == c.payload
      && d.headers == Parse(FRESH, CallText(c)).headers
  {
    RequestParsed(c.method_, c.endpoint, c.payload);
    RequestRoundTrip(c.method_, c.endpoint, c.payload);
    DecimalRoundTrip(|c.payload|);
  }

  lemma DispatchHeadersAreOneLine(c: Call, k: string)
    requires k in Parse(FRESH, CallText(c)).headers
    ensures LF !in Parse(FRESH, CallText(c)).headers[k]
  {
    var text := CallText(c);
    assert [text][..0] == [];
    assert ParseAll([text]) == Parse(FRESH, text);
    ParsedHeadersHaveNoLF([text], k);
  }

  /** The handler's texts fit on one line each and the reply fits in memory. */
  predicate PrintableAnswer(env: Environment, a: HandlerResult) {
    && |a.reply| < SIZE_LIMIT
    && LF !in env.serverName && LF !in env.date && LF !in env.address
    && forall i :: 0 <= i < |a.headers| ==> LF !in a.headers[i].key && LF !in a.headers[i].value
  }

  /** The client takes the first message it receives for the whole reply.  It reads the answer
      from the whole reply, and from the first `n` bytes of it exactly when those are enough. */
  ghost predicate AnswerArrives(reply: string, answer: HandlerResult) {
    && ReadReply(reply) == HttpResult(answer.status, answer.reply)
    && forall n: nat :: n <= |reply| ==>
         (ReadReply(reply[..n]) == HttpResult(answer.status, answer.reply) <==>
          EnoughArrived(answer.status, answer.reply, |reply|, n))
  }

  /** The reply is the chosen answer, printed. */
  lemma {:induction false} AnswerIsPrinted(handlers: HandlerMap, regs: seq<Registration>, env: Environment, c: Call,
                                           d: Dispatch)
    requires WellFormedCall(c) && Registered(handlers, regs) && AllRegisteredRooted(regs, c.method_)
    requires d.endpoint == c.endpoint && d.method_ == c.method_ && d.payload == c.payload
    ensures var a := HandlerAnswer(regs, c);
            ReplyTo(handlers, env, d) == Some(ReplyText(env, a.status, a.reply, d.headers, a.headers, a.contentType))
  {
    RegisteredHandlerAnswers(handlers, regs, env, d);
    if exists e :: Chosen(regs, c.method_, c.endpoint, e) {
      var e :| Chosen(regs, c.method_, c.endpoint, e);
      forall f | Chosen(regs, c.method_, c.endpoint, f)
        ensures f == e
      {
        ChosenIsUnique(regs, c.method_, c.endpoint, e, f);
      }
    }
  }

  lemma {:induction false} CallTexts(env: Environment, c: Call, a: HandlerResult)
    requires PrintableAnswer(env, a)
    ensures OneLineTexts(env, Parse(FRESH, CallText(c)).headers, a.headers)
  {
    var h := Parse(FRESH, CallText(c)).headers;
    if REQUEST_HEADERS in h {
      DispatchHeadersAreOneLine(c, REQUEST_HEADERS);
    }
    if REQUEST_METHOD in h {
      DispatchHeadersAreOneLine(c, REQUEST_METHOD);
    }
  }

  lemma {:induction false} AnswerIsRead(handlers: HandlerMap, regs: seq<Registration>, env: Environment, c: Call,
                                        d: Dispatch)
    requires WellFormedCall(c) && Registered(handlers, regs) && AllRegisteredRooted(regs, c.method_)
    requires d.endpoint == c.endpoint && d.method_ == c.method_ && d.payload == c.payload
    requires d.headers == Parse(FRESH, CallText(c)).headers
    requires PrintableAnswer(env, HandlerAnswer(regs, c))
    ensures var answer := HandlerAnswer(regs, c);
            ReplyTo(handlers, env, d).Some? && AnswerArrives(ReplyTo(handlers, env, d).value, answer)
  {
    var a := HandlerAnswer(regs, c);
    AnswerIsPrinted(handlers, regs, env, c, d);
    CallTexts(env, c, a);
    var reply := ReplyText(env, a.status, a.reply, d.headers, a.headers, a.contentType);
    forall n: nat | n <= |reply|
      ensures ReadReply(reply[..n]) == HttpResult(a.status, a.reply) <==>
              EnoughArrived(a.status, a.reply, |reply|, n)
    {
      CutReplyExact(env, a.status, a.reply, d.headers, a.headers, a.contentType, n);
    }
    ReplyRoundTrip(env, a.status, a.reply, d.headers, a.headers, a.contentType);
  }

  /** The handler's content type and headers reach the client as well, and of the request's headers
      the ones that are echoed. */
  lemma {:induction false} AnswerHeadersAreRead(handlers: HandlerMap, regs: seq<Registration>, env: Environment,
                                                d: Dispatch, e: string, k: string)
    requires Registered(handlers, regs) && Rooted(d.endpoint) && AllRegisteredRooted(regs, d.method_)
    requires Chosen(regs, d.method_, d.endpoint, e)
    requires var a := LastRegistered(regs, d.method_, e).value(d.endpoint, d.payload,
                                                               Bind(Segments(e), Segments(d.endpoint)));
             OneLineTexts(env, d.headers, a.headers) && NamesAreReadable(a.headers)
    ensures var a := LastRegistered(regs, d.method_, e).value(d.endpoint, d.payload,
                                                              Bind(Segments(e), Segments(d.endpoint)));
            && ReplyTo(handlers, env, d).Some?
            && var h := Parse(FRESH, ReplyTo(handlers, env, d).value).headers;
            && Lookup(h, "Content-Type") ==
               Some(match a.contentType
                    case APPLICATION_JSON => "application/json"
                    case TEXT_PLAIN => "text/plain"
                    case APPLICATION_SDP => "application/sdp")
            && (k != METHOD && !FixedName(k) ==> Lookup(h, k) == ReplyHeader(d.headers, a.headers, k))
  {
    var a := LastRegistered(regs, d.method_, e).value(d.endpoint, d.payload,
                                                      Bind(Segments(e), Segments(d.endpoint)));
    RegisteredHandlerAnswers(handlers, regs, env, d);
    FixedHeadersRead(env, a.status, a.reply, d.headers, a.headers, a.contentType);
    if k != METHOD && !FixedName(k) {
      ReplyHeadersRead(env, a.status, a.reply, d.headers, a.headers, a.contentType, k);
    }
  }

  /** A call sent over an idle port in packets cut at harmless places, with any traffic on other
      ports in between, is dispatched once with the caller's method, endpoint and payload, and the
      client reads the status and body the chosen handler returned exactly when enough of the reply
      is in the first message it receives. */
  lemma {:induction false} CallReachesHandlerAndReturns(packets: seq<Packet>, port: Port, before: seq<string>,
                                                        c: Call, sent: seq<string>, handlers: HandlerMap,
                                                        regs: seq<Registration>, env: Environment)
    requires WellFormedCall(c) && SentSafely(c, sent)
    requires PortSession(before) == None && DataOf(packets, port) == before + sent
    requires Registered(handlers, regs) && AllRegisteredRooted(regs, c.method_)
    requires PrintableAnswer(env, HandlerAnswer(regs, c))
    ensures port !in RunSessions(packets)
    ensures var served := Dispatches(OutcomesOf(RunLog(packets), port));
            && |served| == |Dispatches(PortOutcomes(before))| + 1
            && var d := served[|served| - 1];
               var answer := HandlerAnswer(regs, c);
            && d.endpoint == c.endpoint && d.method_ == c.method_ && d.payload == c.payload
            && ReplyTo(handlers, env, d).Some? && AnswerArrives(ReplyTo(handlers, env, d).value, answer)
  {
    var r := RequestOf(c, sent);
    CallIsDeliverable(c, sent);
    PortsAreIndependent(packets, port);
    RequestCompletes(before, r);
    AnswerIsRead(handlers, regs, env, c, DispatchOf(r));
  }

  /** In a run of the client pool, request `r` received the first `n` bytes of that reply.  It gets
      one result, and that is the answer exactly when those bytes are enough. */
  lemma {:induction false} AnswerIsDelivered(steps: seq<Pool.Step>, i: nat, reply: string, answer: HandlerResult,
                                             n: nat)
    requires Pool.Run(steps).Some? && i < |steps| && AnswerArrives(reply, answer) && n <= |reply|
    requires steps[i].MessageReceived? && steps[i].message == reply[..n]
    ensures var p, sent := Pool.Run(steps).value, HttpResult(answer.status, answer.reply);
            && Pool.Deliveries(p.results, steps[i].r) == 1
            && (Pool.Delivery(steps[i].r, sent) in p.results <==>
                EnoughArrived(answer.status, answer.reply, |reply|, n))
  {
    var p, r, read := Pool.Run(steps).value, steps[i].r, ReadReply(reply[..n]);
    assert Pool.Decides(steps[i], r, read);
    Pool.ResultsExact(steps, r, read);
    Pool.EveryRun(steps);
    Pool.DecidedPhase(steps, i, r, read);
    if Pool.Delivery(r, HttpResult(answer.status, answer.reply)) in p.results {
      Pool.OnlyDelivery(p.results, r, read, HttpResult(answer.status, answer.reply));
    }
  }
}
