/** Server-side TLS connections: the byte queue each connection feeds to mbedtls, and the state it
    is in (src/MbedTLS.cpp).  mbedtls itself is an oracle: each call into it names the lengths it
    asks `recv_cb` for and the code it returns. */
module TlsConnections {
  import opened Wrappers

  type byte = b: int | 0 <= b < 256

  datatype SocketState = INITIAL | HANDSHAKE | READY | CLOSED

  /** The fields of `MbedTlsConnectionData`. */
  datatype Conn = Conn(state: SocketState, queue: seq<byte>)

  const NEW_CONN := Conn(INITIAL, [])

  // ----- The oracle -----------------------------------------------------------------------

  datatype HandshakeRet = Done | WantRead | WantWrite | HandshakeFailed
  datatype ReadRet = Plain(bytes: seq<byte>) | ReadAgain | PeerCloseNotify | ConnReset | ReadFailed

  datatype HandshakeCall = HandshakeCall(lengths: seq<nat>, ret: HandshakeRet)
  datatype ReadCall = ReadCall(lengths: seq<nat>, ret: ReadRet)

  /** What mbedtls does during one `add_encrypted_data`: its successive handshake calls, and the
      read that follows a finished handshake. */
  datatype Oracle = Oracle(handshake: nat -> HandshakeCall, read: ReadCall)

  predicate Asks(lengths: seq<nat>) {
    exists i :: 0 <= i < |lengths| && lengths[i] > 0
  }

  function Min(a: nat, b: nat): nat {
    if a < b then a else b
  }

  /** The queue after `recv_cb` has been called with each of the lengths. */
  function Rest(queue: seq<byte>, lengths: seq<nat>): (rest: seq<byte>)
    ensures |rest| <= |queue|
    decreases |lengths|
  {
    if lengths == [] then queue else Rest(queue[Min(lengths[0], |queue|)..], lengths[1..])
  }

  /** What is left is the end of the queue. */
  lemma {:induction false} RestIsSuffix(queue: seq<byte>, lengths: seq<nat>)
    ensures Rest(queue, lengths) == queue[|queue| - |Rest(queue, lengths)|..]
    decreases |lengths|
  {
    if lengths != [] {
      RestIsSuffix(queue[Min(lengths[0], |queue|)..], lengths[1..]);
    }
  }

  /** If a byte is asked for and there is one, the queue gets shorter. */
  lemma {:induction false} AskingTakes(queue: seq<byte>, lengths: seq<nat>)
    requires queue != [] && Asks(lengths)
    ensures |Rest(queue, lengths)| < |queue|
    decreases |lengths|
  {
    if lengths[0] == 0 {
      assert queue[0..] == queue;
      assert forall i :: 0 < i < |lengths| ==> lengths[i] == lengths[1..][i - 1];
      AskingTakes(queue, lengths[1..]);
    }
  }

  function Taken(queue: seq<byte>, lengths: seq<nat>): seq<byte> {
    queue[..|queue| - |Rest(queue, lengths)|]
  }

  /** Bytes handed out, then bytes left: that was the queue. */
  lemma {:induction false} TakenAndRest(queue: seq<byte>, lengths: seq<nat>)
    ensures Taken(queue, lengths) + Rest(queue, lengths) == queue
  {
    RestIsSuffix(queue, lengths);
  }

  lemma {:induction false} RestStep(queue: seq<byte>, lengths: seq<nat>, i: nat)
    requires i < |lengths|
    ensures Rest(queue, lengths[i..]) == Rest(queue[Min(lengths[i], |queue|)..], lengths[i + 1..])
  {
    assert lengths[i..][1..] == lengths[i + 1..];
  }

  lemma {:induction false} TakenIs(taken: seq<byte>, rest: seq<byte>, queue: seq<byte>, lengths: seq<nat>)
    requires taken + rest == queue && rest == Rest(queue, lengths)
    ensures taken == Taken(queue, lengths)
  {
    assert queue[..|taken|] == taken;
  }

  // ----- The handshake loop ---------------------------------------------------------------

  datatype Ready = Finished | NotReady | Refused

  datatype HandshakeEnd = HandshakeEnd(queue: seq<byte>, taken: seq<byte>, result: Ready)

  /** One round of the loop in `do_ssl_handshake`: it returns, or goes on with what is queued. */
  datatype Round = Returned(h: HandshakeEnd) | Again(queue: seq<byte>, taken: seq<byte>)

  function RoundOf(queue: seq<byte>, c: HandshakeCall): Round {
    var rest, taken := Rest(queue, c.lengths), Taken(queue, c.lengths);
    match c.ret
    case Done => Returned(HandshakeEnd(rest, taken, Finished))
    case WantWrite => Returned(HandshakeEnd(rest, taken, NotReady))
    case HandshakeFailed => Returned(HandshakeEnd(rest, taken, Refused))
    case WantRead => if rest == [] then Returned(HandshakeEnd(rest, taken, NotReady)) else Again(rest, taken)
  }

  /** A handshake with `taken` handed over before. */
  function After(taken: seq<byte>, h: HandshakeEnd): HandshakeEnd {
    HandshakeEnd(h.queue, taken + h.taken, h.result)
  }

  /** How the loop ends, from its `i`-th call of mbedtls on, if it does within `n` calls. */
  function Within(queue: seq<byte>, calls: nat -> HandshakeCall, i: nat, n: nat): Option<HandshakeEnd>
    decreases n
  {
    if n == 0 then None
    else
      match RoundOf(queue, calls(i))
      case Returned(h) => Some(h)
      case Again(rest, taken) =>
        match Within(rest, calls, i + 1, n - 1)
        case None => None
        case Some(h) => Some(After(taken, h))
  }

  lemma {:induction false} WithinKeeps(queue: seq<byte>, calls: nat -> HandshakeCall, i: nat, n: nat)
    requires Within(queue, calls, i, n).Some?
    ensures var h := Within(queue, calls, i, n).value; h.taken + h.queue == queue
    decreases n
  {
    TakenAndRest(queue, calls(i).lengths);
    match RoundOf(queue, calls(i))
    case Returned(h) =>
    case Again(rest, taken) =>
      WithinKeeps(rest, calls, i + 1, n - 1);
      var h := Within(rest, calls, i + 1, n - 1).value;
      JoinLists(taken, h.taken, h.queue);
  }

  ghost predicate Ends(queue: seq<byte>, calls: nat -> HandshakeCall, i: nat) {
    exists n: nat :: Within(queue, calls, i, n).Some?
  }

  /** `do_ssl_handshake`, from its `i`-th call of mbedtls on, whenever that returns. */
  ghost function Handshake(queue: seq<byte>, calls: nat -> HandshakeCall, i: nat): (h: HandshakeEnd)
    requires Ends(queue, calls, i)
    ensures h.taken + h.queue == queue
  {
    var n: nat :| Within(queue, calls, i, n).Some?;
    WithinKeeps(queue, calls, i, n);
    Within(queue, calls, i, n).value
  }

  lemma {:induction false} WithinGrows(queue: seq<byte>, calls: nat -> HandshakeCall, i: nat, n: nat, m: nat)
    requires n <= m && Within(queue, calls, i, n).Some?
    ensures Within(queue, calls, i, m) == Within(queue, calls, i, n)
    decreases n
  {
    match RoundOf(queue, calls(i))
    case Returned(h) =>
    case Again(rest, taken) => WithinGrows(rest, calls, i + 1, n - 1, m - 1);
  }

  /** It does not matter how many calls are allowed for. */
  lemma {:induction false} HandshakeIs(queue: seq<byte>, calls: nat -> HandshakeCall, i: nat, n: nat)
    requires Within(queue, calls, i, n).Some?
    ensures Ends(queue, calls, i) && Handshake(queue, calls, i) == Within(queue, calls, i, n).value
  {
    forall k: nat | Within(queue, calls, i, k).Some?
      ensures Within(queue, calls, i, k) == Within(queue, calls, i, n)
    {
      WithinGrows(queue, calls, i, if k < n then k else n, if k < n then n else k);
    }
  }

  /** One round of the loop, with `taken` handed over before. */
  lemma {:induction false} HandshakeStep(queue: seq<byte>, calls: nat -> HandshakeCall, i: nat, taken: seq<byte>)
    ensures match RoundOf(queue, calls(i))
            case Returned(h) => Ends(queue, calls, i) && Handshake(queue, calls, i) == h
            case Again(rest, more) =>
              && (Ends(queue, calls, i) <==> Ends(rest, calls, i + 1))
              && (Ends(queue, calls, i) ==>
                    After(taken, Handshake(queue, calls, i)) == After(taken + more, Handshake(rest, calls, i + 1)))
  {
    match RoundOf(queue, calls(i))
    case Returned(h) =>
      assert Within(queue, calls, i, 1) == Some(h);
      HandshakeIs(queue, calls, i, 1);
    case Again(rest, more) =>
      if Ends(rest, calls, i + 1) {
        var n: nat :| Within(rest, calls, i + 1, n).Some?;
        assert Within(queue, calls, i, n + 1).Some?;
      }
      if Ends(queue, calls, i) {
        var n: nat :| Within(queue, calls, i, n).Some?;
        HandshakeIs(queue, calls, i, n);
        HandshakeIs(rest, calls, i + 1, n - 1);
        JoinLists(taken, more, Handshake(rest, calls, i + 1).taken);
      }
  }

  /** The queue when the loop is about to make its `n`-th call, if it gets that far. */
  function StillLooping(queue: seq<byte>, calls: nat -> HandshakeCall, n: nat): Option<seq<byte>> {
    if n == 0 then Some(queue)
    else
      match StillLooping(queue, calls, n - 1)
      case None => None
      case Some(q) =>
        match RoundOf(q, calls(n - 1))
        case Returned(_) => None
        case Again(rest, _) => Some(rest)
  }

  /** While the loop is going, what is left to do is the handshake from there. */
  lemma {:induction false} HandshakeUnrolls(queue: seq<byte>, calls: nat -> HandshakeCall, n: nat)
    requires StillLooping(queue, calls, n).Some?
    ensures var q := StillLooping(queue, calls, n).value;
            && (Ends(queue, calls, 0) <==> Ends(q, calls, n))
            && (Ends(queue, calls, 0) ==>
                  && Handshake(queue, calls, 0).result == Handshake(q, calls, n).result
                  && Handshake(queue, calls, 0).queue == Handshake(q, calls, n).queue)
  {
    if n > 0 {
      HandshakeUnrolls(queue, calls, n - 1);
      HandshakeStep(StillLooping(queue, calls, n - 1).value, calls, n - 1, []);
    }
  }

  /** If the loop has not returned before its `n`-th call, it does not return within `n` calls. */
  lemma {:induction false} LoopingIsNotWithin(queue: seq<byte>, calls: nat -> HandshakeCall, k: nat, n: nat)
    requires k <= n && StillLooping(queue, calls, n).Some?
    ensures StillLooping(queue, calls, k).Some?
    ensures Within(StillLooping(queue, calls, k).value, calls, k, n - k).None?
    decreases n - k
  {
    LoopedSoFar(queue, calls, k, n);
    if k < n {
      LoopingIsNotWithin(queue, calls, k + 1, n);
    }
  }

  lemma {:induction false} LoopedSoFar(queue: seq<byte>, calls: nat -> HandshakeCall, k: nat, n: nat)
    requires k <= n && StillLooping(queue, calls, n).Some?
    ensures StillLooping(queue, calls, k).Some?
    ensures |StillLooping(queue, calls, n).value| <= |StillLooping(queue, calls, k).value|
  {
    if k < n {
      LoopedSoFar(queue, calls, k, n - 1);
    }
  }

  /** A loop that is over by its `n`-th call ends. */
  lemma {:induction false} OverMeansEnds(queue: seq<byte>, calls: nat -> HandshakeCall, n: nat)
    requires StillLooping(queue, calls, n).None?
    ensures Ends(queue, calls, 0)
  {
    if StillLooping(queue, calls, n - 1).None? {
      OverMeansEnds(queue, calls, n - 1);
    } else {
      HandshakeUnrolls(queue, calls, n - 1);
      HandshakeStep(StillLooping(queue, calls, n - 1).value, calls, n - 1, []);
    }
  }

  // ----- When the loop ends ---------------------------------------------------------------

  /** Every WANT_READ that leaves data in the queue has consumed some. */
  ghost predicate Progresses(queue: seq<byte>, calls: nat -> HandshakeCall) {
    forall k: nat :: k > 0 && StillLooping(queue, calls, k).Some? ==>
      |StillLooping(queue, calls, k).value| < |StillLooping(queue, calls, k - 1).value|
  }

  lemma {:induction false} ProgressCounts(queue: seq<byte>, calls: nat -> HandshakeCall, n: nat)
    requires Progresses(queue, calls)
    ensures StillLooping(queue, calls, n).Some? ==> n + |StillLooping(queue, calls, n).value| <= |queue|
  {
    if n > 0 && StillLooping(queue, calls, n).Some? {
      ProgressCounts(queue, calls, n - 1);
    }
  }

  /** Then the loop makes at most as many calls as there are bytes, plus one, and ends. */
  lemma {:induction false} HandshakeLoopEnds(queue: seq<byte>, calls: nat -> HandshakeCall, n: nat)
    requires Progresses(queue, calls)
    ensures StillLooping(queue, calls, n).Some? ==> n + |StillLooping(queue, calls, n).value| <= |queue|
    ensures Ends(queue, calls, 0)
  {
    ProgressCounts(queue, calls, n);
    ProgressCounts(queue, calls, |queue| + 1);
    OverMeansEnds(queue, calls, |queue| + 1);
  }

  ghost predicate LoopsForever(queue: seq<byte>, calls: nat -> HandshakeCall) {
    forall n: nat :: StillLooping(queue, calls, n).Some?
  }

  /** From its `m`-th call on mbedtls reports WANT_READ every time and asks for nothing, while data
      is queued. */
  ghost predicate Stalls(queue: seq<byte>, calls: nat -> HandshakeCall, m: nat) {
    && StillLooping(queue, calls, m).Some? && StillLooping(queue, calls, m).value != []
    && forall n: nat :: m <= n ==> calls(n).ret == WantRead && !Asks(calls(n).lengths)
  }

  lemma {:induction false} NothingTaken(queue: seq<byte>, lengths: seq<nat>)
    requires !Asks(lengths)
    ensures Rest(queue, lengths) == queue
    decreases |lengths|
  {
    if lengths != [] {
      assert queue[0..] == queue;
      NothingTaken(queue, lengths[1..]);
    }
  }

  lemma {:induction false} StalledLoops(queue: seq<byte>, calls: nat -> HandshakeCall, m: nat, n: nat)
    requires Stalls(queue, calls, m)
    ensures StillLooping(queue, calls, n).Some?
    ensures m <= n ==> StillLooping(queue, calls, n) == StillLooping(queue, calls, m)
  {
    if n < m {
      LoopedSoFar(queue, calls, n, m);
    } else if m < n {
      StalledLoops(queue, calls, m, n - 1);
      NothingTaken(StillLooping(queue, calls, m).value, calls(n - 1).lengths);
    }
  }

  /** An endless loop consumes only so often: from some call on it stalls. */
  lemma {:induction false} EndlessStalls(queue: seq<byte>, calls: nat -> HandshakeCall, m: nat) returns (k: nat)
    requires LoopsForever(queue, calls)
    ensures Stalls(queue, calls, k)
    decreases |StillLooping(queue, calls, m).value|
  {
    if n: nat :| m <= n && Asks(calls(n).lengths) {
      LoopedSoFar(queue, calls, m, n);
      StillNonEmpty(queue, calls, n);
      AskingTakes(StillLooping(queue, calls, n).value, calls(n).lengths);
      k := EndlessStalls(queue, calls, n + 1);
    } else {
      forall n: nat
        ensures calls(n).ret == WantRead
      {
        StillNonEmpty(queue, calls, n);
      }
      StillNonEmpty(queue, calls, m);
      k := m;
    }
  }

  lemma {:induction false} StillNonEmpty(queue: seq<byte>, calls: nat -> HandshakeCall, n: nat)
    requires LoopsForever(queue, calls)
    ensures StillLooping(queue, calls, n).Some? && StillLooping(queue, calls, n).value != []
    ensures calls(n).ret == WantRead
    ensures StillLooping(queue, calls, n + 1) ==
            Some(Rest(StillLooping(queue, calls, n).value, calls(n).lengths))
  {
    assert StillLooping(queue, calls, n + 1).Some?;
  }

  /** The handshake never returns exactly when mbedtls, from some call on, keeps reporting
      WANT_READ without asking for a byte while data is queued. */
  lemma {:induction false} HandshakeEndlessExact(queue: seq<byte>, calls: nat -> HandshakeCall)
    ensures LoopsForever(queue, calls) <==> exists m: nat :: Stalls(queue, calls, m)
    ensures Ends(queue, calls, 0) <==> !LoopsForever(queue, calls)
  {
    if m: nat :| Stalls(queue, calls, m) {
      forall n: nat
        ensures StillLooping(queue, calls, n).Some?
      {
        StalledLoops(queue, calls, m, n);
      }
    }
    if LoopsForever(queue, calls) {
      var k := EndlessStalls(queue, calls, 0);
      forall n: nat
        ensures Within(queue, calls, 0, n).None?
      {
        LoopingIsNotWithin(queue, calls, 0, n);
      }
    } else {
      var n: nat :| StillLooping(queue, calls, n).None?;
      OverMeansEnds(queue, calls, n);
    }
  }

  /** The simplest such case: mbedtls always reports WANT_READ after the same empty requests. */
  lemma {:induction false} HandshakeLoopSpins(queue: seq<byte>, lengths: seq<nat>)
    requires queue != [] && !Asks(lengths)
    ensures LoopsForever(queue, k => HandshakeCall(lengths, WantRead))
    ensures !Ends(queue, k => HandshakeCall(lengths, WantRead), 0)
  {
    var calls := k => HandshakeCall(lengths, WantRead);
    assert StillLooping(queue, calls, 0) == Some(queue);
    assert Stalls(queue, calls, 0);
    HandshakeEndlessExact(queue, calls);
  }

  /** A stall that ends is survived: here mbedtls asks for nothing in its first `n` calls and then
      finishes. */
  lemma {:induction false} StallIsSurvived(queue: seq<byte>, n: nat)
    requires queue != []
    ensures var calls := (k: nat) => HandshakeCall([], if k < n then WantRead else Done);
            Ends(queue, calls, 0) && Handshake(queue, calls, 0).result == Finished
  {
    var calls := (k: nat) => HandshakeCall([], if k < n then WantRead else Done);
    StillQueued(queue, calls, n);
    HandshakeStep(queue, calls, n, []);
    HandshakeUnrolls(queue, calls, n);
  }

  lemma {:induction false} StillQueued(queue: seq<byte>, calls: nat -> HandshakeCall, n: nat)
    requires queue != [] && forall k: nat :: k < n ==> calls(k) == HandshakeCall([], WantRead)
    ensures StillLooping(queue, calls, n) == Some(queue)
  {
    if n > 0 {
      StillQueued(queue, calls, n - 1);
    }
  }

  // ----- What decides how it ends ---------------------------------------------------------

  /** The loop makes its `k`-th call of mbedtls, and that call returns `ret`. */
  predicate Gets(queue: seq<byte>, calls: nat -> HandshakeCall, k: nat, ret: HandshakeRet) {
    StillLooping(queue, calls, k).Some? && calls(k).ret == ret
  }

  /** The `k`-th call reports WANT_READ and leaves nothing queued. */
  predicate RunsDry(queue: seq<byte>, calls: nat -> HandshakeCall, k: nat) {
    && Gets(queue, calls, k, WantRead)
    && Rest(StillLooping(queue, calls, k).value, calls(k).lengths) == []
  }

  lemma {:induction false} LastCall(queue: seq<byte>, calls: nat -> HandshakeCall, n: nat) returns (k: nat)
    requires StillLooping(queue, calls, n).None?
    ensures StillLooping(queue, calls, k).Some? && StillLooping(queue, calls, k + 1).None?
  {
    if StillLooping(queue, calls, n - 1).None? {
      k := LastCall(queue, calls, n - 1);
    } else {
      k := n - 1;
    }
  }

  /** The last call the loop makes decides its result. */
  lemma {:induction false} LastCallDecides(queue: seq<byte>, calls: nat -> HandshakeCall, k: nat)
    requires StillLooping(queue, calls, k).Some? && StillLooping(queue, calls, k + 1).None?
    ensures Ends(queue, calls, 0)
    ensures Handshake(queue, calls, 0).queue == Rest(StillLooping(queue, calls, k).value, calls(k).lengths)
    ensures match Handshake(queue, calls, 0).result
            case Finished => Gets(queue, calls, k, Done)
            case Refused => Gets(queue, calls, k, HandshakeFailed)
            case NotReady => Gets(queue, calls, k, WantWrite) || RunsDry(queue, calls, k)
  {
    HandshakeUnrolls(queue, calls, k);
    HandshakeStep(StillLooping(queue, calls, k).value, calls, k, []);
  }

  /** Every call before the last reports WANT_READ and leaves data queued. */
  lemma {:induction false} EarlierCallsGoOn(queue: seq<byte>, calls: nat -> HandshakeCall, j: nat, k: nat)
    requires StillLooping(queue, calls, k + 1).None? && StillLooping(queue, calls, j).Some? && j != k
    requires StillLooping(queue, calls, k).Some?
    ensures Gets(queue, calls, j, WantRead) && !RunsDry(queue, calls, j)
  {
    if k < j {
      LoopedSoFar(queue, calls, k + 1, j);
    } else {
      LoopedSoFar(queue, calls, j + 1, k);
    }
  }

  /** A handshake that ends is finished exactly if some call of mbedtls returned 0, refused exactly
      if one failed, and not ready exactly if one wanted to write or found nothing more to read. */
  lemma {:induction false} HandshakeResultExact(queue: seq<byte>, calls: nat -> HandshakeCall)
    requires Ends(queue, calls, 0)
    ensures Handshake(queue, calls, 0).result == Finished <==> exists k: nat :: Gets(queue, calls, k, Done)
    ensures Handshake(queue, calls, 0).result == Refused <==> exists k: nat :: Gets(queue, calls, k, HandshakeFailed)
    ensures Handshake(queue, calls, 0).result == NotReady <==>
            exists k: nat :: Gets(queue, calls, k, WantWrite) || RunsDry(queue, calls, k)
  {
    HandshakeEndlessExact(queue, calls);
    var n: nat :| StillLooping(queue, calls, n).None?;
    var k := LastCall(queue, calls, n);
    LastCallDecides(queue, calls, k);
    forall j: nat | j != k && StillLooping(queue, calls, j).Some?
      ensures Gets(queue, calls, j, WantRead) && !RunsDry(queue, calls, j)
    {
      EarlierCallsGoOn(queue, calls, j, k);
    }
  }

  // ----- One call of add_encrypted_data ---------------------------------------------------

  /** What a connection's history is made of. */
  datatype Event =
    | SessionReset
    | HandedToTls(bytes: seq<byte>)
    | HandshakeDone
    | PlaintextHandler(bytes: seq<byte>)
    | ConnectionClosed

  datatype Error = OK | BAD_PPROTOCOL

  datatype Outcome = Outcome(conn: Conn, events: seq<Event>, error: Error)

  /** What the switch on the result of `mbedtls_ssl_read` does. */
  function ReadState(ret: ReadRet): SocketState {
    if ret.ReadAgain? || ret.Plain? then READY else CLOSED
  }

  function ReadEvents(ret: ReadRet): seq<Event> {
    match ret
    case ReadAgain => []
    case Plain(bytes) => [PlaintextHandler(bytes)]
    case _ => [ConnectionClosed]
  }

  function ReadError(ret: ReadRet): Error {
    if ret.ReadFailed? then BAD_PPROTOCOL else OK
  }

  /** `mbedtls_ssl_read` and what follows from its result. */
  function ReadPlaintext(queue: seq<byte>, call: ReadCall): Outcome {
    Outcome(Conn(ReadState(call.ret), Rest(queue, call.lengths)),
            [HandedToTls(Taken(queue, call.lengths))] + ReadEvents(call.ret),
            ReadError(call.ret))
  }

  function AfterHandshake(h: HandshakeEnd, call: ReadCall): Outcome {
    match h.result
    case NotReady => Outcome(Conn(HANDSHAKE, h.queue), [HandedToTls(h.taken)], OK)
    case Refused => Outcome(Conn(HANDSHAKE, h.queue), [HandedToTls(h.taken)], BAD_PPROTOCOL)
    case Finished =>
      var read := ReadPlaintext(h.queue, call);
      read.(events := [HandedToTls(h.taken), HandshakeDone] + read.events)
  }

  /** What happens once new data is in the queue of an open connection. */
  ghost function Processed(c: Conn, io: Oracle): Outcome
    requires c.state == READY || Ends(c.queue, io.handshake, 0)
  {
    if c.state == READY then ReadPlaintext(c.queue, io.read)
    else AfterHandshake(Handshake(c.queue, io.handshake, 0), io.read)
  }

  /** The call returns: it gets into no handshake, or into one that ends. */
  ghost predicate Returns(c: Conn, data: seq<byte>, io: Oracle) {
    c.state == READY || c.state == CLOSED || Ends(c.queue + data, io.handshake, 0)
  }

  /** `add_encrypted_data`: a new connection resets the session, a closed one ignores the data. */
  ghost function Receive(c: Conn, data: seq<byte>, io: Oracle): Outcome
    requires Returns(c, data, io)
  {
    if c.state == CLOSED then Outcome(c, [], OK)
    else if c.state == INITIAL then
      var o := Processed(Conn(HANDSHAKE, c.queue + data), io);
      o.(events := [SessionReset] + o.events)
    else Processed(Conn(c.state, c.queue + data), io)
  }

  // ----- Histories ------------------------------------------------------------------------

  /** All bytes a history handed to mbedtls, in order. */
  function BytesHanded(events: seq<Event>): seq<byte> {
    if events == [] then []
    else (if events[0].HandedToTls? then events[0].bytes else []) + BytesHanded(events[1..])
  }

  /** The state an event leads to, if it is allowed in `state`. */
  function Move(state: SocketState, e: Event): Option<SocketState> {
    match e
    case SessionReset => if state == INITIAL then Some(HANDSHAKE) else None
    case HandedToTls(_) => if state == HANDSHAKE || state == READY then Some(state) else None
    case HandshakeDone => if state == HANDSHAKE then Some(READY) else None
    case PlaintextHandler(_) => if state == READY then Some(READY) else None
    case ConnectionClosed => if state == READY then Some(CLOSED) else None
  }

  function Follow(state: SocketState, events: seq<Event>): Option<SocketState>
    decreases |events|
  {
    if events == [] then Some(state)
    else
      match Move(state, events[0])
      case None => None
      case Some(next) => Follow(next, events[1..])
  }

  lemma {:induction false} BytesAppend(a: seq<Event>, b: seq<Event>)
    ensures BytesHanded(a + b) == BytesHanded(a) + BytesHanded(b)
  {
    if a == [] {
      assert a + b == b;
    } else {
      assert (a + b)[1..] == a[1..] + b;
      BytesAppend(a[1..], b);
    }
  }

  lemma {:induction false} FollowAppend(state: SocketState, a: seq<Event>, b: seq<Event>)
    ensures Follow(state, a + b) ==
            match Follow(state, a) case None => None case Some(next) => Follow(next, b)
    decreases |a|
  {
    if a == [] {
      assert a + b == b;
    } else {
      assert (a + b)[1..] == a[1..] + b;
      if Move(state, a[0]).Some? {
        FollowAppend(Move(state, a[0]).value, a[1..], b);
      }
    }
  }

  lemma {:induction false} FollowOne(state: SocketState, e: Event, rest: seq<Event>)
    ensures Follow(state, [e] + rest) ==
            match Move(state, e) case None => None case Some(next) => Follow(next, rest)
    ensures BytesHanded([e] + rest) == (if e.HandedToTls? then e.bytes else []) + BytesHanded(rest)
  {
    assert ([e] + rest)[1..] == rest;
  }

  lemma ReadContinues(queue: seq<byte>, call: ReadCall)
    ensures var o := ReadPlaintext(queue, call);
            && Follow(READY, o.events) == Some(o.conn.state)
            && BytesHanded(o.events) + o.conn.queue == queue
  {
    TakenAndRest(queue, call.lengths);
    var e, tail := HandedToTls(Taken(queue, call.lengths)), ReadEvents(call.ret);
    FollowOne(READY, e, tail);
    if tail != [] {
      assert tail == [tail[0]] + [];
      FollowOne(READY, tail[0], []);
    }
    assert BytesHanded(tail) == [];
    assert e.bytes + [] == e.bytes;
  }

  lemma {:induction false} AfterTwoEvents(taken: seq<byte>, events: seq<Event>)
    ensures Follow(HANDSHAKE, [HandedToTls(taken), HandshakeDone] + events) == Follow(READY, events)
    ensures BytesHanded([HandedToTls(taken), HandshakeDone] + events) == taken + ([] + BytesHanded(events))
  {
    assert [HandedToTls(taken), HandshakeDone] + events == [HandedToTls(taken)] + ([HandshakeDone] + events);
    FollowOne(HANDSHAKE, HandedToTls(taken), [HandshakeDone] + events);
    FollowOne(HANDSHAKE, HandshakeDone, events);
  }

  lemma HandshakeContinues(h: HandshakeEnd, call: ReadCall)
    ensures var o := AfterHandshake(h, call);
            && Follow(HANDSHAKE, o.events) == Some(o.conn.state)
            && BytesHanded(o.events) + o.conn.queue == h.taken + h.queue
  {
    var o := AfterHandshake(h, call);
    var e := HandedToTls(h.taken);
    if h.result == Finished {
      var read := ReadPlaintext(h.queue, call);
      ReadContinues(h.queue, call);
      AfterTwoEvents(h.taken, read.events);
      Regroup(h.taken, BytesHanded(read.events), read.conn.queue);
    } else {
      assert o.events == [e] + [];
      FollowOne(HANDSHAKE, e, []);
      assert h.taken + [] == h.taken;
    }
  }

  lemma Regroup(a: seq<byte>, b: seq<byte>, c: seq<byte>)
    ensures a + ([] + b) + c == a + (b + c) && (a + b) + c == a + (b + c)
  {
    assert [] + b == b;
    JoinLists(a, b, c);
  }

  lemma NothingBefore(events: seq<Event>)
    ensures [] + events == events
  {
  }

  lemma ProcessedContinues(c: Conn, io: Oracle)
    requires c.state == READY || (c.state == HANDSHAKE && Ends(c.queue, io.handshake, 0))
    ensures var o := Processed(c, io);
            && Follow(c.state, o.events) == Some(o.conn.state)
            && BytesHanded(o.events) + o.conn.queue == c.queue
  {
    if c.state == READY {
      ReadContinues(c.queue, io.read);
    } else {
      HandshakeContinues(Handshake(c.queue, io.handshake, 0), io.read);
    }
  }

  lemma ReceiveContinues(c: Conn, data: seq<byte>, io: Oracle)
    requires Returns(c, data, io)
    ensures var o := Receive(c, data, io);
            && Follow(c.state, o.events) == Some(o.conn.state)
            && BytesHanded(o.events) + o.conn.queue == c.queue + (if c.state == CLOSED then [] else data)
  {
    var queue := c.queue + data;
    if c.state == CLOSED {
      assert [] + c.queue == c.queue + [];
    } else if c.state == INITIAL {
      ProcessedContinues(Conn(HANDSHAKE, queue), io);
      var o := Processed(Conn(HANDSHAKE, queue), io);
      FollowOne(INITIAL, SessionReset, o.events);
      assert [] + BytesHanded(o.events) == BytesHanded(o.events);
    } else {
      ProcessedContinues(Conn(c.state, queue), io);
    }
  }

  // ----- Runs over interleaved connections ------------------------------------------------

  type Socket = nat

  datatype Call = Call(socket: Socket, data: seq<byte>, io: Oracle)

  function ConnAt(conns: map<Socket, Conn>, s: Socket): Conn {
    if s in conns then conns[s] else NEW_CONN
  }

  /** The connections after some calls; there are none after a call that never returns. */
  ghost function Run(calls: seq<Call>): Option<map<Socket, Conn>> {
    if calls == [] then Some(map[])
    else
      var c := calls[|calls| - 1];
      match Run(calls[..|calls| - 1])
      case None => None
      case Some(conns) =>
        if !Returns(ConnAt(conns, c.socket), c.data, c.io) then None
        else Some(conns[c.socket := Receive(ConnAt(conns, c.socket), c.data, c.io).conn])
  }

  /** One connection after some calls. */
  ghost function ConnAfter(calls: seq<Call>, s: Socket): Conn
    requires Run(calls).Some?
  {
    ConnAt(Run(calls).value, s)
  }

  /** The history of one connection in a run. */
  ghost function History(calls: seq<Call>, s: Socket): seq<Event>
    requires Run(calls).Some?
  {
    if calls == [] then []
    else
      var init, c := calls[..|calls| - 1], calls[|calls| - 1];
      History(init, s)
      + (if c.socket == s then Receive(ConnAfter(init, s), c.data, c.io).events else [])
  }

  /** The bytes accepted for a connection: all it received before it was closed. */
  ghost function Accepted(calls: seq<Call>, s: Socket): seq<byte>
    requires Run(calls).Some?
  {
    if calls == [] then []
    else
      var init, c := calls[..|calls| - 1], calls[|calls| - 1];
      Accepted(init, s)
      + (if c.socket == s && ConnAfter(init, s).state != CLOSED then c.data else [])
  }

  /** In every interleaving of calls that return, whatever mbedtls does, each connection's history
      is an allowed one leading to its state, and what TLS was handed followed by what is still
      queued is what was accepted, in order. */
  lemma {:induction false} EveryRun(calls: seq<Call>, s: Socket)
    requires Run(calls).Some?
    ensures Follow(INITIAL, History(calls, s)) == Some(ConnAfter(calls, s).state)
    ensures BytesHanded(History(calls, s)) + ConnAfter(calls, s).queue == Accepted(calls, s)
  {
    if calls != [] {
      var init, c := calls[..|calls| - 1], calls[|calls| - 1];
      EveryRun(init, s);
      var before := History(init, s);
      if c.socket == s {
        ServedOnce(before, ConnAfter(init, s), Accepted(init, s), c);
      } else {
        assert before + [] == before && Accepted(init, s) + [] == Accepted(init, s);
      }
    }
  }

  lemma {:induction false} ServedOnce(before: seq<Event>, conn: Conn, accepted: seq<byte>, c: Call)
    requires Returns(conn, c.data, c.io) && Follow(INITIAL, before) == Some(conn.state)
    requires BytesHanded(before) + conn.queue == accepted
    ensures var o := Receive(conn, c.data, c.io);
            && Follow(INITIAL, before + o.events) == Some(o.conn.state)
            && BytesHanded(before + o.events) + o.conn.queue ==
               accepted + (if conn.state != CLOSED then c.data else [])
  {
    var o := Receive(conn, c.data, c.io);
    ReceiveContinues(conn, c.data, c.io);
    FollowAppend(INITIAL, before, o.events);
    BytesAppend(before, o.events);
    Regroup(BytesHanded(before), BytesHanded(o.events), o.conn.queue);
    Regroup(BytesHanded(before), conn.queue, if conn.state == CLOSED then [] else c.data);
  }

  function Rank(state: SocketState): nat {
    match state
    case INITIAL => 0
    case HANDSHAKE => 1
    case READY => 2
    case CLOSED => 3
  }

  /** Along an allowed history states only move forward. */
  lemma {:induction false} FollowMovesForward(state: SocketState, events: seq<Event>)
    requires Follow(state, events).Some?
    ensures Rank(state) <= Rank(Follow(state, events).value)
    ensures SessionReset in events ==> state == INITIAL
    ensures HandshakeDone in events ==> Rank(state) <= 1
    ensures state == CLOSED ==> events == []
    ensures (exists i :: 0 <= i < |events| && events[i].PlaintextHandler?) && Rank(state) <= 1 ==>
              HandshakeDone in events
    ensures ConnectionClosed in events ==> Follow(state, events) == Some(CLOSED)
    decreases |events|
  {
    if events != [] {
      FollowMovesForward(Move(state, events[0]).value, events[1..]);
      assert events == [events[0]] + events[1..];
      assert forall i :: 0 < i < |events| ==> events[i] == events[1..][i - 1];
    }
  }

  /** What an allowed history says in so many words: one reset, before anything else; at most one
      finished handshake; the plaintext handler only after it; nothing after the close. */
  lemma {:induction false} AllowedHistory(events: seq<Event>, i: nat)
    requires Follow(INITIAL, events).Some? && i < |events|
    ensures events[i] == SessionReset <==> i == 0
    ensures events[i].PlaintextHandler? ==> HandshakeDone in events[..i]
    ensures events[i] == HandshakeDone ==> HandshakeDone !in events[..i]
    ensures ConnectionClosed !in events[..i]
  {
    var before, after := events[..i], events[i..];
    assert events == before + after;
    FollowAppend(INITIAL, before, after);
    var state := Follow(INITIAL, before).value;
    StateSaysWhatHappened(INITIAL, before);
    assert Move(state, after[0]).Some?;
  }

  lemma {:induction false} StateSaysWhatHappened(state: SocketState, events: seq<Event>)
    requires Follow(state, events).Some?
    ensures var end := Follow(state, events).value;
            && (end == INITIAL ==> events == [])
            && (state == INITIAL && end != INITIAL ==> events != [])
            && (Rank(state) <= 1 ==> (HandshakeDone in events <==> Rank(end) >= 2))
            && (state != CLOSED ==> (ConnectionClosed in events <==> end == CLOSED))
    decreases |events|
  {
    FollowMovesForward(state, events);
    if events != [] {
      var next := Move(state, events[0]).value;
      FollowMovesForward(next, events[1..]);
      StateSaysWhatHappened(next, events[1..]);
      assert events == [events[0]] + events[1..];
    }
  }

  lemma {:induction false} HistoryGrows(calls: seq<Call>, n: nat, s: Socket)
    requires Run(calls).Some? && n <= |calls|
    ensures Run(calls[..n]).Some? && History(calls[..n], s) <= History(calls, s)
    ensures ConnAfter(calls[..n], s).state == CLOSED ==> ConnAfter(calls, s) == ConnAfter(calls[..n], s)
  {
    if n < |calls| {
      var init := calls[..|calls| - 1];
      assert init[..n] == calls[..n];
      HistoryGrows(init, n, s);
    } else {
      assert calls[..n] == calls;
    }
  }

  /** A connection's state only moves forward, whatever the other connections do, and a closed
      connection keeps its state and its queue for ever. */
  lemma {:induction false} StatesMoveForward(calls: seq<Call>, n: nat, s: Socket)
    requires Run(calls).Some? && n <= |calls|
    ensures Run(calls[..n]).Some?
    ensures var earlier, now := ConnAfter(calls[..n], s), ConnAfter(calls, s);
            && Rank(earlier.state) <= Rank(now.state)
            && (earlier.state == CLOSED ==> now == earlier)
  {
    HistoryGrows(calls, n, s);
    EveryRun(calls, s);
    EveryRun(calls[..n], s);
    LongerHistory(History(calls[..n], s), History(calls, s));
  }

  lemma {:induction false} LongerHistory(g: seq<Event>, h: seq<Event>)
    requires g <= h && Follow(INITIAL, g).Some? && Follow(INITIAL, h).Some?
    ensures Rank(Follow(INITIAL, g).value) <= Rank(Follow(INITIAL, h).value)
  {
    assert h == g + h[|g|..];
    FollowAppend(INITIAL, g, h[|g|..]);
    FollowMovesForward(Follow(INITIAL, g).value, h[|g|..]);
  }

  /** Calls for other connections, however many, leave a connection, its queue and its history as
      they were. */
  lemma {:induction false} OthersUntouched(calls: seq<Call>, more: seq<Call>, s: Socket)
    requires Run(calls + more).Some? && forall i :: 0 <= i < |more| ==> more[i].socket != s
    ensures Run(calls).Some? && ConnAfter(calls + more, s) == ConnAfter(calls, s)
    ensures History(calls + more, s) == History(calls, s)
  {
    if more == [] {
      assert calls + more == calls;
    } else {
      var init, last := more[..|more| - 1], more[|more| - 1];
      assert calls + more == (calls + init) + [last];
      OneUntouched(calls + init, last, s);
      OthersUntouched(calls, init, s);
    }
  }

  lemma {:induction false} OneUntouched(calls: seq<Call>, call: Call, s: Socket)
    requires Run(calls + [call]).Some? && call.socket != s
    ensures Run(calls).Some? && ConnAfter(calls + [call], s) == ConnAfter(calls, s)
    ensures History(calls + [call], s) == History(calls, s)
  {
    var all := calls + [call];
    assert all[..|all| - 1] == calls;
  }

  // ----- What causes each event -----------------------------------------------------------

  /** Some handshake call made for the connection returned 0. */
  ghost predicate Succeeds(c: Conn, call: Call) {
    exists k: nat :: Gets(c.queue + call.data, call.io.handshake, k, Done)
  }

  ghost predicate Fails(c: Conn, call: Call) {
    exists k: nat :: Gets(c.queue + call.data, call.io.handshake, k, HandshakeFailed)
  }

  /** The handshake is still to be done when the call arrives. */
  predicate Early(c: Conn) {
    c.state == INITIAL || c.state == HANDSHAKE
  }

  /** The call gets as far as `mbedtls_ssl_read`. */
  ghost predicate Reads(c: Conn, call: Call) {
    c.state == READY || (Early(c) && Succeeds(c, call))
  }

  /** What has to happen in a call, seen from mbedtls, for an event other than bytes being read. */
  ghost predicate Causes(c: Conn, call: Call, e: Event) {
    match e
    case SessionReset => c.state == INITIAL
    case HandshakeDone => Early(c) && Succeeds(c, call)
    case PlaintextHandler(bytes) => Reads(c, call) && call.io.read.ret == Plain(bytes)
    case ConnectionClosed =>
      Reads(c, call) && (call.io.read.ret in {PeerCloseNotify, ConnReset, ReadFailed})
    case HandedToTls(_) => false
  }

  lemma {:induction false} ReadEventsExact(queue: seq<byte>, call: ReadCall, e: Event)
    requires !e.HandedToTls?
    ensures e in ReadPlaintext(queue, call).events <==>
            (e.PlaintextHandler? && call.ret == Plain(e.bytes))
            || (e == ConnectionClosed && call.ret in {PeerCloseNotify, ConnReset, ReadFailed})
    ensures ReadPlaintext(queue, call).error == BAD_PPROTOCOL <==> call.ret == ReadFailed
  {
  }

  /** An event is reported exactly when its cause is there, and an error exactly when mbedtls
      failed in the handshake or in the read. */
  lemma {:induction false} CallEventsExact(c: Conn, call: Call, e: Event)
    requires Returns(c, call.data, call.io) && !e.HandedToTls?
    ensures e in Receive(c, call.data, call.io).events <==> Causes(c, call, e)
    ensures Receive(c, call.data, call.io).error == BAD_PPROTOCOL <==>
            (Early(c) && Fails(c, call)) || (Reads(c, call) && call.io.read.ret == ReadFailed)
  {
    if c.state == READY {
      ReadEventsExact(c.queue + call.data, call.io.read, e);
    } else if c.state != CLOSED {
      HandshakeResultExact(c.queue + call.data, call.io.handshake);
      var h := Handshake(c.queue + call.data, call.io.handshake, 0);
      ReadEventsExact(h.queue, call.io.read, e);
    }
  }

  /** The `i`-th call of a run is for `s` and causes `e`. */
  ghost predicate CausedAt(calls: seq<Call>, i: nat, s: Socket, e: Event) {
    && i < |calls| && calls[i].socket == s
    && Run(calls[..i]).Some? && Causes(ConnAfter(calls[..i], s), calls[i], e)
  }

  ghost predicate Caused(calls: seq<Call>, s: Socket, e: Event) {
    exists i: nat :: CausedAt(calls, i, s, e)
  }

  /** The session is reset, the handshake is done, the plaintext handler gets `bytes` or the
      connection is closed exactly if some call for this connection was the cause: in particular
      the handshake is done only if mbedtls returned 0 for it, and the handler gets exactly what
      mbedtls read. */
  lemma {:induction false} HistoryExact(calls: seq<Call>, s: Socket, e: Event)
    requires Run(calls).Some? && !e.HandedToTls?
    ensures e in History(calls, s) <==> Caused(calls, s, e)
  {
    if calls != [] {
      var n := |calls| - 1;
      var init, c := calls[..n], calls[n];
      HistoryExact(init, s, e);
      CausesSoFar(calls, s, e);
      if c.socket == s {
        CallEventsExact(ConnAfter(init, s), c, e);
      }
      assert CausedAt(calls, n, s, e) <==> c.socket == s && Causes(ConnAfter(init, s), c, e);
    }
  }

  lemma {:induction false} CausesSoFar(calls: seq<Call>, s: Socket, e: Event)
    requires calls != []
    ensures Caused(calls, s, e) <==>
            CausedAt(calls, |calls| - 1, s, e) || Caused(calls[..|calls| - 1], s, e)
  {
    if Caused(calls[..|calls| - 1], s, e) {
      var i: nat :| CausedAt(calls[..|calls| - 1], i, s, e);
      SameCause(calls, i, s, e);
    }
    if Caused(calls, s, e) {
      var i: nat :| CausedAt(calls, i, s, e);
      SameCause(calls, i, s, e);
    }
  }

  lemma {:induction false} SameCause(calls: seq<Call>, i: nat, s: Socket, e: Event)
    requires calls != []
    ensures i < |calls| - 1 ==> (CausedAt(calls, i, s, e) <==> CausedAt(calls[..|calls| - 1], i, s, e))
    ensures i >= |calls| - 1 ==> !CausedAt(calls[..|calls| - 1], i, s, e)
    ensures i > |calls| - 1 ==> !CausedAt(calls, i, s, e)
  {
    if i < |calls| - 1 {
      assert calls[..|calls| - 1][..i] == calls[..i];
    }
  }

  // ----- The C++ objects ------------------------------------------------------------------

  class MbedTlsConnectionData {
    var state: SocketState
    var encryptedData: seq<byte>

    ghost function View(): Conn
      reads this
    {
      Conn(state, encryptedData)
    }

    constructor ()
      ensures View() == NEW_CONN
    {
      state, encryptedData := INITIAL, [];
    }

    method SetState(s: SocketState)
      modifies `state
      ensures state == s
    {
      state := s;
    }

    /** `push_encrypted_data`, byte by byte. */
    method PushEncryptedData(data: seq<byte>)
      modifies `encryptedData
      ensures encryptedData == old(encryptedData) + data
    {
      if data == [] {
        assert encryptedData + [] == encryptedData;
        return;
      }
      for i := 0 to |data|
        invariant encryptedData == old(encryptedData) + data[..i]
      {
        encryptedData := encryptedData + [data[i]];
      }
      assert data[..|data|] == data;
    }

    /** `copy_out_encrypted_data`: moves min(len, queue size) bytes to the front of `buf`. */
    method CopyOutEncryptedData(buf: array<byte>, len: nat) returns (copied: nat)
      requires len <= buf.Length
      modifies `encryptedData, buf
      ensures copied == Min(len, |old(encryptedData)|)
      ensures buf[..copied] == old(encryptedData)[..copied]
      ensures buf[copied..] == old(buf[copied..])
      ensures encryptedData == old(encryptedData)[copied..]
    {
      copied := 0;
      while encryptedData != []
        invariant copied <= len && copied <= |old(encryptedData)|
        invariant buf[..copied] == old(encryptedData)[..copied]
        invariant buf[copied..] == old(buf[..])[copied..]
        invariant encryptedData == old(encryptedData)[copied..]
        decreases |encryptedData|
      {
        if copied == len {
          break;
        }
        buf[copied] := encryptedData[0];
        copied := copied + 1;
        encryptedData := encryptedData[1..];
      }
    }
  }

  const WANT_READ: int := -0x6900

  class MbedTls {
    var connections: map<Socket, MbedTlsConnectionData>
    /** The connection `recv_cb` reads from. */
    var socket: Option<Socket>

    ghost predicate Valid()
      reads this
    {
      forall p, q :: p in connections && q in connections && p != q ==> connections[p] != connections[q]
    }

    ghost function Objects(): set<object>
      reads this`connections
    {
      set s | s in connections.Keys :: connections[s] as object
    }

    ghost function View(): map<Socket, Conn>
      reads this`connections, Objects()
    {
      map s | s in connections :: connections[s].View()
    }

    constructor ()
      ensures Valid() && View() == map[]
    {
      connections, socket := map[], None;
    }

    /** `recv_cb`: nothing copied is reported as WANT_READ. */
    method RecvCb(buf: array<byte>, len: nat) returns (ret: int)
      requires socket.Some? && socket.value in connections && len <= buf.Length
      modifies connections[socket.value], buf
      ensures var queue := old(connections[socket.value].encryptedData);
              var n := Min(len, |queue|);
              && ret == (if n == 0 then WANT_READ else n)
              && buf[..n] == queue[..n]
              && connections[socket.value].encryptedData == queue[n..]
      ensures connections[socket.value].state == old(connections[socket.value].state)
    {
      var conn := connections[socket.value];
      var copied := conn.CopyOutEncryptedData(buf, len);
      if copied == 0 {
        return WANT_READ;
      }
      ret := copied;
    }

    /** `recv_cb` will read from `conn`. */
    ghost predicate ReadsFrom(conn: MbedTlsConnectionData)
      reads this
    {
      socket.Some? && socket.value in connections && connections[socket.value] == conn
    }

    /** mbedtls reading the transport: one `recv_cb` per length it asks for. */
    method Transport(conn: MbedTlsConnectionData, lengths: seq<nat>) returns (taken: seq<byte>)
      requires ReadsFrom(conn)
      modifies conn
      ensures taken == Taken(old(conn.encryptedData), lengths)
      ensures conn.View() == old(conn.View()).(queue := Rest(old(conn.encryptedData), lengths))
    {
      ghost var queue := conn.encryptedData;
      taken := [];
      assert lengths[0..] == lengths;
      for i := 0 to |lengths|
        invariant Rest(conn.encryptedData, lengths[i..]) == Rest(queue, lengths)
        invariant taken + conn.encryptedData == queue
        invariant conn.state == old(conn.state)
      {
        ghost var q := conn.encryptedData;
        RestStep(q, lengths, i);
        var got := ReadOnce(conn, lengths[i]);
        JoinLists(taken, got, conn.encryptedData);
        taken := taken + got;
      }
      assert lengths[|lengths|..] == [];
      TakenIs(taken, conn.encryptedData, queue, lengths);
    }

    /** mbedtls asking once, with a buffer of its own. */
    method ReadOnce(conn: MbedTlsConnectionData, length: nat) returns (got: seq<byte>)
      requires ReadsFrom(conn)
      modifies conn
      ensures conn.state == old(conn.state) && got + conn.encryptedData == old(conn.encryptedData)
      ensures conn.encryptedData == old(conn.encryptedData)[Min(length, |old(conn.encryptedData)|)..]
    {
      ghost var q := conn.encryptedData;
      var buf := new byte[length];
      var ret := RecvCb(buf, length);
      got := if ret > 0 then buf[..ret] else [];
    }

    /** `do_ssl_handshake`. */
    method DoSslHandshake(conn: MbedTlsConnectionData, io: Oracle) returns (result: Ready, taken: seq<byte>)
      requires ReadsFrom(conn) && Ends(conn.encryptedData, io.handshake, 0)
      modifies conn
      ensures var h := Handshake(old(conn.encryptedData), io.handshake, 0);
              && result == h.result && taken == h.taken
              && conn.View() == old(conn.View()).(queue := h.queue)
    {
      ghost var whole := Handshake(conn.encryptedData, io.handshake, 0);
      ghost var left: nat :| Within(conn.encryptedData, io.handshake, 0, left).Some?;
      taken := [];
      var i := 0;
      while true
        invariant Within(conn.encryptedData, io.handshake, i, left).Some?
        invariant Ends(conn.encryptedData, io.handshake, i)
        invariant whole == After(taken, Handshake(conn.encryptedData, io.handshake, i))
        invariant conn.state == old(conn.state)
        decreases left
      {
        var call := io.handshake(i);
        HandshakeStep(conn.encryptedData, io.handshake, i, taken);
        left := left - 1;
        var bytes := Transport(conn, call.lengths);
        taken := taken + bytes;
        match call.ret {
          case Done => return Finished, taken;
          case WantWrite => return NotReady, taken;
          case HandshakeFailed => return Refused, taken;
          case WantRead =>
            if conn.encryptedData == [] {
              return NotReady, taken;
            }
        }
        i := i + 1;
      }
    }

    /** `mbedtls_ssl_read` and the switch on its result. */
    method ReadAndHandle(conn: MbedTlsConnectionData, call: ReadCall)
      returns (error: Error, taken: seq<byte>, events: seq<Event>)
      requires ReadsFrom(conn) && conn.state == READY
      modifies conn
      ensures conn.state == ReadState(call.ret) && conn.encryptedData == Rest(old(conn.encryptedData), call.lengths)
      ensures taken == Taken(old(conn.encryptedData), call.lengths)
      ensures events == ReadEvents(call.ret) && error == ReadError(call.ret)
    {
      taken := Transport(conn, call.lengths);
      error, events := HandleRead(conn, call.ret);
    }

    method HandleRead(conn: MbedTlsConnectionData, ret: ReadRet) returns (error: Error, events: seq<Event>)
      requires conn.state == READY
      modifies conn`state
      ensures conn.state == ReadState(ret) && events == ReadEvents(ret) && error == ReadError(ret)
    {
      error := OK;
      match ret {
        case ReadAgain =>
          events := [];
        case PeerCloseNotify =>
          conn.SetState(CLOSED);
          events := [ConnectionClosed];
        case ConnReset =>
          conn.SetState(CLOSED);
          events := [ConnectionClosed];
        case ReadFailed =>
          conn.SetState(CLOSED);
          events := [ConnectionClosed];
          error := BAD_PPROTOCOL;
        case Plain(plain) =>
          events := [PlaintextHandler(plain)];
      }
    }

    /** The loop around the handshake: it runs at most once. */
    method FinishHandshake(conn: MbedTlsConnectionData, io: Oracle) returns (result: Ready, events: seq<Event>)
      requires ReadsFrom(conn)
      requires conn.state == READY || (conn.state == HANDSHAKE && Ends(conn.encryptedData, io.handshake, 0))
      modifies conn
      ensures old(conn.state) == READY ==> result == Finished && events == [] && conn.View() == old(conn.View())
      ensures old(conn.state) == HANDSHAKE ==>
        var h := Handshake(old(conn.encryptedData), io.handshake, 0);
        && result == h.result
        && events == (if h.result == Finished then [HandedToTls(h.taken), HandshakeDone] else [HandedToTls(h.taken)])
        && conn.View() == Conn(if h.result == Finished then READY else HANDSHAKE, h.queue)
    {
      ghost var start := conn.View();
      ghost var h := if start.state == READY then HandshakeEnd([], [], Finished)
                     else Handshake(start.queue, io.handshake, 0);
      events := [];
      while conn.state == HANDSHAKE
        invariant conn.state == start.state ==> conn.View() == start && events == []
        invariant conn.state != start.state ==>
          && start.state == HANDSHAKE && h.result == Finished && conn.View() == Conn(READY, h.queue)
          && events == [HandedToTls(h.taken), HandshakeDone]
        decreases conn.state == HANDSHAKE
      {
        var ret, taken := DoSslHandshake(conn, io);
        events := [HandedToTls(taken)];
        if ret != Finished {
          return ret, events;
        }
        conn.SetState(READY);
        events := events + [HandshakeDone];
      }
      result := Finished;
    }

    /** `add_encrypted_data` for a connection that exists. */
    method Serve(s: Socket, data: seq<byte>, io: Oracle) returns (error: Error, events: seq<Event>)
      requires s in connections && Returns(connections[s].View(), data, io)
      modifies `socket, connections[s]
      ensures Receive(old(connections[s].View()), data, io) == Outcome(connections[s].View(), events, error)
    {
      var conn := connections[s];
      ghost var before := conn.View();
      var reset := [];
      if conn.state == INITIAL {
        reset := [SessionReset];
        conn.SetState(HANDSHAKE);
      }
      if conn.state == CLOSED {
        return OK, reset;
      }
      conn.PushEncryptedData(data);
      socket := Some(s);
      assert conn.View() == Conn(if before.state == INITIAL then HANDSHAKE else before.state, before.queue + data);
      error, events := Process(conn, io);
      if reset != [] {
        events := reset + events;
      }
    }

    /** What follows once the new data is in the queue. */
    method Process(conn: MbedTlsConnectionData, io: Oracle) returns (error: Error, events: seq<Event>)
      requires ReadsFrom(conn)
      requires conn.state == READY || (conn.state == HANDSHAKE && Ends(conn.encryptedData, io.handshake, 0))
      modifies conn
      ensures var o := Processed(old(conn.View()), io);
              conn.View() == o.conn && events == o.events && error == o.error
    {
      var ret;
      ret, events := FinishHandshake(conn, io);
      if ret == NotReady {
        return OK, events;
      }
      if ret != Finished {
        return BAD_PPROTOCOL, events;
      }
      var taken, more;
      error, taken, more := ReadAndHandle(conn, io.read);
      NothingBefore([HandedToTls(taken)] + more);
      events := events + ([HandedToTls(taken)] + more);
    }

    method AddEncryptedData(s: Socket, data: seq<byte>, io: Oracle) returns (error: Error, events: seq<Event>)
      requires Valid() && Returns(ConnAt(View(), s), data, io)
      modifies this, Objects()
      ensures Valid() && fresh(Objects() - old(Objects()))
      ensures var o := Receive(ConnAt(old(View()), s), data, io);
              View() == old(View())[s := o.conn] && events == o.events && error == o.error
    {
      EnsureConnection(s);
      error, events := ServeExisting(s, data, io);
    }

    method EnsureConnection(s: Socket)
      requires Valid()
      modifies `connections
      ensures Valid() && fresh(Objects() - old(Objects())) && s in connections
      ensures View() == old(View())[s := ConnAt(old(View()), s)]
    {
      if s !in connections {
        var created := new MbedTlsConnectionData();
        connections := connections[s := created];
      }
    }

    method ServeExisting(s: Socket, data: seq<byte>, io: Oracle) returns (error: Error, events: seq<Event>)
      requires Valid() && s in connections && Returns(View()[s], data, io)
      modifies `socket, connections[s]
      ensures Valid()
      ensures var o := Receive(old(View())[s], data, io);
              View() == old(View())[s := o.conn] && events == o.events && error == o.error
    {
      assert connections[s].View() == View()[s];
      error, events := Serve(s, data, io);
    }
  }
}
