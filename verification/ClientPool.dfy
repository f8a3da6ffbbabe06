/** The pool of HTTP clients as a protocol: which callback fires next is up to the network, and
    each fires at most once (src/HttpClientManager.cpp, src/HttpClient.cpp,
    include/http/HttpClient.hpp). */
module ClientPool {
  import opened Wrappers
  import opened Counting
  import opened Text
  import opened HttpParsing
  import opened Messages

  // ----- State ----------------------------------------------------------------------------

  datatype Address = Address(host: nat, port: nat)

  /** The arguments of a `send_request`; `port` is used when a host name has to be resolved. */
  datatype Call = Call(method_: HttpMethod, endpoint: string, payload: string, port: nat)

  /** The mutable fields of an `HttpClient`. */
  datatype Client = Client(recyclable: bool, socket: Option<nat>, ip: Address)

  /** The client object that carries a request, and the socket and address it was given. */
  datatype Job = Job(client: nat, socket: nat, ip: Address)

  /** Which callback of a request is outstanding, if any. */
  datatype Phase =
    | Resolving
    | Unresolved
    | Connecting(job: Job)
    | Sending(job: Job)
    | Receiving(job: Job)
    | Closing(job: Job)
    | Closed(job: Job)
    | ConnectFailed(job: Job)
    | SendFailed(job: Job)

  /** What a client asks of the network; the socket is whatever its field holds at that time. */
  datatype IoOp =
    | ConnectOp(socket: Option<nat>, ip: Address)
    | SendOp(socket: Option<nat>, data: string)
    | RecvOp(socket: Option<nat>)
    | CloseOp(socket: Option<nat>)

  datatype Delivery = Delivery(request: nat, result: HttpResult)

  datatype Pool = Pool(
    clients: seq<Client>,
    calls: seq<Call>,
    phases: seq<Phase>,
    sockets: nat,
    io: seq<IoOp>,
    results: seq<Delivery>)

  const EMPTY_POOL := Pool([], [], [], 0, [], [])

  const NOT_REACHABLE: nat := 444
  const SERVICE_UNAVAILABLE: nat := 503

  // ----- Steps ----------------------------------------------------------------------------

  /** The first client that can be recycled, or the number of clients. */
  function FirstRecyclable(clients: seq<Client>): (i: nat)
    ensures i <= |clients|
    ensures forall k :: 0 <= k < i ==> !clients[k].recyclable
    ensures i < |clients| ==> clients[i].recyclable
  {
    if clients == [] || clients[0].recyclable then 0 else 1 + FirstRecyclable(clients[1..])
  }

  /** `allocate_http_client`: recycle the first free client or add one. */
  function Allocate(clients: seq<Client>, ip: Address): seq<Client> {
    var i := FirstRecyclable(clients);
    if i < |clients| then clients[i := Client(false, None, ip)] else clients + [Client(false, None, ip)]
  }

  /** Allocation, then `HttpClient::send_request`: a new socket and a connect. */
  function Launch(p: Pool, r: nat, ip: Address): Pool
    requires r < |p.phases|
  {
    var c := FirstRecyclable(p.clients);
    var clients := Connect(Allocate(p.clients, ip), c, p.sockets);
    p.(clients := clients,
       phases := p.phases[r := Connecting(Job(c, p.sockets, ip))],
       sockets := p.sockets + 1,
       io := p.io + [ConnectOp(clients[c].socket, clients[c].ip)])
  }

  lemma LaunchIs(p: Pool, r: nat, ip: Address, clients: seq<Client>)
    requires r < |p.phases| && clients == Connect(Allocate(p.clients, ip), FirstRecyclable(p.clients), p.sockets)
    ensures var c := FirstRecyclable(p.clients);
            Launch(p, r, ip) ==
            Pool(clients, p.calls, p.phases[r := Connecting(Job(c, p.sockets, ip))], p.sockets + 1,
                 p.io + [ConnectOp(clients[c].socket, clients[c].ip)], p.results)
  {
  }

  function Connect(clients: seq<Client>, c: nat, socket: nat): seq<Client>
    requires c < |clients|
  {
    clients[c := clients[c].(socket := Some(socket))]
  }

  datatype Step =
    | SendToAddress(call: Call, ip: Address)
    | SendToUrl(call: Call)
    | ResolveDone(r: nat, addresses: Option<seq<nat>>)
    | ConnectDone(r: nat, ok: bool)
    | SendDone(r: nat, ok: bool)
    | MessageReceived(r: nat, message: string)
    | SocketClosed(r: nat)

  /** A callback can fire only while it is outstanding. */
  predicate Enabled(p: Pool, s: Step) {
    match s
    case SendToAddress(_, _) => true
    case SendToUrl(_) => true
    case ResolveDone(r, _) => r < |p.phases| && p.phases[r].Resolving?
    case ConnectDone(r, _) => r < |p.phases| && p.phases[r].Connecting?
    case SendDone(r, _) => r < |p.phases| && p.phases[r].Sending?
    case MessageReceived(r, _) => r < |p.phases| && p.phases[r].Receiving?
    case SocketClosed(r) => r < |p.phases| && p.phases[r].Closing?
  }

  function Issue(p: Pool, call: Call): Pool {
    p.(calls := p.calls + [call], phases := p.phases + [Resolving])
  }

  /** The request gives up or ends with `result`, and moves to `phase`. */
  function Finish(p: Pool, r: nat, result: HttpResult, phase: Phase): Pool
    requires r < |p.phases|
  {
    p.(results := p.results + [Delivery(r, result)], phases := p.phases[r := phase])
  }

  /** The socket field of the client that carries a request, read when the callback runs. */
  function SocketOf(p: Pool, job: Job): Option<nat> {
    if job.client < |p.clients| then p.clients[job.client].socket else None
  }

  function OnResolved(p: Pool, r: nat, addresses: Option<seq<nat>>): Pool
    requires Valid(p) && Enabled(p, ResolveDone(r, addresses))
  {
    if addresses.None? || addresses.value == []
    then Finish(p, r, HttpResult(SERVICE_UNAVAILABLE, ""), Unresolved)
    else Launch(p, r, Address(addresses.value[0], p.calls[r].port))
  }

  function OnConnected(p: Pool, r: nat, ok: bool): Pool
    requires Valid(p) && Enabled(p, ConnectDone(r, ok))
  {
    var job := p.phases[r].job;
    if !ok then Finish(p, r, HttpResult(NOT_REACHABLE, ""), ConnectFailed(job))
    else p.(phases := p.phases[r := Sending(job)],
            io := p.io + [SendOp(SocketOf(p, job), TextOf(p.calls[r]))])
  }

  function OnSent(p: Pool, r: nat, ok: bool): Pool
    requires Valid(p) && Enabled(p, SendDone(r, ok))
  {
    var job := p.phases[r].job;
    if !ok then Finish(p, r, HttpResult(NOT_REACHABLE, ""), SendFailed(job))
    else p.(phases := p.phases[r := Receiving(job)], io := p.io + [RecvOp(SocketOf(p, job))])
  }

  /** The result is delivered before the close is submitted. */
  function OnReceived(p: Pool, r: nat, message: string): Pool
    requires Valid(p) && Enabled(p, MessageReceived(r, message))
  {
    var job := p.phases[r].job;
    Finish(p, r, ReadReply(message), Closing(job)).(io := p.io + [CloseOp(SocketOf(p, job))])
  }

  function OnClosed(p: Pool, r: nat): Pool
    requires Valid(p) && Enabled(p, SocketClosed(r))
  {
    var job := p.phases[r].job;
    p.(phases := p.phases[r := Closed(job)], clients := MarkDead(p.clients, job.client))
  }

  function Next(p: Pool, s: Step): (n: Pool)
    requires Valid(p) && Enabled(p, s)
    ensures Valid(n)
  {
    match s
    case SendToAddress(call, ip) => Launch(Issue(p, call), |p.phases|, ip)
    case SendToUrl(call) => Issue(p, call)
    case ResolveDone(r, addresses) => OnResolved(p, r, addresses)
    case ConnectDone(r, ok) => OnConnected(p, r, ok)
    case SendDone(r, ok) => OnSent(p, r, ok)
    case MessageReceived(r, message) => OnReceived(p, r, message)
    case SocketClosed(r) => OnClosed(p, r)
  }

  function TextOf(call: Call): string {
    RequestText(call.method_, call.endpoint, call.payload)
  }

  function MarkDead(clients: seq<Client>, c: nat): seq<Client> {
    if c < |clients| then clients[c := clients[c].(recyclable := true)] else clients
  }

  // ----- What every step keeps ------------------------------------------------------------

  /** A result is still owed. */
  predicate Pending(ph: Phase) {
    ph.Resolving? || ph.Connecting? || ph.Sending? || ph.Receiving?
  }

  /** The request occupies its client: work is outstanding, or it failed and nobody frees it. */
  predicate Holds(ph: Phase) {
    ph.Connecting? || ph.Sending? || ph.Receiving? || ph.Closing? || ph.ConnectFailed? || ph.SendFailed?
  }

  predicate HasJob(ph: Phase) {
    !ph.Resolving? && !ph.Unresolved?
  }

  predicate Failed(ph: Phase) {
    ph.ConnectFailed? || ph.SendFailed?
  }

  predicate Busy(c: Client) {
    !c.recyclable
  }

  predicate Valid(p: Pool) {
    |p.calls| == |p.phases|
  }

  /** A request that occupies a client occupies a busy one, whose fields are the request's own. */
  ghost predicate JobsMatchClients(p: Pool) {
    forall r {:trigger p.phases[r]} :: 0 <= r < |p.phases| && Holds(p.phases[r]) ==>
      var job := p.phases[r].job;
      job.client < |p.clients| && p.clients[job.client] == Client(false, Some(job.socket), job.ip)
  }

  /** No two requests occupy one client. */
  ghost predicate Exclusive(p: Pool) {
    forall q, r {:trigger p.phases[q], p.phases[r]} ::
      0 <= q < r < |p.phases| && Holds(p.phases[q]) && Holds(p.phases[r]) ==>
      p.phases[q].job.client != p.phases[r].job.client
  }

  /** No two requests ever used one socket. */
  ghost predicate OwnSockets(p: Pool) {
    && (forall r {:trigger p.phases[r]} :: 0 <= r < |p.phases| && HasJob(p.phases[r]) ==>
          p.phases[r].job.socket < p.sockets)
    && forall q, r {:trigger p.phases[q], p.phases[r]} ::
         0 <= q < r < |p.phases| && HasJob(p.phases[q]) && HasJob(p.phases[r]) ==>
         p.phases[q].job.socket != p.phases[r].job.socket
  }

  ghost predicate SafePool(p: Pool) {
    Valid(p) && JobsMatchClients(p) && Exclusive(p) && OwnSockets(p)
  }

  /** A client that is about to be recycled or created is occupied by no request. */
  lemma FreeClient(p: Pool, r: nat)
    requires SafePool(p) && r < |p.phases| && Holds(p.phases[r])
    ensures p.phases[r].job.client != FirstRecyclable(p.clients)
  {
  }

  lemma LaunchKeepsSafe(p: Pool, r: nat, ip: Address)
    requires SafePool(p) && r < |p.phases| && p.phases[r].Resolving?
    ensures SafePool(Launch(p, r, ip))
  {
    var n := Launch(p, r, ip);
    forall q | 0 <= q < |p.phases| && q != r && Holds(p.phases[q])
      ensures n.phases[q] == p.phases[q] && n.phases[q].job.client != FirstRecyclable(p.clients)
      ensures var c := n.phases[q].job.client; c < |p.clients| && n.clients[c] == p.clients[c]
    {
      FreeClient(p, q);
    }
  }

  lemma IssueKeepsSafe(p: Pool, call: Call)
    requires SafePool(p)
    ensures SafePool(Issue(p, call))
  {
  }

  /** Moving one request on, with the same job, and leaving the clients alone. */
  lemma AdvanceKeepsSafe(p: Pool, r: nat, n: Pool)
    requires SafePool(p) && r < |p.phases| && Holds(p.phases[r])
    requires n.calls == p.calls && n.clients == p.clients && n.sockets == p.sockets
    requires |n.phases| == |p.phases| && n.phases == p.phases[r := n.phases[r]]
    requires HasJob(n.phases[r]) && n.phases[r].job == p.phases[r].job
    ensures SafePool(n)
  {
  }

  lemma CloseKeepsSafe(p: Pool, r: nat)
    requires SafePool(p) && Enabled(p, SocketClosed(r))
    ensures SafePool(Next(p, SocketClosed(r)))
  {
    var n := Next(p, SocketClosed(r));
    forall q | 0 <= q < |p.phases| && q != r && Holds(p.phases[q])
      ensures n.phases[q] == p.phases[q] && n.phases[q].job.client != p.phases[r].job.client
    {
      assert q < r || r < q;
    }
  }

  lemma StepKeepsSafe(p: Pool, s: Step)
    requires SafePool(p) && Enabled(p, s)
    ensures SafePool(Next(p, s))
  {
    var n := Next(p, s);
    match s
    case SendToAddress(call, ip) =>
      IssueKeepsSafe(p, call);
      LaunchKeepsSafe(Issue(p, call), |p.phases|, ip);
    case SendToUrl(call) => IssueKeepsSafe(p, call);
    case ResolveDone(r, addresses) =>
      if addresses.Some? && addresses.value != [] {
        LaunchKeepsSafe(p, r, Address(addresses.value[0], p.calls[r].port));
      }
    case ConnectDone(r, _) => AdvanceKeepsSafe(p, r, n);
    case SendDone(r, _) => AdvanceKeepsSafe(p, r, n);
    case MessageReceived(r, _) => AdvanceKeepsSafe(p, r, n);
    case SocketClosed(r) => CloseKeepsSafe(p, r);
  }

  // ----- Which clients are busy -----------------------------------------------------------

  predicate HeldBy(p: Pool, c: nat, r: nat) {
    r < |p.phases| && Holds(p.phases[r]) && p.phases[r].job.client == c
  }

  ghost predicate Held(p: Pool, c: nat) {
    exists r: nat :: HeldBy(p, c, r)
  }

  /** The busy clients are exactly the ones a request occupies. */
  ghost predicate BusyExactly(p: Pool) {
    forall c: nat :: c < |p.clients| ==> (Busy(p.clients[c]) <==> Held(p, c))
  }

  /** One direction follows from the requests' own view of their clients. */
  lemma HeldIsBusy(p: Pool, c: nat)
    requires SafePool(p) && Held(p, c)
    ensures c < |p.clients| && Busy(p.clients[c])
  {
    var r: nat :| HeldBy(p, c, r);
    assert p.phases[r].job.client == c;
  }

  /** The holder of a client that stays busy still holds it after the step, unless the step
      launched a request on it, and then that one does. */
  lemma HolderFound(p: Pool, s: Step, c: nat)
    requires SafePool(p) && Enabled(p, s) && BusyExactly(p)
    requires c < |Next(p, s).clients| && Busy(Next(p, s).clients[c])
    ensures Held(Next(p, s), c)
  {
    var n := Next(p, s);
    match s
    case SendToAddress(call, ip) =>
      var issued := Issue(p, call);
      forall b: nat | b < |p.clients| && Busy(p.clients[b])
        ensures Held(issued, b)
      {
        IssuedHolder(p, call, b);
      }
      LaunchedHolder(issued, |p.phases|, ip, c);
    case SendToUrl(call) => IssuedHolder(p, call, c);
    case ResolveDone(q, addresses) =>
      if addresses.Some? && addresses.value != [] {
        LaunchedHolder(p, q, Address(addresses.value[0], p.calls[q].port), c);
      } else {
        MovedHolder(p, q, n, c);
      }
    case ConnectDone(q, _) => MovedHolder(p, q, n, c);
    case SendDone(q, _) => MovedHolder(p, q, n, c);
    case MessageReceived(q, _) => MovedHolder(p, q, n, c);
    case SocketClosed(q) => MovedHolder(p, q, n, c);
  }

  lemma IssuedHolder(p: Pool, call: Call, c: nat)
    requires Held(p, c)
    ensures Held(Issue(p, call), c)
  {
    var r: nat :| HeldBy(p, c, r);
    assert HeldBy(Issue(p, call), c, r);
  }

  /** Request `q` moved on; if it gave up a client, that was not `c`. */
  lemma MovedHolder(p: Pool, q: nat, n: Pool, c: nat)
    requires Held(p, c) && q < |p.phases| && |n.phases| == |p.phases| && n.phases == p.phases[q := n.phases[q]]
    requires HeldBy(p, c, q) ==> HeldBy(n, c, q)
    ensures Held(n, c)
  {
    var r: nat :| HeldBy(p, c, r);
    assert HeldBy(n, c, r);
  }

  lemma LaunchedHolder(p: Pool, r: nat, ip: Address, c: nat)
    requires r < |p.phases| && p.phases[r].Resolving?
    requires forall b: nat :: b < |p.clients| && Busy(p.clients[b]) ==> Held(p, b)
    requires c < |Launch(p, r, ip).clients| && Busy(Launch(p, r, ip).clients[c])
    ensures Held(Launch(p, r, ip), c)
  {
    var n := Launch(p, r, ip);
    if c == FirstRecyclable(p.clients) {
      assert HeldBy(n, c, r);
    } else {
      var q: nat :| HeldBy(p, c, q);
      assert HeldBy(n, c, q);
    }
  }

  lemma StepKeepsHolders(p: Pool, s: Step)
    requires SafePool(p) && Enabled(p, s) && BusyExactly(p)
    ensures BusyExactly(Next(p, s))
  {
    var n := Next(p, s);
    StepKeepsSafe(p, s);
    forall c: nat | c < |n.clients|
      ensures Busy(n.clients[c]) <==> Held(n, c)
    {
      if Busy(n.clients[c]) {
        HolderFound(p, s, c);
      }
      if Held(n, c) {
        HeldIsBusy(n, c);
      }
    }
  }

  // ----- Counting clients and results -----------------------------------------------------

  /** There are as many busy clients as requests occupying one. */
  ghost predicate BusyMeansHeld(p: Pool) {
    Count(p.clients, Busy) == Count(p.phases, Holds)
  }

  lemma AllocateCounts(clients: seq<Client>, c: Client)
    requires Busy(c)
    ensures var i := FirstRecyclable(clients);
            var next := if i < |clients| then clients[i := c] else clients + [c];
            && Count(next, Busy) == Count(clients, Busy) + 1
            && (i == |clients| ==> Count(clients, Busy) == |clients|)
  {
    var i := FirstRecyclable(clients);
    if i < |clients| {
      CountUpdate(clients, i, c, Busy);
    } else {
      CountAppend(clients, c, Busy);
      CountAll(clients, Busy);
    }
  }

  lemma LaunchCounts(p: Pool, r: nat, ip: Address)
    requires r < |p.phases| && p.phases[r].Resolving?
    ensures var n := Launch(p, r, ip);
            && Count(n.clients, Busy) == Count(p.clients, Busy) + 1
            && Count(n.phases, Holds) == Count(p.phases, Holds) + 1
            && |n.clients| == (if Count(p.clients, Busy) == |p.clients| then |p.clients| + 1 else |p.clients|)
            && (|n.clients| == |p.clients| + 1 ==> Count(n.clients, Busy) == |n.clients|)
  {
    var n := Launch(p, r, ip);
    var i := FirstRecyclable(p.clients);
    var c := Client(false, Some(p.sockets), ip);
    AllocateCounts(p.clients, c);
    assert n.clients == if i < |p.clients| then p.clients[i := c] else p.clients + [c];
    CountUpdate(p.phases, r, n.phases[r], Holds);
    if i < |p.clients| {
      CountUpdate(p.clients, i, c, Busy);
    }
  }

  lemma ClosedCounts(p: Pool, r: nat)
    requires SafePool(p) && Enabled(p, SocketClosed(r)) && BusyMeansHeld(p)
    ensures BusyMeansHeld(OnClosed(p, r)) && |OnClosed(p, r).clients| == |p.clients|
  {
    var n := OnClosed(p, r);
    var c := p.phases[r].job.client;
    CountUpdate(p.phases, r, n.phases[r], Holds);
    CountUpdate(p.clients, c, n.clients[c], Busy);
  }

  lemma SameHolds(p: Pool, r: nat, n: Pool)
    requires BusyMeansHeld(p) && r < |p.phases|
    requires n.clients == p.clients && |n.phases| == |p.phases| && n.phases == p.phases[r := n.phases[r]]
    requires Holds(n.phases[r]) == Holds(p.phases[r])
    ensures BusyMeansHeld(n)
  {
    CountUpdate(p.phases, r, n.phases[r], Holds);
  }

  /** The pool only grows when every client in it is busy. */
  ghost predicate GrowsWhenFull(p: Pool, n: Pool) {
    |n.clients| == |p.clients| || |n.clients| == |p.clients| + 1 == Count(n.clients, Busy)
  }

  lemma StepKeepsCounts(p: Pool, s: Step)
    requires SafePool(p) && Enabled(p, s) && BusyMeansHeld(p)
    ensures BusyMeansHeld(Next(p, s)) && GrowsWhenFull(p, Next(p, s))
  {
    match s
    case SendToAddress(call, ip) =>
      CountAppend(p.phases, Resolving, Holds);
      LaunchCounts(Issue(p, call), |p.phases|, ip);
    case SendToUrl(call) => CountAppend(p.phases, Resolving, Holds);
    case ResolveDone(r, addresses) =>
      if addresses.Some? && addresses.value != [] {
        LaunchCounts(p, r, Address(addresses.value[0], p.calls[r].port));
      } else {
        SameHolds(p, r, OnResolved(p, r, addresses));
      }
    case ConnectDone(r, ok) => SameHolds(p, r, OnConnected(p, r, ok));
    case SendDone(r, ok) => SameHolds(p, r, OnSent(p, r, ok));
    case MessageReceived(r, message) => SameHolds(p, r, OnReceived(p, r, message));
    case SocketClosed(r) => ClosedCounts(p, r);
  }

  /** How many results request `r` has been given. */
  function Deliveries(results: seq<Delivery>, r: nat): nat {
    Count(results, (d: Delivery) => d.request == r)
  }

  /** A request has its one result exactly when none is owed any more. */
  ghost predicate ExactlyOnce(p: Pool) {
    && |p.results| + Count(p.phases, Pending) == |p.phases|
    && (forall r :: 0 <= r < |p.phases| ==> Deliveries(p.results, r) == if Pending(p.phases[r]) then 0 else 1)
    && (forall r :: |p.phases| <= r ==> Deliveries(p.results, r) == 0)
  }

  lemma FinishDelivers(p: Pool, r: nat, result: HttpResult, phase: Phase)
    requires ExactlyOnce(p) && r < |p.phases| && Pending(p.phases[r]) && !Pending(phase)
    ensures ExactlyOnce(Finish(p, r, result, phase))
  {
    var n := Finish(p, r, result, phase);
    CountUpdate(p.phases, r, phase, Pending);
    forall q: nat
      ensures Deliveries(n.results, q) == Deliveries(p.results, q) + if q == r then 1 else 0
    {
      CountAppend(p.results, Delivery(r, result), (d: Delivery) => d.request == q);
    }
  }

  lemma AdvanceDelivers(p: Pool, r: nat, n: Pool)
    requires ExactlyOnce(p) && r < |p.phases|
    requires n.results == p.results && |n.phases| == |p.phases| && n.phases == p.phases[r := n.phases[r]]
    requires Pending(n.phases[r]) == Pending(p.phases[r])
    ensures ExactlyOnce(n)
  {
    CountUpdate(p.phases, r, n.phases[r], Pending);
  }

  lemma IssueDelivers(p: Pool, call: Call)
    requires Valid(p) && ExactlyOnce(p)
    ensures ExactlyOnce(Issue(p, call))
  {
    CountAppend(p.phases, Resolving, Pending);
  }

  lemma ResolvedDelivers(p: Pool, r: nat, addresses: Option<seq<nat>>)
    requires Valid(p) && Enabled(p, ResolveDone(r, addresses)) && ExactlyOnce(p)
    ensures ExactlyOnce(OnResolved(p, r, addresses))
  {
    if addresses.Some? && addresses.value != [] {
      AdvanceDelivers(p, r, OnResolved(p, r, addresses));
    } else {
      FinishDelivers(p, r, HttpResult(SERVICE_UNAVAILABLE, ""), Unresolved);
    }
  }

  lemma ConnectedDelivers(p: Pool, r: nat, ok: bool)
    requires Valid(p) && Enabled(p, ConnectDone(r, ok)) && ExactlyOnce(p)
    ensures ExactlyOnce(OnConnected(p, r, ok))
  {
    if ok {
      AdvanceDelivers(p, r, OnConnected(p, r, ok));
    } else {
      FinishDelivers(p, r, HttpResult(NOT_REACHABLE, ""), ConnectFailed(p.phases[r].job));
    }
  }

  lemma SentDelivers(p: Pool, r: nat, ok: bool)
    requires Valid(p) && Enabled(p, SendDone(r, ok)) && ExactlyOnce(p)
    ensures ExactlyOnce(OnSent(p, r, ok))
  {
    if ok {
      AdvanceDelivers(p, r, OnSent(p, r, ok));
    } else {
      FinishDelivers(p, r, HttpResult(NOT_REACHABLE, ""), SendFailed(p.phases[r].job));
    }
  }

  lemma StepKeepsDeliveries(p: Pool, s: Step)
    requires Valid(p) && Enabled(p, s) && ExactlyOnce(p)
    ensures ExactlyOnce(Next(p, s))
  {
    match s
    case SendToAddress(call, ip) =>
      IssueDelivers(p, call);
      AdvanceDelivers(Issue(p, call), |p.phases|, Next(p, s));
    case SendToUrl(call) => IssueDelivers(p, call);
    case ResolveDone(r, addresses) => ResolvedDelivers(p, r, addresses);
    case ConnectDone(r, ok) => ConnectedDelivers(p, r, ok);
    case SendDone(r, ok) => SentDelivers(p, r, ok);
    case MessageReceived(r, message) => FinishDelivers(p, r, ReadReply(message), Closing(p.phases[r].job));
    case SocketClosed(r) => AdvanceDelivers(p, r, OnClosed(p, r));
  }

  // ----- What goes over the wire ----------------------------------------------------------

  /** The network operations on one socket, in order. */
  function OpsOn(io: seq<IoOp>, socket: nat): seq<IoOp> {
    if io == [] then []
    else OpsOn(io[..|io| - 1], socket) + (if io[|io| - 1].socket == Some(socket) then [io[|io| - 1]] else [])
  }

  /** What a request's socket has seen in each phase: connect to its address, its own text, one
      receive, one close. */
  function ExpectedOps(ph: Phase, call: Call): seq<IoOp>
    requires HasJob(ph)
  {
    var s := Some(ph.job.socket);
    var ops := [ConnectOp(s, ph.job.ip), SendOp(s, TextOf(call)), RecvOp(s), CloseOp(s)];
    match ph
    case Connecting(_) => ops[..1]
    case ConnectFailed(_) => ops[..1]
    case Sending(_) => ops[..2]
    case SendFailed(_) => ops[..2]
    case Receiving(_) => ops[..3]
    case _ => ops
  }

  ghost predicate WireMatches(p: Pool)
    requires Valid(p)
  {
    && (forall r {:trigger p.phases[r]} :: 0 <= r < |p.phases| && HasJob(p.phases[r]) ==>
          OpsOn(p.io, p.phases[r].job.socket) == ExpectedOps(p.phases[r], p.calls[r]))
    && (forall s :: p.sockets <= s ==> OpsOn(p.io, s) == [])
    && forall i :: 0 <= i < |p.io| ==> p.io[i].socket.Some?
  }

  lemma {:induction false} OneMoreOp(io: seq<IoOp>, op: IoOp, socket: nat)
    ensures OpsOn(io + [op], socket) == OpsOn(io, socket) + (if op.socket == Some(socket) then [op] else [])
  {
    assert (io + [op])[..|io|] == io;
  }

  /** One request's operation on its own socket changes what no other socket has seen. */
  lemma OpKeepsWire(p: Pool, r: nat, op: IoOp, n: Pool)
    requires SafePool(p) && WireMatches(p) && r < |p.phases| && HasJob(p.phases[r])
    requires n.calls == p.calls && n.sockets == p.sockets && n.io == p.io + [op]
    requires |n.phases| == |p.phases| && n.phases == p.phases[r := n.phases[r]]
    requires HasJob(n.phases[r]) && n.phases[r].job == p.phases[r].job
    requires op.socket == Some(p.phases[r].job.socket)
    requires ExpectedOps(n.phases[r], n.calls[r]) == ExpectedOps(p.phases[r], p.calls[r]) + [op]
    ensures Valid(n) && WireMatches(n)
  {
    forall s: nat
      ensures OpsOn(n.io, s) == OpsOn(p.io, s) + (if op.socket == Some(s) then [op] else [])
    {
      OneMoreOp(p.io, op, s);
    }
    forall q | 0 <= q < |n.phases| && HasJob(n.phases[q])
      ensures OpsOn(n.io, n.phases[q].job.socket) == ExpectedOps(n.phases[q], n.calls[q])
    {
      if q != r {
        assert n.phases[q] == p.phases[q];
        assert q < r || r < q;
      }
    }
  }

  lemma LaunchKeepsWire(p: Pool, r: nat, ip: Address)
    requires SafePool(p) && WireMatches(p) && r < |p.phases| && p.phases[r].Resolving?
    ensures Valid(Launch(p, r, ip)) && WireMatches(Launch(p, r, ip))
  {
    var n := Launch(p, r, ip);
    var op := n.io[|p.io|];
    forall s: nat
      ensures OpsOn(n.io, s) == OpsOn(p.io, s) + (if op.socket == Some(s) then [op] else [])
    {
      OneMoreOp(p.io, op, s);
    }
    forall q | 0 <= q < |n.phases| && HasJob(n.phases[q])
      ensures OpsOn(n.io, n.phases[q].job.socket) == ExpectedOps(n.phases[q], n.calls[q])
    {
      if q != r {
        assert n.phases[q] == p.phases[q];
      }
    }
  }

  /** A request that moves on without a network operation. */
  lemma QuietKeepsWire(p: Pool, r: nat, n: Pool)
    requires Valid(p) && WireMatches(p) && r < |p.phases|
    requires n.calls == p.calls && n.sockets == p.sockets && n.io == p.io
    requires |n.phases| == |p.phases| && n.phases == p.phases[r := n.phases[r]]
    requires HasJob(n.phases[r]) ==>
      && HasJob(p.phases[r]) && n.phases[r].job == p.phases[r].job
      && ExpectedOps(n.phases[r], n.calls[r]) == ExpectedOps(p.phases[r], p.calls[r])
    ensures Valid(n) && WireMatches(n)
  {
    forall q | 0 <= q < |n.phases| && HasJob(n.phases[q])
      ensures OpsOn(n.io, n.phases[q].job.socket) == ExpectedOps(n.phases[q], n.calls[q])
    {
      if q != r {
        assert n.phases[q] == p.phases[q];
      }
    }
  }

  /** The operations expected in a phase, one more than in the phase before. */
  lemma ExpectedNext(job: Job, call: Call)
    ensures ExpectedOps(Sending(job), call) ==
            ExpectedOps(Connecting(job), call) + [SendOp(Some(job.socket), TextOf(call))]
    ensures ExpectedOps(Receiving(job), call) == ExpectedOps(Sending(job), call) + [RecvOp(Some(job.socket))]
    ensures ExpectedOps(Closing(job), call) == ExpectedOps(Receiving(job), call) + [CloseOp(Some(job.socket))]
  {
  }

  lemma ConnectedKeepsWire(p: Pool, r: nat, ok: bool)
    requires SafePool(p) && WireMatches(p) && Enabled(p, ConnectDone(r, ok))
    ensures WireMatches(OnConnected(p, r, ok))
  {
    var n, job := OnConnected(p, r, ok), p.phases[r].job;
    if ok {
      ExpectedNext(job, p.calls[r]);
      OpKeepsWire(p, r, SendOp(Some(job.socket), TextOf(p.calls[r])), n);
    } else {
      QuietKeepsWire(p, r, n);
    }
  }

  lemma SentKeepsWire(p: Pool, r: nat, ok: bool)
    requires SafePool(p) && WireMatches(p) && Enabled(p, SendDone(r, ok))
    ensures WireMatches(OnSent(p, r, ok))
  {
    var n, job := OnSent(p, r, ok), p.phases[r].job;
    if ok {
      ExpectedNext(job, p.calls[r]);
      OpKeepsWire(p, r, RecvOp(Some(job.socket)), n);
    } else {
      QuietKeepsWire(p, r, n);
    }
  }

  lemma ReceivedKeepsWire(p: Pool, r: nat, message: string)
    requires SafePool(p) && WireMatches(p) && Enabled(p, MessageReceived(r, message))
    ensures WireMatches(OnReceived(p, r, message))
  {
    var n, job := OnReceived(p, r, message), p.phases[r].job;
    ExpectedNext(job, p.calls[r]);
    OpKeepsWire(p, r, CloseOp(Some(job.socket)), n);
  }

  lemma IssueKeepsWire(p: Pool, call: Call)
    requires Valid(p) && WireMatches(p)
    ensures WireMatches(Issue(p, call))
  {
  }

  lemma StepKeepsWire(p: Pool, s: Step)
    requires SafePool(p) && WireMatches(p) && Enabled(p, s)
    ensures WireMatches(Next(p, s))
  {
    match s
    case SendToAddress(call, ip) =>
      IssueKeepsSafe(p, call);
      IssueKeepsWire(p, call);
      LaunchKeepsWire(Issue(p, call), |p.phases|, ip);
    case SendToUrl(call) => IssueKeepsWire(p, call);
    case ResolveDone(r, addresses) =>
      if addresses.Some? && addresses.value != [] {
        LaunchKeepsWire(p, r, Address(addresses.value[0], p.calls[r].port));
      } else {
        QuietKeepsWire(p, r, OnResolved(p, r, addresses));
      }
    case ConnectDone(r, ok) => ConnectedKeepsWire(p, r, ok);
    case SendDone(r, ok) => SentKeepsWire(p, r, ok);
    case MessageReceived(r, message) => ReceivedKeepsWire(p, r, message);
    case SocketClosed(r) => QuietKeepsWire(p, r, OnClosed(p, r));
  }

  // ----- Whole runs -----------------------------------------------------------------------

  /** The state after some steps, or nothing if one of them could not happen. */
  function Run(steps: seq<Step>): (p: Option<Pool>)
    ensures p.Some? ==> Valid(p.value)
  {
    if steps == [] then Some(EMPTY_POOL)
    else
      match Run(steps[..|steps| - 1])
      case None => None
      case Some(p) =>
        if !Enabled(p, steps[|steps| - 1]) then None
        else
          Some(Next(p, steps[|steps| - 1]))
  }

  /** The largest number of clients that were busy at one time, over a run. */
  function Peak(steps: seq<Step>): nat
    requires Run(steps).Some?
  {
    var now := Count(Run(steps).value.clients, Busy);
    if steps == [] then now
    else
      var before := Peak(steps[..|steps| - 1]);
      if before < now then now else before
  }

  /** In every reachable state: requests that are not finished do not share clients, each sees
      the socket and address made for it, each socket carries one request's traffic, every
      request gets exactly one result, a client is busy exactly if a request occupies it, and the
      pool is as large as its busiest moment. */
  lemma {:induction false} EveryRun(steps: seq<Step>)
    requires Run(steps).Some?
    ensures var p := Run(steps).value;
            && SafePool(p) && WireMatches(p) && ExactlyOnce(p) && BusyMeansHeld(p) && BusyExactly(p)
            && |p.clients| == Peak(steps)
  {
    if steps != [] {
      var init, s := steps[..|steps| - 1], steps[|steps| - 1];
      EveryRun(init);
      var p := Run(init).value;
      StepKeepsSafe(p, s);
      StepKeepsWire(p, s);
      StepKeepsDeliveries(p, s);
      StepKeepsCounts(p, s);
      StepKeepsHolders(p, s);
    }
  }

  lemma OnlyCloseFrees(p: Pool, s: Step, c: nat)
    requires SafePool(p) && Enabled(p, s) && c < |p.clients| && Busy(p.clients[c]) && !Busy(Next(p, s).clients[c])
    ensures s.SocketClosed? && p.phases[s.r].Closing? && p.phases[s.r].job.client == c
    ensures p.clients[c].socket == Some(p.phases[s.r].job.socket)
  {
    assert s.SocketClosed?;
  }

  /** A client becomes recyclable only when the close callback of a request on it fires, and that
      request has had its result; the socket's last operation was the close. */
  lemma {:induction false} RecyclableOnlyAfterClose(steps: seq<Step>, s: Step, c: nat)
    requires Run(steps).Some? && Enabled(Run(steps).value, s)
    requires var p := Run(steps).value; c < |p.clients| && Busy(p.clients[c]) && !Busy(Next(p, s).clients[c])
    ensures var p := Run(steps).value;
            && s.SocketClosed? && p.phases[s.r].Closing? && p.phases[s.r].job.client == c
            && Deliveries(p.results, s.r) == 1
            && CloseOp(p.clients[c].socket) in p.io
  {
    EveryRun(steps);
    var p := Run(steps).value;
    OnlyCloseFrees(p, s, c);
    var ops := OpsOn(p.io, p.phases[s.r].job.socket);
    assert ops[3] == CloseOp(p.clients[c].socket);
    OpsAreOps(p.io, p.phases[s.r].job.socket, 3);
  }

  lemma {:induction false} OpsAreOps(io: seq<IoOp>, socket: nat, i: nat)
    requires i < |OpsOn(io, socket)|
    ensures OpsOn(io, socket)[i] in io
  {
    var init := io[..|io| - 1];
    if i < |OpsOn(init, socket)| {
      OpsAreOps(init, socket, i);
    }
  }

  lemma {:induction false} OpIsOnItsSocket(io: seq<IoOp>, op: IoOp, socket: nat)
    requires op in io && op.socket == Some(socket)
    ensures op in OpsOn(io, socket)
  {
    if op != io[|io| - 1] {
      OpIsOnItsSocket(io[..|io| - 1], op, socket);
    }
  }

  /** A request's socket is closed exactly if its reply was received. */
  lemma {:induction false} ClosedExactlyAfterReply(steps: seq<Step>, r: nat)
    requires Run(steps).Some? && r < |Run(steps).value.phases| && HasJob(Run(steps).value.phases[r])
    ensures var p := Run(steps).value;
            CloseOp(Some(p.phases[r].job.socket)) in p.io <==> p.phases[r].Closing? || p.phases[r].Closed?
  {
    EveryRun(steps);
    ClosedOnTheWire(Run(steps).value, r);
  }

  lemma {:induction false} ClosedOnTheWire(p: Pool, r: nat)
    requires Valid(p) && WireMatches(p) && r < |p.phases| && HasJob(p.phases[r])
    ensures CloseOp(Some(p.phases[r].job.socket)) in p.io <==> p.phases[r].Closing? || p.phases[r].Closed?
  {
    var socket := p.phases[r].job.socket;
    var ops, close := OpsOn(p.io, socket), CloseOp(Some(socket));
    assert ops == ExpectedOps(p.phases[r], p.calls[r]);
    if close in p.io {
      OpIsOnItsSocket(p.io, close, socket);
    }
    if p.phases[r].Closing? || p.phases[r].Closed? {
      assert ops[3] == close;
      OpsAreOps(p.io, socket, 3);
    }
  }

  // ----- Which result is delivered --------------------------------------------------------

  /** The callback decides that request `r` gets result `x`: 503 without an address, 444 after a
      failed connect or send, and otherwise what is read from the message received. */
  predicate Decides(s: Step, r: nat, x: HttpResult) {
    match s
    case ResolveDone(q, addresses) =>
      q == r && (addresses.None? || addresses.value == []) && x == HttpResult(503, "")
    case ConnectDone(q, ok) => q == r && !ok && x == HttpResult(444, "")
    case SendDone(q, ok) => q == r && !ok && x == HttpResult(444, "")
    case MessageReceived(q, message) => q == r && x == ReadReply(message)
    case _ => false
  }

  lemma StepDelivers(p: Pool, s: Step, r: nat, x: HttpResult)
    requires Valid(p) && Enabled(p, s)
    ensures Delivery(r, x) in Next(p, s).results <==> Delivery(r, x) in p.results || Decides(s, r, x)
  {
  }

  /** A result is delivered exactly if one of the callbacks that fired decided on it. */
  lemma {:induction false} ResultsExact(steps: seq<Step>, r: nat, x: HttpResult)
    requires Run(steps).Some?
    ensures Delivery(r, x) in Run(steps).value.results <==>
            exists i :: 0 <= i < |steps| && Decides(steps[i], r, x)
  {
    if steps != [] {
      var n := |steps| - 1;
      var init, s := steps[..n], steps[n];
      ResultsExact(init, r, x);
      StepDelivers(Run(init).value, s, r, x);
      assert forall i :: 0 <= i < n ==> init[i] == steps[i];
    }
  }

  /** What a request that has ended was given. */
  ghost predicate ResultFits(ph: Phase, x: HttpResult) {
    match ph
    case Unresolved => x == HttpResult(503, "")
    case ConnectFailed(_) => x == HttpResult(444, "")
    case SendFailed(_) => x == HttpResult(444, "")
    case Closing(_) => true
    case Closed(_) => true
    case _ => false
  }

  ghost predicate ResultsFit(p: Pool) {
    forall d :: d in p.results ==> d.request < |p.phases| && ResultFits(p.phases[d.request], d.result)
  }

  lemma StepKeepsFit(p: Pool, s: Step)
    requires Valid(p) && Enabled(p, s) && ResultsFit(p)
    ensures ResultsFit(Next(p, s))
  {
  }

  lemma {:induction false} EveryRunFits(steps: seq<Step>)
    requires Run(steps).Some?
    ensures ResultsFit(Run(steps).value)
  {
    if steps != [] {
      var init := steps[..|steps| - 1];
      EveryRunFits(init);
      StepKeepsFit(Run(init).value, steps[|steps| - 1]);
    }
  }

  lemma {:induction false} OnlyDelivery(results: seq<Delivery>, r: nat, x: HttpResult, y: HttpResult)
    requires Delivery(r, x) in results && Delivery(r, y) in results && Deliveries(results, r) == 1
    ensures x == y
  {
    var init, last := results[..|results| - 1], results[|results| - 1];
    if last.request == r {
      NoDelivery(init, r, x);
      NoDelivery(init, r, y);
    } else {
      OnlyDelivery(init, r, x, y);
    }
  }

  lemma {:induction false} NoDelivery(results: seq<Delivery>, r: nat, x: HttpResult)
    requires Deliveries(results, r) == 0
    ensures Delivery(r, x) !in results
  {
    if results != [] {
      NoDelivery(results[..|results| - 1], r, x);
    }
  }

  predicate ReceivesFor(s: Step, r: nat, x: HttpResult) {
    s.MessageReceived? && s.r == r && x == ReadReply(s.message)
  }

  /** A message was received for the request and reads as `x`. */
  ghost predicate Received(steps: seq<Step>, r: nat, x: HttpResult) {
    exists i :: 0 <= i < |steps| && ReceivesFor(steps[i], r, x)
  }

  lemma {:induction false} SomeDelivery(results: seq<Delivery>, r: nat) returns (x: HttpResult)
    requires Deliveries(results, r) > 0
    ensures Delivery(r, x) in results
  {
    var init, last := results[..|results| - 1], results[|results| - 1];
    if last.request == r {
      x := last.result;
    } else {
      x := SomeDelivery(init, r);
    }
  }

  /** What a callback that decides leaves behind. */
  predicate Shows(s: Step, ph: Phase) {
    match s
    case ResolveDone(_, _) => ph.Unresolved?
    case ConnectDone(_, _) => ph.ConnectFailed?
    case SendDone(_, _) => ph.SendFailed?
    case _ => ph.Closing? || ph.Closed?
  }

  lemma DecisionShows(p: Pool, s: Step, r: nat, x: HttpResult)
    requires Valid(p) && Enabled(p, s) && Decides(s, r, x)
    ensures r < |Next(p, s).phases| && Shows(s, Next(p, s).phases[r])
  {
  }

  lemma DecisionStays(p: Pool, t: Step, s: Step, r: nat, x: HttpResult)
    requires Valid(p) && Enabled(p, t) && Decides(s, r, x)
    requires r < |p.phases| && Shows(s, p.phases[r])
    ensures r < |Next(p, t).phases| && Shows(s, Next(p, t).phases[r])
  {
  }

  lemma {:induction false} DecidedPhase(steps: seq<Step>, i: nat, r: nat, x: HttpResult)
    requires Run(steps).Some? && i < |steps| && Decides(steps[i], r, x)
    ensures r < |Run(steps).value.phases| && Shows(steps[i], Run(steps).value.phases[r])
  {
    var n := |steps| - 1;
    var p := Run(steps[..n]).value;
    if i < n {
      DecidedPhase(steps[..n], i, r, x);
      DecisionStays(p, steps[n], steps[i], r, x);
    } else {
      DecisionShows(p, steps[n], r, x);
    }
  }

  /** A request whose reply was received has what is read from that reply, and nothing else. */
  lemma {:induction false} ReplyIsDelivered(steps: seq<Step>, r: nat, x: HttpResult)
    requires Run(steps).Some? && r < |Run(steps).value.phases|
    requires Run(steps).value.phases[r].Closing? || Run(steps).value.phases[r].Closed?
    ensures Delivery(r, x) in Run(steps).value.results <==> Received(steps, r, x)
  {
    ResultsExact(steps, r, x);
    forall i | 0 <= i < |steps|
      ensures Decides(steps[i], r, x) <==> ReceivesFor(steps[i], r, x)
    {
      if Decides(steps[i], r, x) {
        DecidedPhase(steps, i, r, x);
      }
    }
  }

  /** A request that has ended otherwise has the result for that, and nothing else. */
  lemma {:induction false} FailureIsDelivered(steps: seq<Step>, r: nat, x: HttpResult)
    requires Run(steps).Some? && r < |Run(steps).value.phases|
    requires Failed(Run(steps).value.phases[r]) || Run(steps).value.phases[r].Unresolved?
    ensures Delivery(r, x) in Run(steps).value.results <==>
            x == HttpResult(if Run(steps).value.phases[r].Unresolved? then 503 else 444, "")
  {
    var p := Run(steps).value;
    EveryRun(steps);
    EveryRunFits(steps);
    var y := SomeDelivery(p.results, r);
  }

  /** The one result of a request: the failure it met or, if a message was received, what is read
      from that message. */
  lemma {:induction false} DeliveredExactly(steps: seq<Step>, r: nat, x: HttpResult)
    requires Run(steps).Some? && r < |Run(steps).value.phases|
    ensures Delivery(r, x) in Run(steps).value.results <==>
            match Run(steps).value.phases[r]
            case Unresolved => x == HttpResult(503, "")
            case ConnectFailed(_) => x == HttpResult(444, "")
            case SendFailed(_) => x == HttpResult(444, "")
            case Closing(_) => Received(steps, r, x)
            case Closed(_) => Received(steps, r, x)
            case _ => false
  {
    var ph := Run(steps).value.phases[r];
    if ph.Closing? || ph.Closed? {
      ReplyIsDelivered(steps, r, x);
    } else if Failed(ph) || ph.Unresolved? {
      FailureIsDelivered(steps, r, x);
    } else {
      EveryRunFits(steps);
    }
  }

  // ----- Where a request goes, and what it says -------------------------------------------

  predicate Issuing(s: Step) {
    s.SendToAddress? || s.SendToUrl?
  }

  /** The steps that issued the requests, in order. */
  function Issues(steps: seq<Step>): seq<Step> {
    if steps == [] then []
    else
      var last := steps[|steps| - 1];
      Issues(steps[..|steps| - 1]) + (if Issuing(last) then [last] else [])
  }

  predicate ResolvesTo(s: Step, r: nat, port: nat, ip: Address) {
    && s.ResolveDone? && s.r == r
    && s.addresses.Some? && s.addresses.value != [] && ip == Address(s.addresses.value[0], port)
  }

  /** The address request `r` was issued for: the one given, or the first one its host name
      resolved to, with the port of the URL. */
  ghost predicate GoesTo(steps: seq<Step>, r: nat, ip: Address) {
    && r < |Issues(steps)|
    && match Issues(steps)[r]
       case SendToAddress(_, given) => ip == given
       case SendToUrl(call) => exists i :: 0 <= i < |steps| && ResolvesTo(steps[i], r, call.port, ip)
       case _ => false
  }

  /** Each request is the one issued, on its way to the address it was issued for. */
  ghost predicate IssuedRight(steps: seq<Step>, p: Pool, r: nat) {
    && r < |p.calls| && |p.calls| == |p.phases| == |Issues(steps)|
    && Issuing(Issues(steps)[r]) && p.calls[r] == Issues(steps)[r].call
    && (p.phases[r].Resolving? ==> Issues(steps)[r].SendToUrl?)
    && (HasJob(p.phases[r]) ==> GoesTo(steps, r, p.phases[r].job.ip))
  }

  lemma {:induction false} OneMoreIssue(steps: seq<Step>, s: Step, r: nat, ip: Address)
    ensures Issues(steps + [s]) == Issues(steps) + (if Issuing(s) then [s] else [])
    ensures GoesTo(steps, r, ip) ==> GoesTo(steps + [s], r, ip)
  {
    var all := steps + [s];
    assert all[..|steps|] == steps;
    assert forall i :: 0 <= i < |steps| ==> all[i] == steps[i];
  }

  lemma {:induction false} StepIssuesRight(steps: seq<Step>, s: Step, r: nat)
    requires Run(steps).Some? && Enabled(Run(steps).value, s)
    requires |Issues(steps)| == |Run(steps).value.phases|
    requires r < |Run(steps).value.phases| ==> IssuedRight(steps, Run(steps).value, r)
    requires r < |Next(Run(steps).value, s).phases|
    ensures IssuedRight(steps + [s], Next(Run(steps).value, s), r)
  {
    var p := Run(steps).value;
    var n := Next(p, s);
    if HasJob(n.phases[r]) {
      OneMoreIssue(steps, s, r, n.phases[r].job.ip);
      if r < |p.phases| && p.phases[r].Resolving? {
        assert (steps + [s])[|steps|] == s;
        assert ResolvesTo(s, r, p.calls[r].port, n.phases[r].job.ip);
      }
    } else {
      OneMoreIssue(steps, s, r, Address(0, 0));
    }
  }

  lemma {:induction false} RequestsAreIssued(steps: seq<Step>, r: nat)
    requires Run(steps).Some?
    ensures |Issues(steps)| == |Run(steps).value.phases|
    ensures r < |Run(steps).value.phases| ==> IssuedRight(steps, Run(steps).value, r)
  {
    if steps != [] {
      var init, s := steps[..|steps| - 1], steps[|steps| - 1];
      RequestsAreIssued(init, r);
      assert steps == init + [s];
      if r < |Run(steps).value.phases| {
        StepIssuesRight(init, s, r);
      }
    }
  }

  lemma FirstOps(p: Pool, r: nat, op: IoOp)
    requires Valid(p) && WireMatches(p) && r < |p.phases| && HasJob(p.phases[r])
    requires op in p.io && op.socket == Some(p.phases[r].job.socket)
    ensures op.ConnectOp? ==> op.ip == p.phases[r].job.ip
    ensures op.SendOp? ==> op.data == TextOf(p.calls[r])
  {
    OpIsOnItsSocket(p.io, op, p.phases[r].job.socket);
    assert op in ExpectedOps(p.phases[r], p.calls[r]);
  }

  /** On the wire, a request's socket is connected to the address the request was issued for. */
  lemma {:induction false} ConnectsToItsAddress(steps: seq<Step>, r: nat, ip: Address)
    requires Run(steps).Some? && r < |Run(steps).value.phases| && HasJob(Run(steps).value.phases[r])
    requires var p := Run(steps).value; ConnectOp(Some(p.phases[r].job.socket), ip) in p.io
    ensures GoesTo(steps, r, ip)
  {
    var p := Run(steps).value;
    EveryRun(steps);
    RequestsAreIssued(steps, r);
    FirstOps(p, r, ConnectOp(Some(p.phases[r].job.socket), ip));
  }

  /** What is sent on it reads back as the method, endpoint and payload it was issued with. */
  lemma {:induction false} SendsItsCall(steps: seq<Step>, r: nat, data: string)
    requires Run(steps).Some? && r < |Run(steps).value.phases| && HasJob(Run(steps).value.phases[r])
    requires var p := Run(steps).value; SendOp(Some(p.phases[r].job.socket), data) in p.io
    ensures r < |Issues(steps)| && Issuing(Issues(steps)[r])
    ensures var call, p := Issues(steps)[r].call, Parse(FRESH, data);
            call.endpoint != "" && ' ' !in call.endpoint && LF !in call.endpoint && |call.payload| < SIZE_LIMIT ==>
            && TypeOf(p) == Some(call.method_) && EndpointOf(p) == Some(call.endpoint)
            && p.payload == call.payload && ContentSizeOf(p) == Size(|call.payload|)
  {
    var p := Run(steps).value;
    EveryRun(steps);
    RequestsAreIssued(steps, r);
    FirstOps(p, r, SendOp(Some(p.phases[r].job.socket), data));
    var call := p.calls[r];
    if call.endpoint != "" && ' ' !in call.endpoint && LF !in call.endpoint && |call.payload| < SIZE_LIMIT {
      RequestRoundTrip(call.method_, call.endpoint, call.payload);
    }
  }

  // ----- Clients that are lost ------------------------------------------------------------

  /** The client was given to a request whose connect or send failed. */
  ghost predicate Lost(p: Pool, c: nat) {
    exists r: nat :: r < |p.phases| && Failed(p.phases[r]) && p.phases[r].job.client == c
  }

  lemma FailedStays(p: Pool, s: Step, r: nat)
    requires Valid(p) && Enabled(p, s) && r < |p.phases| && Failed(p.phases[r])
    ensures r < |Next(p, s).phases| && Next(p, s).phases[r] == p.phases[r]
  {
  }

  /** A failed connect or send loses its client for good: whatever happens next, the request stays
      failed, the client stays busy, no other request occupies it, and its socket is never closed. */
  lemma {:induction false} FailureLosesClient(steps: seq<Step>, more: seq<Step>, r: nat)
    requires Run(steps).Some? && Run(steps + more).Some?
    requires r < |Run(steps).value.phases| && Failed(Run(steps).value.phases[r])
    ensures var p, n := Run(steps).value, Run(steps + more).value;
            && r < |n.phases| && n.phases[r] == p.phases[r]
            && n.phases[r].job.client < |n.clients| && Busy(n.clients[n.phases[r].job.client])
            && (forall q :: 0 <= q < |n.phases| && q != r && Holds(n.phases[q]) ==>
                  n.phases[q].job.client != n.phases[r].job.client)
            && CloseOp(Some(n.phases[r].job.socket)) !in n.io
  {
    EveryRun(steps + more);
    FailedForGood(steps, more, r);
    ClosedExactlyAfterReply(steps + more, r);
    var n := Run(steps + more).value;
    forall q | 0 <= q < |n.phases| && q != r && Holds(n.phases[q])
      ensures n.phases[q].job.client != n.phases[r].job.client
    {
      assert q < r || r < q;
    }
  }

  lemma {:induction false} FailedForGood(steps: seq<Step>, more: seq<Step>, r: nat)
    requires Run(steps).Some? && Run(steps + more).Some?
    requires r < |Run(steps).value.phases| && Failed(Run(steps).value.phases[r])
    ensures r < |Run(steps + more).value.phases|
    ensures Run(steps + more).value.phases[r] == Run(steps).value.phases[r]
  {
    if more == [] {
      assert steps + more == steps;
    } else {
      var init, all := more[..|more| - 1], steps + more;
      assert all[..|all| - 1] == steps + init;
      FailedForGood(steps, init, r);
      FailedStays(Run(steps + init).value, all[|all| - 1], r);
    }
  }

  lemma {:induction false} RunOneMore(steps: seq<Step>, s: Step)
    requires Run(steps).Some? && Enabled(Run(steps).value, s)
    ensures Run(steps + [s]) == Some(Next(Run(steps).value, s))
  {
    var all := steps + [s];
    assert all[..|all| - 1] == steps;
  }

  /** The run can go on so that the client becomes recyclable. */
  ghost predicate GivenBack(steps: seq<Step>, more: seq<Step>, c: nat) {
    Run(steps + more).Some? && c < |Run(steps + more).value.clients| && !Busy(Run(steps + more).value.clients[c])
  }

  /** The callback that brings a request closer to its end. */
  function Forward(ph: Phase, r: nat): Step {
    match ph
    case Connecting(_) => ConnectDone(r, true)
    case Sending(_) => SendDone(r, true)
    case Receiving(_) => MessageReceived(r, "")
    case _ => SocketClosed(r)
  }

  function StepsLeft(ph: Phase): nat {
    match ph
    case Connecting(_) => 3
    case Sending(_) => 2
    case Receiving(_) => 1
    case _ => 0
  }

  lemma ForwardHelps(p: Pool, r: nat, c: nat)
    requires SafePool(p) && HeldBy(p, c, r) && !Failed(p.phases[r])
    ensures var s := Forward(p.phases[r], r);
            && Enabled(p, s)
            && if p.phases[r].Closing? then c < |Next(p, s).clients| && !Busy(Next(p, s).clients[c])
               else HeldBy(Next(p, s), c, r) && !Failed(Next(p, s).phases[r])
                    && StepsLeft(Next(p, s).phases[r]) < StepsLeft(p.phases[r])
  {
  }

  /** A request that has not failed can be brought to its end. */
  lemma {:induction false} RequestCanEnd(steps: seq<Step>, r: nat, c: nat) returns (more: seq<Step>)
    requires Run(steps).Some? && HeldBy(Run(steps).value, c, r) && !Failed(Run(steps).value.phases[r])
    ensures GivenBack(steps, more, c)
    decreases StepsLeft(Run(steps).value.phases[r])
  {
    var p := Run(steps).value;
    var s := Forward(p.phases[r], r);
    RunIsSafe(steps);
    ForwardHelps(p, r, c);
    RunOneMore(steps, s);
    if p.phases[r].Closing? {
      more := [s];
    } else {
      var rest := RequestCanEnd(steps + [s], r, c);
      more := [s] + rest;
      JoinLists(steps, [s], rest);
    }
  }

  lemma {:induction false} RunIsSafe(steps: seq<Step>)
    requires Run(steps).Some?
    ensures SafePool(Run(steps).value)
  {
    EveryRun(steps);
  }

  /** A client can still be given back exactly if no connect or send of a request it carries has
      failed. */
  lemma {:induction false} GivenBackExact(steps: seq<Step>, c: nat)
    requires Run(steps).Some? && c < |Run(steps).value.clients|
    ensures (exists more :: GivenBack(steps, more, c)) <==> !Lost(Run(steps).value, c)
  {
    var p := Run(steps).value;
    EveryRun(steps);
    if more :| GivenBack(steps, more, c) && Lost(p, c) {
      var r: nat :| r < |p.phases| && Failed(p.phases[r]) && p.phases[r].job.client == c;
      FailureLosesClient(steps, more, r);
      assert false;
    }
    if !Lost(p, c) {
      if Busy(p.clients[c]) {
        var r: nat :| HeldBy(p, c, r);
        var more := RequestCanEnd(steps, r, c);
      } else {
        assert steps + [] == steps;
        assert GivenBack(steps, [], c);
      }
    }
  }

  /** No callback is outstanding. */
  predicate Settled(p: Pool) {
    forall r :: 0 <= r < |p.phases| ==> !Pending(p.phases[r]) && !p.phases[r].Closing?
  }

  /** Once everything has settled the busy clients are exactly the lost ones, one for each failed
      request. */
  lemma {:induction false} SettledBusyIsLost(steps: seq<Step>)
    requires Run(steps).Some? && Settled(Run(steps).value)
    ensures var p := Run(steps).value;
            && (forall c: nat :: c < |p.clients| ==> (Busy(p.clients[c]) <==> Lost(p, c)))
            && Count(p.clients, Busy) == Count(p.phases, Failed)
  {
    var p := Run(steps).value;
    EveryRun(steps);
    forall c: nat | c < |p.clients|
      ensures Busy(p.clients[c]) <==> Lost(p, c)
    {
      if Busy(p.clients[c]) {
        var r: nat :| HeldBy(p, c, r);
        assert Failed(p.phases[r]);
      }
      if Lost(p, c) {
        var r: nat :| r < |p.phases| && Failed(p.phases[r]) && p.phases[r].job.client == c;
        assert HeldBy(p, c, r);
      }
    }
    CountImplies(p.phases, Failed, Holds);
    CountImplies(p.phases, Holds, Failed);
  }

  /** Such runs exist: a request whose connect fails, and one whose send fails. */
  lemma {:induction false} FailuresHappen(call: Call, ip: Address)
    ensures var steps := [SendToAddress(call, ip), ConnectDone(0, false)];
            Run(steps).Some? && Lost(Run(steps).value, 0)
    ensures var steps := [SendToAddress(call, ip), ConnectDone(0, true), SendDone(0, false)];
            Run(steps).Some? && Lost(Run(steps).value, 0)
  {
    var first, second := SendToAddress(call, ip), ConnectDone(0, true);
    var none: seq<Step> := [];
    RunOneMore(none, first);
    assert none + [first] == [first];
    var p := Run([first]).value;
    assert p.phases[0] == Connecting(Job(0, 0, ip));
    RunOneMore([first], ConnectDone(0, false));
    assert [first] + [ConnectDone(0, false)] == [first, ConnectDone(0, false)];
    assert Failed(Run([first, ConnectDone(0, false)]).value.phases[0]);
    RunOneMore([first], second);
    assert [first] + [second] == [first, second];
    RunOneMore([first, second], SendDone(0, false));
    assert [first, second] + [SendDone(0, false)] == [first, second, SendDone(0, false)];
    assert Failed(Run([first, second, SendDone(0, false)]).value.phases[0]);
  }

  /** So the pool has at least one client for every failure there has ever been. */
  lemma {:induction false} FailuresGrowThePool(steps: seq<Step>)
    requires Run(steps).Some?
    ensures Count(Run(steps).value.phases, Failed) <= |Run(steps).value.clients|
  {
    EveryRun(steps);
    CountImplies(Run(steps).value.phases, Failed, Holds);
  }

  // ----- The C++ objects ------------------------------------------------------------------

  class HttpClient {
    var ip: Address
    var socket: Option<nat>
    var canBeRecycled: bool

    ghost function View(): Client
      reads this
    {
      Client(canBeRecycled, socket, ip)
    }

    constructor (ip: Address)
      ensures View() == Client(false, None, ip)
    {
      this.ip := ip;
      socket := None;
      canBeRecycled := false;
    }

    /** `restart`; the precondition is its assertion. */
    method Restart(ip: Address)
      requires canBeRecycled
      modifies this
      ensures View() == Client(false, None, ip)
    {
      canBeRecycled := false;
      socket := None;
      this.ip := ip;
    }

    method MarkDead()
      modifies `canBeRecycled
      ensures View() == old(View()).(recyclable := true)
    {
      canBeRecycled := true;
    }

    method CanBeRecycled() returns (b: bool)
      ensures b == View().recyclable
    {
      b := canBeRecycled;
    }

    /** `send_request`: takes a newly created socket and asks for a connection. */
    method SendRequest(created: nat) returns (op: IoOp)
      modifies `socket
      ensures View() == old(View()).(socket := Some(created))
      ensures op == ConnectOp(Some(created), View().ip)
    {
      socket := Some(created);
      op := ConnectOp(socket, ip);
    }

    /** `send_request_connected`: prints the request and sends it. */
    method SendRequestConnected(call: Call) returns (op: IoOp)
      ensures op == SendOp(View().socket, TextOf(call))
    {
      var data := PrintRequest(call.method_, call.endpoint, call.payload);
      op := SendOp(socket, data);
    }
  }

  ghost function Views(cs: seq<HttpClient>): (vs: seq<Client>)
    reads cs
    ensures |vs| == |cs| && forall i :: 0 <= i < |cs| ==> vs[i] == cs[i].View()
  {
    if cs == [] then [] else Views(cs[..|cs| - 1]) + [cs[|cs| - 1].View()]
  }

  predicate Distinct(cs: seq<HttpClient>) {
    forall i, j :: 0 <= i < j < |cs| ==> cs[i] != cs[j]
  }

  /** `FirstRecyclable` is the first index that is. */
  lemma {:induction false} FirstRecyclableIs(clients: seq<Client>, i: nat)
    requires i < |clients| && clients[i].recyclable
    requires forall k :: 0 <= k < i ==> !clients[k].recyclable
    ensures FirstRecyclable(clients) == i
  {
    if i > 0 {
      FirstRecyclableIs(clients[1..], i - 1);
    }
  }

  lemma {:induction false} NoneRecyclable(clients: seq<Client>)
    requires forall k :: 0 <= k < |clients| ==> !clients[k].recyclable
    ensures FirstRecyclable(clients) == |clients|
  {
    if clients != [] {
      NoneRecyclable(clients[1..]);
    }
  }

  lemma {:induction false} AppendView(cs: seq<HttpClient>, c: HttpClient)
    ensures Views(cs + [c]) == Views(cs) + [c.View()]
  {
    assert (cs + [c])[..|cs|] == cs;
  }

  method RestartClient(cs: seq<HttpClient>, i: nat, ip: Address)
    requires Distinct(cs) && i < |cs| && cs[i].canBeRecycled
    modifies cs[i]
    ensures Views(cs) == old(Views(cs))[i := Client(false, None, ip)]
  {
    var c: HttpClient := cs[i];
    c.Restart(ip);
  }

  method ConnectClient(cs: seq<HttpClient>, i: nat, created: nat) returns (op: IoOp)
    requires Distinct(cs) && i < |cs|
    modifies cs[i]
    ensures Views(cs) == Connect(old(Views(cs)), i, created)
    ensures op == ConnectOp(Views(cs)[i].socket, Views(cs)[i].ip)
  {
    op := cs[i].SendRequest(created);
  }

  method ReleaseClient(cs: seq<HttpClient>, i: nat)
    requires Distinct(cs) && i < |cs|
    modifies cs[i]
    ensures Views(cs) == old(Views(cs))[i := Client(true, old(cs[i].socket), old(cs[i].ip))]
  {
    cs[i].MarkDead();
  }

  /** The receive callback reads the message with a parser of its own. */
  method ReadMessage(message: string) returns (result: HttpResult)
    ensures result == ReadReply(message)
  {
    var parser := new HttpParser();
    var _ := parser.ParseInput(message);
    var status := parser.GetStatusCode();
    result := HttpResult(status, parser.payload);
  }

  /** The manager's clients, with the network's side of the protocol (which callbacks are
      outstanding, what was asked of it, what was delivered) recorded beside them. */
  class HttpClientManager {
    var registration: seq<HttpClient>
    var calls: seq<Call>
    var phases: seq<Phase>
    var sockets: nat
    var io: seq<IoOp>
    var results: seq<Delivery>

    ghost predicate Fine()
      reads this
    {
      Distinct(registration) && |calls| == |phases|
    }

    ghost function View(): Pool
      reads this, registration
    {
      Pool(Views(registration), calls, phases, sockets, io, results)
    }

    constructor ()
      ensures Fine() && View() == EMPTY_POOL
    {
      registration, calls, phases, sockets, io, results := [], [], [], 0, [], [];
    }

    /** The search in `allocate_http_client`: the first client that can be recycled. */
    method FindRecyclable() returns (slot: nat)
      ensures slot == FirstRecyclable(Views(registration))
    {
      slot := 0;
      while slot < |registration|
        invariant slot <= |registration|
        invariant forall k :: 0 <= k < slot ==> !Views(registration)[k].recyclable
      {
        var reusable := registration[slot].CanBeRecycled();
        if reusable {
          FirstRecyclableIs(Views(registration), slot);
          return;
        }
        slot := slot + 1;
      }
      NoneRecyclable(Views(registration));
    }

    /** `allocate_http_client`: restarts that client, or adds one. */
    method AllocateHttpClient(ip: Address) returns (slot: nat)
      requires Distinct(registration)
      modifies `registration, registration
      ensures Distinct(registration) && slot == FirstRecyclable(old(Views(registration)))
      ensures slot < |registration| && (registration[slot] in old(registration) || fresh(registration[slot]))
      ensures Views(registration) == Allocate(old(Views(registration)), ip)
    {
      slot := FindRecyclable();
      if slot < |registration| {
        ReuseClient(slot, ip);
      } else {
        AddClient(ip);
      }
    }

    method ReuseClient(slot: nat, ip: Address)
      requires Distinct(registration) && slot == FirstRecyclable(Views(registration)) < |registration|
      modifies registration
      ensures Views(registration) == Allocate(old(Views(registration)), ip)
    {
      RestartClient(registration, slot, ip);
    }

    method AddClient(ip: Address)
      requires Distinct(registration) && FirstRecyclable(Views(registration)) == |registration|
      modifies `registration
      ensures |registration| == |old(registration)| + 1 && registration[..|old(registration)|] == old(registration)
      ensures fresh(registration[|old(registration)|]) && Distinct(registration)
      ensures Views(registration) == Allocate(old(Views(registration)), ip)
    {
      var client := new HttpClient(ip);
      AppendView(registration, client);
      registration := registration + [client];
    }

    method LaunchClient(ip: Address, created: nat) returns (slot: nat, op: IoOp)
      requires Distinct(registration)
      modifies `registration, registration
      ensures Distinct(registration) && slot == FirstRecyclable(old(Views(registration)))
      ensures Views(registration) == Connect(Allocate(old(Views(registration)), ip), slot, created)
      ensures op == ConnectOp(Views(registration)[slot].socket, Views(registration)[slot].ip)
    {
      slot := AllocateHttpClient(ip);
      op := ConnectClient(registration, slot, created);
    }

    /** Allocates a client and sends request `r` with it. */
    method LaunchRequest(r: nat, ip: Address)
      requires Distinct(registration) && r < |phases|
      modifies this, registration
      ensures Distinct(registration) && View() == Launch(old(View()), r, ip)
    {
      var slot, op := LaunchClient(ip, sockets);
      LaunchIs(old(View()), r, ip, Views(registration));
      RecordLaunch(r, Job(slot, sockets, ip), op);
    }

    method RecordLaunch(r: nat, job: Job, op: IoOp)
      requires r < |phases|
      modifies `phases, `sockets, `io
      ensures View() == old(View()).(phases := old(phases)[r := Connecting(job)], sockets := old(sockets) + 1,
                                     io := old(io) + [op])
    {
      phases := phases[r := Connecting(job)];
      sockets := sockets + 1;
      io := io + [op];
    }

    method SendRequestToAddress(call: Call, ip: Address)
      requires Fine()
      modifies this, registration
      ensures Fine() && View() == Next(old(View()), SendToAddress(call, ip))
    {
      calls, phases := calls + [call], phases + [Resolving];
      LaunchRequest(|phases| - 1, ip);
    }

    method SendRequestToUrl(call: Call)
      requires Fine()
      modifies this
      ensures Fine() && View() == Next(old(View()), SendToUrl(call))
    {
      calls, phases := calls + [call], phases + [Resolving];
    }

    method Deliver(r: nat, result: HttpResult, phase: Phase)
      requires r < |phases|
      modifies `results, `phases
      ensures View() == Finish(old(View()), r, result, phase)
    {
      results := results + [Delivery(r, result)];
      phases := phases[r := phase];
    }

    method ResolveCallback(r: nat, addresses: Option<seq<nat>>)
      requires Fine() && SafePool(View()) && Enabled(View(), ResolveDone(r, addresses))
      modifies this, registration
      ensures Fine() && View() == Next(old(View()), ResolveDone(r, addresses))
    {
      if addresses.None? {
        Deliver(r, HttpResult(SERVICE_UNAVAILABLE, ""), Unresolved);
      } else if addresses.value == [] {
        Deliver(r, HttpResult(SERVICE_UNAVAILABLE, ""), Unresolved);
      } else {
        LaunchRequest(r, Address(addresses.value[0], calls[r].port));
      }
    }

    method ConnectCallback(r: nat, ok: bool)
      requires Fine() && SafePool(View()) && Enabled(View(), ConnectDone(r, ok))
      modifies this
      ensures Fine() && View() == Next(old(View()), ConnectDone(r, ok))
    {
      var job := phases[r].job;
      if !ok {
        Deliver(r, HttpResult(NOT_REACHABLE, ""), ConnectFailed(job));
        return;
      }
      var op := registration[job.client].SendRequestConnected(calls[r]);
      phases, io := phases[r := Sending(job)], io + [op];
    }

    method SendCallback(r: nat, ok: bool)
      requires Fine() && SafePool(View()) && Enabled(View(), SendDone(r, ok))
      modifies this
      ensures Fine() && View() == Next(old(View()), SendDone(r, ok))
    {
      var job := phases[r].job;
      if !ok {
        Deliver(r, HttpResult(NOT_REACHABLE, ""), SendFailed(job));
        return;
      }
      phases, io := phases[r := Receiving(job)], io + [RecvOp(registration[job.client].socket)];
    }

    method ReceiveCallback(r: nat, message: string)
      requires Fine() && SafePool(View()) && Enabled(View(), MessageReceived(r, message))
      modifies this
      ensures Fine() && View() == Next(old(View()), MessageReceived(r, message))
    {
      var job := phases[r].job;
      var result := ReadMessage(message);
      Deliver(r, result, Closing(job));
      io := io + [CloseOp(registration[job.client].socket)];
    }

    method CloseCallback(r: nat)
      requires Fine() && SafePool(View()) && Enabled(View(), SocketClosed(r))
      modifies this, registration
      ensures Fine() && View() == Next(old(View()), SocketClosed(r))
    {
      var job := phases[r].job;
      ReleaseClient(registration, job.client);
      phases := phases[r := Closed(job)];
    }
  }
}
