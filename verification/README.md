# Verification of the HTTP/1.1 library

A Dafny model of the library's protocol logic, with proofs: how requests are put together from
packets and dispatched, how messages are printed and read back, how templates are matched and
which one wins, how the client pool hands out and takes back clients, how encrypted bytes reach the
TLS layer, and how URLs are read and printed.  `dafny verify dfyconfig.toml` checks everything.

| file | models |
|---|---|
| `Text.dfy`, `OrderedMap.dfy`, `Wrappers.dfy`, `Counting.dfy` | byte strings, trimming, splitting, decimal numbers, `std::stoul`/`std::stoi`, `std::map` in byte order |
| `HttpParser.dfy` | `HttpParser`: the `getline` scan, the header map, the accessors |
| `HttpSession.dfy`, `Truncation.dfy` | `HttpSession`: one buffer, re-parsed after every packet |
| `HttpServer.dfy` | `HttpServer`: sessions per port, dispatch, replies |
| `Routing.dfy` | `split`, `endpoint_matches`, `find_handler` |
| `Messages.dfy`, `ReplyHeaders.dfy`, `FixedHeaders.dfy`, `ReplyCut.dfy` | the request and reply printers against the parser, and replies of which only a part is read |
| `EndToEnd.dfy` | a client's call through printing, packets, dispatch, routing, reply and reading |
| `ClientPool.dfy` | `HttpClientManager` and `HttpClient` as a step protocol |
| `MbedTls.dfy` | TLS connection states and byte queues |
| `Url.dfy` | `URL::parse`, `URL::to_string` |

Where the C++ code updates an object in place there is a class with the same fields.  Each of the
library's classes has a function `View` giving its state as one value, and its methods are proved to
take `View` where a specification function says (`Feed`, `Parse`, `Next`, `Receive`, ...).  The theorems are about
those functions: every run, every packet cut, every interleaving.  Proofs are written out and no
lemma relies on automatic induction (`{:induction false}`).

## What the proofs found

The code is modelled as it is.  These places behave differently from what its comments or a caller
might expect; for each the exact condition is proved.

- **Packet cuts.** A message is put together correctly exactly when every cut is a *safe cut*:
  Content-Length is already visible, and the last visible header line is harmless (it declares
  nothing, a name already declared, or "method", or cutting it off has not changed its trimmed
  value).  `Truncation.CutInsideContentLength` shows what happens otherwise: a cut before the last
  digit of Content-Length hands out a tenth of the body as the whole request.
- **Dispatch.** On the server one more kind of cut is survived: while the endpoint is not visible
  the server only logs an error and keeps the session.  `HttpServers.ServedOnceExact` gives the
  exact condition for a request to be dispatched once, as if parsed alone.
- **Literals before wildcards.** This holds only because of byte order, and only for literals that
  are empty or start with a byte below '{'.  A literal starting with '|' or above (any non-ASCII
  byte) loses to the wildcard.
- **Replies in several messages.** The client takes the first message it receives for the whole
  reply.  It reads the status and payload that were sent exactly when that message holds the whole
  reply or, for an empty payload, the status code, a blank and one more byte (nothing at all is
  needed if the status is 400, which is what a missing status reads as): `ReplyCuts.CutReplyExact`.
- **Failed connect or send.** The client is never marked recyclable again and its socket is never
  closed.  A client can still be given back exactly if no request it carries has failed in this
  way (`ClientPool.GivenBackExact`), a socket is closed exactly if a reply was received on it
  (`ClientPool.ClosedExactlyAfterReply`), and once no callback is outstanding the busy clients are
  exactly the lost ones (`ClientPool.SettledBusyIsLost`).
- **The assertion in `split`** fails exactly when there is a template to try and the endpoint, or a
  template tried before one matches, does not start with a slash (`Routing.SplitAssertionExact`).
- **`URL::to_string`** drops the port and prints SAP as https; the URL comes back exactly when it
  is not SAP and its port is the default one (`Urls.PrintAndReparse`).
- **Handshake loop.** The loop never returns exactly when mbedtls, from some call on, reports
  WANT_READ every time without asking for a byte while data is queued
  (`TlsConnections.HandshakeEndlessExact`).  A stall that ends is survived.

## Reading the model

- A `char` stands for one byte.  `std::size_t` is taken modulo 2^64, the status code modulo 2^16.
  Bounds such as "below 2^64 - 1" on the size of a message stand for the size of memory.
- `StringUtils::trim`, `split` and `to_upper` are not part of the repository's text.  They are
  defined here: white space is stripped at both ends, splitting is on one character and keeps empty
  tokens, upper-casing is ASCII.  Results about endpoints ask for endpoints without a blank, so
  empty tokens do not matter to them.
- A `std::map` is the sequence of its entries in key order; the parser's header map, whose order is
  never used, is a Dafny map.
- A handler is a function that returns one result.  An exception of `std::stoul` is the outcome
  `Threw`; the session is kept as the code leaves it.  When the assertion in `split` fails there is
  no reply (`AssertionFailed`).
- mbedtls is an oracle: for every call it names the lengths it will ask `recv_cb` for and the code
  it will return.
- The date, the interface address and the server name are given strings.  The port constants of the
  network library are parameters.
- The message format is that of section 2.1 of RFC 9112 and body length by Content-Length that of
  its section 6.2; header names are compared case-sensitively, as the code does.

## Model

| member | source | states |
|---|---|---|
| HttpParsing.ScanReadsTheInput | include/http/HttpParser.hpp:154-173 | the lines the loop reads are exactly the input up to the blank line, cut at each LF; without a blank line they are all of it |
| HttpParsing.ScanFindsFirstBlankLine | include/http/HttpParser.hpp:29-40 | `tellg` gives the end of the first line that is just CR LF, and -1 exactly when there is none |
| HttpParsing.ScanStable | include/http/HttpParser.hpp:154-173 | once the blank line is there, the scan of every extension is the same |
| HttpParsing.ParseLookup | include/http/HttpParser.hpp:154-173 | one parse: a name already held keeps its value, other names get their first declaration, "method" is overwritten by a first line if there is one |
| HttpParsing.HeadersAfterManyParses | include/http/HttpParser.hpp:154-173 | after any sequence of parses every name but "method" has the first value ever declared for it, and "method" the last first line |
| HttpParsing.ParsedHeadersHaveNoLF | include/http/HttpParser.hpp:158-171 | no header value ever held contains LF, however often the parser was reused |
| HttpParsing.InputStream.GetLine | include/http/HttpParser.hpp:158 | `std::getline`: the text up to the next LF, what is left after it, end-of-file and failure flags |
| HttpParsing.InputStream.Tellg | include/http/HttpParser.hpp:32 | -1 exactly when the stream has reached its end or failed |
| HttpParsing.HttpParser.ParseInput | include/http/HttpParser.hpp:23-43 | the object's new state is one `Parse` of the old one, including the state an unfinished header leaves |
| HttpParsing.HttpParser.ParseHeaders | include/http/HttpParser.hpp:154-173 | the getline loop reads the lines of the specification's scan, stops where it stops, and stores the headers it stores |
| HttpParsing.HttpParser.GetEndpoint | include/http/HttpParser.hpp:45-54 | the second token of the first line, or nothing; an absent "method" entry becomes an empty one |
| HttpParsing.HttpParser.GetType | include/http/HttpParser.hpp:80-102 | the method named by the first token, UNKNOWN for any other |
| HttpParsing.HttpParser.GetStatusCode | include/http/HttpParser.hpp:119-140 | the second token as a number cut to 16 bits; BAD_REQUEST for fewer than three tokens or no number |
| HttpParsing.HttpParser.GetContentSize | include/http/HttpParser.hpp:69-78 | absent, the number `std::stoul` reads, or its exception |
| HttpParsing.HttpParser.GetHeaderSize | include/http/HttpParser.hpp:142-145 | the stored size as `std::size_t`: an unfinished header reads as 2^64-1 |
| HttpSessions.GuardedSubtraction | src/HttpServer.cpp:370-379 | the unsigned subtraction in the completeness test never wraps after the guard before it, and an unfinished header never gets there |
| HttpSessions.AfterPackets | src/HttpServer.cpp:351-361 | a session fed with packets holds their concatenation and a parser that has parsed every prefix in turn; the verdict is decided from those |
| HttpSessions.PayloadIsTheRest | include/http/HttpParser.hpp:32-41 | after any packets, header bytes and payload make up the buffer once the header section is complete, and there is no payload before that |
| HttpSessions.CleanTailMeansAgreement | include/http/HttpParser.hpp:165-171 | the check on the last visible line holds if and only if every name visible so far already has its final value |
| HttpSessions.BufferScan | src/HttpServer.cpp:352-361 | scanning a prefix of a message sees the visible part of its header section and ends at the header's end, or not at all |
| HttpSessions.MapFollowsView | include/http/HttpParser.hpp:168-170 | after any packets a name is held exactly when it is visible, and a right value that is held is visible |
| HttpSessions.VerdictFollowsMap | src/HttpServer.cpp:363-386 | the verdict after any packets of a message, from the Content-Length held and the number of bytes arrived |
| HttpSessions.FirstLineFollowsView | include/http/HttpParser.hpp:160-164 | "method" is the first line as far as it is visible |
| HttpSessions.CleanCutVerdict | src/HttpServer.cpp:363-386 | after harmless cuts the session waits if Content-Length is visible and calls the request complete if it is not |
| HttpSessions.RightHeadersNeedCleanCut | include/http/HttpParser.hpp:165-171 | if the header map ends up as one parse of the whole message gives it, no cut fell on a harmful line |
| HttpSessions.ReassemblyExact | src/HttpServer.cpp:339-387 | a message cut into packets is INCOMPLETE at every proper prefix, COMPLETE at the end, with the headers and payload of one parse, if and only if every cut is safe |
| HttpSessions.LineEndsAreSafe | src/HttpServer.cpp:339-387 | cuts at header-line ends and after the header section are safe once Content-Length is declared |
| HttpSessions.HttpSession.HandleIncomingHttpPacket | src/HttpServer.cpp:339-387 | the new session is `Feed` of the old one and the state returned is the specification's verdict, empty packets and exceptions included |
| Truncation.ShortLengthWins | src/HttpServer.cpp:351-386 | if a cut leaves a shorter Content-Length behind, that one wins: the request completes after that many body bytes |
| Truncation.CutInsideContentLength | src/HttpServer.cpp:339-387 | for every message of ten or more body bytes, a cut before the last digit makes a tenth of the body the whole payload |
| HttpServers.PortsAreIndependent | src/HttpServer.cpp:390-435 | however packets of many ports interleave, each port's session and outcomes are those of a fresh server fed that port's packets only |
| HttpServers.SessionsHoldTheBacklog | src/HttpServer.cpp:394-434 | a port has a session exactly when it got packets since its last dispatch, and the session is a function of those packets |
| HttpServers.TouchedFeed | include/http/HttpParser.hpp:45-54 | the empty "method" entry an accessor leaves behind changes neither verdict nor endpoint, and is gone once there is an endpoint |
| HttpServers.QuietFollows | src/HttpServer.cpp:394-419 | while nothing is dispatched, a port's session is the one its packets lead to |
| HttpServers.QuietStep | src/HttpServer.cpp:401-434 | the first packet at which the session is complete with an endpoint is the one that dispatches, and the port is idle after it |
| HttpServers.EarlyMeansHarmful | src/HttpServer.cpp:401-413 | with no harmful line, a request looks complete early exactly at the cuts where the endpoint is visible and the length is not |
| HttpServers.ServedOnceExact | src/HttpServer.cpp:390-435 | on an idle port a request is dispatched once, as if parsed alone, leaving the port idle, if and only if every cut is harmless |
| HttpServers.RequestsInTurn | src/HttpServer.cpp:394-434 | requests sent in turn to one port are dispatched once each, in order, with endpoint, method, headers and payload as if parsed alone |
| HttpServers.RequestsAreDispatchedInOrder | src/HttpServer.cpp:390-435 | the same under any traffic on other ports, with nothing left behind |
| HttpServers.EmptyPacketEndsRequest | src/HttpServer.cpp:344-349 | an empty packet has what arrived so far dispatched if it has an endpoint, and keeps the session if not |
| HttpServers.BadLengthIsStuck | src/HttpServer.cpp:363-386 | once a Content-Length that is no number is held, every further packet of the port throws and nothing is dispatched |
| HttpServers.RegisterKeeps | src/HttpServer.cpp:139-146 | after any registrations each method's map holds, in order, exactly the function last registered for that method under each template |
| HttpServers.RegisteredHandlerAnswers | src/HttpServer.cpp:123-137 | a request is answered by the function last registered for its method under the least matching template, with the path, the payload and the bound values; without one by 404; other methods do not matter |
| HttpServers.HttpServer.constructor | include/http/HttpServer.hpp:66-74 | a new server has no sessions, no handlers and no registrations |
| HttpServers.HttpServer.RegisterEndpointHandler | src/HttpServer.cpp:139-146 | the registration is added to those the handler map answers for |
| HttpServers.HttpServer.FindHandler | src/HttpServer.cpp:123-137 | the first template in map order that matches, with its parameters; looking up a method creates its empty map |
| HttpServers.HttpServer.HandleEndpoint | src/HttpServer.cpp:304-337 | the reply of the chosen handler, or 404 with an empty object |
| HttpServers.HttpServer.EnsureSession | src/HttpServer.cpp:394-398 | a port without a session gets a new one, every other session stays |
| HttpServers.HttpServer.FeedSession | src/HttpServer.cpp:400-402 | one packet changes the session of its port only |
| HttpServers.HttpServer.FinishRequest | src/HttpServer.cpp:411-434 | endpoint and type are read, the request is answered and its session erased, or the session is kept when one is missing |
| HttpServers.HttpServer.HandleIncomingHttpPacket | src/HttpServer.cpp:390-435 | one packet: the new sessions and the outcome are those of the specification, and a dispatched request gets the reply of the function registered for it |
| OrderedMaps.LessTotal | include/http/HttpServer.hpp:66 | byte order on keys is total |
| OrderedMaps.LessTransitive | include/http/HttpServer.hpp:66 | byte order on keys is transitive |
| OrderedMaps.LessExact | include/http/HttpServer.hpp:66 | byte order is: a proper prefix, or smaller at the first byte that differs |
| OrderedMaps.PutKeepsOrder | src/HttpServer.cpp:145 | assigning to a key keeps the map order, replaces that key's entry and no other |
| Routing.Split | src/HttpServer.cpp:45-69 | the index loop returns the segments after the first separator |
| Routing.SplitInvertsJoin | src/HttpServer.cpp:45-69 | splitting slash-terminated segments gives them back, and two paths have the same segments if and only if they agree after adding a missing final slash |
| Routing.EndpointMatches | src/HttpServer.cpp:72-120 | true if and only if the segment counts agree and every segment that is no wildcard is equal; then the parameters are the bound ones |
| Routing.MatchBinds | src/HttpServer.cpp:91-119 | on a match there is one parameter per wildcard, in order and named after it, and putting the values back gives the path |
| Routing.NamesAreBound | src/HttpServer.cpp:93-105 | a template of literals and names in braces binds, on a match, exactly each name to the segment in its place, in order |
| Routing.InstanceMatches | src/HttpServer.cpp:91-119 | every instance of a template matches it and yields the values it was made from |
| Routing.InstantiatedPathMatches | src/HttpServer.cpp:72-120 | the same for whole paths with slash-free values, with or without the final slash |
| Routing.FindInOrder | src/HttpServer.cpp:128-136 | the loop over the map returns the first matching template and its parameters |
| Routing.RouteIsLeast | src/HttpServer.cpp:128-136 | no template before the chosen one matches, and nothing is found exactly when none matches |
| Routing.SplitAssertionExact | src/HttpServer.cpp:45-50 | the assertion in `split` fails if and only if there is a template to try and the path, or a template tried before one matches, does not start with a slash |
| Routing.LiteralBeforeWildcard | include/http/HttpServer.hpp:66 | at the first segment where two templates differ, the literal one comes first if and only if the literal is empty or starts below '{'; otherwise the wildcard one does |
| Routing.LiteralWins | src/HttpServer.cpp:123-137 | of two registered templates that match a path, the one that loses that comparison is never chosen |
| Messages.ScanReadsPrinted | include/http/HttpParser.hpp:154-173 | the scan of a printed message returns the printed lines and stops at the printed blank line, whatever the body contains |
| Messages.PrintRequest | src/HttpClient.cpp:50-64 | the appends produce the request text of the specification |
| Messages.RequestParsed | src/HttpClient.cpp:50-64 | the first line, payload and content size a parser reads from any printed request, and that its head is a complete header section declaring the payload's length |
| Messages.RequestRoundTrip | src/HttpClient.cpp:50-64 | a fresh parser reads method, endpoint, payload and its length back, for all seven methods and every payload |
| Messages.EndpointRoundTripExact | src/HttpClient.cpp:50-64 | the endpoint comes back if and only if it contains no blank and no LF |
| Messages.CreateReplyString | src/HttpServer.cpp:196-301 | the appends produce the reply text of the specification |
| Messages.PrintExtraLines | src/HttpServer.cpp:243-255 | the loop prints the handler's headers in order and its two flags say whether the allow-lists were among them |
| Messages.ReplyRoundTrip | src/HttpServer.cpp:196-301 | a fresh parser reads status, payload and content size back for every 16-bit status and payload, whatever headers the handler added |
| ReplyHeaders.ReplyHeadersRead | src/HttpServer.cpp:230-293 | apart from the fixed headers a client reads the handler's headers, the allow-lists echoed from the request where the handler set none, and the closing of the connection; nothing else |
| FixedHeaders.FixedHeadersRead | src/HttpServer.cpp:207-232 | the value a client reads for each of the six fixed headers, the content type included, whatever the handler added |
| FixedHeaders.StatusLineRead | src/HttpServer.cpp:208-209 | the first line a client reads: version, code and reason |
| FixedHeaders.ReasonPhrases | src/HttpServer.cpp:171-194 | the reason phrase of each of the five named statuses, and of any other |
| FixedHeaders.AnyStatusRead | include/http/HttpParser.hpp:129-139 | a status code of any size is read modulo 2^16, or as 400 if it is no `int` |
| FixedHeaders.RequestLineRead | src/HttpClient.cpp:51-54 | the first line a server reads from a request, for each of the seven methods |
| FixedHeaders.RequestHeadersRead | src/HttpClient.cpp:55-62 | the value a server reads for each header of a request; there is a content type if and only if there is a payload |
| FixedHeaders.NoOtherHeaders | src/HttpClient.cpp:50-64 | a request has no other header |
| FixedHeaders.MethodsExact | include/http/HttpParser.hpp:80-102 | the first word of any request line is read as one of the six methods if and only if it is that word, as UNKNOWN otherwise |
| EndToEnd.CallIsDeliverable | src/HttpClient.cpp:43-72 | a printed call cut at harmless places is dispatched with the caller's method, endpoint and payload |
| EndToEnd.AnswerIsPrinted | src/HttpServer.cpp:304-337 | the reply is the result of the function registered for the call, or 404, printed |
| EndToEnd.AnswerHeadersAreRead | src/HttpServer.cpp:313-316 | the handler's content type and headers, and of the request's headers the echoed ones, are what the client reads |
| ReplyCuts.CutReplyRead | src/HttpClient.cpp:86-95 | what the client makes of the first bytes of a reply, for any number of them |
| ReplyCuts.CutReplyExact | src/HttpClient.cpp:86-104 | the client reads the status and payload that were sent if and only if enough of the reply is in the first message it receives |
| EndToEnd.AnswerIsRead | src/HttpServer.cpp:304-337 | the client reads the status and body of the handler's result from the whole reply, and from a first part of it if and only if that is enough |
| EndToEnd.CallReachesHandlerAndReturns | src/HttpClient.cpp:43-107 | a call over an idle port, with any traffic on other ports, is dispatched once with its own data, and the client reads the status and body the chosen handler returned if and only if enough of the reply is in the first message it receives |
| EndToEnd.AnswerIsDelivered | src/HttpClient.cpp:86-104 | in a run of the client pool, a request that received a first part of that reply gets one result, and it is the answer if and only if that part is enough |
| ClientPool.FirstRecyclable | src/HttpClientManager.cpp:8-15 | the first recyclable client, or the number of clients if there is none |
| ClientPool.StepKeepsSafe | src/HttpClient.cpp:6-107 | every step keeps: requests that are not finished share no client, and each one's client has the socket and address made for it |
| ClientPool.StepKeepsCounts | src/HttpClientManager.cpp:5-19 | every step keeps as many busy clients as requests holding one, and the pool grows only when all of it is busy |
| ClientPool.StepKeepsDeliveries | src/HttpClientManager.cpp:30-64 | every step keeps: results plus pending requests are the requests issued, one result for each that is not pending and none for the others |
| ClientPool.ResultsExact | src/HttpClient.cpp:18-95 | a result is delivered if and only if a callback that fired decided on it: 503 without an address, 444 after a failed connect or send, otherwise what is read from the message received |
| ClientPool.DeliveredExactly | src/HttpClientManager.cpp:38-55 | the one result of a request, by how it ended: 503, 444, or what is read from the message received for it |
| ClientPool.StepKeepsWire | src/HttpClient.cpp:11-104 | every step keeps: each socket sees connect, its own request's text, one receive, one close, in this order, as far as its request got |
| ClientPool.ConnectsToItsAddress | src/HttpClientManager.cpp:57-62 | a request's socket is connected to the address it was issued for: the one given, or the first one resolved with the port of the URL |
| ClientPool.SendsItsCall | src/HttpClient.cpp:43-72 | what is sent on it reads back as the method, endpoint and payload the request was issued with |
| ClientPool.StepKeepsHolders | src/HttpClient.cpp:6-107 | every step keeps: a client is busy if and only if a request occupies it |
| ClientPool.EveryRun | src/HttpClientManager.cpp:5-64 | all of this at every reachable state, and the number of clients ever created is the largest number busy at one time |
| ClientPool.RecyclableOnlyAfterClose | src/HttpClient.cpp:92-102 | a client becomes recyclable only at the close callback of its request, after that request had its result and its socket was closed |
| ClientPool.ClosedExactlyAfterReply | src/HttpClient.cpp:86-104 | a request's socket is closed if and only if its reply was received |
| ClientPool.FailureLosesClient | src/HttpClient.cpp:18-29 | after a failed connect or send, in every continuation of the run, the client stays busy, no other request occupies it, and the socket is never closed |
| ClientPool.GivenBackExact | src/HttpClient.cpp:72-104 | some continuation of the run makes a client recyclable if and only if no request it carries has a failed connect or send |
| ClientPool.SettledBusyIsLost | src/HttpClient.cpp:14-104 | when no callback is outstanding a client is busy if and only if it is lost to a failed request, and there are as many such clients as failed requests |
| ClientPool.FailuresHappen | src/HttpClient.cpp:18-84 | runs that lose a client by a failed connect, and by a failed send |
| ClientPool.FailuresGrowThePool | src/HttpClient.cpp:74-84 | there are at least as many clients as failed requests |
| ClientPool.HttpClient.Restart | include/http/HttpClient.hpp:44-50 | a recyclable client becomes busy with the new address and no socket |
| ClientPool.HttpClient.MarkDead | include/http/HttpClient.hpp:52-55 | the client becomes recyclable, the rest stays |
| ClientPool.HttpClient.SendRequest | src/HttpClient.cpp:6-19 | the client gets the new socket and asks to connect it to its address |
| ClientPool.HttpClient.SendRequestConnected | src/HttpClient.cpp:43-72 | the printed request is sent on the client's socket |
| ClientPool.HttpClientManager.FindRecyclable | src/HttpClientManager.cpp:8-15 | the loop finds the first recyclable client |
| ClientPool.HttpClientManager.AllocateHttpClient | src/HttpClientManager.cpp:5-19 | that client is restarted, or one is added when there is none; the assertion in `restart` holds |
| ClientPool.HttpClientManager.SendRequestToAddress | src/HttpClientManager.cpp:22-28 | the step that issues a request to an address |
| ClientPool.HttpClientManager.SendRequestToUrl | src/HttpClientManager.cpp:30-38 | the step that issues a request and starts resolving |
| ClientPool.HttpClientManager.ResolveCallback | src/HttpClientManager.cpp:38-63 | the step of a failed, empty or successful resolution |
| ClientPool.HttpClientManager.ConnectCallback | src/HttpClient.cpp:16-38 | the step of a failed or successful connect |
| ClientPool.HttpClientManager.SendCallback | src/HttpClient.cpp:72-86 | the step of a failed or successful send |
| ClientPool.HttpClientManager.ReceiveCallback | src/HttpClient.cpp:86-104 | the step of a received reply: one result, then a close |
| ClientPool.HttpClientManager.CloseCallback | src/HttpClient.cpp:98-102 | the step that makes the client recyclable |
| TlsConnections.RestIsSuffix | src/MbedTLS.cpp:103-121 | what any calls of `recv_cb` leave is the end of the queue |
| TlsConnections.AskingTakes | src/MbedTLS.cpp:155-166 | if a byte is asked for and there is one, the queue gets shorter |
| TlsConnections.TakenAndRest | src/MbedTLS.cpp:155-166 | the bytes handed out followed by what is left are the queue |
| TlsConnections.Handshake | src/MbedTLS.cpp:169-210 | whenever the handshake returns, the bytes it consumed followed by the queue it leaves are the queue it found |
| TlsConnections.HandshakeLoopEnds | src/MbedTLS.cpp:180-208 | if each WANT_READ that leaves data consumed some, the loop makes at most one call more than there are bytes, and ends |
| TlsConnections.HandshakeUnrolls | src/MbedTLS.cpp:180-208 | as long as the loop is going, it ends if and only if the handshake from there does, and with the same result and queue |
| TlsConnections.HandshakeEndlessExact | src/MbedTLS.cpp:180-208 | the loop never returns if and only if, from some call on, mbedtls reports WANT_READ every time without asking for a byte while data is queued |
| TlsConnections.HandshakeLoopSpins | src/MbedTLS.cpp:184-189 | the simplest such case: mbedtls always reports WANT_READ after the same empty requests |
| TlsConnections.StallIsSurvived | src/MbedTLS.cpp:184-189 | any number of empty WANT_READs followed by success finishes the handshake |
| TlsConnections.HandshakeResultExact | src/MbedTLS.cpp:180-209 | a handshake that ends is finished if and only if some call of mbedtls it made returned 0, refused if and only if one failed, and not ready if and only if one wanted to write or reported WANT_READ with nothing left |
| TlsConnections.CallEventsExact | src/MbedTLS.cpp:229-309 | in one call the session is reset, the handshake done, the plaintext handler given exactly these bytes or the connection closed if and only if mbedtls and the state gave cause; an error is returned if and only if mbedtls failed |
| TlsConnections.EveryRun | src/MbedTLS.cpp:213-309 | in every interleaving of calls that return, whatever mbedtls does, each connection's history is an allowed one leading to its state, and bytes handed to TLS followed by its queue are the bytes accepted, in order |
| TlsConnections.HistoryExact | src/MbedTLS.cpp:213-309 | over whole runs: each of these events is in a connection's history if and only if some call for that connection was its cause |
| TlsConnections.AllowedHistory | src/MbedTLS.cpp:229-305 | in an allowed history the reset is the first event and no other, the handshake finishes at most once, the plaintext handler runs only after it, and nothing follows the close |
| TlsConnections.StatesMoveForward | src/MbedTLS.cpp:213-309 | a connection's state never moves back, and a closed one keeps state and queue for ever |
| TlsConnections.OthersUntouched | src/MbedTLS.cpp:213-309 | any number of calls for other connections leave a connection, its queue and its history as they were |
| TlsConnections.MbedTlsConnectionData.PushEncryptedData | src/MbedTLS.cpp:84-101 | the bytes are appended in order |
| TlsConnections.MbedTlsConnectionData.CopyOutEncryptedData | src/MbedTLS.cpp:103-121 | exactly min(length, queue size) bytes move from the front of the queue to the front of the buffer, whose rest stays |
| TlsConnections.MbedTls.RecvCb | src/MbedTLS.cpp:155-166 | the same for the current connection; WANT_READ exactly when nothing was copied |
| TlsConnections.MbedTls.DoSslHandshake | src/MbedTLS.cpp:169-210 | whenever the loop ends, its result, the bytes it handed over and the queue it leaves are the specification's |
| TlsConnections.MbedTls.AddEncryptedData | src/MbedTLS.cpp:213-309 | one call changes the connections, reports the events and returns the error of the specification |
| Urls.ParseUrl | src/URL.cpp:35-137 | the step-by-step parser returns what the specification does, errors included |
| Urls.ParseExact | src/URL.cpp:35-137 | a text is accepted, and read as a URL, if and only if it is scheme, "://", host, optional port and rest written out, with a legal host and port |
| Urls.FullFormIsParsed | src/URL.cpp:40-47 | scheme, host, decimal port (or none) and endpoint written in the documented form parse to what the constructor makes of them |
| Urls.SchemePorts | src/URL.cpp:60-76 | without a port, http, https and sap texts have the web, secure web and SAP port |
| Urls.WrittenPort | src/URL.cpp:101-123 | a legal port that is written is the port, for each scheme |
| Urls.MadePorts | src/URL.cpp:5-27 | the constructor takes the port given, or the one of the protocol |
| Urls.ErrorExact | src/URL.cpp:51-81 | the error is the one for the protocol if and only if the text starts with none of the three schemes |
| Urls.PrintAndReparse | src/URL.cpp:28-33 | printing and parsing again is stable for all schemes and keeps host and endpoint; protocol is kept unless it was SAP, and the URL itself comes back if and only if it is not SAP and its port is the default |
| Text.TrimUnique | include/http/HttpParser.hpp:162-170 | trimming is determined by any split into white space, a tight middle and white space |
| Text.DecimalRoundTrip | src/HttpClient.cpp:56 | a number below 2^64 printed in decimal is read back by `std::stoul`, and by `std::stoi` when it fits |
| Text.NumbersRead | include/http/HttpParser.hpp:76-77 | what `std::stoul` and `std::stoi` make of white space, a sign, digits and any text after them, range errors included |
| Text.IntegerParts | src/URL.cpp:108-121 | every text they accept has that form |

## Left out

- io_uring submission, sockets, accept and receive registration: only which callback fires next is kept, as a step.
- mbedtls itself, certificates, key loading, `MbedTLS::init` and the sending path: an oracle stands for what it asks `recv_cb` for and returns.
- The one SSL context all connections share: its inner state is not modelled, so nothing is said about what mbedtls makes of a session reset while another connection is in its handshake.
- Handlers that call back into the server or reply later, and result handlers that start a new request from inside a callback: a handler is a function with one result, and a new request is a later step of the run.
- Chunked transfer coding and pipelining: the code does not handle them, and packets spanning two requests are not covered by the theorems about requests in turn.
- `include/http/base_serializers.hpp` and the endpoint classes above it: they rest on generated types and libraries outside the repository.
- Logging, local time, the lookup of the interface address, `get_protocol` and other one-line accessors.
- The 0-byte packet in whole runs: it is in the session and server steps and in `PortsAreIndependent`, while the theorems about whole requests take non-empty packets.
- HttpServers.HttpServer.HandleIncomingHttpPacket: after a failed assertion in `split` the model goes on without a reply, where a build with assertions stops.
- TlsConnections.MbedTls.DoSslHandshake: asks that the loop ends, because a method has to return; when it does not is `HandshakeEndlessExact`, and a run goes no further after a call that never returns.
- Messages.CreateReplyString: the printer is divided into several methods, and a literal ending in CR LF is appended as its text and CR LF in one step.
- ClientPool.HttpClientManager.AllocateHttpClient: the client is named by its place in the registration instead of being returned as a shared pointer.
