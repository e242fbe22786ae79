/** What every step of the machine keeps. */
module ProtocolInvariant {
  import opened Wrappers
  import opened Text
  import opened Framing
  import opened Records
  import opened Scraping
  import opened Protocol

  /* The parts of the invariant */

  function Pending(scraper: ScraperPc): seq<ClientData> {
    if scraper.Pushing? then [scraper.data] else []
  }

  /** The records that the scraper still finds in the input, and the stream it leaves. */
  ghost function Future(c: Config, input: Input): (h: Harvest)
    requires c.Scans()
    decreases |input.rest|, if input.Good() then 1 else 0
  {
    assert c.ScansAt(input);
    if !input.Good() then Harvest([], input)
    else
      var s := c.getDatum(input);
      var h := Future(c, s.input);
      Harvest(Found(s.outcome) + h.pushed, h.input)
  }

  /** All the records that the scraper accepts, in order. */
  ghost function Accepted(c: Config): seq<ClientData>
    requires c.Scans()
  {
    Future(c, FreshInput(c.text)).pushed
  }

  /** Nothing that was accepted is lost, repeated or reordered on its way to the queue. */
  ghost predicate ScraperOk(c: Config, input: Input, scraper: ScraperPc, pushed: seq<ClientData>)
    requires c.Scans()
  {
    && pushed + Pending(scraper) + Future(c, input).pushed == Accepted(c)
    && Future(c, input).input == Future(c, FreshInput(c.text)).input
    && (scraper.Pushing? && input.eof ==> !input.fail)
    && (scraper.Pushing? ==> scraper.data.operation != NOP)
    && (forall i :: 0 <= i < |pushed| ==> pushed[i].operation != NOP)
  }

  ghost predicate AtFront(queue: seq<ClientData>, d: ClientData) {
    queue != [] && queue[0] == d
  }

  /** The exit guard saw the queue empty, and no record was popped since. */
  ghost predicate Marked(c: Config, mark: nat, popped: seq<ClientData>, pushed: seq<ClientData>) {
    !c.keepAlive && mark <= |pushed| && popped == pushed[..mark]
  }

  ghost predicate ClientOk(c: Config, client: ClientPc, queue: seq<ClientData>, padding: Padding) {
    match client
    case Fronting => queue != []
    case Requesting(d) => AtFront(queue, d)
    case Writing(d) => AtFront(queue, d) && padding == d.padding
    case Reading(d) => AtFront(queue, d) && padding == d.padding
    case Responding(d, r) => AtFront(queue, d) && padding == d.padding && Answers(c.arithmetic, r, d)
    case Popping(d) => AtFront(queue, d)
    case GuardQueue(ok) => !ok ==> queue != []
    case GuardScraper(ok) => ok
    case Deciding(ok, inputOk) => !ok ==> inputOk && queue != []
    case Aborted(failure) => failure != AssertionFailed
    case _ => true
  }

  /** Once the guard has seen the queue empty; once it has seen the input not good. */
  predicate SawEmpty(client: ClientPc) {
    client.GuardScraper? || SawEnd(client)
  }

  predicate SawEnd(client: ClientPc) {
    (client.Deciding? && !client.inputOk) || client == Exited
  }

  /** The responses handled answer the records pushed, one by one. */
  ghost predicate HandledOk(c: Config, handled: seq<Response>, pushed: seq<ClientData>) {
    && |handled| <= |pushed|
    && forall i :: 0 <= i < |handled| ==> Answers(c.arithmetic, handled[i], pushed[i])
  }

  /** A session has executed a contiguous part of the records pushed, and answered each. */
  ghost predicate ExecutionsOk(c: Config, pushed: seq<ClientData>, base: nat,
                               executed: seq<ClientData>, responses: seq<Response>)
  {
    && |responses| == |executed|
    && base + |executed| <= |pushed|
    && forall i :: 0 <= i < |executed| ==>
         executed[i] == pushed[base + i] && Answers(c.arithmetic, responses[i], executed[i])
  }

  /** At most one more is executed than the client has handled responses for; what the session can
      still read is part of one request. */
  ghost predicate ConnectionOk(c: Config, pushed: seq<ClientData>, conn: Connection) {
    && ExecutionsOk(c, pushed, conn.base, conn.executed, conn.responses)
    && conn.served <= |conn.executed| <= conn.served + 1
    && (conn.toServer != [] ==>
          && |conn.executed| == conn.served
          && conn.base + conn.served < |pushed|
          && PartOf(conn.toServer, c.RequestFrame(pushed[conn.base + conn.served])))
    && (conn.session.Replying? ==>
          && |conn.executed| == conn.served + 1
          && conn.session.response == conn.responses[conn.served]
          && c.ResponseFrame(conn.session.response) == Some(conn.session.frame))
  }

  predicate PartOf(bytes: Bytes, frame: Option<Bytes>) {
    frame.Some? && bytes <= frame.value
  }

  ghost predicate ConnectionsOk(c: Config, pushed: seq<ClientData>, connections: seq<Connection>) {
    forall k :: 0 <= k < |connections| ==> ConnectionOk(c, pushed, connections[k])
  }

  /** Each connection starts where the previous one was left. */
  ghost predicate Chained(connections: seq<Connection>, handled: nat) {
    && (connections == [] ==> handled == 0)
    && (connections != [] ==>
          && connections[0].base == 0
          && var last := connections[|connections| - 1];
             last.base + last.served == handled)
    && forall k :: 0 <= k < |connections| - 1 ==>
         connections[k + 1].base == connections[k].base + connections[k].served
  }

  /** Nothing is under way between the client and the session. */
  predicate Quiet(conn: Connection) {
    conn.toServer == [] && conn.toClient == [] && |conn.executed| == conn.served && !conn.session.Replying?
  }

  /** The exchange of `d`: the request is on its way, or it was executed and of its response nothing,
      a part or all has been written. */
  ghost predicate InExchange(c: Config, conn: Connection, d: ClientData) {
    || (|conn.executed| == conn.served && conn.toClient == [] && Some(conn.toServer) == c.RequestFrame(d))
    || (|conn.executed| == conn.served + 1 == |conn.responses|
        && (conn.toClient != [] ==>
              && !conn.session.Replying?
              && PartOf(conn.toClient, c.ResponseFrame(conn.responses[conn.served]))))
  }

  ghost predicate CurrentOk(c: Config, client: ClientPc, conn: Connection) {
    match client
    case Opening => true
    case Aborted(_) => true
    case Exited => true
    case Reading(d) => InExchange(c, conn, d)
    case Responding(_, r) =>
      && |conn.executed| == conn.served + 1 == |conn.responses|
      && conn.toClient == [] && !conn.session.Replying? && r == conn.responses[conn.served]
    case GuardQueue(ok) => ok ==> Quiet(conn)
    case GuardScraper(ok) => ok ==> Quiet(conn)
    case Deciding(ok, _) => ok ==> Quiet(conn)
    case _ => Quiet(conn)
  }

  ghost predicate ClientConnected(c: Config, client: ClientPc, connections: seq<Connection>) {
    if connections == [] then client == Opening || client.Aborted?
    else CurrentOk(c, client, connections[|connections| - 1])
  }

  /** The server only ever stops because a handshake failed. */
  predicate ServerOk(server: Server) {
    server == Running || server == Crashed(HandshakeFailed)
  }

  ghost predicate Invariant(c: Config, s: State)
    requires c.Scans()
  {
    && ScraperOk(c, s.input, s.scraper, s.pushed)
    && s.pushed == s.popped + s.queue
    && |s.handled| == |s.popped| + (if s.client.Popping? then 1 else 0)
    && ClientOk(c, s.client, s.queue, s.padding)
    && (SawEmpty(s.client) ==> Marked(c, s.mark, s.popped, s.pushed))
    && (SawEnd(s.client) ==> !s.input.Good())
    && HandledOk(c, s.handled, s.pushed)
    && ConnectionsOk(c, s.pushed, s.connections)
    && Chained(s.connections, |s.handled|)
    && ClientConnected(c, s.client, s.connections)
    && ServerOk(s.server)
  }

  lemma InitialInvariant(c: Config, padding: Padding)
    requires c.Scans()
    ensures Invariant(c, Initial(c, padding))
  {
    assert [] + [] + Accepted(c) == Accepted(c);
  }

  /* Steps of the scraper */

  lemma ScanKeeps(c: Config, s: State)
    requires c.Scans() && Invariant(c, s) && ScraperEnabled(s, Scan)
    ensures Invariant(c, ScraperNext(c, s, Scan))
  {
    assert c.ScansAt(s.input);
    var s' := ScraperNext(c, s, Scan);
    var later := Future(c, s'.input).pushed;
    if s.input.Good() {
      assert Pending(s.scraper) == [] && s.pushed + [] == s.pushed;
      assert Future(c, s.input).pushed == Pending(s'.scraper) + later;
      Associative(s.pushed, Pending(s'.scraper), later);
    }
  }

  /** What is said about records already pushed stays true. */
  lemma PushedGrows(c: Config, s: State, pushed: seq<ClientData>)
    requires c.Scans() && Invariant(c, s) && s.pushed <= pushed
    ensures HandledOk(c, s.handled, pushed)
    ensures ConnectionsOk(c, pushed, s.connections)
    ensures SawEmpty(s.client) ==> Marked(c, s.mark, s.popped, pushed)
  {
    forall k | 0 <= k < |s.connections| ensures ConnectionOk(c, pushed, s.connections[k]) {
      assert ConnectionOk(c, s.pushed, s.connections[k]);
    }
    if SawEmpty(s.client) {
      assert pushed[..s.mark] == s.pushed[..s.mark];
    }
  }

  lemma PushKeeps(c: Config, s: State)
    requires c.Scans() && Invariant(c, s) && ScraperEnabled(s, Push)
    ensures Invariant(c, ScraperNext(c, s, Push))
  {
    var s' := ScraperNext(c, s, Push);
    PushedGrows(c, s, s'.pushed);
    assert s.popped + s.queue + [s.scraper.data] == s.popped + (s.queue + [s.scraper.data]);
    assert s'.pushed + Pending(s'.scraper) == s.pushed + Pending(s.scraper);
  }

  /* Steps of the client outside an exchange */

  predicate IsControl(e: ClientEvent) {
    e in {OpenFail, Check, Front, Request, WriteTooLong, GuardScraperStep, Decide}
  }

  lemma ControlKeeps(c: Config, s: State, e: ClientEvent)
    requires c.Scans() && Invariant(c, s) && ClientEnabled(c, s, e) && IsControl(e)
    ensures Invariant(c, ClientNext(c, s, e))
  {
    if e in {GuardScraperStep, Decide} {
      EndOfRoundKeeps(c, s, e);
    } else {
      StartOfRoundKeeps(c, s, e);
    }
  }

  lemma EndOfRoundKeeps(c: Config, s: State, e: ClientEvent)
    requires c.Scans() && Invariant(c, s) && ClientEnabled(c, s, e) && e in {GuardScraperStep, Decide}
    ensures Invariant(c, ClientNext(c, s, e))
  {
  }

  lemma StartOfRoundKeeps(c: Config, s: State, e: ClientEvent)
    requires c.Scans() && Invariant(c, s) && ClientEnabled(c, s, e)
    requires IsControl(e) && e !in {GuardScraperStep, Decide}
    ensures Invariant(c, ClientNext(c, s, e))
  {
  }

  lemma GuardKeeps(c: Config, s: State)
    requires c.Scans() && Invariant(c, s) && s.client.GuardQueue?
    ensures Invariant(c, Guard(c, s))
  {
    if s.queue == [] {
      assert s.popped + s.queue == s.popped;
      assert s.pushed[..|s.pushed|] == s.pushed;
    }
  }

  lemma OpenKeeps(c: Config, s: State)
    requires c.Scans() && Invariant(c, s) && ClientEnabled(c, s, OpenOk)
    ensures Invariant(c, ClientNext(c, s, OpenOk))
  {
    var s' := ClientNext(c, s, OpenOk);
    var n := |s.connections|;
    assert forall k :: 0 <= k < n ==> s'.connections[k] == s.connections[k];
  }

  lemma PopKeeps(c: Config, s: State)
    requires c.Scans() && Invariant(c, s) && ClientEnabled(c, s, Pop)
    ensures Invariant(c, ClientNext(c, s, Pop))
  {
    assert s.popped + s.queue == (s.popped + [s.queue[0]]) + s.queue[1..];
  }

  /* Steps of an exchange */

  lemma ReplaceConnection(c: Config, pushed: seq<ClientData>, connections: seq<Connection>, handled: nat,
                          k: nat, conn: Connection)
    requires ConnectionsOk(c, pushed, connections) && Chained(connections, handled)
    requires k < |connections| && ConnectionOk(c, pushed, conn)
    requires conn.base == connections[k].base && conn.served == connections[k].served
    ensures ConnectionsOk(c, pushed, connections[k := conn]) && Chained(connections[k := conn], handled)
  {
  }

  /** One connection changes, and the client moves on without touching anything else. */
  lemma ExchangeKeeps(c: Config, s: State, k: nat, conn: Connection, client: ClientPc)
    requires c.Scans() && Invariant(c, s)
    requires k < |s.connections| && ConnectionOk(c, s.pushed, conn)
    requires conn.base == s.connections[k].base && conn.served == s.connections[k].served
    requires ClientOk(c, client, s.queue, s.padding) && (client.Popping? <==> s.client.Popping?)
    requires SawEmpty(client) ==> client == s.client
    requires k == |s.connections| - 1 ==> CurrentOk(c, client, conn)
    requires k < |s.connections| - 1 ==> client == s.client
    ensures Invariant(c, s.(connections := s.connections[k := conn], client := client))
  {
    ReplaceConnection(c, s.pushed, s.connections, |s.handled|, k, conn);
  }

  /** The record under way is the one that the connection in use serves next. */
  lemma CurrentServesFront(c: Config, s: State, d: ClientData)
    requires c.Scans() && Invariant(c, s) && s.connections != []
    requires AtFront(s.queue, d) && !s.client.Popping?
    ensures var conn := Current(s);
            && ConnectionOk(c, s.pushed, conn)
            && conn.base + conn.served == |s.handled| == |s.popped| < |s.pushed| && s.pushed[|s.handled|] == d
  {
    assert s.pushed == s.popped + s.queue;
  }

  /** Part of the request, or all of it, is on its way. */
  lemma DeliverKeeps(c: Config, s: State, part: Bytes, client: ClientPc)
    requires c.Scans() && Invariant(c, s) && s.client.Writing? && s.connections != []
    requires PartOf(part, c.RequestFrame(s.client.data))
    requires (client == Reading(s.client.data) && Some(part) == c.RequestFrame(s.client.data))
          || client == GuardQueue(false)
          || (client.Aborted? && client.failure != AssertionFailed)
    ensures Invariant(c, Deliver(s, part, client))
  {
    assert [] + part == part;
    CurrentServesFront(c, s, s.client.data);
    ExchangeKeeps(c, s, |s.connections| - 1, Current(s).(toServer := part), client);
  }

  /** Only a whole response can be read, and it is the answer of the session. */
  lemma OnlyWholeResponsesAreRead(c: Config, s: State)
    requires c.Scans() && c.Inverts() && Invariant(c, s)
    requires s.client.Reading? && s.connections != [] && TryRead(Current(s).toClient) != NeedMore
    ensures var conn := Current(s);
            && |conn.executed| == conn.served + 1 == |conn.responses|
            && !conn.session.Replying?
            && TryRead(conn.toClient) == Got(c.writeResponse(conn.responses[conn.served]), [])
            && c.readResponse(c.writeResponse(conn.responses[conn.served])) == Some(conn.responses[conn.served])
  {
    var conn := Current(s);
    TryReadPrefix(c.writeResponse(conn.responses[conn.served]), conn.toClient);
  }

  /** The response to be read is the answer to the record under way. */
  lemma ResponseAnswers(c: Config, s: State)
    requires c.Scans() && Invariant(c, s) && s.client.Reading? && s.connections != []
    requires |Current(s).executed| == Current(s).served + 1
    ensures var conn := Current(s);
            && |conn.responses| == conn.served + 1
            && conn.toServer == [] && conn.responses[conn.served].status == OK
            && Answers(c.arithmetic, conn.responses[conn.served], s.client.data)
  {
    var conn := Current(s);
    CurrentServesFront(c, s, s.client.data);
    assert Answers(c.arithmetic, conn.responses[conn.served], conn.executed[conn.served]);
  }

  /** The client after reading: the response is taken off the stream, and about to be handled. */
  lemma AcceptedState(c: Config, s: State)
    requires c.Scans() && c.Inverts() && Invariant(c, s) && ClientEnabled(c, s, ReadOk)
    ensures var conn := Current(s);
            && |conn.executed| == conn.served + 1 == |conn.responses| && !conn.session.Replying?
            && conn.responses[conn.served].status == OK
            && Accept(c, s, TryRead(conn.toClient))
            == s.(connections := s.connections[|s.connections| - 1 := conn.(toClient := [])],
                  client := Responding(s.client.data, conn.responses[conn.served]),
                  buffer := TryRead(conn.toClient).payload)
  {
    OnlyWholeResponsesAreRead(c, s);
    ResponseAnswers(c, s);
  }

  lemma AcceptKeeps(c: Config, s: State)
    requires c.Scans() && c.Inverts() && Invariant(c, s) && ClientEnabled(c, s, ReadOk)
    ensures Invariant(c, Accept(c, s, TryRead(Current(s).toClient)))
  {
    var conn := Current(s);
    AcceptedState(c, s);
    ResponseAnswers(c, s);
    var k, client := |s.connections| - 1, Responding(s.client.data, conn.responses[conn.served]);
    ExchangeKeeps(c, s, k, conn.(toClient := []), client);
    BufferIsFree(c, s.(connections := s.connections[k := conn.(toClient := [])], client := client),
                 TryRead(conn.toClient).payload);
  }

  /** Nothing depends on what the data buffer of the client holds. */
  lemma BufferIsFree(c: Config, s: State, buffer: Bytes)
    requires c.Scans() && Invariant(c, s)
    ensures Invariant(c, s.(buffer := buffer))
  {
  }

  lemma ReadEndsKeeps(c: Config, s: State, client: ClientPc)
    requires c.Scans() && Invariant(c, s) && s.client.Reading?
    requires client == GuardQueue(false) || (client.Aborted? && client.failure != AssertionFailed)
    ensures Invariant(c, s.(client := client))
  {
  }

  /** Counting one more response on the last connection. */
  lemma ServedOneMore(c: Config, pushed: seq<ClientData>, connections: seq<Connection>, handled: nat, conn: Connection)
    requires ConnectionsOk(c, pushed, connections) && Chained(connections, handled) && connections != []
    requires conn == connections[|connections| - 1].(served := connections[|connections| - 1].served + 1)
    requires ConnectionOk(c, pushed, conn)
    ensures var connections' := connections[|connections| - 1 := conn];
            ConnectionsOk(c, pushed, connections') && Chained(connections', handled + 1)
  {
  }

  lemma ServedOk(c: Config, pushed: seq<ClientData>, conn: Connection)
    requires ConnectionOk(c, pushed, conn) && |conn.executed| == conn.served + 1 && !conn.session.Replying?
    ensures ConnectionOk(c, pushed, conn.(served := conn.served + 1)) && conn.toServer == []
  {
  }

  lemma OneMoreHandled(c: Config, handled: seq<Response>, pushed: seq<ClientData>, r: Response)
    requires HandledOk(c, handled, pushed) && |handled| < |pushed| && Answers(c.arithmetic, r, pushed[|handled|])
    ensures HandledOk(c, handled + [r], pushed)
  {
  }

  /** The assertion about the padding holds. */
  lemma PaddingMatches(c: Config, s: State)
    requires c.Scans() && Invariant(c, s) && ClientEnabled(c, s, Respond)
    ensures s.client.response.data.padding == s.padding
    ensures Handle(s).client == Popping(s.client.data)
  {
  }

  lemma HandledKeeps(c: Config, s: State, connections: seq<Connection>, handled: seq<Response>)
    requires c.Scans() && Invariant(c, s) && s.client.Responding?
    requires ConnectionsOk(c, s.pushed, connections) && Chained(connections, |handled|)
    requires |handled| == |s.handled| + 1 && HandledOk(c, handled, s.pushed)
    requires connections != [] && Quiet(connections[|connections| - 1])
    ensures Invariant(c, s.(connections := connections, handled := handled, client := Popping(s.client.data)))
  {
  }

  lemma LastServed(c: Config, pushed: seq<ClientData>, connections: seq<Connection>, handled: nat, conn: Connection)
    requires ConnectionsOk(c, pushed, connections) && Chained(connections, handled) && connections != []
    requires conn == connections[|connections| - 1]
    requires |conn.executed| == conn.served + 1 && conn.toClient == [] && !conn.session.Replying?
    ensures var connections' := connections[|connections| - 1 := conn.(served := conn.served + 1)];
            && ConnectionsOk(c, pushed, connections') && Chained(connections', handled + 1)
            && Quiet(connections'[|connections'| - 1])
  {
    ServedOk(c, pushed, conn);
    ServedOneMore(c, pushed, connections, handled, conn.(served := conn.served + 1));
  }

  lemma HandlingServes(c: Config, s: State)
    requires c.Scans() && Invariant(c, s) && ClientEnabled(c, s, Respond)
    ensures var connections := Handle(s).connections;
            && ConnectionsOk(c, s.pushed, connections) && Chained(connections, |s.handled| + 1)
            && connections != [] && Quiet(connections[|connections| - 1])
  {
    assert CurrentOk(c, s.client, Current(s));
    LastServed(c, s.pushed, s.connections, |s.handled|, Current(s));
  }

  lemma HandleKeeps(c: Config, s: State)
    requires c.Scans() && Invariant(c, s) && ClientEnabled(c, s, Respond)
    ensures Invariant(c, Handle(s))
  {
    PaddingMatches(c, s);
    HandlingServes(c, s);
    CurrentServesFront(c, s, s.client.data);
    OneMoreHandled(c, s.handled, s.pushed, s.client.response);
    HandledKeeps(c, s, Handle(s).connections, s.handled + [s.client.response]);
  }

  /* Steps of a session */

  /** A step of one session, as far as its connection goes. */
  ghost predicate SessionStepOk(c: Config, pushed: seq<ClientData>, client: ClientPc,
                                before: Connection, after: Connection)
  {
    && ConnectionOk(c, pushed, after)
    && after.base == before.base && after.served == before.served
    && (CurrentOk(c, client, before) ==> CurrentOk(c, client, after))
  }

  lemma SessionKeeps(c: Config, s: State, k: nat, conn: Connection)
    requires c.Scans() && Invariant(c, s)
    requires k < |s.connections| && SessionStepOk(c, s.pushed, s.client, s.connections[k], conn)
    ensures Invariant(c, s.(connections := s.connections[k := conn]))
  {
    ExchangeKeeps(c, s, k, conn, s.client);
  }

  lemma PhaseStepOk(c: Config, pushed: seq<ClientData>, client: ClientPc, conn: Connection, session: Session)
    requires ConnectionOk(c, pushed, conn) && !conn.session.Replying? && !session.Replying?
    ensures SessionStepOk(c, pushed, client, conn, conn.(session := session))
  {
  }

  lemma WriteStepOk(c: Config, pushed: seq<ClientData>, client: ClientPc, conn: Connection,
                    part: Bytes, session: Session)
    requires ConnectionOk(c, pushed, conn)
    requires conn.session.Replying? && part <= conn.session.frame && !session.Replying?
    ensures SessionStepOk(c, pushed, client, conn, Write(conn, part, session))
  {
    assert [] + part == part;
  }

  /** A session can only read a whole request, and it is the one the client sends next. */
  lemma OnlyWholeRequestsAreRead(c: Config, pushed: seq<ClientData>, conn: Connection)
    requires c.Inverts() && ConnectionOk(c, pushed, conn) && TryRead(conn.toServer) != NeedMore
    ensures |conn.executed| == conn.served && conn.base + conn.served < |pushed|
    ensures var d := pushed[conn.base + conn.served];
            && Some(conn.toServer) == c.RequestFrame(d)
            && TryRead(conn.toServer) == Got(c.writeRequest(d), [])
            && c.readRequest(c.writeRequest(d)) == Some(d)
  {
    TryReadPrefix(c.writeRequest(pushed[conn.base + conn.served]), conn.toServer);
  }

  lemma OneMoreExecution(c: Config, pushed: seq<ClientData>, base: nat,
                         executed: seq<ClientData>, responses: seq<Response>, d: ClientData, r: Response)
    requires ExecutionsOk(c, pushed, base, executed, responses)
    requires base + |executed| < |pushed| && d == pushed[base + |executed|] && Answers(c.arithmetic, r, d)
    ensures ExecutionsOk(c, pushed, base, executed + [d], responses + [r])
  {
  }

  lemma ExecutedOk(c: Config, pushed: seq<ClientData>, conn: Connection, d: ClientData, r: Response)
    requires ConnectionOk(c, pushed, conn) && conn.toServer != []
    requires d == pushed[conn.base + conn.served] && Answers(c.arithmetic, r, d)
    ensures ConnectionOk(c, pushed, Executed(c, conn.(toServer := []), d, r))
  {
    OneMoreExecution(c, pushed, conn.base, conn.executed, conn.responses, d, r);
  }

  lemma ExecutedStepOk(c: Config, pushed: seq<ClientData>, client: ClientPc, conn: Connection,
                       d: ClientData, r: Response)
    requires ConnectionOk(c, pushed, conn) && conn.toServer != [] && !conn.session.Replying?
    requires d == pushed[conn.base + conn.served] && Answers(c.arithmetic, r, d)
    ensures SessionStepOk(c, pushed, client, conn, Executed(c, conn.(toServer := []), d, r))
  {
    ExecutedOk(c, pushed, conn, d, r);
  }

  lemma ExecuteKeeps(c: Config, s: State, k: nat, now: int)
    requires c.Scans() && c.Inverts() && Invariant(c, s)
    requires k < |s.connections| && SessionEnabled(s.connections[k], Receive(now))
    ensures var outcome := SessionNext(c, s.connections[k], Receive(now));
            outcome.Continues? && SessionStepOk(c, s.pushed, s.client, s.connections[k], outcome.conn)
  {
    var conn := s.connections[k];
    OnlyWholeRequestsAreRead(c, s.pushed, conn);
    var d := s.pushed[conn.base + conn.served];
    ServeAnswers(c.arithmetic, d, now);
    ExecutedStepOk(c, s.pushed, s.client, conn, d, Response(OK, Serve(c.arithmetic, d, now).value));
  }

  /* Every step, every run */

  lemma ClientStepKeeps(c: Config, s: State, e: ClientEvent)
    requires c.Scans() && c.Inverts() && Invariant(c, s) && ClientEnabled(c, s, e)
    ensures Invariant(c, ClientNext(c, s, e))
  {
    match e
    case OpenOk => OpenKeeps(c, s);
    case WriteOk => DeliverKeeps(c, s, c.RequestFrame(s.client.data).value, Reading(s.client.data));
    case WriteFail(delivered, error) =>
      DeliverKeeps(c, s, c.RequestFrame(s.client.data).value[..delivered], AfterError(error));
    case ReadOk => AcceptKeeps(c, s);
    case ReadUnparsable(_) => OnlyWholeResponsesAreRead(c, s);
    case ReadFail(arrived, error) =>
      ReadEndsKeeps(c, s, ClientNext(c, s, e).client);
      BufferIsFree(c, s.(client := ClientNext(c, s, e).client), ClientNext(c, s, e).buffer);
    case Respond => HandleKeeps(c, s);
    case Pop => PopKeeps(c, s);
    case GuardQueueStep => GuardKeeps(c, s);
    case _ => ControlKeeps(c, s, e);
  }

  lemma SessionStepKeeps(c: Config, s: State, k: nat, e: SessionEvent)
    requires c.Scans() && c.Inverts() && Invariant(c, s)
    requires k < |s.connections| && SessionEnabled(s.connections[k], e)
    ensures e != InitializeFail ==>
              var outcome := SessionNext(c, s.connections[k], e);
              outcome.Continues? && SessionStepOk(c, s.pushed, s.client, s.connections[k], outcome.conn)
  {
    var conn := s.connections[k];
    match e
    case InitializeOk => PhaseStepOk(c, s.pushed, s.client, conn, Receiving);
    case InitializeFail =>
    case Receive(now) => ExecuteKeeps(c, s, k, now);
    case ReceiveUnparsable => OnlyWholeRequestsAreRead(c, s.pushed, conn);
    case Reply => WriteStepOk(c, s.pushed, s.client, conn, conn.session.frame, Receiving);
    case Fail(delivered) =>
      if conn.session.Replying? {
        WriteStepOk(c, s.pushed, s.client, conn, conn.session.frame[..delivered], Closed);
      } else {
        PhaseStepOk(c, s.pushed, s.client, conn, Closed);
      }
  }

  lemma StepKeepsInvariant(c: Config, s: State, e: Event)
    requires c.Scans() && c.Inverts() && Invariant(c, s) && Enabled(c, s, e)
    ensures Invariant(c, Next(c, s, e))
  {
    match e
    case ByScraper(a) => if a == Scan { ScanKeeps(c, s); } else { PushKeeps(c, s); }
    case ByClient(a) => ClientStepKeeps(c, s, a);
    case BySession(k, a) =>
      if a != InitializeFail {
        SessionStepKeeps(c, s, k, a);
        SessionKeeps(c, s, k, SessionNext(c, s.connections[k], a).conn);
      }
  }

  lemma {:induction false} RunKeepsInvariant(c: Config, s: State, events: seq<Event>, t: State)
    requires c.Scans() && c.Inverts() && Invariant(c, s) && Run(c, s, events) == Some(t)
    ensures Invariant(c, t)
    decreases |events|
  {
    if events != [] {
      var last := |events| - 1;
      var before := Run(c, s, events[..last]).value;
      RunKeepsInvariant(c, s, events[..last], before);
      StepKeepsInvariant(c, before, events[last]);
    }
  }

  lemma ReachableKeepsInvariant(c: Config, s: State)
    requires c.Scans() && c.Inverts() && Reachable(c, s)
    ensures Invariant(c, s)
  {
    var padding: Padding, events: seq<Event> :| Run(c, Initial(c, padding), events) == Some(s);
    InitialInvariant(c, padding);
    RunKeepsInvariant(c, Initial(c, padding), events, s);
  }
}
