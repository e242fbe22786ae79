/** What the protocol does not promise, by runs that show it. */
module Limits {
  import opened Wrappers
  import opened Framing
  import opened Records
  import opened Scraping
  import opened Protocol
  import opened ProtocolInvariant
  import opened Exit
  import opened HexHeader
  import opened Duplication

  lemma StartIsReachable(c: Config, padding: Padding)
    ensures Reachable(c, Initial(c, padding))
  {
    assert Run(c, Initial(c, padding), []) == Some(Initial(c, padding));
  }

  /** One more step of a run. */
  lemma Reach(c: Config, s: State, e: Event) returns (t: State)
    requires Reachable(c, s) && Enabled(c, s, e)
    ensures t == Next(c, s, e) && Reachable(c, t)
  {
    var padding: Padding, events: seq<Event> :| Run(c, Initial(c, padding), events) == Some(s);
    assert (events + [e])[..|events|] == events;
    t := Next(c, s, e);
    assert Run(c, Initial(c, padding), events + [e]) == Some(t);
  }

  /** Because the exit guard reads the queue and the state of the input one after the other, the client
      can exit and leave a record behind: here, on input with a single record, the last one. */
  lemma LastRecordCanBeDropped(c: Config, d: ClientData, padding: Padding) returns (s: State)
    requires !c.keepAlive
    requires c.getDatum(FreshInput(c.text)).outcome == Datum(d) && c.getDatum(FreshInput(c.text)).input.Good()
    requires !c.getDatum(c.getDatum(FreshInput(c.text)).input).outcome.Datum?
    requires !c.getDatum(c.getDatum(FreshInput(c.text)).input).input.Good()
    ensures Reachable(c, s) && s.client == Exited && s.queue == [d] && s.handled == []
  {
    StartIsReachable(c, padding);
    s := Reach(c, Initial(c, padding), ByScraper(Scan));
    s := Reach(c, s, ByClient(OpenOk));
    s := Reach(c, s, ByClient(Check));
    s := Reach(c, s, ByClient(GuardQueueStep));
    s := Reach(c, s, ByScraper(Push));
    s := Reach(c, s, ByScraper(Scan));
    s := Reach(c, s, ByClient(GuardScraperStep));
    s := Reach(c, s, ByClient(Decide));
  }

  lemma OneMoreStep(c: Config, padding: Padding, events: seq<Event>, s: State, e: Event) returns (t: State)
    requires Run(c, Initial(c, padding), events) == Some(s) && Enabled(c, s, e)
    ensures t == Next(c, s, e) && Run(c, Initial(c, padding), events + [e]) == Some(t)
  {
    assert (events + [e])[..|events|] == events;
    t := Next(c, s, e);
  }

  lemma ThreeMoreSteps(c: Config, padding: Padding, events: seq<Event>, s: State, e1: Event, e2: Event, e3: Event)
      returns (t: State)
    requires Run(c, Initial(c, padding), events) == Some(s)
    requires Enabled(c, s, e1) && Enabled(c, Next(c, s, e1), e2)
    requires Enabled(c, Next(c, Next(c, s, e1), e2), e3)
    ensures t == Next(c, Next(c, Next(c, s, e1), e2), e3)
    ensures Run(c, Initial(c, padding), events + [e1, e2, e3]) == Some(t)
  {
    t := OneMoreStep(c, padding, events, s, e1);
    t := OneMoreStep(c, padding, events + [e1], t, e2);
    t := OneMoreStep(c, padding, events + [e1] + [e2], t, e3);
    assert events + [e1] + [e2] + [e3] == events + [e1, e2, e3];
  }

  /** An atomic guard would not be enough: when finding the last record has already ended the input, be it
      for want of a newline or at a line that is too long, the client can exit before the scraper has
      pushed it. No push comes after the look at the queue, and the record is still lost. */
  lemma LastRecordCanBeMissed(c: Config, d: ClientData, padding: Padding) returns (events: seq<Event>, s: State)
    requires c.Scans() && !c.keepAlive
    requires c.getDatum(FreshInput(c.text)).outcome == Datum(d) && !c.getDatum(FreshInput(c.text)).input.Good()
    ensures Run(c, Initial(c, padding), events) == Some(s) && s.client == Exited
    ensures AtomicGuard(events) && NoPushAfterGuard(events)
    ensures s.handled == [] && s.queue == [] && s.scraper == Pushing(d) && Accepted(c) == [d]
  {
    s := AboutToMiss(c, d, padding);
    s := ThreeMoreSteps(c, padding, FOUND, s, READ_QUEUE, READ_INPUT, ByClient(Decide));
    events := FOUND + [READ_QUEUE, READ_INPUT, ByClient(Decide)];
    AcceptsOnly(c, d);
  }

  const FOUND: seq<Event> := [ByScraper(Scan), ByClient(OpenOk), ByClient(Check)]

  lemma AboutToMiss(c: Config, d: ClientData, padding: Padding) returns (s: State)
    requires c.getDatum(FreshInput(c.text)).outcome == Datum(d) && !c.getDatum(FreshInput(c.text)).input.Good()
    ensures Run(c, Initial(c, padding), FOUND) == Some(s) && s.client == GuardQueue(true)
    ensures s.scraper == Pushing(d) && s.queue == [] && s.handled == [] && !s.input.Good()
  {
    s := ThreeMoreSteps(c, padding, [], Initial(c, padding), FOUND[0], FOUND[1], FOUND[2]);
    assert [] + FOUND == FOUND;
  }

  lemma AcceptsOnly(c: Config, d: ClientData)
    requires c.Scans()
    requires c.getDatum(FreshInput(c.text)).outcome == Datum(d) && !c.getDatum(FreshInput(c.text)).input.Good()
    ensures Accepted(c) == [d]
  {
    assert Future(c, c.getDatum(FreshInput(c.text)).input).pushed == [];
    assert [d] + [] == [d];
  }

  /** The first record of the input, about to be written on the first connection. */
  lemma FirstRequest(c: Config, d: ClientData, padding: Padding) returns (s: State)
    requires c.getDatum(FreshInput(c.text)).outcome == Datum(d)
    ensures Reachable(c, s) && s.client == Writing(d) && s.queue == [d] && s.server == Running
    ensures s.connections == [Connection([], [], Receiving, 0, 0, [], [])] && s.buffer == [] && s.handled == []
  {
    StartIsReachable(c, padding);
    s := Reach(c, Initial(c, padding), ByScraper(Scan));
    s := Reach(c, s, ByScraper(Push));
    s := Reach(c, s, ByClient(OpenOk));
    s := Reach(c, s, ByClient(Check));
    s := Reach(c, s, ByClient(Front));
    s := Reach(c, s, ByClient(Request));
    s := Reach(c, s, BySession(0, InitializeOk));
  }

  /** A request can be executed twice: if the connection is lost when all of the request has gone out,
      the session of the lost connection and the one of the next connection both execute it. */
  lemma RequestCanBeExecutedTwice(c: Config, s: State, now: int) returns (t: State)
    requires c.Scans() && c.Inverts() && Reachable(c, s)
    requires s.client.Writing? && s.server == Running && s.connections != [] && Current(s).session == Receiving
    requires c.RequestFrame(s.client.data).Some?
    ensures Reachable(c, t) && |t.connections| == |s.connections| + 1 && t.handled == s.handled
    ensures t.connections[|s.connections| - 1].executed == Current(s).executed + [s.client.data]
    ensures t.connections[|s.connections|].executed == [s.client.data]
    ensures ExecutedTwice(t.connections)
  {
    var d, n := s.client.data, |s.connections|;
    t := LoseWrittenRequest(c, s, now);
    t := Resend(c, t, d, now);
    assert ResumedAt(t.connections[n - 1], t.connections[n]);
    ExecutedTwiceExactly(c, t);
  }

  lemma LoseWrittenRequest(c: Config, s: State, now: int) returns (t: State)
    requires c.Scans() && c.Inverts() && Reachable(c, s)
    requires s.client.Writing? && s.server == Running && s.connections != [] && Current(s).session == Receiving
    requires c.RequestFrame(s.client.data).Some?
    ensures Reachable(c, t) && t.client == GuardQueue(false) && AtFront(t.queue, s.client.data)
    ensures t.server == Running && |t.connections| == |s.connections| && t.handled == s.handled
    ensures Current(t).executed == Current(s).executed + [s.client.data]
    ensures |Current(t).executed| > Current(t).served
  {
    var d, k := s.client.data, |s.connections| - 1;
    var frame := c.RequestFrame(d).value;
    ReachableKeepsInvariant(c, s);
    t := Reach(c, s, ByClient(WriteFail(|frame|, ConnectionReset)));
    assert Current(t).toServer == frame;
    RequestIsExecuted(c, t, k, d, now);
    t := Reach(c, t, BySession(k, Receive(now)));
  }

  /** A session that has received the whole request of a valid record executes it. */
  lemma RequestIsExecuted(c: Config, s: State, k: nat, d: ClientData, now: int)
    requires c.Scans() && c.Inverts() && Reachable(c, s) && s.server == Running
    requires k < |s.connections| && s.connections[k].session == Receiving
    requires c.RequestFrame(d) == Some(s.connections[k].toServer) && AtFront(s.queue, d)
    ensures Enabled(c, s, BySession(k, Receive(now)))
    ensures var outcome := SessionNext(c, s.connections[k], Receive(now));
            outcome.Continues? && outcome.conn.executed == s.connections[k].executed + [d]
  {
    ReachableKeepsInvariant(c, s);
    TryReadPrefix(c.writeRequest(d), s.connections[k].toServer);
    assert s.pushed[|s.popped|] == d;
  }

  lemma Resend(c: Config, s: State, d: ClientData, now: int) returns (t: State)
    requires c.Scans() && c.Inverts() && Reachable(c, s)
    requires s.client == GuardQueue(false) && AtFront(s.queue, d) && s.server == Running && s.connections != []
    requires c.RequestFrame(d).Some?
    ensures Reachable(c, t) && t.handled == s.handled && |t.connections| == |s.connections| + 1
    ensures t.connections[|s.connections| - 1] == Current(s)
    ensures t.connections[|s.connections|].executed == [d]
  {
    var n := |s.connections|;
    t := Reconnect(c, s, d);
    t := WriteAndExecute(c, t, d, now);
  }

  /** The first request on a new connection is written and executed. */
  lemma WriteAndExecute(c: Config, s: State, d: ClientData, now: int) returns (t: State)
    requires c.Scans() && c.Inverts() && Reachable(c, s)
    requires s.client == Writing(d) && AtFront(s.queue, d) && s.server == Running && s.connections != []
    requires Current(s) == Connection([], [], Initializing, |s.handled|, 0, [], [])
    requires c.RequestFrame(d).Some?
    ensures Reachable(c, t) && t.handled == s.handled && |t.connections| == |s.connections|
    ensures forall k :: 0 <= k < |s.connections| - 1 ==> t.connections[k] == s.connections[k]
    ensures Current(t).executed == [d]
  {
    var k := |s.connections| - 1;
    t := Reach(c, s, ByClient(WriteOk));
    assert [] + c.RequestFrame(d).value == c.RequestFrame(d).value;
    t := Reach(c, t, BySession(k, InitializeOk));
    RequestIsExecuted(c, t, k, d, now);
    t := Reach(c, t, BySession(k, Receive(now)));
  }

  lemma Reconnect(c: Config, s: State, d: ClientData) returns (t: State)
    requires Reachable(c, s)
    requires s.client == GuardQueue(false) && AtFront(s.queue, d) && s.server == Running
    ensures Reachable(c, t) && t.client == Writing(d) && t.queue == s.queue && t.server == Running
    ensures t.handled == s.handled
    ensures t.connections == s.connections + [Connection([], [], Initializing, |s.handled|, 0, [], [])]
  {
    t := Reach(c, s, ByClient(GuardQueueStep));
    t := Reach(c, t, ByClient(Decide));
    t := Reach(c, t, ByClient(OpenOk));
    t := Reach(c, t, ByClient(Check));
    t := Reach(c, t, ByClient(Front));
    t := Reach(c, t, ByClient(Request));
  }

  /** A connection that is reset within a response need not be opened again: here all of the header has
      come and none of the body, the zeros in the data buffer do not decode, and the exception of the
      archive ends the client, while the server runs on. */
  lemma ResetWithinResponseEndsClient(c: Config, d: ClientData, padding: Padding, now: int) returns (s: State)
    requires c.Scans() && c.Inverts() && c.getDatum(FreshInput(c.text)).outcome == Datum(d)
    requires c.RequestFrame(d).Some? && Serve(c.arithmetic, d, now).Some?
    requires var payload := c.writeResponse(Response(OK, Serve(c.arithmetic, d, now).value));
             FrameOf(payload).Some? && payload != [] && c.readResponse(Resized([], |payload|)) == None
    ensures Reachable(c, s) && s.client == Aborted(UndecodableResponse) && s.server == Running && s.queue == [d]
  {
    var frame := c.ResponseFrame(Response(OK, Serve(c.arithmetic, d, now).value)).value;
    s := AwaitResponse(c, d, padding, now);
    s := Reach(c, s, BySession(0, Fail(HEADER_LENGTH)));
    assert [] + frame[..HEADER_LENGTH] == frame[..HEADER_LENGTH];
    s := ResetAfterHeader(c, s, Response(OK, Serve(c.arithmetic, d, now).value));
  }

  lemma AwaitResponse(c: Config, d: ClientData, padding: Padding, now: int) returns (s: State)
    requires c.Scans() && c.Inverts() && c.getDatum(FreshInput(c.text)).outcome == Datum(d)
    requires c.RequestFrame(d).Some? && Serve(c.arithmetic, d, now).Some?
    requires c.ResponseFrame(Response(OK, Serve(c.arithmetic, d, now).value)).Some?
    ensures Reachable(c, s) && s.client == Reading(d) && s.queue == [d] && s.server == Running && s.buffer == []
    ensures var r := Response(OK, Serve(c.arithmetic, d, now).value);
            s.connections == [Connection([], [], Replying(r, c.ResponseFrame(r).value), 0, 0, [d], [r])]
  {
    s := FirstRequest(c, d, padding);
    s := Reach(c, s, ByClient(WriteOk));
    assert [] + c.RequestFrame(d).value == c.RequestFrame(d).value;
    TryReadPrefix(c.writeRequest(d), s.connections[0].toServer);
    s := Reach(c, s, BySession(0, Receive(now)));
    var r := Response(OK, Serve(c.arithmetic, d, now).value);
    assert [] + [d] == [d] && [] + [r] == [r];
  }

  lemma ResetAfterHeader(c: Config, s: State, r: Response) returns (t: State)
    requires Reachable(c, s) && s.client.Reading? && s.connections != [] && s.buffer == []
    requires c.ResponseFrame(r).Some? && Current(s).toClient == c.ResponseFrame(r).value[..HEADER_LENGTH]
    requires c.writeResponse(r) != [] && c.readResponse(Resized([], |c.writeResponse(r)|)) == None
    ensures Reachable(c, t) && t.client == Aborted(UndecodableResponse)
    ensures t.server == s.server && t.queue == s.queue
  {
    var payload, got := c.writeResponse(r), Current(s).toClient;
    TryReadPrefix(payload, got);
    PrefixParts(payload, got);
    assert got[..HEADER_LENGTH] == got && got[HEADER_LENGTH..] == [];
    assert CutBody([], got) == Resized([], |payload|);
    t := Reach(c, s, ByClient(ReadFail(HEADER_LENGTH, ConnectionReset)));
  }
}
