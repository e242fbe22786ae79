/** What holds in every state that any run can reach, whatever the interleaving, the failures and the
    reconnections. */
module ProtocolTheorems {
  import opened Wrappers
  import opened Text
  import opened HexHeader
  import opened Framing
  import opened Records
  import opened Scraping
  import opened Protocol
  import opened ProtocolInvariant
  import opened Origins

  /* Order and pairing */

  /** Nothing is lost, repeated or reordered between the input and the client: the records popped,
      followed by those in the queue, are those pushed, and these are the first ones the scraper
      accepts. Responses were handled for the popped records, and possibly for the front one. */
  lemma Conservation(c: Config, s: State)
    requires c.Scans() && c.Inverts() && Reachable(c, s)
    ensures s.popped + s.queue == s.pushed <= Accepted(c)
    ensures |s.handled| == |s.popped| + (if s.client.Popping? then 1 else 0)
    ensures s.client.Popping? ==> AtFront(s.queue, s.client.data)
  {
    ReachableKeepsInvariant(c, s);
    PushedIsPrefix(c, s.input, s.scraper, s.pushed);
  }

  lemma PushedIsPrefix(c: Config, input: Input, scraper: ScraperPc, pushed: seq<ClientData>)
    requires c.Scans() && ScraperOk(c, input, scraper, pushed)
    ensures pushed <= Accepted(c)
  {
    assert Accepted(c) == pushed + (Pending(scraper) + Future(c, input).pushed);
  }

  /** The i-th response the client handles answers the i-th record accepted from the input: same id,
      same padding, and the result of its operation on its operands. And it is the very response that the
      session of one connection produced on executing that record, handled on that connection. */
  lemma ResponsePairing(c: Config, s: State)
    requires c.Scans() && c.Inverts() && Reachable(c, s)
    ensures |s.handled| <= |Accepted(c)|
    ensures forall i :: 0 <= i < |s.handled| ==> Answers(c.arithmetic, s.handled[i], Accepted(c)[i])
    ensures forall i :: 0 <= i < |s.handled| ==> HandledSomewhere(s.connections, i, Accepted(c)[i], s.handled[i])
  {
    ReachableKeepsInvariant(c, s);
    Conservation(c, s);
    forall i | 0 <= i < |s.handled| ensures HandledSomewhere(s.connections, i, Accepted(c)[i], s.handled[i]) {
      HandledWhereProduced(c, s, i);
    }
  }

  /** The client's assertion that the padding came back unchanged never fails. */
  lemma PaddingAssertionHolds(c: Config, s: State)
    requires c.Scans() && c.Inverts() && Reachable(c, s)
    ensures s.client != Aborted(AssertionFailed)
    ensures s.client.Responding? ==>
              s.client.response.data.padding == s.padding == s.client.data.padding
  {
    ReachableKeepsInvariant(c, s);
  }

  /* Components against each other */

  /** Neither side ever meets what its code refuses: the strategy is never given an invalid operation,
      no request or complete response fails to decode, and no header is found invalid. */
  lemma NothingInvalidArrives(c: Config, s: State, e: Event)
    requires c.Scans() && c.Inverts() && Reachable(c, s) && Enabled(c, s, e)
    ensures s.server != Crashed(InvalidOperation) && s.server != Crashed(UndecodableRequest)
    ensures e.BySession? ==> e.session != ReceiveUnparsable
    ensures e.ByClient? ==> !e.client.ReadUnparsable?
    ensures e == ByClient(ReadOk) ==> Next(c, s, e).client.Responding?
  {
    ReachableKeepsInvariant(c, s);
    if e.BySession? && e.session == ReceiveUnparsable {
      OnlyWholeRequestsAreRead(c, s.pushed, s.connections[e.k]);
    }
    if e.ByClient? && (e.client.ReadUnparsable? || e.client == ReadOk) {
      OnlyWholeResponsesAreRead(c, s);
    }
  }

  /** A session executes a request only when its whole frame has arrived, and then the request is the
      record the client wrote on that connection. */
  lemma ExecutesOnlyWholeRequests(c: Config, s: State, k: nat, now: int)
    requires c.Scans() && c.Inverts() && Reachable(c, s) && Enabled(c, s, BySession(k, Receive(now)))
    ensures var conn := s.connections[k];
            && conn.base + conn.served < |s.pushed|
            && var d := s.pushed[conn.base + conn.served];
               && Some(conn.toServer) == c.RequestFrame(d)
               && Next(c, s, BySession(k, Receive(now))).connections[k].executed == conn.executed + [d]
  {
    ReachableKeepsInvariant(c, s);
    var conn := s.connections[k];
    OnlyWholeRequestsAreRead(c, s.pushed, conn);
    ServeAnswers(c.arithmetic, s.pushed[conn.base + conn.served], now);
  }

  /* Retrying */

  predicate UnderWay(client: ClientPc) {
    client.Requesting? || client.Writing? || client.Reading? || client.Responding?
  }

  /** The record under way is always the first one without a handled response, so that a record whose
      exchange failed is the first to be sent again. */
  lemma FirstUnhandledIsSent(c: Config, s: State)
    requires c.Scans() && c.Inverts() && Reachable(c, s) && UnderWay(s.client)
    ensures |s.handled| < |Accepted(c)| && s.client.data == Accepted(c)[|s.handled|]
    ensures AtFront(s.queue, s.client.data)
  {
    ReachableKeepsInvariant(c, s);
    Conservation(c, s);
    assert s.pushed[|s.popped|] == s.queue[0];
  }

  /** After an exchange that failed, the queue still holds the record, so that `listen` asks for a new
      connection; and only a `listen` whose connection is fine ends the client. */
  lemma FailedExchangeIsRetried(c: Config, s: State)
    requires c.Scans() && c.Inverts() && Reachable(c, s)
    ensures s.client in {GuardQueue(false), GuardScraper(false), Deciding(false, true), Deciding(false, false)} ==>
              s.queue != []
    ensures s.client.Deciding? && !s.client.connectionOk ==> Next(c, s, ByClient(Decide)).client == Opening
    ensures s.client.Deciding? && Next(c, s, ByClient(Decide)).client == Exited ==> s.client.connectionOk
    ensures s.client != GuardScraper(false)
  {
    ReachableKeepsInvariant(c, s);
  }

  /** What the data buffer holds when a read fails after `arrived` bytes: of the payload what has come,
      then what an earlier read left behind. */
  function LeftInBuffer(payload: Bytes, buffer: Bytes, arrived: nat): Bytes
    requires HEADER_LENGTH <= arrived <= HEADER_LENGTH + |payload|
  {
    payload[..arrived - HEADER_LENGTH] + Resized(buffer, |payload|)[arrived - HEADER_LENGTH..]
  }

  /** After `arrived` bytes of the response under way to the client, the buffer can be decoded. */
  ghost predicate Decodable(c: Config, conn: Connection, buffer: Bytes, arrived: nat) {
    && conn.served < |conn.responses|
    && var payload := c.writeResponse(conn.responses[conn.served]);
       && HEADER_LENGTH <= arrived <= HEADER_LENGTH + |payload|
       && c.readResponse(LeftInBuffer(payload, buffer, arrived)).Some?
  }

  /** A failed write leads to another connection exactly when the error is an abort, a reset or a time-out.
      A failed read does so exactly when, besides, no whole header had arrived, or what had arrived of the
      body, completed by what an earlier response left in the buffer, can be decoded: the code decodes it
      before it looks at the error, and an exception ends the client. */
  lemma ReconnectsExactly(c: Config, s: State, e: ClientEvent)
    requires c.Scans() && c.Inverts() && Reachable(c, s) && ClientEnabled(c, s, e)
    ensures e.WriteFail? ==> 
              (ClientNext(c, s, e).client == GuardQueue(false)
               <==> e.error == ConnectionAborted || e.error == ConnectionReset || e.error == TimedOut)
    ensures e.ReadFail? ==>
              (ClientNext(c, s, e).client == GuardQueue(false)
               <==> && (e.error == ConnectionAborted || e.error == ConnectionReset || e.error == TimedOut)
                    && (e.arrived < HEADER_LENGTH || Decodable(c, Current(s), s.buffer, e.arrived)))
    ensures (e.WriteFail? || e.ReadFail?) && ClientNext(c, s, e).client != GuardQueue(false) ==>
              ClientNext(c, s, e).client.Aborted?
  {
    if e.ReadFail? && e.arrived >= HEADER_LENGTH {
      ReachableKeepsInvariant(c, s);
      CutBuffer(c, s, e.arrived);
    }
  }

  lemma CutBuffer(c: Config, s: State, arrived: nat)
    requires c.Scans() && c.Inverts() && Invariant(c, s) && s.client.Reading? && s.connections != []
    requires HEADER_LENGTH <= arrived <= |Current(s).toClient|
    requires TryRead(Current(s).toClient[..arrived]) == NeedMore
    ensures Current(s).served < |Current(s).responses|
    ensures var payload := c.writeResponse(Current(s).responses[Current(s).served]);
            var got := Current(s).toClient[..arrived];
            && arrived < HEADER_LENGTH + |payload| && ParseSize(got[..HEADER_LENGTH]) == Some(|payload|)
            && Filled(s.buffer, |payload|, got[HEADER_LENGTH..]) == LeftInBuffer(payload, s.buffer, arrived)
  {
    var conn := Current(s);
    assert CurrentOk(c, s.client, conn);
    PartInBuffer(c.writeResponse(conn.responses[conn.served]), conn.toClient[..arrived], s.buffer);
  }

  lemma PartInBuffer(payload: Bytes, got: Bytes, buffer: Bytes)
    requires FrameOf(payload).Some? && got <= FrameOf(payload).value && TryRead(got) == NeedMore
    requires |got| >= HEADER_LENGTH
    ensures |got| < HEADER_LENGTH + |payload| && ParseSize(got[..HEADER_LENGTH]) == Some(|payload|)
    ensures Filled(buffer, |payload|, got[HEADER_LENGTH..]) == LeftInBuffer(payload, buffer, |got|)
  {
    PrefixParts(payload, got);
    TryReadPrefix(payload, got);
    assert got[HEADER_LENGTH..] == payload[..|got| - HEADER_LENGTH];
  }

  /* What the network is free to do */

  /** A write can fail with any error after any part of the request has gone out. */
  lemma AnyPartOfRequestCanGoOut(c: Config, s: State, part: Bytes, error: Error)
    requires s.client.Writing? && s.connections != [] && c.RequestFrame(s.client.data).Some?
    requires part <= c.RequestFrame(s.client.data).value
    ensures exists e: ClientEvent :: ClientEnabled(c, s, e)
              && Current(ClientNext(c, s, e)).toServer == Current(s).toServer + part
              && ClientNext(c, s, e).client
                 == if error == OtherError then Aborted(Unhandled(OtherError)) else GuardQueue(false)
  {
    assert c.RequestFrame(s.client.data).value[..|part|] == part;
    assert ClientEnabled(c, s, WriteFail(|part|, error));
    assert Current(ClientNext(c, s, WriteFail(|part|, error))).toServer == Current(s).toServer + part;
  }

  /** A read can fail with any error after any part of a response, short of all of it, has come in. */
  lemma AnyPartOfResponseCanComeIn(c: Config, s: State, arrived: nat, error: Error)
    requires c.Scans() && c.Inverts() && Reachable(c, s) && s.client.Reading? && s.connections != []
    requires arrived <= |Current(s).toClient|
    requires Current(s).served < |Current(s).responses| ==>
               arrived < HEADER_LENGTH + |c.writeResponse(Current(s).responses[Current(s).served])|
    ensures ClientEnabled(c, s, ReadFail(arrived, error))
  {
    ReachableKeepsInvariant(c, s);
    var conn, got := Current(s), Current(s).toClient[..arrived];
    assert CurrentOk(c, s.client, conn);
    if arrived > 0 {
      TryReadPrefix(c.writeResponse(conn.responses[conn.served]), got);
    }
  }

  /** The session of any connection, lost or not, can fail after any part of its response has gone out. */
  lemma AnyPartOfResponseCanGoOut(c: Config, s: State, k: nat, part: Bytes)
    requires s.server == Running && k < |s.connections| && s.connections[k].session.Replying?
    requires part <= s.connections[k].session.frame
    ensures exists e: SessionEvent :: Enabled(c, s, BySession(k, e))
              && var t := Next(c, s, BySession(k, e));
                 && |t.connections| == |s.connections|
                 && t.connections[k].toClient == s.connections[k].toClient + part
                 && t.connections[k].session == Closed && t.client == s.client
  {
    assert s.connections[k].session.frame[..|part|] == part;
    assert Enabled(c, s, BySession(k, Fail(|part|)));
    assert Next(c, s, BySession(k, Fail(|part|))).connections[k].session == Closed;
  }

  /** A response that is not marked as good is not handled, nothing is removed from the queue, and the
      connection is opened again. */
  lemma BadResponseIsRetried(c: Config, s: State, junk: Response)
    requires ClientEnabled(c, s, ReadUnparsable(junk)) && junk.status == BAD
    ensures var t := ClientNext(c, s, ReadUnparsable(junk));
            t.client == GuardQueue(false) && t.queue == s.queue && t.handled == s.handled
  {
  }

  /** What ends the client at once: a connection that cannot be opened, a request that does not fit a frame,
      and a response with another padding than the last request. */
  lemma EndsTheClient(c: Config, s: State, e: ClientEvent)
    requires ClientEnabled(c, s, e)
    ensures e == OpenFail || e == WriteTooLong ==> ClientNext(c, s, e).client.Aborted?
    ensures e == WriteTooLong <==> s.client.Writing? && e != WriteOk && !e.WriteFail?
    ensures e == WriteTooLong ==> |c.writeRequest(s.client.data)| >= 0x1_0000_0000
    ensures e == Respond && s.client.response.data.padding != s.padding ==>
              ClientNext(c, s, e).client == Aborted(AssertionFailed)
  {
  }

  /** The client never looks at the front of an empty queue, nor pops one. */
  lemma QueueIsNeverEmptyWhenUsed(c: Config, s: State)
    requires c.Scans() && c.Inverts() && Reachable(c, s)
    ensures s.client == Fronting ==> ClientEnabled(c, s, Front)
    ensures s.client.Popping? ==> ClientEnabled(c, s, Pop) && ClientNext(c, s, Pop).popped == s.popped + [s.client.data]
  {
    ReachableKeepsInvariant(c, s);
  }

  /* The end of the client */

  /** When `listen` has returned false, every record pushed before its last look at the queue has been
      handled, and whatever is left in the queue was pushed after it. */
  lemma CleanExit(c: Config, s: State)
    requires c.Scans() && c.Inverts() && Reachable(c, s) && s.client == Exited
    ensures !c.keepAlive && |s.handled| == |s.popped| == s.mark <= |s.pushed|
    ensures s.popped == s.pushed[..s.mark] && s.queue == s.pushed[s.mark..]
    ensures !s.input.Good()
  {
    ReachableKeepsInvariant(c, s);
  }
}
