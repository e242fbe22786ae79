/** That everything can still be done: from which states the client can come to its end with every
    accepted record handled. */
module Completion {
  import opened Wrappers
  import opened Framing
  import opened Records
  import opened Protocol
  import opened ProtocolInvariant
  import opened ProtocolTheorems
  import opened Exit

  /** Every accepted record and its response fit a frame. */
  ghost predicate Fits(c: Config)
    requires c.Scans()
  {
    forall i :: 0 <= i < |Accepted(c)| ==> RecordFits(c, Accepted(c)[i])
  }

  /** The time of day makes no difference to what can be done; midnight serves. */
  ghost predicate RecordFits(c: Config, d: ClientData) {
    && c.RequestFrame(d).Some?
    && (d.operation != NOP ==> c.ResponseFrame(Answer(c, d)).Some?)
  }

  function Answer(c: Config, d: ClientData): Response
    requires d.operation != NOP
  {
    Response(OK, Serve(c.arithmetic, d, 0).value)
  }

  ghost predicate Leads(c: Config, s: State, t: State) {
    exists events: seq<Event> :: Run(c, s, events) == Some(t)
  }

  lemma {:induction false} RunOn(c: Config, s: State, first: seq<Event>, t: State, events: seq<Event>)
    requires Run(c, s, first) == Some(t)
    ensures Run(c, s, first + events) == Run(c, t, events)
    decreases |events|
  {
    if events == [] {
      assert first + [] == first;
    } else {
      var last := |events| - 1;
      RunOn(c, s, first, t, events[..last]);
      assert (first + events)[..|first + events| - 1] == first + events[..last];
    }
  }

  lemma LeadsOn(c: Config, s: State, t: State, u: State)
    requires Leads(c, s, t) && Leads(c, t, u)
    ensures Leads(c, s, u)
  {
    var first: seq<Event> :| Run(c, s, first) == Some(t);
    var events: seq<Event> :| Run(c, t, events) == Some(u);
    RunOn(c, s, first, t, events);
  }

  /** The server runs, the client has not given up, and the invariant holds. */
  ghost predicate Sound(c: Config, s: State)
    requires c.Scans()
  {
    Invariant(c, s) && s.server == Running && !s.client.Aborted?
  }

  /** One more step. */
  lemma Go(c: Config, s: State, t: State, e: Event) returns (u: State)
    requires c.Scans() && c.Inverts() && Invariant(c, t) && Leads(c, s, t) && Enabled(c, t, e)
    ensures u == Next(c, t, e) && Leads(c, s, u) && Invariant(c, u)
  {
    u := Next(c, t, e);
    StepKeepsInvariant(c, t, e);
    assert Run(c, t, [e]) == Some(u) by {
      assert [e][..0] == [];
      assert Run(c, t, []) == Some(t);
    }
    LeadsOn(c, s, t, u);
  }

  lemma Here(c: Config, s: State)
    ensures Leads(c, s, s)
  {
    assert Run(c, s, []) == Some(s);
  }

  /** The client has looked at the queue for the last time, and will exit whatever happens. */
  predicate Committed(s: State) {
    SawEnd(s.client) || (s.client.GuardScraper? && !s.input.Good())
  }

  /* The scraper first */

  /** The scraper has nothing more to do. */
  predicate ScraperDone(s: State) {
    !s.input.Good() && s.scraper == Scanning
  }

  lemma {:induction false} ScraperFinishes(c: Config, s: State) returns (t: State)
    requires c.Scans() && c.Inverts() && Invariant(c, s)
    ensures Leads(c, s, t) && Invariant(c, t) && ScraperDone(t)
    ensures t.client == s.client && t.server == s.server
    decreases |s.input.rest|, if s.input.Good() then 1 else 0, if s.scraper.Pushing? then 1 else 0
  {
    Here(c, s);
    if s.scraper.Pushing? {
      t := Go(c, s, s, ByScraper(Push));
      var u := ScraperFinishes(c, t);
      LeadsOn(c, s, t, u);
      t := u;
    } else if s.input.Good() {
      assert c.ScansAt(s.input);
      t := Go(c, s, s, ByScraper(Scan));
      var u := ScraperFinishes(c, t);
      LeadsOn(c, s, t, u);
      t := u;
    } else {
      t := s;
    }
  }

  /* One exchange */

  /** The client is at the end of a round, on a connection whose session waits for a request. */
  predicate Ready(s: State) {
    && s.client == GuardQueue(true) && s.connections != [] && Current(s).session == Receiving
    && s.server == Running && ScraperDone(s)
  }

  lemma WriteRequest(c: Config, s: State, t: State, d: ClientData) returns (u: State)
    requires c.Scans() && c.Inverts() && Invariant(c, t) && Leads(c, s, t) && t.server == Running && ScraperDone(t)
    requires t.client == Writing(d) && t.connections != [] && Current(t).session == Receiving
    requires c.RequestFrame(d).Some?
    ensures Leads(c, s, u) && Invariant(c, u) && u.client == Reading(d) && u.queue == t.queue
    ensures u.server == Running && ScraperDone(u) && u.connections != []
    ensures Current(u).toServer == c.RequestFrame(d).value && Current(u).toClient == []
    ensures Current(u).session == Receiving
  {
    u := Go(c, s, t, ByClient(WriteOk));
    assert [] + c.RequestFrame(d).value == c.RequestFrame(d).value;
  }

  lemma ExecuteRequest(c: Config, s: State, t: State, d: ClientData) returns (u: State)
    requires c.Scans() && c.Inverts() && Invariant(c, t) && Leads(c, s, t) && t.server == Running && ScraperDone(t)
    requires t.client == Reading(d) && t.connections != [] && Current(t).session == Receiving
    requires Some(Current(t).toServer) == c.RequestFrame(d) && Current(t).toClient == []
    requires RecordFits(c, d) && d.operation != NOP
    ensures Leads(c, s, u) && Invariant(c, u) && u.client == Reading(d) && u.queue == t.queue
    ensures u.server == Running && ScraperDone(u) && u.connections != [] && Current(u).toClient == []
    ensures Current(u).session == Replying(Answer(c, d), c.ResponseFrame(Answer(c, d)).value)
  {
    TryReadPrefix(c.writeRequest(d), Current(t).toServer);
    u := Go(c, s, t, BySession(|t.connections| - 1, Receive(0)));
  }

  lemma SendResponse(c: Config, s: State, t: State, d: ClientData, r: Response) returns (u: State)
    requires c.Scans() && c.Inverts() && Invariant(c, t) && Leads(c, s, t) && t.server == Running && ScraperDone(t)
    requires t.client == Reading(d) && t.connections != [] && Current(t).toClient == []
    requires c.ResponseFrame(r).Some? && Current(t).session == Replying(r, c.ResponseFrame(r).value)
    ensures Leads(c, s, u) && Invariant(c, u) && u.client == Reading(d) && u.queue == t.queue
    ensures u.server == Running && ScraperDone(u) && u.connections != [] && Current(u).session == Receiving
    ensures Some(Current(u).toClient) == c.ResponseFrame(r)
  {
    u := Go(c, s, t, BySession(|t.connections| - 1, Reply));
    assert [] + c.ResponseFrame(r).value == c.ResponseFrame(r).value;
  }

  lemma ReadResponse(c: Config, s: State, t: State, d: ClientData, r: Response) returns (u: State)
    requires c.Scans() && c.Inverts() && Invariant(c, t) && Leads(c, s, t) && t.server == Running && ScraperDone(t)
    requires t.client == Reading(d) && t.connections != [] && Current(t).session == Receiving
    requires Some(Current(t).toClient) == c.ResponseFrame(r) && r.status == OK
    ensures Leads(c, s, u) && Invariant(c, u) && u.client == Responding(d, r) && u.queue == t.queue
    ensures u.server == Running && ScraperDone(u) && u.connections != [] && Current(u).session == Receiving
  {
    TryReadPrefix(c.writeResponse(r), Current(t).toClient);
    u := Go(c, s, t, ByClient(ReadOk));
  }

  lemma HandleResponse(c: Config, s: State, t: State) returns (u: State)
    requires c.Scans() && c.Inverts() && Invariant(c, t) && Leads(c, s, t) && t.server == Running && ScraperDone(t)
    requires t.client.Responding? && t.connections != [] && Current(t).session == Receiving
    ensures Leads(c, s, u) && Invariant(c, u) && Ready(u) && t.queue != [] && u.queue == t.queue[1..]
  {
    PaddingMatches(c, t);
    u := Go(c, s, t, ByClient(Respond));
    u := Go(c, s, u, ByClient(Pop));
  }

  /** From the front of the queue to its removal, on a connection whose session waits for a request. */
  lemma Exchange(c: Config, s: State, t: State, d: ClientData) returns (u: State)
    requires c.Scans() && c.Inverts() && Invariant(c, t) && Leads(c, s, t) && t.server == Running && ScraperDone(t)
    requires t.client == Writing(d) && t.connections != [] && Current(t).session == Receiving
    requires RecordFits(c, d) && d.operation != NOP
    ensures Leads(c, s, u) && Invariant(c, u) && Ready(u) && t.queue != [] && u.queue == t.queue[1..]
  {
    u := WriteRequest(c, s, t, d);
    u := ExecuteRequest(c, s, u, d);
    u := SendResponse(c, s, u, d, Answer(c, d));
    u := ReadResponse(c, s, u, d, Answer(c, d));
    u := HandleResponse(c, s, u);
  }

  /** What is at the front of the queue was accepted, so it fits and can be answered. */
  lemma FrontFits(c: Config, s: State)
    requires c.Scans() && Invariant(c, s) && Fits(c) && s.queue != []
    ensures RecordFits(c, s.queue[0]) && s.queue[0].operation != NOP
  {
    PushedIsPrefix(c, s.input, s.scraper, s.pushed);
    var i := |s.popped|;
    assert s.pushed[i] == s.queue[0] && s.pushed[i] == Accepted(c)[i];
  }

  /** From a round's beginning to the write of the front record. */
  lemma BeginExchange(c: Config, s: State, t: State) returns (u: State)
    requires c.Scans() && c.Inverts() && Invariant(c, t) && Leads(c, s, t)
    requires t.client == Checking && t.queue != []
    ensures Leads(c, s, u) && Invariant(c, u) && u == t.(client := Writing(t.queue[0]), padding := t.queue[0].padding)
  {
    u := Go(c, s, t, ByClient(Check));
    u := Go(c, s, u, ByClient(Front));
    u := Go(c, s, u, ByClient(Request));
  }

  lemma NextRound(c: Config, s: State, t: State) returns (u: State)
    requires c.Scans() && c.Inverts() && Invariant(c, t) && Leads(c, s, t)
    requires t.client == GuardQueue(true) && t.queue != []
    ensures Leads(c, s, u) && Invariant(c, u) && u == t.(client := Checking)
  {
    u := Go(c, s, t, ByClient(GuardQueueStep));
    u := Go(c, s, u, ByClient(Decide));
  }

  /** On a connection that works, all the records that wait can be handled, and the client exits. */
  lemma {:induction false} Finish(c: Config, s: State) returns (t: State)
    requires c.Scans() && c.Inverts() && Fits(c) && !c.keepAlive && Invariant(c, s) && Ready(s)
    ensures Leads(c, s, t) && Invariant(c, t) && t.client == Exited && t.queue == [] && ScraperDone(t)
    decreases |s.queue|
  {
    Here(c, s);
    if s.queue == [] {
      t := Leave(c, s, s);
    } else {
      FrontFits(c, s);
      t := NextRound(c, s, s);
      t := BeginExchange(c, s, t);
      t := Exchange(c, s, t, s.queue[0]);
      var u := Finish(c, t);
      LeadsOn(c, s, t, u);
      t := u;
    }
  }

  lemma Leave(c: Config, s: State, t: State) returns (u: State)
    requires c.Scans() && c.Inverts() && !c.keepAlive && Invariant(c, t) && Leads(c, s, t)
    requires t.client == GuardQueue(true) && t.queue == [] && ScraperDone(t)
    ensures Leads(c, s, u) && Invariant(c, u) && u.client == Exited && u.queue == [] && ScraperDone(u)
  {
    u := Go(c, s, t, ByClient(GuardQueueStep));
    u := LeaveCommitted(c, s, u);
  }

  lemma LeaveCommitted(c: Config, s: State, t: State) returns (u: State)
    requires c.Scans() && c.Inverts() && Invariant(c, t) && Leads(c, s, t)
    requires Committed(t) && t.queue == [] && ScraperDone(t)
    ensures Leads(c, s, u) && Invariant(c, u) && u.client == Exited && u.queue == [] && ScraperDone(u)
  {
    u := t;
    if u.client.GuardScraper? {
      u := Go(c, s, u, ByClient(GuardScraperStep));
    }
    if u.client.Deciding? {
      u := Go(c, s, u, ByClient(Decide));
    }
  }

  /* From anywhere */

  /** A new connection, on which the session waits for a request. */
  lemma Connect(c: Config, s: State, t: State) returns (u: State)
    requires c.Scans() && c.Inverts() && Invariant(c, t) && Leads(c, s, t) && t.server == Running && ScraperDone(t)
    requires t.client == Opening
    ensures Leads(c, s, u) && Invariant(c, u) && u.client == Checking && u.queue == t.queue
    ensures u.server == Running && ScraperDone(u) && u.connections != [] && Current(u).session == Receiving
  {
    u := Go(c, s, t, ByClient(OpenOk));
    u := Go(c, s, u, BySession(|t.connections|, InitializeOk));
  }

  /** From a round's beginning on a connection that works. */
  lemma FinishRound(c: Config, s: State, t: State) returns (u: State)
    requires c.Scans() && c.Inverts() && Fits(c) && !c.keepAlive && Invariant(c, t) && Leads(c, s, t)
    requires t.client == Checking && t.server == Running && ScraperDone(t)
    requires t.connections != [] && Current(t).session == Receiving
    ensures Leads(c, s, u) && Invariant(c, u) && u.client == Exited && u.queue == [] && ScraperDone(u)
  {
    u := t;
    if t.queue == [] {
      u := Go(c, s, u, ByClient(Check));
    } else {
      FrontFits(c, t);
      u := BeginExchange(c, s, u);
      u := Exchange(c, s, u, t.queue[0]);
    }
    var v := Finish(c, u);
    LeadsOn(c, s, u, v);
    u := v;
  }

  /** An exchange is given up. */
  lemma GiveUp(c: Config, s: State, t: State) returns (u: State)
    requires c.Scans() && c.Inverts() && Invariant(c, t) && Leads(c, s, t)
    requires t.client.Writing? || t.client.Reading?
    requires t.client.Writing? ==> c.RequestFrame(t.client.data).Some?
    ensures Leads(c, s, u) && Invariant(c, u) && u.client == GuardQueue(false) && SameRest(t, u)
  {
    if t.client.Writing? {
      u := Go(c, s, t, ByClient(WriteFail(0, ConnectionReset)));
    } else {
      u := Go(c, s, t, ByClient(ReadFail(0, ConnectionReset)));
    }
  }

  /** The client's steps within a round leave the rest as it is. */
  predicate SameRest(t: State, u: State) {
    u.queue == t.queue && u.server == t.server && u.input == t.input && u.scraper == t.scraper
  }

  lemma LookAgain(c: Config, s: State, t: State) returns (u: State)
    requires c.Scans() && c.Inverts() && Invariant(c, t) && Leads(c, s, t) && t.client == GuardQueue(false)
    ensures Leads(c, s, u) && Invariant(c, u) && u.client == Deciding(false, true) && SameRest(t, u)
  {
    u := Go(c, s, t, ByClient(GuardQueueStep));
  }

  lemma Reopen(c: Config, s: State, t: State) returns (u: State)
    requires c.Scans() && c.Inverts() && Invariant(c, t) && Leads(c, s, t)
    requires t.client == GuardQueue(false) || t.client == Deciding(false, true)
    ensures Leads(c, s, u) && Invariant(c, u) && u.client == Opening && SameRest(t, u)
  {
    u := t;
    if u.client.GuardQueue? {
      u := LookAgain(c, s, u);
    }
    u := Go(c, s, u, ByClient(Decide));
  }

  lemma ToChecking(c: Config, s: State, t: State) returns (u: State)
    requires c.Scans() && c.Inverts() && Invariant(c, t) && Leads(c, s, t) && t.queue != []
    requires t.client in {GuardQueue(true), Deciding(true, true), Checking}
    ensures Leads(c, s, u) && Invariant(c, u) && SameRest(t, u) && u.client == Checking
  {
    u := t;
    if u.client == GuardQueue(true) {
      u := NextRound(c, s, u);
    } else if u.client == Deciding(true, true) {
      u := Go(c, s, u, ByClient(Decide));
    }
  }

  /** From anywhere before the write of a record, to that write. */
  lemma ToWriting(c: Config, s: State, t: State) returns (u: State)
    requires c.Scans() && c.Inverts() && Invariant(c, t) && Leads(c, s, t) && t.queue != []
    requires t.client in {GuardQueue(true), Deciding(true, true), Checking, Fronting} || t.client.Requesting?
    ensures Leads(c, s, u) && Invariant(c, u) && SameRest(t, u)
    ensures u.client == Writing(t.queue[0])
  {
    if t.client.Requesting? {
      u := Go(c, s, t, ByClient(Request));
    } else if t.client == Fronting {
      u := Go(c, s, t, ByClient(Front));
      u := Go(c, s, u, ByClient(Request));
    } else {
      u := ToChecking(c, s, t);
      u := BeginExchange(c, s, u);
    }
  }

  /** With records waiting, the client can always come to open another connection. */
  lemma ToOpening(c: Config, s: State, t: State) returns (u: State)
    requires c.Scans() && c.Inverts() && Fits(c) && Invariant(c, t) && Leads(c, s, t) && t.queue != []
    requires !t.client.Aborted? && !SawEmpty(t.client) && !t.client.Responding? && !t.client.Popping?
    ensures Leads(c, s, u) && Invariant(c, u) && u.client == Opening && SameRest(t, u)
  {
    u := t;
    FrontFits(c, t);
    if u.client in {GuardQueue(true), Deciding(true, true), Checking, Fronting} || u.client.Requesting? {
      u := ToWriting(c, s, u);
    }
    if u.client.Writing? || u.client.Reading? {
      u := GiveUp(c, s, u);
    }
    if u.client != Opening {
      u := Reopen(c, s, u);
    }
  }

  /** A response that has been read is handled. */
  lemma FinishResponse(c: Config, s: State, t: State) returns (u: State)
    requires c.Scans() && c.Inverts() && Invariant(c, t) && Leads(c, s, t)
    requires t.client.Responding? || t.client.Popping?
    ensures Leads(c, s, u) && Invariant(c, u) && u.client == GuardQueue(true)
    ensures u.server == t.server && u.input == t.input && u.scraper == t.scraper
  {
    u := t;
    if u.client.Responding? {
      PaddingMatches(c, u);
      u := Go(c, s, u, ByClient(Respond));
    }
    u := Go(c, s, u, ByClient(Pop));
  }

  /** With nothing waiting, between exchanges, the client can exit. */
  lemma FinishEmpty(c: Config, s: State, t: State) returns (u: State)
    requires c.Scans() && c.Inverts() && !c.keepAlive && Invariant(c, t) && Leads(c, s, t)
    requires t.client in {GuardQueue(true), Deciding(true, true), Checking} && t.queue == [] && ScraperDone(t)
    ensures Leads(c, s, u) && Invariant(c, u) && u.client == Exited && u.queue == [] && ScraperDone(u)
  {
    u := t;
    if u.client == Deciding(true, true) {
      u := Go(c, s, u, ByClient(Decide));
    }
    if u.client == Checking {
      u := Go(c, s, u, ByClient(Check));
    }
    u := Leave(c, s, u);
  }

  /** Once the scraper is done, from anywhere that is not committed. */
  lemma FinishFrom(c: Config, s: State, t: State) returns (u: State)
    requires c.Scans() && c.Inverts() && Fits(c) && !c.keepAlive && Leads(c, s, t)
    requires Sound(c, t) && ScraperDone(t) && !SawEmpty(t.client)
    ensures Leads(c, s, u) && Invariant(c, u) && u.client == Exited && u.queue == [] && ScraperDone(u)
  {
    u := t;
    if u.client.Responding? || u.client.Popping? {
      u := FinishResponse(c, s, u);
    }
    if u.queue != [] {
      u := ToOpening(c, s, u);
    }
    if u.client == Opening {
      u := Connect(c, s, u);
      u := FinishRound(c, s, u);
    } else {
      u := FinishEmpty(c, s, u);
    }
  }

  /** The client has exited, and has handled every accepted record. */
  ghost predicate Complete(c: Config, s: State)
    requires c.Scans()
  {
    s.client == Exited && |s.handled| == |Accepted(c)|
  }

  ghost predicate CanComplete(c: Config, s: State)
    requires c.Scans()
  {
    exists t :: Leads(c, s, t) && Complete(c, t)
  }

  lemma NothingLeft(c: Config, s: State)
    requires c.Scans() && Invariant(c, s) && s.client == Exited && s.queue == [] && ScraperDone(s)
    ensures Complete(c, s)
  {
    NothingInFuture(c, s);
    assert s.popped + [] + [] == s.popped;
  }

  lemma CompletesUncommitted(c: Config, s: State)
    requires c.Scans() && c.Inverts() && Fits(c) && !c.keepAlive && Sound(c, s) && !Committed(s)
    ensures CanComplete(c, s)
  {
    var t := s;
    Here(c, s);
    if t.client.GuardScraper? {
      t := Go(c, s, t, ByClient(GuardScraperStep));
    }
    var u := ScraperFinishes(c, t);
    LeadsOn(c, s, t, u);
    u := FinishFrom(c, s, u);
    NothingLeft(c, u);
  }

  lemma CompletesCommitted(c: Config, s: State)
    requires c.Scans() && c.Inverts() && Sound(c, s) && Committed(s) && s.queue == [] && s.scraper == Scanning
    ensures CanComplete(c, s)
  {
    Here(c, s);
    var t := LeaveCommitted(c, s, s);
    NothingLeft(c, t);
  }

  /* Where it cannot */

  lemma StaysCommitted(c: Config, s: State, e: Event)
    requires c.Scans() && Enabled(c, s, e) && Committed(s) && !s.input.Good()
    ensures var t := Next(c, s, e);
            Committed(t) && !t.input.Good() && t.handled == s.handled
  {
    HeldOrPushed(c, s, e);
  }

  lemma {:induction false} RunStaysCommitted(c: Config, s: State, events: seq<Event>, t: State)
    requires c.Scans() && Run(c, s, events) == Some(t) && Committed(s) && !s.input.Good()
    ensures Committed(t) && !t.input.Good() && t.handled == s.handled
    decreases |events|
  {
    if events != [] {
      var last := |events| - 1;
      var before := Run(c, s, events[..last]).value;
      RunStaysCommitted(c, s, events[..last], before);
      StaysCommitted(c, before, events[last]);
    }
  }

  lemma CommittedLoses(c: Config, s: State)
    requires c.Scans() && Invariant(c, s) && Committed(s) && (s.queue != [] || s.scraper != Scanning)
    ensures !CanComplete(c, s)
  {
    NothingInFuture(c, s);
    assert |s.pushed + Pending(s.scraper)| > |s.popped|;
    if CanComplete(c, s) {
      var t :| Leads(c, s, t) && Complete(c, t);
      var events: seq<Event> :| Run(c, s, events) == Some(t);
      RunStaysCommitted(c, s, events, t);
      assert false;
    }
  }

  /** From any state that a run can reach, while the server runs and the client has not given up, the run
      can be continued until the client exits with every accepted record handled, exactly when the client
      has not looked at the queue for the last time yet, or nothing is left in the queue or held by the
      scraper. */
  lemma CompletesExactly(c: Config, s: State)
    requires c.Scans() && c.Inverts() && Fits(c) && !c.keepAlive && Reachable(c, s)
    requires s.server == Running && !s.client.Aborted?
    ensures CanComplete(c, s) <==> !Committed(s) || (s.queue == [] && s.scraper == Scanning)
  {
    ReachableKeepsInvariant(c, s);
    if !Committed(s) {
      CompletesUncommitted(c, s);
    } else if s.queue == [] && s.scraper == Scanning {
      CompletesCommitted(c, s);
    } else {
      CommittedLoses(c, s);
    }
  }
}
