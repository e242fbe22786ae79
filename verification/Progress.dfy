/** Every run does a bounded amount of work: apart from polling, each step uses up part of a supply
    that only the failures of exchanges renew. */
module Progress {
  import opened Wrappers
  import opened Text
  import opened Framing
  import opened Records
  import opened Scraping
  import opened Protocol
  import opened ProtocolInvariant

  /* The supply */

  const RECORD: int := 12
  const UNREAD: int := 17
  const RETRY: int := 12

  /** With records in the queue, each step up to the next exchange counts. */
  function ClientWork(client: ClientPc, waiting: bool): nat {
    match client
    case Opening => 12
    case Checking => if waiting then 9 else 8
    case Fronting => 8
    case Requesting(_) => 7
    case Writing(_) => 6
    case Reading(_) => 3
    case Responding(_, _) => 2
    case Popping(_) => 1
    case GuardQueue(ok) => if !ok then 15 else if waiting then 11 else 8
    case GuardScraper(ok) => if !ok then 14 else if waiting then 11 else 8
    case Deciding(ok, inputOk) => if !inputOk then 1 else if !ok then 13 else if waiting then 10 else 8
    case Exited => 0
    case Aborted(_) => 0
  }

  function SessionWork(conn: Connection): nat {
    (if conn.toServer != [] then 2 else 0) + match conn.session
                                             case Initializing => 2
                                             case Replying(_, _) => 2
                                             case Receiving => 1
                                             case Closed => 0
  }

  function SessionsWork(connections: seq<Connection>): nat {
    if connections == [] then 0
    else SessionsWork(connections[..|connections| - 1]) + SessionWork(connections[|connections| - 1])
  }

  function ScraperWork(input: Input, scraper: ScraperPc): nat {
    UNREAD * (|input.rest| + if input.Good() then 1 else 0) + if scraper.Pushing? then RECORD + 4 else 0
  }

  function Work(s: State): nat {
    ScraperWork(s.input, s.scraper) + RECORD * |s.queue| + ClientWork(s.client, s.queue != [])
    + SessionsWork(s.connections) + if s.server == Running then 1 else 0
  }

  /* Steps that do not count */

  /** Polling: the scraper trying again at the end of its input, and the client taking a step round its
      loop while its connection is fine and nothing is in the queue. */
  predicate Idle(s: State, e: Event)
  {
    match e
    case ByScraper(a) => a == Scan && !s.input.Good()
    case ByClient(Check) => s.queue == []
    case ByClient(GuardQueueStep) => s.client.GuardQueue? && s.client.connectionOk && s.queue == []
    case ByClient(GuardScraperStep) =>
      s.client.GuardScraper? && s.client.connectionOk && s.input.Good() && s.queue == []
    case ByClient(Decide) => s.client.Deciding? && s.client.connectionOk && s.client.inputOk && s.queue == []
    case _ => false
  }

  /** An exchange ends in an error after which the connection is opened again. */
  predicate FailsExchange(c: Config, s: State, e: Event)
    requires Enabled(c, s, e)
  {
    e.ByClient? && Next(c, s, e).client == GuardQueue(false)
  }

  datatype Kind = IdleStep | FailingStep | WorkingStep

  function KindOf(c: Config, s: State, e: Event): Kind
    requires Enabled(c, s, e)
  {
    if Idle(s, e) then IdleStep else if FailsExchange(c, s, e) then FailingStep else WorkingStep
  }

  /** What a step takes from the supply, at least. */
  function Cost(kind: Kind): int {
    match kind
    case IdleStep => 0
    case FailingStep => -RETRY
    case WorkingStep => 1
  }

  /* Sums over the connections */

  lemma {:induction false} SessionsWorkUpdate(connections: seq<Connection>, k: nat, conn: Connection)
    requires k < |connections|
    ensures SessionsWork(connections[k := conn]) + SessionWork(connections[k])
         == SessionsWork(connections) + SessionWork(conn)
    decreases |connections|
  {
    var last := |connections| - 1;
    if k < last {
      SessionsWorkUpdate(connections[..last], k, conn);
      assert connections[k := conn][..last] == connections[..last][k := conn];
    } else {
      assert connections[k := conn][..last] == connections[..last];
    }
  }

  lemma SessionsWorkAppend(connections: seq<Connection>, conn: Connection)
    ensures SessionsWork(connections + [conn]) == SessionsWork(connections) + SessionWork(conn)
  {
    assert (connections + [conn])[..|connections|] == connections;
  }

  /* Each step */

  lemma ScraperUsesWork(c: Config, s: State, e: ScraperEvent)
    requires c.Scans() && ScraperEnabled(s, e)
    ensures Idle(s, ByScraper(e)) ==> ScraperNext(c, s, e) == s
    ensures !Idle(s, ByScraper(e)) ==> Work(ScraperNext(c, s, e)) < Work(s)
  {
    assert c.ScansAt(s.input);
    if e == Scan {
      var next := c.getDatum(s.input).input;
      if s.input.Good() {
        var before, after := |s.input.rest| + 1, |next.rest| + if next.Good() then 1 else 0;
        assert after <= before - 1;
        assert UNREAD * after <= UNREAD * (before - 1) == UNREAD * before - UNREAD;
      }
    } else {
      assert RECORD * |s.queue + [s.scraper.data]| == RECORD * |s.queue| + RECORD;
    }
  }

  lemma DeliverUsesWork(s: State, bytes: Bytes, client: ClientPc)
    requires s.connections != [] && s.client.Writing?
    ensures client.Reading? ==> Work(Deliver(s, bytes, client)) < Work(s)
    ensures client == GuardQueue(false) ==> Work(Deliver(s, bytes, client)) <= Work(s) + RETRY
    ensures client.Aborted? ==> Work(Deliver(s, bytes, client)) < Work(s)
  {
    var conn := Current(s).(toServer := Current(s).toServer + bytes);
    SessionsWorkUpdate(s.connections, |s.connections| - 1, conn);
  }

  /** Changes of the connection in use that concern only the client leave its work alone. */
  lemma ClientSideIsFree(s: State, conn: Connection)
    requires s.connections != []
    requires conn.toServer == Current(s).toServer && conn.session == Current(s).session
    ensures SessionsWork(WithCurrent(s, conn).connections) == SessionsWork(s.connections)
  {
    SessionsWorkUpdate(s.connections, |s.connections| - 1, conn);
  }

  predicate IsExchange(e: ClientEvent) {
    e.WriteOk? || e.WriteFail? || e.ReadOk? || e.Respond?
  }

  lemma WriteUsesWork(c: Config, s: State, e: ClientEvent)
    requires ClientEnabled(c, s, e) && (e.WriteOk? || e.WriteFail?)
    ensures Work(ClientNext(c, s, e)) + Cost(KindOf(c, s, ByClient(e))) <= Work(s)
  {
    if e.WriteOk? {
      DeliverUsesWork(s, c.RequestFrame(s.client.data).value, Reading(s.client.data));
    } else {
      DeliverUsesWork(s, c.RequestFrame(s.client.data).value[..e.delivered], AfterError(e.error));
    }
  }

  lemma ReadUsesWork(c: Config, s: State)
    requires ClientEnabled(c, s, ReadOk)
    ensures Work(ClientNext(c, s, ReadOk)) + Cost(KindOf(c, s, ByClient(ReadOk))) <= Work(s)
  {
    ClientSideIsFree(s, Current(s).(toClient := TryRead(Current(s).toClient).rest));
  }

  lemma RespondUsesWork(c: Config, s: State)
    requires ClientEnabled(c, s, Respond)
    ensures Work(ClientNext(c, s, Respond)) + Cost(KindOf(c, s, ByClient(Respond))) <= Work(s)
  {
    ClientSideIsFree(s, Current(s).(served := Current(s).served + 1));
  }

  lemma ControlUsesWork(c: Config, s: State, e: ClientEvent)
    requires ClientEnabled(c, s, e) && !IsExchange(e) && e != OpenOk && e != Pop
    ensures Work(ClientNext(c, s, e)) + Cost(KindOf(c, s, ByClient(e))) <= Work(s)
  {
  }

  lemma ClientUsesWork(c: Config, s: State, e: ClientEvent)
    requires ClientEnabled(c, s, e)
    ensures Work(ClientNext(c, s, e)) + Cost(KindOf(c, s, ByClient(e))) <= Work(s)
  {
    if e == OpenOk {
      SessionsWorkAppend(s.connections, Connection([], [], Initializing, |s.handled|, 0, [], []));
    } else if e == Pop {
      assert RECORD * |s.queue| == RECORD * |s.queue[1..]| + RECORD;
    } else if e.WriteOk? || e.WriteFail? {
      WriteUsesWork(c, s, e);
    } else if e == ReadOk {
      ReadUsesWork(c, s);
    } else if e == Respond {
      RespondUsesWork(c, s);
    } else {
      ControlUsesWork(c, s, e);
    }
  }

  /** Each step of a session uses up its phase or the request under way, of which there is only one. */
  lemma SessionUsesWork(c: Config, s: State, k: nat, e: SessionEvent)
    requires c.Scans() && c.Inverts() && Invariant(c, s)
    requires k < |s.connections| && SessionEnabled(s.connections[k], e)
    ensures var outcome := SessionNext(c, s.connections[k], e);
            outcome.Continues? ==> SessionWork(outcome.conn) < SessionWork(s.connections[k])
  {
    if e.Receive? {
      OnlyWholeRequestsAreRead(c, s.pushed, s.connections[k]);
    }
  }

  lemma SessionStepUsesWork(c: Config, s: State, k: nat, e: SessionEvent)
    requires c.Scans() && c.Inverts() && Invariant(c, s) && Enabled(c, s, BySession(k, e))
    ensures Work(Next(c, s, BySession(k, e))) < Work(s)
  {
    SessionUsesWork(c, s, k, e);
    var outcome := SessionNext(c, s.connections[k], e);
    if outcome.Continues? {
      SessionsWorkUpdate(s.connections, k, outcome.conn);
    }
  }

  lemma StepUsesWork(c: Config, s: State, e: Event)
    requires c.Scans() && c.Inverts() && Invariant(c, s) && Enabled(c, s, e)
    ensures Work(Next(c, s, e)) + Cost(KindOf(c, s, e)) <= Work(s)
  {
    match e
    case ByScraper(a) => ScraperUsesWork(c, s, a);
    case ByClient(a) => ClientUsesWork(c, s, a);
    case BySession(k, a) => SessionStepUsesWork(c, s, k, a);
  }

  /* Each run */

  datatype Count = Count(busy: nat, failures: nat) {
    function Add(kind: Kind): Count {
      match kind
      case IdleStep => this
      case FailingStep => Count(busy + 1, failures + 1)
      case WorkingStep => Count(busy + 1, failures)
    }
  }

  /** How many steps of a run are busy, that is not idle, and how many of those fail an exchange. */
  function CountSteps(c: Config, s: State, events: seq<Event>): Count
    requires Run(c, s, events).Some?
    decreases |events|
  {
    if events == [] then Count(0, 0)
    else
      var last := |events| - 1;
      CountSteps(c, s, events[..last]).Add(KindOf(c, Run(c, s, events[..last]).value, events[last]))
  }

  lemma AddCosts(n: Count, kind: Kind)
    ensures n.Add(kind).busy - (RETRY + 1) * n.Add(kind).failures
         == n.busy - (RETRY + 1) * n.failures + Cost(kind)
  {
  }

  lemma {:induction false} RunUsesWork(c: Config, s: State, events: seq<Event>, t: State)
    requires c.Scans() && c.Inverts() && Invariant(c, s) && Run(c, s, events) == Some(t)
    ensures Work(t) + CountSteps(c, s, events).busy
         <= Work(s) + (RETRY + 1) * CountSteps(c, s, events).failures
    decreases |events|
  {
    if events != [] {
      var last := |events| - 1;
      var before := Run(c, s, events[..last]).value;
      RunUsesWork(c, s, events[..last], before);
      RunKeepsInvariant(c, s, events[..last], before);
      StepUsesWork(c, before, events[last]);
      AddCosts(CountSteps(c, s, events[..last]), KindOf(c, before, events[last]));
    }
  }

  lemma InitialWork(c: Config, padding: Padding)
    ensures Work(Initial(c, padding)) <= UNREAD * (|c.text| + 2)
  {
    var s := Initial(c, padding);
    assert UNREAD * (|c.text| + 2) == UNREAD * (|c.text| + 1) + UNREAD;
    assert ScraperWork(s.input, s.scraper) == UNREAD * (|c.text| + 1);
    assert RECORD * |s.queue| == 0 && SessionsWork(s.connections) == 0;
  }

  /** Whatever the input, from the start on the busy steps of a run are bounded by the length of the
      text and the number of exchanges that fail. */
  lemma BoundedWork(c: Config, padding: Padding, events: seq<Event>)
    requires c.Scans() && c.Inverts() && Run(c, Initial(c, padding), events).Some?
    ensures var n := CountSteps(c, Initial(c, padding), events);
            n.busy <= UNREAD * (|c.text| + 2) + (RETRY + 1) * n.failures
  {
    var s := Initial(c, padding);
    InitialInvariant(c, padding);
    RunUsesWork(c, s, events, Run(c, s, events).value);
    InitialWork(c, padding);
  }
}
