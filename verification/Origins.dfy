/** Where the responses that the client handles come from. */
module Origins {
  import opened Wrappers
  import opened Records
  import opened Protocol
  import opened ProtocolInvariant

  /** The responses handled on each connection are the first ones that its own session produced. */
  ghost predicate Own(connections: seq<Connection>, handled: seq<Response>) {
    forall k, j :: 0 <= k < |connections| && 0 <= j < connections[k].served ==> OwnAt(connections[k], handled, j)
  }

  ghost predicate OwnAt(conn: Connection, handled: seq<Response>, j: nat) {
    && conn.base + j < |handled| && j < |conn.responses|
    && handled[conn.base + j] == conn.responses[j]
  }

  /** A connection that changes nothing of what was handled on it. */
  predicate SameHistory(before: Connection, after: Connection) {
    after.base == before.base && after.served == before.served && before.responses <= after.responses
  }

  lemma HistoryKeeps(connections: seq<Connection>, k: nat, conn: Connection, handled: seq<Response>)
    requires Own(connections, handled) && k < |connections| && SameHistory(connections[k], conn)
    ensures Own(connections[k := conn], handled)
  {
    var connections' := connections[k := conn];
    forall i, j | 0 <= i < |connections'| && 0 <= j < connections'[i].served
      ensures OwnAt(connections'[i], handled, j)
    {
      assert OwnAt(connections[i], handled, j);
    }
  }

  lemma NewConnectionKeeps(connections: seq<Connection>, conn: Connection, handled: seq<Response>)
    requires Own(connections, handled) && conn.served == 0
    ensures Own(connections + [conn], handled)
  {
    var connections' := connections + [conn];
    forall i, j | 0 <= i < |connections'| && 0 <= j < connections'[i].served
      ensures OwnAt(connections'[i], handled, j)
    {
      assert OwnAt(connections[i], handled, j);
    }
  }

  /** One more response handled on the last connection: its own next one. */
  lemma ServedKeeps(connections: seq<Connection>, handled: seq<Response>, r: Response)
    requires Own(connections, handled) && connections != []
    requires var conn := connections[|connections| - 1];
             && conn.base + conn.served == |handled|
             && conn.served < |conn.responses| && r == conn.responses[conn.served]
    ensures var last := |connections| - 1;
            Own(connections[last := connections[last].(served := connections[last].served + 1)], handled + [r])
  {
    var last := |connections| - 1;
    var connections' := connections[last := connections[last].(served := connections[last].served + 1)];
    forall i, j | 0 <= i < |connections| && 0 <= j < connections'[i].served
      ensures OwnAt(connections'[i], handled + [r], j)
    {
      if j < connections[i].served {
        assert OwnAt(connections[i], handled, j);
      }
    }
  }

  lemma ClientStepKeepsOwn(c: Config, s: State, e: ClientEvent)
    requires c.Scans() && Invariant(c, s) && ClientEnabled(c, s, e) && Own(s.connections, s.handled)
    ensures Own(ClientNext(c, s, e).connections, ClientNext(c, s, e).handled)
  {
    if e == OpenOk {
      NewConnectionKeeps(s.connections, Connection([], [], Initializing, |s.handled|, 0, [], []), s.handled);
    } else if e == Respond {
      RespondKeepsOwn(c, s);
    } else if e.WriteOk? || e.WriteFail? || e.ReadOk? {
      StreamsKeepOwn(c, s, e);
    }
  }

  lemma StreamsKeepOwn(c: Config, s: State, e: ClientEvent)
    requires ClientEnabled(c, s, e) && (e.WriteOk? || e.WriteFail? || e.ReadOk?) && Own(s.connections, s.handled)
    ensures Own(ClientNext(c, s, e).connections, ClientNext(c, s, e).handled)
  {
    var k := |s.connections| - 1;
    var after := ClientNext(c, s, e);
    assert after.connections == s.connections[k := after.connections[k]];
    HistoryKeeps(s.connections, k, after.connections[k], s.handled);
  }

  lemma RespondKeepsOwn(c: Config, s: State)
    requires c.Scans() && Invariant(c, s) && ClientEnabled(c, s, Respond) && Own(s.connections, s.handled)
    ensures Own(ClientNext(c, s, Respond).connections, ClientNext(c, s, Respond).handled)
  {
    RespondingFacts(c, s);
    ServedKeeps(s.connections, s.handled, s.client.response);
  }

  lemma RespondingFacts(c: Config, s: State)
    requires c.Scans() && Invariant(c, s) && ClientEnabled(c, s, Respond)
    ensures var conn := Current(s);
            && conn.base + conn.served == |s.handled|
            && conn.served < |conn.responses| && s.client.response == conn.responses[conn.served]
  {
    assert CurrentOk(c, s.client, Current(s));
  }

  lemma StepKeepsOwn(c: Config, s: State, e: Event)
    requires c.Scans() && Invariant(c, s) && Enabled(c, s, e) && Own(s.connections, s.handled)
    ensures Own(Next(c, s, e).connections, Next(c, s, e).handled)
  {
    match e
    case ByScraper(_) =>
    case ByClient(a) => ClientStepKeepsOwn(c, s, a);
    case BySession(k, a) =>
      var outcome := SessionNext(c, s.connections[k], a);
      if outcome.Continues? {
        HistoryKeeps(s.connections, k, outcome.conn, s.handled);
      }
  }

  lemma {:induction false} RunKeepsOwn(c: Config, s: State, events: seq<Event>, t: State)
    requires c.Scans() && c.Inverts() && Invariant(c, s) && Own(s.connections, s.handled)
    requires Run(c, s, events) == Some(t)
    ensures Own(t.connections, t.handled)
    decreases |events|
  {
    if events != [] {
      var last := |events| - 1;
      var before := Run(c, s, events[..last]).value;
      RunKeepsOwn(c, s, events[..last], before);
      RunKeepsInvariant(c, s, events[..last], before);
      StepKeepsOwn(c, before, events[last]);
    }
  }

  lemma ReachableKeepsOwn(c: Config, s: State)
    requires c.Scans() && c.Inverts() && Reachable(c, s)
    ensures Own(s.connections, s.handled)
  {
    var padding: Padding, events: seq<Event> :| Run(c, Initial(c, padding), events) == Some(s);
    InitialInvariant(c, padding);
    RunKeepsOwn(c, Initial(c, padding), events, s);
  }

  /** The connections divide the handled responses among them. */
  lemma FindConnection(connections: seq<Connection>, handled: nat, i: nat) returns (k: nat)
    requires Chained(connections, handled) && i < handled
    ensures k < |connections| && connections[k].base <= i < connections[k].base + connections[k].served
  {
    k := |connections| - 1;
    while i < connections[k].base
      invariant 0 <= k < |connections| && i < connections[k].base + connections[k].served
      decreases k
    {
      assert connections[(k - 1) + 1].base == connections[k - 1].base + connections[k - 1].served;
      k := k - 1;
    }
  }

  /** The session of `conn` executed `d` as the `i`-th record, produced `r` for it, and the client handled
      that response on this very connection. */
  ghost predicate HandledOn(conn: Connection, i: nat, d: ClientData, r: Response) {
    && conn.base <= i < conn.base + conn.served
    && i - conn.base < |conn.executed| && i - conn.base < |conn.responses|
    && conn.executed[i - conn.base] == d && conn.responses[i - conn.base] == r
  }

  lemma OriginOf(c: Config, pushed: seq<ClientData>, connections: seq<Connection>, handled: seq<Response>, i: nat)
      returns (k: nat)
    requires ConnectionsOk(c, pushed, connections) && Chained(connections, |handled|) && Own(connections, handled)
    requires i < |handled| <= |pushed|
    ensures k < |connections| && HandledOn(connections[k], i, pushed[i], handled[i])
  {
    k := FindConnection(connections, |handled|, i);
    var conn := connections[k];
    assert ConnectionOk(c, pushed, conn);
    assert OwnAt(conn, handled, i - conn.base);
  }

  ghost predicate HandledSomewhere(connections: seq<Connection>, i: nat, d: ClientData, r: Response) {
    exists k: nat :: k < |connections| && HandledOn(connections[k], i, d, r)
  }

  /** Every response handled is the very one, time stamp included, that the session of the connection in
      use produced for that record on that connection: none is left over from another connection, or
      from another record. */
  lemma HandledWhereProduced(c: Config, s: State, i: nat)
    requires c.Scans() && c.Inverts() && Reachable(c, s) && i < |s.handled|
    ensures i < |s.pushed|
    ensures HandledSomewhere(s.connections, i, s.pushed[i], s.handled[i])
  {
    ReachableKeepsInvariant(c, s);
    ReachableKeepsOwn(c, s);
    var k := OriginOf(c, s.pushed, s.connections, s.handled, i);
  }

  /** When a response is about to be handled, it is the last one that the session of the newest
      connection produced, and nothing else is on its way on that connection. */
  lemma RespondsToCurrent(c: Config, s: State)
    requires c.Scans() && c.Inverts() && Reachable(c, s) && s.client.Responding?
    ensures s.connections != []
    ensures var conn := Current(s);
            && conn.executed != [] && |conn.responses| == |conn.executed| == conn.served + 1
            && conn.executed[conn.served] == s.client.data
            && conn.responses[conn.served] == s.client.response
            && conn.toServer == [] && conn.toClient == []
  {
    ReachableKeepsInvariant(c, s);
    CurrentServesFront(c, s, s.client.data);
    assert CurrentOk(c, s.client, Current(s));
  }
}
