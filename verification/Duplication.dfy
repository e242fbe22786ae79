/** How often the records are executed by the sessions, duplicates included. */
module Duplication {
  import opened Wrappers
  import opened Records
  import opened Protocol
  import opened ProtocolInvariant
  import opened Progress

  /** A session executes a contiguous part of the records, from the first one that was unhandled when
      its connection was opened, each at most once, and at most one more than are handled from it. */
  lemma SessionExecutesSlice(c: Config, s: State, k: nat)
    requires c.Scans() && c.Inverts() && Reachable(c, s) && k < |s.connections|
    ensures var conn := s.connections[k];
            && conn.served <= |conn.executed| <= conn.served + 1
            && conn.base + |conn.executed| <= |s.pushed|
            && conn.executed == s.pushed[conn.base..conn.base + |conn.executed|]
            && conn.base == HandledBefore(s.connections, k)
  {
    ReachableKeepsInvariant(c, s);
    assert ConnectionOk(c, s.pushed, s.connections[k]);
    BaseIsHandledBefore(s.connections, k);
  }

  /** The responses handled on the first `k` connections. */
  function HandledBefore(connections: seq<Connection>, k: nat): nat
    requires k <= |connections|
  {
    if k == 0 then 0 else HandledBefore(connections, k - 1) + connections[k - 1].served
  }

  lemma {:induction false} BaseIsHandledBefore(connections: seq<Connection>, k: nat)
    requires k < |connections| && connections[0].base == 0
    requires forall j :: 0 <= j < |connections| - 1 ==>
               connections[j + 1].base == connections[j].base + connections[j].served
    ensures connections[k].base == HandledBefore(connections, k)
  {
    if k > 0 {
      BaseIsHandledBefore(connections, k - 1);
      assert connections[(k - 1) + 1].base == connections[k - 1].base + connections[k - 1].served;
    }
  }

  function ExecutionsBefore(connections: seq<Connection>, k: nat): nat
    requires k <= |connections|
  {
    if k == 0 then 0 else ExecutionsBefore(connections, k - 1) + |connections[k - 1].executed|
  }

  /** How many of the first `k` sessions executed a request to which no response was handled on their
      connection. */
  function Unanswered(connections: seq<Connection>, k: nat): nat
    requires k <= |connections|
  {
    if k == 0 then 0
    else Unanswered(connections, k - 1) + if |connections[k - 1].executed| > connections[k - 1].served then 1 else 0
  }

  lemma {:induction false} ExecutionsCounted(c: Config, pushed: seq<ClientData>, connections: seq<Connection>, k: nat)
    requires ConnectionsOk(c, pushed, connections) && k <= |connections|
    ensures ExecutionsBefore(connections, k) == HandledBefore(connections, k) + Unanswered(connections, k)
    ensures Unanswered(connections, k) <= k
  {
    if k > 0 {
      ExecutionsCounted(c, pushed, connections, k - 1);
      assert ConnectionOk(c, pushed, connections[k - 1]);
    }
  }

  /** Altogether there are exactly as many executions as responses handled and sessions that executed a
      request to which no response was handled on their connection. */
  lemma ExecutionsExactly(c: Config, s: State)
    requires c.Scans() && c.Inverts() && Reachable(c, s)
    ensures var n := |s.connections|;
            && ExecutionsBefore(s.connections, n) == |s.handled| + Unanswered(s.connections, n)
            && Unanswered(s.connections, n) <= n
  {
    ReachableKeepsInvariant(c, s);
    var n := |s.connections|;
    ExecutionsCounted(c, s.pushed, s.connections, n);
    if n > 0 {
      BaseIsHandledBefore(s.connections, n - 1);
    }
  }

  /* Executing a record twice */

  /** The session executed the `i`-th record. */
  predicate Executes(conn: Connection, i: nat) {
    conn.base <= i < conn.base + |conn.executed|
  }

  ghost predicate ExecutedTwice(connections: seq<Connection>) {
    exists i: nat, j: nat, k: nat ::
      j < k < |connections| && Executes(connections[j], i) && Executes(connections[k], i)
  }

  /** A session executed a request without its response being handled on that connection, and the
      session of a later connection executed any request at all. */
  ghost predicate Resumed(connections: seq<Connection>) {
    exists j: nat, k: nat :: j < k < |connections| && ResumedAt(connections[j], connections[k])
  }

  predicate ResumedAt(lost: Connection, later: Connection) {
    |lost.executed| > lost.served && later.executed != []
  }

  lemma {:induction false} BasesIncrease(connections: seq<Connection>, handled: nat, j: nat, k: nat)
    requires Chained(connections, handled) && j < k < |connections|
    ensures connections[j].base + connections[j].served <= connections[k].base
  {
    assert connections[(k - 1) + 1].base == connections[k - 1].base + connections[k - 1].served;
    if j < k - 1 {
      BasesIncrease(connections, handled, j, k - 1);
    }
  }

  /** The first session after the `j`-th that executes anything starts where that one was left. */
  lemma {:induction false} FirstToExecute(c: Config, pushed: seq<ClientData>, connections: seq<Connection>,
                                          handled: nat, j: nat, k: nat) returns (m: nat)
    requires ConnectionsOk(c, pushed, connections) && Chained(connections, handled)
    requires j < k < |connections| && connections[k].executed != []
    ensures j < m <= k && connections[m].executed != []
    ensures connections[m].base == connections[j].base + connections[j].served
  {
    m := j + 1;
    assert connections[j + 1].base == connections[j].base + connections[j].served;
    while connections[m].executed == []
      invariant j < m <= k && connections[m].base == connections[j].base + connections[j].served
      decreases k - m
    {
      assert ConnectionOk(c, pushed, connections[m]);
      assert connections[m + 1].base == connections[m].base + connections[m].served;
      m := m + 1;
    }
  }

  lemma TwiceInChain(c: Config, pushed: seq<ClientData>, connections: seq<Connection>, handled: nat)
    requires ConnectionsOk(c, pushed, connections) && Chained(connections, handled)
    ensures ExecutedTwice(connections) <==> Resumed(connections)
  {
    if ExecutedTwice(connections) {
      var i: nat, j: nat, k: nat :|
        j < k < |connections| && Executes(connections[j], i) && Executes(connections[k], i);
      BasesIncrease(connections, handled, j, k);
      assert ResumedAt(connections[j], connections[k]);
    }
    if Resumed(connections) {
      var j: nat, k: nat :| j < k < |connections| && ResumedAt(connections[j], connections[k]);
      var m := FirstToExecute(c, pushed, connections, handled, j, k);
      assert ConnectionOk(c, pushed, connections[j]);
      assert Executes(connections[j], connections[m].base) && Executes(connections[m], connections[m].base);
    }
  }

  /** Some record was executed twice exactly when a session executed a request to which no response was
      handled on its connection, and the session of a later connection has executed one since. */
  lemma ExecutedTwiceExactly(c: Config, s: State)
    requires c.Scans() && c.Inverts() && Reachable(c, s)
    ensures ExecutedTwice(s.connections) <==> Resumed(s.connections)
  {
    ReachableKeepsInvariant(c, s);
    TwiceInChain(c, s.pushed, s.connections, |s.handled|);
  }

  /* Executions and failures */

  /** The client is on its way to another connection. */
  predicate Reconnecting(client: ClientPc) {
    || client == Opening
    || (client.GuardQueue? && !client.connectionOk)
    || (client.GuardScraper? && !client.connectionOk)
    || (client.Deciding? && !client.connectionOk)
  }

  /** No more connections are opened than the first one and one for each failed exchange. */
  lemma {:induction false} ConnectionsAndFailures(c: Config, padding: Padding, events: seq<Event>, t: State)
    requires Run(c, Initial(c, padding), events) == Some(t)
    ensures |t.connections| + (if Reconnecting(t.client) then 1 else 0)
         <= CountSteps(c, Initial(c, padding), events).failures + 1
    decreases |events|
  {
    if events != [] {
      var last := |events| - 1;
      var before := Run(c, Initial(c, padding), events[..last]).value;
      ConnectionsAndFailures(c, padding, events[..last], before);
      StepReconnects(c, before, events[last]);
    }
  }

  lemma StepReconnects(c: Config, s: State, e: Event)
    requires Enabled(c, s, e)
    ensures var t := Next(c, s, e);
            |t.connections| + (if Reconnecting(t.client) then 1 else 0)
            <= |s.connections| + (if Reconnecting(s.client) then 1 else 0)
             + (if KindOf(c, s, e) == FailingStep then 1 else 0)
  {
  }

  /** Every handled record was executed; and there are at most as many executions as responses handled
      and exchanges failed, and one. */
  lemma BoundedDuplication(c: Config, padding: Padding, events: seq<Event>, s: State)
    requires c.Scans() && c.Inverts() && Run(c, Initial(c, padding), events) == Some(s)
    ensures |s.handled| <= ExecutionsBefore(s.connections, |s.connections|)
         <= |s.handled| + CountSteps(c, Initial(c, padding), events).failures + 1
    ensures ExecutionsBefore(s.connections, |s.connections|) <= |s.handled| + |s.connections|
  {
    ConnectionsAndFailures(c, padding, events, s);
    assert Reachable(c, s);
    ExecutionsExactly(c, s);
  }
}
