/** The server: sessions that work by completion handlers, and the loop that accepts connections. */
module Sessions {
  import opened Wrappers
  import opened Text
  import opened Framing
  import opened Records
  import P = Protocol

  /** The asynchronous operation that a session waits for. */
  datatype AsyncOperation = Nothing | Accept | Initialize | Read | Write

  /** The operations of a session, in the order in which they were started: an accept, an
      initialization, then reads and writes in turn. */
  ghost predicate Disciplined(started: seq<AsyncOperation>) {
    forall i :: 0 <= i < |started| ==>
      started[i] == if i == 0 then Accept else if i == 1 then Initialize else if i % 2 == 0 then Read else Write
  }

  /** What completes next, as the event loop sees it. */
  datatype Completion =
    | Accepted(ok: bool)
    | Initialized(k: nat, ok: bool)
    | Received(k: nat, payload: Option<Bytes>, now: int)
    | Replied(k: nat, ok: bool)

  /* What the server does, on values */

  datatype Look = Look(pending: AsyncOperation, request: Option<ClientData>, response: Option<Response>,
                       outbound: Bytes)

  const NEW: Look := Look(Nothing, None, None, [])

  /** After a read, with its payload if there was no error: the request is decoded, the strategy applied
      and the write of its response started, as far as that goes. */
  function AfterRead(c: P.Config, look: Look, payload: Option<Bytes>, now: int): Look {
    if payload.None? || c.readRequest(payload.value).None? then look.(pending := Nothing)
    else
      var d := c.readRequest(payload.value).value;
      var answer := Serve(c.arithmetic, d, now);
      if answer.None? then look.(pending := Nothing, request := Some(d))
      else
        var r := Response(OK, answer.value);
        match c.ResponseFrame(r)
        case None => look.(pending := Nothing, request := Some(d), response := Some(r))
        case Some(frame) => Look(Write, Some(d), Some(r), frame)
  }

  function After(c: P.Config, look: Look, e: Completion): Look {
    match e
    case Accepted(ok) => look.(pending := if ok then Initialize else Nothing)
    case Initialized(_, ok) => look.(pending := if ok then Read else Nothing)
    case Received(_, payload, now) => AfterRead(c, look, payload, now)
    case Replied(_, ok) => look.(pending := if ok then Read else Nothing)
  }

  /** An exception leaves the event loop. */
  predicate Throws(c: P.Config, e: Completion) {
    match e
    case Initialized(_, ok) => !ok
    case Received(_, payload, now) =>
      payload.Some?
      && (c.readRequest(payload.value).None? || Serve(c.arithmetic, c.readRequest(payload.value).value, now).None?)
    case _ => false
  }

  datatype Server = Server(sessions: seq<Look>, stopped: bool) {
    /** Whether a completion can come next: its operation is pending. */
    predicate Possible(e: Completion) {
      match e
      case Accepted(_) => sessions != [] && sessions[|sessions| - 1].pending == Accept
      case Initialized(k, _) => k < |sessions| && sessions[k].pending == Initialize
      case Received(k, _, _) => k < |sessions| && sessions[k].pending == Read
      case Replied(k, _) => k < |sessions| && sessions[k].pending == Write
    }

    function Target(e: Completion): nat
      requires Possible(e)
    {
      if e.Accepted? then |sessions| - 1 else e.k
    }

    function Next(c: P.Config, e: Completion): Server {
      if stopped || !Possible(e) then this
      else
        var k := Target(e);
        var sessions' := sessions[k := After(c, sessions[k], e)];
        Server(if e.Accepted? then sessions' + [NEW.(pending := Accept)] else sessions', Throws(c, e))
    }

    function Run(c: P.Config, completions: seq<Completion>): Server
      decreases |completions|
    {
      if completions == [] then this
      else Run(c, completions[..|completions| - 1]).Next(c, completions[|completions| - 1])
    }
  }

  /** A request that is received whole, decodes, has a valid operation and an answer that fits is answered:
      its own answer, with the time it was computed, is being written. */
  lemma RequestIsAnswered(c: P.Config, s: Server, k: nat, payload: Bytes, now: int)
    requires !s.stopped && s.Possible(Received(k, Some(payload), now))
    requires c.readRequest(payload).Some? && c.readRequest(payload).value.operation != NOP
    requires forall r :: Answers(c.arithmetic, r, c.readRequest(payload).value) ==> c.ResponseFrame(r).Some?
    ensures var t := s.Next(c, Received(k, Some(payload), now));
            && !t.stopped && |t.sessions| == |s.sessions|
            && var look := t.sessions[k];
               && look.pending == Write && look.request == c.readRequest(payload) && look.response.Some?
               && Answers(c.arithmetic, look.response.value, look.request.value)
               && look.response.value.data.timestamp == now
               && c.ResponseFrame(look.response.value) == Some(look.outbound)
  {
    var d := c.readRequest(payload).value;
    ServeAnswers(c.arithmetic, d, now);
    assert Answers(c.arithmetic, Response(OK, Serve(c.arithmetic, d, now).value), d);
  }

  /** What else a completion leads to, for the session concerned, for the server and for the others. */
  lemma CompletionEffects(c: P.Config, s: Server, e: Completion)
    requires !s.stopped && s.Possible(e)
    ensures var t := s.Next(c, e);
            var k := s.Target(e);
            && |t.sessions| == |s.sessions| + (if e.Accepted? then 1 else 0)
            && (forall j :: 0 <= j < |s.sessions| && j != k ==> t.sessions[j] == s.sessions[j])
            && (e == Accepted(true) ==> t.sessions[k].pending == Initialize)
            && (e.Accepted? ==> t.sessions[|s.sessions|].pending == Accept)
            && (e == Initialized(k, true) || e == Replied(k, true) ==> t.sessions[k].pending == Read)
            && (e in {Accepted(false), Initialized(k, false), Replied(k, false)} ==> t.sessions[k].pending == Nothing)
            && (e.Received? && e.payload.None? ==> t.sessions[k].pending == Nothing)
            && (t.stopped <==>
                  || e == Initialized(k, false)
                  || (e.Received? && e.payload.Some?
                      && (c.readRequest(e.payload.value).None?
                          || c.readRequest(e.payload.value).value.operation == NOP)))
  {
  }

  /** The phase of a session in the machine of steps. */
  function PhaseOf(look: Look): P.Session
    requires look.pending == Write ==> look.response.Some?
  {
    match look.pending
    case Initialize => P.Initializing
    case Read => P.Receiving
    case Write => P.Replying(look.response.value, look.outbound)
    case _ => P.Closed
  }

  /** The completion that a step of the machine stands for. */
  function CompletionOf(conn: P.Connection, k: nat, e: P.SessionEvent): Completion
    requires P.SessionEnabled(conn, e)
  {
    match e
    case InitializeOk => Initialized(k, true)
    case InitializeFail => Initialized(k, false)
    case Receive(now) => Received(k, Some(TryRead(conn.toServer).payload), now)
    case ReceiveUnparsable => Received(k, None, 0)
    case Reply => Replied(k, true)
    case Fail(_) => if conn.session.Replying? then Replied(k, false) else Received(k, None, 0)
  }

  /** Every step of a session in the machine is what the handler of that completion does. */
  lemma MachineFollowsHandlers(c: P.Config, conn: P.Connection, k: nat, e: P.SessionEvent, look: Look)
    requires P.SessionEnabled(conn, e) && (look.pending == Write ==> look.response.Some?)
    requires PhaseOf(look) == conn.session
    ensures var outcome := P.SessionNext(c, conn, e);
            && (outcome.Crashes? <==> Throws(c, CompletionOf(conn, k, e)))
            && (outcome.Continues? ==>
                  var after := After(c, look, CompletionOf(conn, k, e));
                  (after.pending == Write ==> after.response.Some?) && PhaseOf(after) == outcome.conn.session)
  {
  }

  class Session {
    const id: nat
    const c: P.Config
    var pending: AsyncOperation
    var request: Option<ClientData>
    var response: Option<Response>
    var outbound: Bytes
    ghost var started: seq<AsyncOperation>

    constructor (id: nat, c: P.Config)
      ensures this.id == id && this.c == c && View() == NEW
      ensures Valid() && started == []
    {
      this.id, this.c := id, c;
      pending, request, response, outbound, started := Nothing, None, None, [], [];
    }

    /** At most one operation is pending, the last one started; and while a write is pending, what it
        writes is the frame of the response to the last request. */
    ghost predicate Valid()
      reads this
    {
      && Disciplined(started)
      && (pending != Nothing ==> started != [] && started[|started| - 1] == pending)
      && (pending == Write ==> HoldsAnswer())
    }

    ghost predicate HoldsAnswer()
      reads this
    {
      && request.Some? && response.Some?
      && Answers(c.arithmetic, response.value, request.value)
      && c.ResponseFrame(response.value) == Some(outbound)
    }

    function View(): Look
      reads this
    {
      Look(pending, request, response, outbound)
    }

    /** The phase of the session in the machine of steps. */
    function Phase(): P.Session
      requires pending == Write ==> response.Some?
      reads this
    {
      PhaseOf(View())
    }

    /** Starting the next operation of a session that has none pending. */
    method Begin(operation: AsyncOperation)
      requires Valid() && pending == Nothing && Disciplined(started + [operation]) && operation != Nothing
      requires operation == Write ==> HoldsAnswer()
      modifies this`pending, this`started
      ensures Valid() && started == old(started) + [operation] && View() == old(View()).(pending := operation)
    {
      pending := operation;
      started := started + [operation];
    }

    /** The handler of the accept, when it succeeded. */
    method Start()
      requires Valid() && pending == Accept
      modifies this`pending, this`started
      ensures Valid() && Phase() == P.Initializing && started == old(started) + [Initialize]
      ensures View() == old(View()).(pending := Initialize)
    {
      pending := Nothing;
      AcceptIsFirst();
      Begin(Initialize);
    }

    lemma AcceptIsFirst()
      requires Disciplined(started) && started != [] && started[|started| - 1] == Accept
      ensures |started| == 1
    {
    }

    /** The handler of the initialization; a failure is thrown. */
    method HandleInitialize(ok: bool) returns (thrown: bool)
      requires Valid() && pending == Initialize
      modifies this`pending, this`started
      ensures Valid() && thrown == !ok && View() == old(View()).(pending := if ok then Read else Nothing)
      ensures ok ==> Phase() == P.Receiving && started == old(started) + [Read]
      ensures !ok ==> Phase() == P.Closed && started == old(started)
    {
      pending, thrown := Nothing, !ok;
      if ok {
        Begin(Read);
      }
    }

    /** The handler of a read, with the payload that was read if there was no error: the request is
        decoded, the strategy applied and the write of its response started. */
    method HandleRead(payload: Option<Bytes>, now: int, ghost conn: P.Connection) returns (thrown: bool)
      requires Valid() && pending == Read
      modifies this
      ensures Valid() && View() == AfterRead(c, old(View()), payload, now)
      ensures thrown <==> payload.Some? && (c.readRequest(payload.value).None?
                                            || Serve(c.arithmetic, c.readRequest(payload.value).value, now).None?)
      ensures payload.None? ==> !thrown && Phase() == P.Closed && response == old(response)
      ensures payload.Some? ==>
                var outcome := P.Execute(c, conn, Got(payload.value, []), now);
                && thrown == outcome.Crashes?
                && (outcome.Continues? ==> Phase() == outcome.conn.session)
      ensures Phase().Replying? ==>
                && payload.Some? && request == c.readRequest(payload.value)
                && response.value.data.timestamp == now && started == old(started) + [Write]
    {
      pending, thrown := Nothing, false;
      if payload.None? {
        return;
      }
      var decoded := c.readRequest(payload.value);
      if decoded.None? {
        return true;
      }
      request := decoded;
      var answer := Serve(c.arithmetic, decoded.value, now);
      if answer.None? {
        return true;
      }
      response := Some(Response(OK, answer.value));
      var frame := c.ResponseFrame(response.value);
      if frame.None? {
        return;
      }
      outbound := frame.value;
      Begin(Write);
    }

    /** The handler of a write: back to reading. */
    method HandleWrite(ok: bool)
      requires Valid() && pending == Write
      modifies this`pending, this`started
      ensures Valid() && View() == old(View()).(pending := if ok then Read else Nothing)
      ensures ok ==> Phase() == P.Receiving && started == old(started) + [Read]
      ensures !ok ==> Phase() == P.Closed && started == old(started)
    {
      pending := Nothing;
      if ok {
        Begin(Read);
      }
    }

    /** The handler of whatever operation of the session completes. */
    method Handle(e: Completion) returns (thrown: bool)
      requires Valid() && !e.Accepted?
      requires pending == if e.Initialized? then Initialize else if e.Received? then Read else Write
      modifies this
      ensures Valid() && pending != Accept && View() == After(c, old(View()), e) && thrown == Throws(c, e)
    {
      thrown := false;
      match e {
        case Initialized(_, ok) =>
          thrown := HandleInitialize(ok);
        case Received(_, payload, now) =>
          thrown := HandleRead(payload, now, P.Connection([], [], P.Receiving, 0, 0, [], []));
        case Replied(_, ok) =>
          HandleWrite(ok);
      }
    }
  }

  class AsyncServer {
    const c: P.Config
    var count: nat
    var sessions: seq<Session>
    var stopped: bool

    constructor (c: P.Config)
      ensures Valid() && count == 1 && View() == Server([NEW.(pending := Accept)], false)
      ensures this.c == c && fresh(sessions)
    {
      this.c := c;
      count, sessions, stopped := 0, [], false;
      new;
      DoAccept();
    }

    /** The ids are the order of creation, so that they are all different; every session keeps its
        discipline; the objects are different. */
    ghost predicate Orderly()
      reads this, sessions
    {
      && count == |sessions|
      && (forall i :: 0 <= i < |sessions| ==>
            sessions[i].id == i && sessions[i].c == c && sessions[i].Valid())
      && (forall i, j :: 0 <= i < j < |sessions| ==> sessions[i] != sessions[j])
    }

    /** Only the newest session waits to be accepted. */
    ghost predicate Valid()
      reads this, sessions
    {
      && Orderly()
      && sessions != []
      && forall i :: 0 <= i < |sessions| ==> (sessions[i].pending == Accept <==> i == |sessions| - 1)
    }

    /** What the server looks like from outside. */
    function View(): Server
      reads this, sessions
    {
      Server(seq(|sessions|, i requires 0 <= i < |sessions| reads this, sessions => sessions[i].View()), stopped)
    }

    function Newest(): Session
      requires sessions != []
      reads this
    {
      sessions[|sessions| - 1]
    }

    /** `do_accept`: one more session, which waits for a client. */
    method DoAccept()
      requires Orderly()
      requires forall i :: 0 <= i < |sessions| ==> sessions[i].pending != Accept
      modifies this`count, this`sessions
      ensures Valid()
      ensures |sessions| == old(|sessions|) + 1 && sessions[..old(|sessions|)] == old(sessions)
      ensures fresh(sessions[old(|sessions|)]) && sessions[old(|sessions|)].View() == NEW.(pending := Accept)
    {
      var session := new Session(count, c);
      count := count + 1;
      session.Begin(Accept);
      sessions := sessions + [session];
    }

    /** The handler of an accept: start the session if it succeeded, and accept again in any case. */
    method HandleAccept(ok: bool)
      requires Valid()
      modifies this`count, this`sessions, Newest()`pending, Newest()`started
      ensures Valid()
      ensures count == old(count) + 1 && sessions[..old(count)] == old(sessions)
      ensures fresh(sessions[old(count)]) && sessions[old(count)].View() == NEW.(pending := Accept)
      ensures sessions[old(count) - 1].View()
           == old(sessions[|sessions| - 1].View()).(pending := if ok then Initialize else Nothing)
      ensures !old(stopped) ==> View() == old(View()).Next(c, Accepted(ok))
    {
      var session := Newest();
      if ok {
        session.Start();
      } else {
        session.pending := Nothing;
      }
      DoAccept();
    }

    /** Whether a completion can come next: its operation is pending. */
    predicate Possible(e: Completion)
      reads this, sessions
    {
      View().Possible(e)
    }

    function Target(e: Completion): nat
      requires Possible(e)
      reads this, sessions
    {
      View().Target(e)
    }

    /** The handler of an operation of a session. */
    method HandleOperation(e: Completion)
      requires Valid() && !stopped && Possible(e) && !e.Accepted?
      modifies this`stopped, sessions[e.k]
      ensures Valid() && View() == old(View()).Next(c, e)
      ensures sessions[e.k].View() == After(c, old(sessions[e.k].View()), e)
      ensures forall i :: 0 <= i < |sessions| && i != e.k ==> unchanged(sessions[i])
    {
      stopped := sessions[e.k].Handle(e);
      assert View().sessions == old(View()).sessions[e.k := sessions[e.k].View()];
    }

    /** One turn of the event loop. Only the session whose operation completes changes; and neither
        the response nor the outbound bytes of a session change while its write is pending. */
    method Complete(e: Completion)
      requires Valid() && !stopped && Possible(e)
      modifies this`count, this`sessions, this`stopped, sessions[Target(e)]
      ensures Valid() && View() == old(View()).Next(c, e)
      ensures e.Accepted? <==> count == old(count) + 1
      ensures if e.Accepted? then sessions[..|old(sessions)|] == old(sessions) else sessions == old(sessions)
      ensures fresh(sessions[|old(sessions)|..])
      ensures forall i :: 0 <= i < |old(sessions)| && i != old(Target(e)) ==> unchanged(sessions[i])
      ensures forall i :: 0 <= i < |old(sessions)| && old(sessions[i].pending) == Write ==>
                sessions[i].response == old(sessions[i].response) && sessions[i].outbound == old(sessions[i].outbound)
      ensures forall i :: 0 <= i < |old(sessions)| && old(sessions[i].pending) == Write && !IsReplied(e, i) ==>
                sessions[i].pending == Write
    {
      if e.Accepted? {
        HandleAccept(e.ok);
      } else {
        HandleOperation(e);
      }
    }

    /** The write of the `i`-th session completes. */
    predicate IsReplied(e: Completion, i: nat) {
      e.Replied? && e.k == i
    }

    ghost predicate NeverReplied(completions: seq<Completion>, i: nat) {
      forall n :: 0 <= n < |completions| ==> !IsReplied(completions[n], i)
    }

    /** A write that was pending still is, with the response and the bytes that it was started with. */
    twostate predicate StillWriting(session: Session)
      reads session
    {
      old(session.pending) == Write ==>
        && session.pending == Write
        && session.response == old(session.response) && session.outbound == old(session.outbound)
    }

    /** One turn, unless the completion cannot come. */
    method Turn(e: Completion)
      requires Valid()
      modifies this`count, this`sessions, this`stopped, sessions
      ensures Valid() && old(sessions) <= sessions && View() == old(View()).Next(c, e)
      ensures forall j :: |old(sessions)| <= j < |sessions| ==> fresh(sessions[j])
      ensures forall i :: 0 <= i < |old(sessions)| && !IsReplied(e, i) ==> StillWriting(sessions[i])
    {
      if !stopped && Possible(e) {
        ghost var n := |sessions|;
        Complete(e);
        assert forall j :: n <= j < |sessions| ==> sessions[j] == sessions[n..][j - n];
      }
    }

    /** The event loop on any list of completions, those that cannot come being passed over. No session is
        lost or reordered; and as long as the write of a session has not completed, it stays pending, with
        the response and the bytes that it was started with, whatever the other sessions do. */
    method Run(completions: seq<Completion>)
      requires Valid()
      modifies this`count, this`sessions, this`stopped, sessions
      ensures Valid() && old(sessions) <= sessions && View() == old(View()).Run(c, completions)
      ensures forall i :: 0 <= i < |old(sessions)| && NeverReplied(completions, i) ==> StillWriting(sessions[i])
    {
      for n := 0 to |completions|
        invariant Valid() && old(sessions) <= sessions && View() == old(View()).Run(c, completions[..n])
        invariant forall j :: |old(sessions)| <= j < |sessions| ==> fresh(sessions[j])
        invariant forall i :: 0 <= i < |old(sessions)| && NeverReplied(completions, i) ==> StillWriting(sessions[i])
      {
        Turn(completions[n]);
        assert completions[..n + 1][..n] == completions[..n];
      }
      assert completions[..|completions|] == completions;
    }
  }
}
