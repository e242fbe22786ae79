/** The client thread as the nested loops it is written as. Each access to something shared is one
    step of the machine, and before it the other threads may take any number of theirs. */
module Client {
  import opened Wrappers
  import opened Framing
  import opened Records
  import opened Protocol
  import ProtocolInvariant
  import ProtocolTheorems
  import Exit
  import SafeQueue

  /** What happens before the next step of the client: steps of the other threads, those that cannot
      be taken being passed over; and what the network does with that step, if it is asked. */
  datatype Turn = Turn(others: seq<Event>, network: ClientEvent)

  /** How `listen` and `start` are left: returning true or false, by an exception, or not yet,
      the schedule having run out. */
  datatype Verdict = Retry | Stop | Threw | Waiting

  /** What `send` returns. */
  datatype Exchange = Received(response: Response) | Failed(error: Error) | SendThrew | NoReturn

  /* What the client does, turn by turn */

  /** Steps that follow the one before at once, because they touch nothing shared. */
  predicate Local(client: ClientPc) {
    client.Requesting? || client.Responding? || client.Deciding?
  }

  /** The step that the client takes next by itself; none where the network decides. */
  function OwnStep(client: ClientPc): Option<ClientEvent> {
    match client
    case Checking => Some(Check)
    case Fronting => Some(Front)
    case Requesting(_) => Some(Request)
    case Responding(_, _) => Some(Respond)
    case Popping(_) => Some(Pop)
    case GuardQueue(_) => Some(GuardQueueStep)
    case GuardScraper(_) => Some(GuardScraperStep)
    case Deciding(_, _) => Some(Decide)
    case _ => None
  }

  predicate Ended(client: ClientPc) {
    client.Exited? || client.Aborted?
  }

  function AfterOther(c: Config, s: State, e: Event): State {
    if !e.ByClient? && Enabled(c, s, e) then Next(c, s, e) else s
  }

  function AfterOwn(c: Config, s: State, e: ClientEvent): State {
    if ClientEnabled(c, s, e) then ClientNext(c, s, e) else s
  }

  function AfterOthers(c: Config, s: State, others: seq<Event>): State
    decreases |others|
  {
    if others == [] then s
    else AfterOther(c, AfterOthers(c, s, others[..|others| - 1]), others[|others| - 1])
  }

  /** The state when the schedule has run out, or the client has come to an end before. */
  function Advance(c: Config, s: State, schedule: seq<Turn>): State
    decreases |schedule|, if Local(s.client) then 1 else 0
  {
    if Ended(s.client) then s
    else if Local(s.client) then
      var e := OwnStep(s.client).value;
      if ClientEnabled(c, s, e) then Advance(c, ClientNext(c, s, e), schedule) else s
    else if schedule == [] then s
    else
      var t := AfterOthers(c, s, schedule[0].others);
      var e := if OwnStep(s.client).Some? then OwnStep(s.client).value else schedule[0].network;
      Advance(c, AfterOwn(c, t, e), schedule[1..])
  }

  /** A connection that opens is followed by a round of `listen` on it: the client turns to its queue. */
  lemma OpeningIsFollowed(c: Config, s: State, schedule: seq<Turn>)
    requires s.client == Opening && schedule != [] && schedule[0].network == OpenOk
    requires AfterOthers(c, s, schedule[0].others).server == Running
    ensures exists t: State :: FreshlyConnected(AfterOthers(c, s, schedule[0].others), t)
              && Advance(c, s, schedule) == Advance(c, t, schedule[1..])
  {
    var t := AfterOthers(c, s, schedule[0].others);
    AllOthersLeaveClient(c, s, schedule[0].others);
    assert FreshlyConnected(t, ClientNext(c, t, OpenOk));
  }

  predicate FreshlyConnected(before: State, after: State) {
    && after.client == Checking && after.queue == before.queue && after.handled == before.handled
    && |after.connections| == |before.connections| + 1
    && after.connections[..|before.connections|] == before.connections
    && Current(after).toServer == [] && Current(after).toClient == [] && Current(after).session == Initializing
  }

  lemma {:induction false} AllOthersLeaveClient(c: Config, s: State, others: seq<Event>)
    ensures LeavesClient(s, AfterOthers(c, s, others))
    decreases |others|
  {
    if others != [] {
      AllOthersLeaveClient(c, s, others[..|others| - 1]);
      OthersLeaveClient(c, AfterOthers(c, s, others[..|others| - 1]), others[|others| - 1]);
    }
  }

  /** What no step of another thread changes, and what it may add. */
  predicate LeavesClient(s: State, t: State) {
    && t.client == s.client && s.queue <= t.queue
    && t.handled == s.handled && t.popped == s.popped && t.padding == s.padding
    && |t.connections| == |s.connections|
  }

  lemma OthersLeaveClient(c: Config, s: State, e: Event)
    ensures LeavesClient(s, AfterOther(c, s, e))
  {
  }

  class Client {
    const c: Config
    const queue: SafeQueue.Queue<ClientData>
    ghost const padding: Padding
    ghost var events: seq<Event>
    var sys: State
    var schedule: seq<Turn>

    constructor (c: Config, padding: Padding, schedule: seq<Turn>)
      ensures this.c == c && this.padding == padding && this.schedule == schedule
      ensures Valid() && sys == Initial(c, padding) && fresh(queue)
    {
      this.c, this.padding, this.schedule := c, padding, schedule;
      events, sys := [], Initial(c, padding);
      queue := new SafeQueue.Queue();
    }

    /** Everything so far is a run of the machine. */
    ghost predicate Running()
      reads this
    {
      Run(c, Initial(c, padding), events) == Some(sys)
    }

    /** The queue of the machine is the one that the two threads share. */
    ghost predicate Valid()
      reads this, queue
    {
      Running() && queue.contents == sys.queue
    }

    /** A step, once what it does to the queue is done. */
    method Perform(e: Event)
      requires Running() && Enabled(c, sys, e) && queue.contents == Next(c, sys, e).queue
      modifies this`sys, this`events
      ensures Valid() && sys == Next(c, old(sys), e)
    {
      sys := Next(c, sys, e);
      events := events + [e];
      assert events[..|events| - 1] == old(events);
    }

    /** What is still to come is what was to come. */
    twostate predicate OnCourse()
      reads this
    {
      Advance(c, sys, schedule) == old(Advance(c, sys, schedule)) && |schedule| <= old(|schedule|)
    }

    /** The schedule has run out where the client waits for its turn. */
    predicate Stuck()
      reads this
    {
      schedule == [] && !Local(sys.client) && !Ended(sys.client)
    }

    /** One step of another thread, if it can be taken. */
    method StepOfOther(e: Event)
      requires Valid()
      modifies this`sys, this`events, queue
      ensures Valid() && sys == AfterOther(c, old(sys), e)
    {
      if !e.ByClient? && Enabled(c, sys, e) {
        if e == ByScraper(Push) {
          queue.Push(sys.scraper.data);
        }
        Perform(e);
      }
    }

    /** The others take their steps. */
    method Yield() returns (turn: Option<ClientEvent>)
      requires Valid()
      modifies this, queue
      ensures Valid() && LeavesClient(old(sys), sys)
      ensures if old(schedule) == [] then turn == None && sys == old(sys) && schedule == []
              else
                && turn == Some(old(schedule)[0].network) && schedule == old(schedule)[1..]
                && sys == AfterOthers(c, old(sys), old(schedule)[0].others)
    {
      if schedule == [] {
        return None;
      }
      var others := schedule[0].others;
      turn, schedule := Some(schedule[0].network), schedule[1..];
      for n := 0 to |others|
        invariant Valid() && LeavesClient(old(sys), sys) && sys == AfterOthers(c, old(sys), others[..n])
        invariant schedule == old(schedule)[1..]
      {
        assert others[..n + 1][..n] == others[..n];
        OthersLeaveClient(c, sys, others[n]);
        StepOfOther(others[n]);
      }
      assert others[..|others|] == others;
    }

    /** Waits for the client's turn to take its own step. */
    method AwaitTurn(e: ClientEvent) returns (ok: bool)
      requires Valid() && OwnStep(sys.client) == Some(e) && !Local(sys.client)
      modifies this, queue
      ensures Valid() && LeavesClient(old(sys), sys)
      ensures if ok then
                && |schedule| < old(|schedule|)
                && (ClientEnabled(c, sys, e) ==>
                      Advance(c, ClientNext(c, sys, e), schedule) == old(Advance(c, sys, schedule)))
              else OnCourse() && Stuck()
    {
      var turn := Yield();
      ok := turn.Some?;
    }

    /** A step that follows at once. */
    method StepNow(e: ClientEvent)
      requires Valid() && OwnStep(sys.client) == Some(e) && Local(sys.client) && ClientEnabled(c, sys, e)
      requires ClientNext(c, sys, e).queue == sys.queue
      modifies this`sys, this`events
      ensures Valid() && OnCourse() && sys == ClientNext(c, old(sys), e)
    {
      Perform(ByClient(e));
    }

    /** Waits for the network to do something that the client is waiting for. */
    method Await() returns (turn: Option<ClientEvent>)
      requires Valid() && OwnStep(sys.client) == None && !Ended(sys.client)
      modifies this, queue
      ensures Valid() && LeavesClient(old(sys), sys)
      ensures if turn.Some? then
                && |schedule| < old(|schedule|) && ClientEnabled(c, sys, turn.value)
                && Advance(c, ClientNext(c, sys, turn.value), schedule) == old(Advance(c, sys, schedule))
              else OnCourse() && Stuck()
    {
      turn := Yield();
      while turn.Some? && !ClientEnabled(c, sys, turn.value)
        invariant Valid() && LeavesClient(old(sys), sys)
        invariant if turn.Some? then
                    && |schedule| < old(|schedule|)
                    && Advance(c, AfterOwn(c, sys, turn.value), schedule)
                       == old(Advance(c, sys, schedule))
                  else OnCourse() && Stuck()
        decreases |schedule|, turn.Some?
      {
        turn := Yield();
      }
    }

    /** The write of `send`; none when it went well. */
    method WriteRequest(data: ClientData) returns (failed: Option<Exchange>)
      requires Valid() && sys.client == Writing(data) && sys.connections != []
      modifies this, queue
      ensures Valid() && OnCourse() && old(sys.queue) <= sys.queue && sys.connections != []
      ensures failed.None? ==> sys.client == Reading(data)
      ensures failed.Some? ==> !failed.value.Received?
      ensures failed.Some? && failed.value.Failed? ==> sys.client == AfterError(failed.value.error)
      ensures failed.Some? && failed.value.SendThrew? ==> sys.client.Aborted?
      ensures failed == Some(NoReturn) ==> Stuck()
    {
      var turn := Await();
      if turn.None? {
        return Some(NoReturn);
      }
      Perform(ByClient(turn.value));
      failed := if turn.value.WriteOk? then None
                else if turn.value.WriteFail? then Some(Failed(turn.value.error))
                else Some(SendThrew);
    }

    /** The read of `send`. */
    method ReadResponse(data: ClientData) returns (exchange: Exchange)
      requires Valid() && sys.client == Reading(data) && sys.connections != []
      modifies this, queue
      ensures Valid() && OnCourse() && old(sys.queue) <= sys.queue && sys.connections != []
      ensures exchange.Received? ==> sys.client == AfterResponse(data, exchange.response)
      ensures exchange.Failed? ==> sys.client == AfterError(exchange.error)
      ensures exchange.SendThrew? ==> sys.client.Aborted?
      ensures exchange == NoReturn ==> Stuck()
    {
      var turn := Await();
      if turn.None? {
        return NoReturn;
      }
      exchange := SendThrew;
      if turn.value.ReadOk? {
        var response := c.readResponse(TryRead(Current(sys).toClient).payload);
        if response.Some? {
          exchange := Received(response.value);
        }
      } else if turn.value.ReadUnparsable? {
        exchange := Received(turn.value.junk);
      } else if turn.value.ReadFail? && !ThrowsOnCut(c, sys.buffer, Current(sys).toClient[..turn.value.arrived]) {
        exchange := Failed(turn.value.error);
      }
      Perform(ByClient(turn.value));
    }

    /** `send`: one write, then, unless it failed, one read. */
    method Send(data: ClientData) returns (exchange: Exchange)
      requires Valid() && sys.client == Writing(data) && sys.connections != []
      modifies this, queue
      ensures Valid() && OnCourse() && old(sys.queue) <= sys.queue && sys.connections != []
      ensures exchange.Received? ==> sys.client == AfterResponse(data, exchange.response)
      ensures exchange.Failed? ==> sys.client == AfterError(exchange.error)
      ensures exchange.SendThrew? ==> sys.client.Aborted?
      ensures exchange == NoReturn ==> Stuck()
    {
      var failed := WriteRequest(data);
      if failed.Some? {
        return failed.value;
      }
      exchange := ReadResponse(data);
    }

    /** `strategy_.response` and the removal of the record from the queue. */
    method HandleResponse(data: ClientData, response: Response) returns (verdict: Option<Verdict>)
      requires Valid() && sys.client == Responding(data, response) && sys.connections != []
      requires ProtocolInvariant.AtFront(sys.queue, data)
      modifies this, queue
      ensures Valid() && OnCourse() && sys.connections != []
      ensures verdict == None ==>
                && sys.client == GuardQueue(true)
                && sys.handled == old(sys.handled) + [response] && sys.popped == old(sys.popped) + [data]
      ensures verdict.Some? ==> verdict.value != Retry && verdict.value == Left()
    {
      StepNow(Respond);
      if sys.client.Aborted? {
        return Some(Threw);
      }
      var ok := AwaitTurn(Pop);
      if !ok {
        return Some(Waiting);
      }
      queue.Pop();
      Perform(ByClient(Pop));
      verdict := None;
    }

    /** How a part of `listen` is left before its end. */
    function Left(): Verdict
      reads this
    {
      if sys.client.Aborted? then Threw else if Stuck() then Waiting else Retry
    }

    /** The front record is looked up, and the request part of the strategy performed. */
    method TakeFront() returns (data: Option<ClientData>)
      requires Valid() && sys.client == Fronting && sys.connections != [] && sys.queue != []
      modifies this, queue
      ensures Valid() && OnCourse() && sys.connections != []
      ensures if data.Some? then sys.client == Writing(data.value) && ProtocolInvariant.AtFront(sys.queue, data.value)
              else Stuck()
    {
      var ok := AwaitTurn(Front);
      if !ok {
        return None;
      }
      var front := queue.Front();
      Perform(ByClient(Front));
      StepNow(Request);
      data := Some(front);
    }

    /** The exchange of the front record; it leaves `listen` by an exception, or says whether the
        connection is fine. */
    method ExchangeFront() returns (left: Option<Verdict>, connectionOk: bool)
      requires Valid() && sys.client == Fronting && sys.connections != [] && sys.queue != []
      modifies this, queue
      ensures Valid() && OnCourse() && sys.connections != []
      ensures left == None ==> sys.client == GuardQueue(connectionOk)
      ensures left.Some? ==> left.value != Retry && left.value == Left()
    {
      left, connectionOk := None, false;
      var data := TakeFront();
      if data.None? {
        return Some(Waiting), true;
      }
      var exchange := Send(data.value);
      match exchange {
        case Received(response) =>
          connectionOk := response.status == OK;
          if connectionOk {
            left := HandleResponse(data.value, response);
          }
        case Failed(error) =>
          if !error.Retryable() {
            left := Some(Threw);
          }
        case SendThrew => left := Some(Threw);
        case NoReturn => left := Some(Waiting);
      }
    }

    /** The exit guard, in its two reads: of the queue, unless the client is kept alive; */
    method LookAtQueue(connectionOk: bool) returns (ok: Option<bool>)
      requires Valid() && sys.client == GuardQueue(connectionOk) && sys.connections != []
      modifies this, queue
      ensures Valid() && OnCourse() && sys.connections != []
      ensures if ok.None? then Stuck()
              else sys.client == if ok.value then Deciding(connectionOk, true) else GuardScraper(connectionOk)
    {
      var awake := AwaitTurn(GuardQueueStep);
      if !awake {
        return None;
      }
      var empty := queue.Empty();
      ok := Some(c.keepAlive || !empty);
      Perform(ByClient(GuardQueueStep));
    }

    /** and, if that found nothing, of the state of the stream. */
    method ExitGuard(connectionOk: bool) returns (inputOk: Option<bool>)
      requires Valid() && sys.client == GuardQueue(connectionOk) && sys.connections != []
      modifies this, queue
      ensures Valid() && OnCourse() && sys.connections != []
      ensures if inputOk.Some? then sys.client == Deciding(connectionOk, inputOk.value) else Stuck()
    {
      inputOk := LookAtQueue(connectionOk);
      if inputOk == Some(false) {
        var awake := AwaitTurn(GuardScraperStep);
        if !awake {
          return None;
        }
        inputOk := Some(sys.input.Good());
        Perform(ByClient(GuardScraperStep));
      }
    }

    /** The part of a round of `listen` before the exit guard: an exchange, if there is a record. */
    method ServeQueue() returns (left: Option<Verdict>, connectionOk: bool)
      requires Valid() && sys.client == Checking && sys.connections != []
      modifies this, queue
      ensures Valid() && OnCourse() && sys.connections != []
      ensures left == None ==> sys.client == GuardQueue(connectionOk) && |schedule| < old(|schedule|)
      ensures left.Some? ==> left.value != Retry && left.value == Left()
    {
      left, connectionOk := None, true;
      var ok := AwaitTurn(Check);
      if !ok {
        return Some(Waiting), true;
      }
      var empty := queue.Empty();
      Perform(ByClient(Check));
      if !empty {
        left, connectionOk := ExchangeFront();
      }
    }

    /** One round of `listen`. */
    method Round() returns (left: Option<Verdict>, connectionOk: bool, inputOk: bool)
      requires Valid() && sys.client == Checking && sys.connections != []
      modifies this, queue
      ensures Valid() && OnCourse() && sys.connections != []
      ensures left == None ==>
                && |schedule| < old(|schedule|)
                && sys.client == if connectionOk && inputOk then Checking else if inputOk then Opening else Exited
      ensures left.Some? ==> left.value != Retry && left.value == Left()
    {
      inputOk := true;
      left, connectionOk := ServeQueue();
      if left == None {
        var guard := ExitGuard(connectionOk);
        if guard.None? {
          return Some(Waiting), connectionOk, inputOk;
        }
        inputOk := guard.value;
        StepNow(Decide);
      }
    }

    /** `listen` */
    method Listen() returns (verdict: Verdict)
      requires Valid() && sys.client == Checking && sys.connections != []
      modifies this, queue
      ensures Valid() && OnCourse()
      ensures verdict == Retry ==> sys.client == Opening
      ensures verdict == Stop ==> sys.client == Exited
      ensures verdict == Threw ==> sys.client.Aborted?
      ensures verdict == Waiting ==> Stuck()
    {
      var connectionOk, inputOk := true, true;
      while connectionOk && inputOk
        invariant Valid() && OnCourse() && sys.connections != []
        invariant sys.client == if connectionOk && inputOk then Checking else if inputOk then Opening else Exited
        decreases |schedule|, connectionOk && inputOk
      {
        var left;
        left, connectionOk, inputOk := Round();
        if left.Some? {
          return left.value;
        }
      }
      verdict := if inputOk then Retry else Stop;
    }

    /** `start` */
    method Start() returns (verdict: Verdict)
      requires Valid() && sys.client == Opening
      requires c.Scans() && c.Inverts()
      modifies this, queue
      ensures Valid() && verdict != Retry
      // it does, turn by turn, what the schedule gives it to do
      ensures sys == old(Advance(c, sys, schedule))
      ensures verdict == Stop ==> sys.client == Exited
      ensures verdict == Threw ==> sys.client.Aborted?
      ensures verdict == Waiting ==> Stuck()
      // whatever happened, the responses handled are the answers to the first records, in order
      ensures |sys.handled| <= |ProtocolInvariant.Accepted(c)|
      ensures forall i :: 0 <= i < |sys.handled| ==>
                Answers(c.arithmetic, sys.handled[i], ProtocolInvariant.Accepted(c)[i])
      // it stops having handled everything exactly when no push came after its last look at the queue
      // and the scraper holds nothing
      ensures verdict == Stop ==>
                (|sys.handled| == |ProtocolInvariant.Accepted(c)|
                 <==> Exit.NoPushAfterGuard(events) && sys.scraper == Scanning)
    {
      verdict := Retry;
      while verdict == Retry
        invariant Valid() && OnCourse() && (verdict == Retry ==> sys.client == Opening)
        invariant verdict == Stop ==> sys.client == Exited
        invariant verdict == Threw ==> sys.client.Aborted?
        invariant verdict == Waiting ==> Stuck()
        decreases |schedule|, verdict == Retry
      {
        var turn := Await();
        if turn.None? {
          verdict := Waiting;
        } else if turn.value == OpenFail {
          Perform(ByClient(OpenFail));
          verdict := Threw;
        } else {
          Perform(ByClient(OpenOk));
          verdict := Listen();
        }
      }
      assert Reachable(c, sys);
      ProtocolTheorems.ResponsePairing(c, sys);
      if verdict == Stop {
        Exit.ExitHandlesEverythingExactly(c, padding, events, sys);
      }
    }
  }
}
