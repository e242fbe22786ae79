/** What the client has handled when it exits, told by the order of the steps of the run. */
module Exit {
  import opened Wrappers
  import opened Records
  import opened Scraping
  import opened Protocol
  import opened ProtocolInvariant
  import opened ProtocolTheorems

  const PUSH: Event := ByScraper(Push)
  const READ_QUEUE: Event := ByClient(GuardQueueStep)
  const READ_INPUT: Event := ByClient(GuardScraperStep)

  /** How many records are pushed after the last time that the exit guard looks at the queue. */
  function PushesAfterGuard(events: seq<Event>): nat
    decreases |events|
  {
    if events == [] then 0
    else
      var last := |events| - 1;
      if events[last] == READ_QUEUE then 0
      else PushesAfterGuard(events[..last]) + if events[last] == PUSH then 1 else 0
  }

  /** No push comes after the last look of the exit guard at the queue. */
  ghost predicate NoPushAfterGuard(events: seq<Event>) {
    forall i :: 0 <= i < |events| && events[i] == PUSH ==> LookedAtAfter(events, i)
  }

  ghost predicate LooksAtQueue(events: seq<Event>) {
    exists i :: 0 <= i < |events| && events[i] == READ_QUEUE
  }

  ghost predicate LookedAtAfter(events: seq<Event>, i: nat) {
    exists j: nat :: i < j < |events| && events[j] == READ_QUEUE
  }

  lemma {:induction false} CountedPushes(events: seq<Event>)
    requires LooksAtQueue(events)
    ensures PushesAfterGuard(events) == 0 <==> NoPushAfterGuard(events)
    decreases |events|
  {
    var last := |events| - 1;
    if events[last] != READ_QUEUE {
      var i :| 0 <= i < |events| && events[i] == READ_QUEUE;
      assert events[..last][i] == READ_QUEUE;
      CountedPushes(events[..last]);
      OneMoreEvent(events);
    }
  }

  lemma OneMoreEvent(events: seq<Event>)
    requires events != [] && events[|events| - 1] != READ_QUEUE
    ensures NoPushAfterGuard(events) <==> NoPushAfterGuard(events[..|events| - 1]) && events[|events| - 1] != PUSH
  {
    var before := events[..|events| - 1];
    assert forall i :: 0 <= i < |before| ==> before[i] == events[i];
    assert forall i :: 0 <= i < |before| ==> (LookedAtAfter(before, i) <==> LookedAtAfter(events, i));
  }

  /** Once the guard has seen the queue empty, the records pushed since are those beyond the mark. */
  lemma {:induction false} MarkCountsPushes(c: Config, padding: Padding, events: seq<Event>, s: State)
    requires Run(c, Initial(c, padding), events) == Some(s) && SawEmpty(s.client)
    ensures |s.pushed| == s.mark + PushesAfterGuard(events) && LooksAtQueue(events)
    decreases |events|
  {
    var last := |events| - 1;
    var before := Run(c, Initial(c, padding), events[..last]).value;
    if events[last] == READ_QUEUE {
      assert LooksAtQueue(events);
    } else {
      StillSawEmpty(c, before, events[last]);
      MarkCountsPushes(c, padding, events[..last], before);
      var i :| 0 <= i < last && events[..last][i] == READ_QUEUE;
      assert events[i] == READ_QUEUE;
    }
  }

  lemma StillSawEmpty(c: Config, s: State, e: Event)
    requires Enabled(c, s, e) && e != READ_QUEUE && SawEmpty(Next(c, s, e).client)
    ensures SawEmpty(s.client) && Next(c, s, e).mark == s.mark
    ensures |Next(c, s, e).pushed| == |s.pushed| + if e == PUSH then 1 else 0
  {
    if e.ByClient? {
      ClientLeavesPushed(c, s, e.client);
      ClientSawEmpty(c, s, e.client);
    }
  }

  lemma ClientLeavesPushed(c: Config, s: State, e: ClientEvent)
    requires ClientEnabled(c, s, e) && e != GuardQueueStep
    ensures ClientNext(c, s, e).mark == s.mark && ClientNext(c, s, e).pushed == s.pushed
  {
  }

  /** Only its last two steps take the client on when it has seen the queue empty. */
  lemma ClientSawEmpty(c: Config, s: State, e: ClientEvent)
    requires ClientEnabled(c, s, e) && e != GuardQueueStep && SawEmpty(ClientNext(c, s, e).client)
    ensures SawEmpty(s.client)
    ensures e != GuardScraperStep && SawEnd(ClientNext(c, s, e).client) ==> SawEnd(s.client)
  {
    ElsewhereNothingSeen(c, s, e);
  }

  lemma ElsewhereNothingSeen(c: Config, s: State, e: ClientEvent)
    requires ClientEnabled(c, s, e)
    ensures e !in {GuardQueueStep, GuardScraperStep, Decide} ==> !SawEmpty(ClientNext(c, s, e).client)
  {
  }

  /** Once the input is not good, the scraper finds nothing more, and at most pushes what it holds. */
  lemma HeldOrPushed(c: Config, s: State, e: Event)
    requires c.Scans() && Enabled(c, s, e) && !s.input.Good()
    ensures var t := Next(c, s, e);
            t.input == s.input && t.pushed + Pending(t.scraper) == s.pushed + Pending(s.scraper)
  {
    assert c.ScansAt(s.input);
    if e.ByClient? {
      ClientLeavesScraper(c, s, e.client);
    }
  }

  lemma ClientLeavesScraper(c: Config, s: State, e: ClientEvent)
    requires ClientEnabled(c, s, e)
    ensures var t := ClientNext(c, s, e);
            t.input == s.input && t.scraper == s.scraper && t.pushed == s.pushed
  {
  }

  /** The client exits having handled every accepted record, of any text, exactly when in the run no push
      comes after the last look of its exit guard at the queue, and the scraper does not hold a record
      still to be pushed. What was pushed after that look, and no more, is left in the queue. */
  lemma ExitHandlesEverythingExactly(c: Config, padding: Padding, events: seq<Event>, s: State)
    requires c.Scans() && c.Inverts()
    requires Run(c, Initial(c, padding), events) == Some(s) && s.client == Exited
    ensures s.popped + s.queue == s.pushed && s.pushed + Pending(s.scraper) == Accepted(c)
    ensures |s.queue| == PushesAfterGuard(events)
    ensures |s.handled| == |Accepted(c)| <==> NoPushAfterGuard(events) && s.scraper == Scanning
  {
    assert Reachable(c, s);
    ReachableKeepsInvariant(c, s);
    CleanExit(c, s);
    MarkCountsPushes(c, padding, events, s);
    CountedPushes(events);
    NothingInFuture(c, s);
  }

  lemma NothingInFuture(c: Config, s: State)
    requires c.Scans() && Invariant(c, s) && !s.input.Good()
    ensures s.pushed + Pending(s.scraper) == Accepted(c)
    ensures Future(c, FreshInput(c.text)).input == s.input
  {
    assert Future(c, s.input) == Harvest([], s.input);
    assert s.pushed + Pending(s.scraper) + [] == s.pushed + Pending(s.scraper);
  }

  /** The scraper gets to the end of its input, and is not left at eof without fail or stopped by a
      line that is too long. */
  ghost predicate EndsProperly(c: Config)
    requires c.Scans()
  {
    Future(c, FreshInput(c.text)).input == Input([], true, true)
  }

  /** The scraper has nothing more to push when its input, read to its end, is no longer good. */
  lemma NothingMoreToPush(c: Config, s: State)
    requires c.Scans() && Invariant(c, s) && EndsProperly(c) && !s.input.Good()
    ensures s.scraper == Scanning
  {
    NothingInFuture(c, s);
  }

  /** On input that is read to its end, the order of the steps decides alone. */
  lemma ExitAfterCompleteInput(c: Config, padding: Padding, events: seq<Event>, s: State)
    requires c.Scans() && c.Inverts() && EndsProperly(c)
    requires Run(c, Initial(c, padding), events) == Some(s) && s.client == Exited
    ensures s.pushed == Accepted(c)
    ensures |s.handled| == |Accepted(c)| <==> NoPushAfterGuard(events)
  {
    assert Reachable(c, s);
    ReachableKeepsInvariant(c, s);
    NothingMoreToPush(c, s);
    ExitHandlesEverythingExactly(c, padding, events, s);
    assert s.pushed + [] == s.pushed;
  }

  /* An atomic guard */

  /** The exit guard looks at the input at once after it has looked at the queue. */
  ghost predicate AtomicGuard(events: seq<Event>) {
    forall i :: 0 <= i < |events| && events[i] == READ_INPUT ==> i > 0 && events[i - 1] == READ_QUEUE
  }

  /** The state right after the last time that the exit guard looks at the input. */
  function LastLook(c: Config, s: State, events: seq<Event>): Option<State>
    decreases |events|
  {
    if events == [] then None
    else
      var last := |events| - 1;
      if events[last] == READ_INPUT then Run(c, s, events) else LastLook(c, s, events[..last])
  }

  /** With an atomic guard, what it saw was all that had been pushed, and since then the scraper at most
      pushes what it held. */
  lemma {:induction false} AtomicLook(c: Config, padding: Padding, events: seq<Event>, s: State)
    requires c.Scans() && c.Inverts() && AtomicGuard(events)
    requires Run(c, Initial(c, padding), events) == Some(s) && SawEnd(s.client)
    ensures var look := LastLook(c, Initial(c, padding), events);
            && look.Some? && |look.value.pushed| == s.mark && look.value.input == s.input
            && look.value.pushed + Pending(look.value.scraper) == s.pushed + Pending(s.scraper)
    decreases |events|
  {
    var last := |events| - 1;
    var before := Run(c, Initial(c, padding), events[..last]).value;
    if events[last] == READ_INPUT {
      assert events[..last][last - 1] == READ_QUEUE;
      MarkCountsPushes(c, padding, events[..last], before);
    } else {
      NotGoodBefore(c, padding, events[..last], before, events[last]);
      HeldOrPushed(c, before, events[last]);
      assert forall i :: 0 <= i < last ==> events[..last][i] == events[i];
      AtomicLook(c, padding, events[..last], before);
    }
  }

  lemma NotGoodBefore(c: Config, padding: Padding, events: seq<Event>, s: State, e: Event)
    requires c.Scans() && c.Inverts() && Run(c, Initial(c, padding), events) == Some(s)
    requires Enabled(c, s, e) && e != READ_INPUT && SawEnd(Next(c, s, e).client)
    ensures SawEnd(s.client) && !s.input.Good() && Next(c, s, e).mark == s.mark
  {
    InitialInvariant(c, padding);
    RunKeepsInvariant(c, Initial(c, padding), events, s);
    if e.ByClient? {
      ClientStillSawEnd(c, s, e.client);
    }
  }

  lemma ClientStillSawEnd(c: Config, s: State, e: ClientEvent)
    requires ClientEnabled(c, s, e) && e != GuardScraperStep && SawEnd(ClientNext(c, s, e).client)
    ensures SawEnd(s.client) && ClientNext(c, s, e).mark == s.mark
  {
    if e != GuardQueueStep {
      ClientSawEmpty(c, s, e);
      ClientLeavesPushed(c, s, e);
    }
  }

  /** With an atomic exit guard, the client exits having handled every accepted record, of any text, exactly
      when the scraper held none to be pushed at the last look of the guard at the input. */
  lemma AtomicGuardExactly(c: Config, padding: Padding, events: seq<Event>, s: State)
    requires c.Scans() && c.Inverts() && AtomicGuard(events)
    requires Run(c, Initial(c, padding), events) == Some(s) && s.client == Exited
    ensures var look := LastLook(c, Initial(c, padding), events);
            look.Some? && (|s.handled| == |Accepted(c)| <==> look.value.scraper == Scanning)
  {
    AtomicLook(c, padding, events, s);
    ExitHandlesEverythingExactly(c, padding, events, s);
    assert Reachable(c, s);
    CleanExit(c, s);
  }

  lemma {:induction false} LookKeepsInvariant(c: Config, padding: Padding, events: seq<Event>)
    requires c.Scans() && c.Inverts() && Run(c, Initial(c, padding), events).Some?
    ensures var look := LastLook(c, Initial(c, padding), events);
            look.Some? ==> Invariant(c, look.value)
    decreases |events|
  {
    if events != [] {
      var last := |events| - 1;
      if events[last] == READ_INPUT {
        InitialInvariant(c, padding);
        RunKeepsInvariant(c, Initial(c, padding), events, Run(c, Initial(c, padding), events).value);
      } else {
        LookKeepsInvariant(c, padding, events[..last]);
      }
    }
  }

  /** With an atomic exit guard and input that is read to its end, it has handled every accepted record. */
  lemma AtomicGuardHandlesEverything(c: Config, padding: Padding, events: seq<Event>, s: State)
    requires c.Scans() && c.Inverts() && EndsProperly(c) && AtomicGuard(events)
    requires Run(c, Initial(c, padding), events) == Some(s) && s.client == Exited
    ensures s.popped == Accepted(c) && s.queue == [] && |s.handled| == |Accepted(c)|
  {
    AtomicLook(c, padding, events, s);
    LookKeepsInvariant(c, padding, events);
    assert !s.input.Good() && |s.handled| == |s.popped| by {
      assert Reachable(c, s);
      CleanExit(c, s);
    }
    NothingMoreToPush(c, LastLook(c, Initial(c, padding), events).value);
    AtomicGuardExactly(c, padding, events, s);
    ExitHandlesEverythingExactly(c, padding, events, s);
    AllPopped(s.popped, s.queue, Pending(s.scraper), Accepted(c));
  }

  lemma AllPopped<T>(popped: seq<T>, queue: seq<T>, held: seq<T>, accepted: seq<T>)
    requires popped + queue + held == accepted && |popped| == |accepted|
    ensures queue == [] && popped == accepted
  {
    assert |popped + queue + held| == |popped| + |queue| + |held|;
    assert popped + [] + [] == popped;
  }
}
