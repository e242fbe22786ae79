/** The framework put together for the calculator: from printed records to handled responses. */
module Calculator {
  import opened Wrappers
  import opened Text
  import opened Messages
  import opened Records
  import opened Scraping
  import opened ScrapingLaws
  import opened RoundTrip
  import opened Protocol
  import opened ProtocolInvariant
  import opened ProtocolTheorems
  import opened Exit
  import opened Completion
  import opened Duplication
  import opened HexHeader
  import opened Framing
  import opened Doubles
  import Rounding
  import TextArchive
  import N = Connections
  import Limits

  /** How both sides put messages on the wire. */
  datatype Codec = Codec(filter: Filter, requests: Archive<ClientData>, responses: Archive<Response>) {
    ghost predicate Inverts() {
      filter.Inverts() && requests.Inverts() && responses.Inverts()
    }
  }

  function Configure(text: Bytes, env: Environment, keepAlive: bool, arithmetic: Arithmetic, codec: Codec): Config {
    Config(text, (input: Input) => GetDatum(env, input), keepAlive, arithmetic,
           (d: ClientData) => Pack(codec.filter, codec.requests, d),
           (b: Bytes) => Unpack(codec.filter, codec.requests, b),
           (r: Response) => Pack(codec.filter, codec.responses, r),
           (b: Bytes) => Unpack(codec.filter, codec.responses, b))
  }

  /** What the framework relies on holds of the calculator. */
  lemma CalculatorFits(text: Bytes, env: Environment, keepAlive: bool, arithmetic: Arithmetic, codec: Codec)
    requires codec.Inverts()
    ensures var c := Configure(text, env, keepAlive, arithmetic, codec);
            c.Scans() && c.Inverts()
  {
    var c := Configure(text, env, keepAlive, arithmetic, codec);
    forall input ensures c.ScansAt(input) {
      assert c.getDatum(input) == GetDatum(env, input);
    }
    forall d ensures c.readRequest(c.writeRequest(d)) == Some(d) {
      UnpackInverts(codec.filter, codec.requests, d);
    }
    forall r ensures c.readResponse(c.writeResponse(r)) == Some(r) {
      UnpackInverts(codec.filter, codec.responses, r);
    }
  }

  /** The scraper thread pushes what the scraping loop finds. */
  lemma {:induction false} FutureIsScraped(c: Config, env: Environment, input: Input)
    requires c.Scans() && forall i :: c.getDatum(i) == GetDatum(env, i)
    ensures Future(c, input) == Scrape(env, input)
    decreases |input.rest|, if input.Good() then 1 else 0
  {
    assert c.ScansAt(input);
    if input.Good() {
      FutureIsScraped(c, env, c.getDatum(input).input);
    }
  }

  lemma AcceptedIsScraped(text: Bytes, env: Environment, keepAlive: bool, arithmetic: Arithmetic, codec: Codec)
    requires codec.Inverts()
    ensures var c := Configure(text, env, keepAlive, arithmetic, codec);
            && c.Scans() && c.Inverts()
            && Accepted(c) == Scrape(env, FreshInput(text)).pushed
            && (EndsProperly(c) <==> CompleteText(text))
  {
    var c := Configure(text, env, keepAlive, arithmetic, codec);
    CalculatorFits(text, env, keepAlive, arithmetic, codec);
    FutureIsScraped(c, env, FreshInput(text));
    ScrapingEndsExactly(env, text);
  }

  /** From end to end: on the printed text of any records, the i-th response the client handles, in any
      run, answers the i-th record that survives printing; and when the client has exited, it has handled
      one response for each of those exactly if no push came after its last look at the queue. */
  lemma EndToEnd(ds: seq<ClientData>, env: Environment, keepAlive: bool, arithmetic: Arithmetic, codec: Codec,
                 padding: Padding, events: seq<Event>, s: State)
    requires codec.Inverts()
    requires var c := Configure(PrintAll(ds), env, keepAlive, arithmetic, codec);
             Run(c, Initial(c, padding), events) == Some(s)
    ensures var survivors := Survivors(env, ds);
            && |s.handled| <= |survivors|
            && (forall i :: 0 <= i < |s.handled| ==> AnswersCore(arithmetic, s.handled[i], survivors[i]))
            && (s.client == Exited ==> (|s.handled| == |survivors| <==> NoPushAfterGuard(events)))
  {
    var text := PrintAll(ds);
    var c := Configure(text, env, keepAlive, arithmetic, codec);
    AcceptedIsScraped(text, env, keepAlive, arithmetic, codec);
    PrintedTextIsScrapedBack(env, ds);
    ScrapingEndsExactly(env, text);
    assert Reachable(c, s);
    ResponsePairing(c, s);
    forall i | 0 <= i < |s.handled| ensures AnswersCore(arithmetic, s.handled[i], Survivors(env, ds)[i]) {
      assert Core(Accepted(c)[i]) == Survivors(env, ds)[i];
    }
    if s.client == Exited {
      ExitAfterCompleteInput(c, padding, events, s);
    }
  }

  /** `r` answers a record that is `d` but for its padding, and returns that padding. */
  ghost predicate AnswersCore(a: Arithmetic, r: Response, d: ClientData) {
    Answers(a, r, d.(padding := r.data.padding))
  }

  /* The steps of the machine against the code of the connection */

  function Code(error: Error): N.ErrorCode {
    match error
    case ConnectionAborted => N.Aborted
    case ConnectionReset => N.Reset
    case TimedOut => N.TimedOut
    case OtherError => N.Other
  }

  /** A step in which the client reads a response is one call of the blocking read on the bytes that have
      arrived: same outcome, same bytes left over, same data buffer. */
  lemma ClientReadsByBlockingRead(text: Bytes, env: Environment, keepAlive: bool, arithmetic: Arithmetic, codec: Codec,
                                  s: State, end: N.ErrorCode)
    requires ClientEnabled(Configure(text, env, keepAlive, arithmetic, codec), s, ReadOk)
    ensures var t := ClientNext(Configure(text, env, keepAlive, arithmetic, codec), s, ReadOk);
            var o := N.ReadBlocking(codec.filter, codec.responses, Current(s).toClient, end, s.buffer);
            && o.rest == Current(t).toClient && o.buffer == t.buffer
            && if o.report.Thrown? then t.client == Aborted(UndecodableResponse)
               else o.report.ec == N.Success && o.value.Some? && t.client == AfterResponse(s.client.data, o.value.value)
  {
  }

  /** So is a step in which reading fails, on the bytes that have arrived by then. */
  lemma ClientFailsByBlockingRead(text: Bytes, env: Environment, keepAlive: bool, arithmetic: Arithmetic, codec: Codec,
                                  s: State, arrived: nat, error: Error)
    requires ClientEnabled(Configure(text, env, keepAlive, arithmetic, codec), s, ReadFail(arrived, error))
    ensures var t := ClientNext(Configure(text, env, keepAlive, arithmetic, codec), s, ReadFail(arrived, error));
            var o := N.ReadBlocking(codec.filter, codec.responses, Current(s).toClient[..arrived],
                                    Code(error), s.buffer);
            && o.buffer == t.buffer
            && if o.report.Thrown? then t.client == Aborted(UndecodableResponse)
               else o.report.ec == Code(error) && t.client == AfterError(error)
  {
  }

  /** A step in which a session receives a request is one run of the handlers of the asynchronous read. */
  lemma SessionReadsByHandlers(text: Bytes, env: Environment, keepAlive: bool, arithmetic: Arithmetic, codec: Codec,
                               conn: Connection, now: int, end: N.ErrorCode, buffer: Bytes)
    requires SessionEnabled(conn, Receive(now))
    ensures var c := Configure(text, env, keepAlive, arithmetic, codec);
            var o := N.ReadByHandlers(codec.filter, codec.requests, conn.toServer, end, buffer);
            match SessionNext(c, conn, Receive(now))
            case Crashes(cause) =>
              cause == if o.report.Thrown? then UndecodableRequest else InvalidOperation
            case Continues(conn') =>
              && !o.report.Thrown? && o.value.Some? && o.rest == conn'.toServer
              && conn'.executed == conn.executed + [o.value.value]
  {
  }

  /* Instances */

  /** The text of a single record: the scraper finds it, and then nothing. */
  lemma SingleRecordScans(env: Environment, d: ClientData) returns (found: ClientData)
    requires Survivor(env, d) != []
    ensures var first := GetDatum(env, FreshInput(PrintAll([d])));
            && first.outcome == Datum(found) && first.input.Good()
            && GetDatum(env, first.input) == Scraped(OutOfData, Input([], true, true))
    ensures found.operation == d.operation && found.clientId == env.clientId
  {
    var text, line := PrintAll([d]), PrintLine(d);
    assert [d][1..] == [] && PrintAll([]) == [];
    PrintedRecordLines(d, []);
    assert "\n" + [] == "\n";
    PrintedLineIsPlain(d);
    CStringWhole(line);
    assert NextLine(FreshInput(text)) == Line(line, FreshInput("\n"));
    PrintedLineParses(env, d, env.memory(1));
    found := ParseLine(env, line, env.memory(1)).value;
    assert GetLine(FreshInput([])) == Line([], Input([], true, true));
    assert NextLine(FreshInput([])) == Line([], Input([], true, true));
  }

  const ZERO: Double := Finite(false, 0, Rounding.LOWEST_EXPONENT)

  /** There are records that survive printing: zero plus zero. */
  lemma ZeroSurvives(env: Environment, d: ClientData)
    requires d.operation == ADD && d.operand1 == ZERO && d.operand2 == ZERO
    ensures Survivor(env, d) != []
  {
    SmallIntegersSurvive(ZERO, 0);
    SurvivesExactly(ZERO);
  }

  /** On the printed text of any single record with a valid operation, read from a file, the client can
      exit without having sent it. */
  lemma PrintedRecordCanBeDropped(d: ClientData, env: Environment, arithmetic: Arithmetic, codec: Codec,
                                  padding: Padding) returns (s: State)
    requires Survivor(env, d) != []
    ensures Reachable(Configure(PrintAll([d]), env, false, arithmetic, codec), s)
    ensures s.client == Exited && |s.queue| == 1 && s.handled == []
  {
    var found := SingleRecordScans(env, d);
    s := Limits.LastRecordCanBeDropped(Configure(PrintAll([d]), env, false, arithmetic, codec), found, padding);
  }

  /** The line of a single record, without its newline: the scraper finds the record as the input ends. */
  lemma UnterminatedRecordScans(env: Environment, d: ClientData) returns (found: ClientData)
    requires Survivor(env, d) != []
    ensures GetDatum(env, FreshInput(PrintLine(d))) == Scraped(Datum(found), Input([], true, false))
  {
    var line := PrintLine(d);
    PrintedLineIsPlain(d);
    CStringWhole(line);
    GetLineTakes(line, []);
    assert NextLine(FreshInput(line)) == Line(line, Input([], true, false));
    PrintedLineParses(env, d, env.memory(0));
    found := ParseLine(env, line, env.memory(0)).value;
  }

  /** On that text the client can exit, with an atomic guard, without the record ever being pushed. */
  lemma UnterminatedRecordCanBeMissed(d: ClientData, env: Environment, arithmetic: Arithmetic, codec: Codec,
                                      padding: Padding) returns (events: seq<Event>, s: State)
    requires codec.Inverts() && Survivor(env, d) != []
    ensures var c := Configure(PrintLine(d), env, false, arithmetic, codec);
            && c.Scans() && Run(c, Initial(c, padding), events) == Some(s) && s.client == Exited
            && |Accepted(c)| == 1 && s.handled == [] && s.queue == []
    ensures AtomicGuard(events) && NoPushAfterGuard(events)
  {
    CalculatorFits(PrintLine(d), env, false, arithmetic, codec);
    var found := UnterminatedRecordScans(env, d);
    events, s := Limits.LastRecordCanBeMissed(Configure(PrintLine(d), env, false, arithmetic, codec), found, padding);
  }

  /** The text archive, and no compression. */
  function PlainCodec(): Codec {
    Codec(DefaultFilter(), TextArchive.Requests(), TextArchive.Responses())
  }

  /** There is a codec that meets what every theorem about the machine asks for, whatever the input. */
  lemma AssumptionsAreMet(text: Bytes, env: Environment, keepAlive: bool, arithmetic: Arithmetic)
    ensures PlainCodec().Inverts()
    ensures var c := Configure(text, env, keepAlive, arithmetic, PlainCodec());
            c.Scans() && c.Inverts()
  {
    TextArchive.TextArchivesInvert();
    DefaultFilterInverts();
    CalculatorFits(text, env, keepAlive, arithmetic, PlainCodec());
  }

  /** With that codec the two forms of reading differ on this header, when nothing of the body comes. */
  lemma FormsDifferOnCutBody(end: N.ErrorCode)
    requires end != N.Success
    ensures N.ReadBlocking(PlainCodec().filter, PlainCodec().responses, "       5", end, []).report == N.Thrown
    ensures N.ReadByHandlers(PlainCodec().filter, PlainCodec().responses, "       5", end, []).report
         == N.Report(end, HEADER_LENGTH)
  {
    FiveIsRead();
    TextArchive.ZerosDoNotLoad(Resized([], 5));
    N.CutBodyIsThrown(PlainCodec().filter, PlainCodec().responses, "       5", 5, end);
  }

  lemma PlainCodecFits(text: Bytes, env: Environment, keepAlive: bool, arithmetic: Arithmetic)
    requires |env.clientId| <= 1_000_000
    ensures var c := Configure(text, env, keepAlive, arithmetic, PlainCodec());
            c.Scans() && c.Inverts() && Fits(c)
  {
    var c := Configure(text, env, keepAlive, arithmetic, PlainCodec());
    AssumptionsAreMet(text, env, keepAlive, arithmetic);
    AcceptedIsScraped(text, env, keepAlive, arithmetic, PlainCodec());
    forall i | 0 <= i < |Accepted(c)| ensures RecordFits(c, Accepted(c)[i]) {
      var d := Accepted(c)[i];
      TextArchive.RequestLength(d);
      if d.operation != NOP {
        TextArchive.ResponseLength(Answer(c, d));
      }
    }
  }

  /** With that codec, on the printed text of any records, there is a run from the start in which the client
      handles a response for every one that survives printing, and exits. */
  lemma EverythingCanBeHandled(ds: seq<ClientData>, env: Environment, arithmetic: Arithmetic, padding: Padding)
      returns (s: State)
    requires |env.clientId| <= 1_000_000
    ensures var c := Configure(PrintAll(ds), env, false, arithmetic, PlainCodec());
            Reachable(c, s) && s.client == Exited && |s.handled| == |Survivors(env, ds)|
  {
    var text := PrintAll(ds);
    var c := Configure(text, env, false, arithmetic, PlainCodec());
    PlainCodecFits(text, env, false, arithmetic);
    Limits.StartIsReachable(c, padding);
    CompletesExactly(c, Initial(c, padding));
    s :| Leads(c, Initial(c, padding), s) && Completion.Complete(c, s);
    AcceptedIsScraped(text, env, false, arithmetic, PlainCodec());
    PrintedTextIsScrapedBack(env, ds);
  }

  function PlainConfig(d: ClientData, env: Environment, keepAlive: bool, arithmetic: Arithmetic): Config {
    Configure(PrintAll([d]), env, keepAlive, arithmetic, PlainCodec())
  }

  lemma PlainRecordScans(d: ClientData, env: Environment, keepAlive: bool, arithmetic: Arithmetic)
      returns (found: ClientData)
    requires Survivor(env, d) != [] && |env.clientId| <= 1_000_000
    ensures var c := PlainConfig(d, env, keepAlive, arithmetic);
            && c.Scans() && c.Inverts() && c.getDatum(FreshInput(c.text)).outcome == Datum(found)
            && c.RequestFrame(found).Some?
    ensures found.operation != NOP
  {
    AssumptionsAreMet(PrintAll([d]), env, keepAlive, arithmetic);
    found := SingleRecordScans(env, d);
    TextArchive.RequestLength(found);
  }

  /** With that codec, on the printed text of any single record with a valid operation, there is a run in
      which the sessions of two connections execute it. */
  lemma PrintedRecordCanBeExecutedTwice(d: ClientData, env: Environment, keepAlive: bool, arithmetic: Arithmetic,
                                        padding: Padding, now: int) returns (s: State)
    requires Survivor(env, d) != [] && |env.clientId| <= 1_000_000
    ensures Reachable(PlainConfig(d, env, keepAlive, arithmetic), s)
    ensures ExecutedTwice(s.connections) && s.handled == []
  {
    var c := PlainConfig(d, env, keepAlive, arithmetic);
    var found := PlainRecordScans(d, env, keepAlive, arithmetic);
    s := Limits.FirstRequest(c, found, padding);
    s := Limits.RequestCanBeExecutedTwice(c, s, now);
  }

  /** And there is one in which a reset connection ends the client, because it comes within a response. */
  lemma PrintedRecordCanEndClient(d: ClientData, env: Environment, keepAlive: bool, arithmetic: Arithmetic,
                                  padding: Padding, now: int) returns (s: State)
    requires Survivor(env, d) != [] && |env.clientId| <= 1_000_000
    requires -TextArchive.INT_LIMIT < now < TextArchive.INT_LIMIT
    ensures Reachable(PlainConfig(d, env, keepAlive, arithmetic), s)
    ensures s.client == Aborted(UndecodableResponse) && s.server == Running && |s.queue| == 1
  {
    var c := PlainConfig(d, env, keepAlive, arithmetic);
    var found := PlainRecordScans(d, env, keepAlive, arithmetic);
    var r := Response(OK, Serve(arithmetic, found, now).value);
    TextArchive.ResponseLength(r);
    TextArchive.ZerosDoNotLoad(Resized([], |c.writeResponse(r)|));
    s := Limits.ResetWithinResponseEndsClient(c, found, padding, now);
  }
}
