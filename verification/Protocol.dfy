/** The client, its scraper thread, its successive connections and the server's sessions, as one
    machine of atomic steps. Every access to the queue, to the state of the input stream and to a
    connection is a step of its own, so that the two client threads and the sessions interleave. */
module Protocol {
  import opened Wrappers
  import opened Text
  import opened HexHeader
  import opened Framing
  import opened Records
  import opened Scraping

  /** Everything a run depends on. The scraper is known by its `getDatum`. Writing and reading a
      message stand for its serialization and the stream filter together; reading has no result when
      one of them throws. */
  datatype Config = Config(
    text: Bytes,
    getDatum: Input -> Scraped,
    keepAlive: bool,
    arithmetic: Arithmetic,
    writeRequest: ClientData -> Bytes,
    readRequest: Bytes -> Option<ClientData>,
    writeResponse: Response -> Bytes,
    readResponse: Bytes -> Option<Response>)
  {
    /** What is written can be read back. */
    ghost predicate Inverts() {
      && (forall d :: readRequest(writeRequest(d)) == Some(d))
      && (forall r :: readResponse(writeResponse(r)) == Some(r))
    }

    /** One call of `getDatum` reads on while the stream is good and never returns a record without a
        valid operation. */
    ghost predicate Scans() {
      forall input :: ScansAt(input)
    }

    ghost predicate ScansAt(input: Input) {
      var s := getDatum(input);
      && |s.input.rest| <= |input.rest|
      && (input.Good() && s.input.Good() ==> |s.input.rest| < |input.rest|)
      && (!input.Good() ==> s == Scraped(OutOfData, input))
      && (s.outcome != OutOfData && s.input.eof ==> !s.input.fail)
      && (s.outcome.Datum? ==> s.outcome.data.operation != NOP)
    }

    function RequestFrame(d: ClientData): Option<Bytes> {
      FrameOf(writeRequest(d))
    }

    function ResponseFrame(r: Response): Option<Bytes> {
      FrameOf(writeResponse(r))
    }
  }

  /* The server's side of a connection */

  /** An initialized session has one operation pending: a read, or the write of a response. */
  datatype Session = Initializing | Receiving | Replying(response: Response, frame: Bytes) | Closed

  /** One connection: the bytes on their way in each direction and the session at its far end. The
      rest is history: how many responses the client had handled when it opened the connection and
      has handled on it since, and what the session has executed with which responses. */
  datatype Connection = Connection(
    toServer: Bytes,
    toClient: Bytes,
    session: Session,
    base: nat,
    served: nat,
    executed: seq<ClientData>,
    responses: seq<Response>)

  datatype Crash = HandshakeFailed | InvalidOperation | UndecodableRequest

  datatype Server = Running | Crashed(cause: Crash)

  /* The client */

  datatype Error = ConnectionAborted | ConnectionReset | TimedOut | OtherError {
    /** After these the connection is opened again. Any other error is thrown. */
    predicate Retryable() {
      this in {ConnectionAborted, ConnectionReset, TimedOut}
    }
  }

  datatype Failure =
    | CannotConnect | RequestTooLong | Unhandled(error: Error) | UndecodableResponse | AssertionFailed

  /** Where the client thread is in `start` and `listen`, with the locals that matter there. */
  datatype ClientPc =
    | Opening
    | Checking
    | Fronting
    | Requesting(data: ClientData)
    | Writing(data: ClientData)
    | Reading(data: ClientData)
    | Responding(data: ClientData, response: Response)
    | Popping(data: ClientData)
    | GuardQueue(connectionOk: bool)
    | GuardScraper(connectionOk: bool)
    | Deciding(connectionOk: bool, inputOk: bool)
    | Exited
    | Aborted(failure: Failure)

  datatype ScraperPc = Scanning | Pushing(data: ClientData)

  /** `buffer` is the client's data buffer, which keeps what the last read left in it; `mark` is the number
      of records pushed when the exit guard last saw an empty queue. The last three fields are history. */
  datatype State = State(
    input: Input,
    scraper: ScraperPc,
    queue: seq<ClientData>,
    client: ClientPc,
    padding: Padding,
    buffer: Bytes,
    connections: seq<Connection>,
    server: Server,
    mark: nat,
    pushed: seq<ClientData>,
    popped: seq<ClientData>,
    handled: seq<Response>)

  function Initial(c: Config, padding: Padding): State {
    State(FreshInput(c.text), Scanning, [], Opening, padding, [], [], Running, 0, [], [], [])
  }

  /* Steps */

  datatype ScraperEvent = Scan | Push

  datatype ClientEvent =
    | OpenOk
    | OpenFail
    | Check
    | Front
    | Request
    | WriteOk
    | WriteTooLong
    | WriteFail(delivered: nat, error: Error)
    | ReadOk
    | ReadUnparsable(junk: Response)
    | ReadFail(arrived: nat, error: Error)
    | Respond
    | Pop
    | GuardQueueStep
    | GuardScraperStep
    | Decide

  datatype SessionEvent =
    | InitializeOk
    | InitializeFail
    | Receive(now: int)
    | ReceiveUnparsable
    | Reply
    | Fail(delivered: nat)

  datatype Event =
    | ByScraper(scraper: ScraperEvent)
    | ByClient(client: ClientEvent)
    | BySession(k: nat, session: SessionEvent)

  predicate Enabled(c: Config, s: State, e: Event) {
    match e
    case ByScraper(a) => ScraperEnabled(s, a)
    case ByClient(a) => ClientEnabled(c, s, a)
    case BySession(k, a) =>
      s.server == Running && k < |s.connections| && SessionEnabled(s.connections[k], a)
  }

  function Next(c: Config, s: State, e: Event): State
    requires Enabled(c, s, e)
  {
    match e
    case ByScraper(a) => ScraperNext(c, s, a)
    case ByClient(a) => ClientNext(c, s, a)
    case BySession(k, a) =>
      match SessionNext(c, s.connections[k], a)
      case Continues(conn) => s.(connections := s.connections[k := conn])
      case Crashes(cause) => s.(server := Crashed(cause))
  }

  /* The scraper thread */

  predicate ScraperEnabled(s: State, e: ScraperEvent) {
    match e
    case Scan => s.scraper == Scanning && !s.input.fail
    case Push => s.scraper.Pushing?
  }

  function ScraperNext(c: Config, s: State, e: ScraperEvent): State
    requires ScraperEnabled(s, e)
  {
    match e
    case Scan =>
      var scraped := c.getDatum(s.input);
      s.(input := scraped.input,
         scraper := if scraped.outcome.Datum? then Pushing(scraped.outcome.data) else Scanning)
    case Push =>
      var d := s.scraper.data;
      s.(scraper := Scanning, queue := s.queue + [d], pushed := s.pushed + [d])
  }

  /* The client thread */

  /** The connection in use is the newest one. */
  function Current(s: State): Connection
    requires s.connections != []
  {
    s.connections[|s.connections| - 1]
  }

  function WithCurrent(s: State, conn: Connection): State
    requires s.connections != []
  {
    s.(connections := s.connections[|s.connections| - 1 := conn])
  }

  /** What `listen` does with an error reported by an exchange. */
  function AfterError(error: Error): ClientPc {
    if error.Retryable() then GuardQueue(false) else Aborted(Unhandled(error))
  }

  /** What `listen` does with a response read without an error. */
  function AfterResponse(d: ClientData, r: Response): ClientPc {
    if r.status == OK then Responding(d, r) else GuardQueue(false)
  }

  predicate ClientEnabled(c: Config, s: State, e: ClientEvent) {
    match e
    case OpenOk => s.client == Opening && s.server == Running
    case OpenFail => s.client == Opening
    case Check => s.client == Checking
    case Front => s.client == Fronting && s.queue != []
    case Request => s.client.Requesting?
    case WriteOk => s.client.Writing? && s.connections != [] && c.RequestFrame(s.client.data).Some?
    case WriteTooLong => s.client.Writing? && c.RequestFrame(s.client.data).None?
    case WriteFail(delivered, _) =>
      && s.client.Writing? && s.connections != []
      && c.RequestFrame(s.client.data).Some? && delivered <= |c.RequestFrame(s.client.data).value|
    case ReadOk => s.client.Reading? && s.connections != [] && TryRead(Current(s).toClient).Got?
    case ReadUnparsable(_) =>
      s.client.Reading? && s.connections != [] && TryRead(Current(s).toClient).BadHeader?
    case ReadFail(arrived, _) =>
      && s.client.Reading? && s.connections != [] && arrived <= |Current(s).toClient|
      && TryRead(Current(s).toClient[..arrived]) == NeedMore
    case Respond => s.client.Responding? && s.connections != []
    case Pop => s.client.Popping? && s.queue != []
    case GuardQueueStep => s.client.GuardQueue?
    case GuardScraperStep => s.client.GuardScraper?
    case Decide => s.client.Deciding?
  }

  function ClientNext(c: Config, s: State, e: ClientEvent): State
    requires ClientEnabled(c, s, e)
  {
    match e
    case OpenOk =>
      s.(client := Checking,
         connections := s.connections + [Connection([], [], Initializing, |s.handled|, 0, [], [])])
    case OpenFail => s.(client := Aborted(CannotConnect))
    case Check => s.(client := if s.queue != [] then Fronting else GuardQueue(true))
    case Front => s.(client := Requesting(s.queue[0]))
    case Request => s.(client := Writing(s.client.data), padding := s.client.data.padding)
    case WriteOk => Deliver(s, c.RequestFrame(s.client.data).value, Reading(s.client.data))
    case WriteTooLong => s.(client := Aborted(RequestTooLong))
    case WriteFail(delivered, error) =>
      Deliver(s, c.RequestFrame(s.client.data).value[..delivered], AfterError(error))
    case ReadOk => Accept(c, s, TryRead(Current(s).toClient))
    case ReadUnparsable(junk) => s.(client := AfterResponse(s.client.data, junk))
    case ReadFail(arrived, error) => Cut(c, s, Current(s).toClient[..arrived], error)
    case Respond => Handle(s)
    case Pop =>
      s.(client := GuardQueue(true), queue := s.queue[1..], popped := s.popped + [s.queue[0]])
    case GuardQueueStep => Guard(c, s)
    case GuardScraperStep => s.(client := Deciding(s.client.connectionOk, s.input.Good()))
    case Decide =>
      s.(client := if s.client.connectionOk && s.client.inputOk then Checking
                   else if s.client.inputOk then Opening
                   else Exited)
  }

  /** Bytes of a request are written, and the client goes on. */
  function Deliver(s: State, bytes: Bytes, client: ClientPc): State
    requires s.connections != []
  {
    WithCurrent(s, Current(s).(toServer := Current(s).toServer + bytes)).(client := client)
  }

  /** A whole response has been read. */
  function Accept(c: Config, s: State, got: Attempt): State
    requires s.client.Reading? && s.connections != [] && got.Got?
  {
    WithCurrent(s, Current(s).(toClient := got.rest))
      .(buffer := got.payload,
        client := match c.readResponse(got.payload)
                  case None => Aborted(UndecodableResponse)
                  case Some(r) => AfterResponse(s.client.data, r))
  }

  /** What the data buffer holds when the connection fails after the header and part of the body. */
  function CutBody(buffer: Bytes, got: Bytes): Bytes
    requires TryRead(got) == NeedMore && |got| >= HEADER_LENGTH
  {
    Filled(buffer, ParseSize(got[..HEADER_LENGTH]).value, got[HEADER_LENGTH..])
  }

  /** The blocking read decodes whatever is then in the buffer before anyone looks at the error. */
  predicate ThrowsOnCut(c: Config, buffer: Bytes, got: Bytes)
    requires TryRead(got) == NeedMore
  {
    |got| >= HEADER_LENGTH && c.readResponse(CutBody(buffer, got)).None?
  }

  /** The connection fails when `got` has arrived of a response. */
  function Cut(c: Config, s: State, got: Bytes, error: Error): State
    requires TryRead(got) == NeedMore
  {
    s.(buffer := if |got| < HEADER_LENGTH then s.buffer else CutBody(s.buffer, got),
       client := if ThrowsOnCut(c, s.buffer, got) then Aborted(UndecodableResponse) else AfterError(error))
  }

  /** The response part of the client's strategy, with its assertion about the padding. */
  function Handle(s: State): State
    requires s.client.Responding? && s.connections != []
  {
    WithCurrent(s, Current(s).(served := Current(s).served + 1))
      .(handled := s.handled + [s.client.response],
        client := if s.client.response.data.padding == s.padding then Popping(s.client.data)
                  else Aborted(AssertionFailed))
  }

  /** `keep_alive_ || !queue.empty()`, the first part of the exit guard. */
  function Guard(c: Config, s: State): State
    requires s.client.GuardQueue?
  {
    if c.keepAlive || s.queue != [] then s.(client := Deciding(s.client.connectionOk, true))
    else s.(client := GuardScraper(s.client.connectionOk), mark := |s.pushed|)
  }

  /* A session of the server */

  datatype SessionOutcome = Continues(conn: Connection) | Crashes(cause: Crash)

  predicate SessionEnabled(conn: Connection, e: SessionEvent) {
    match e
    case InitializeOk => conn.session == Initializing
    case InitializeFail => conn.session == Initializing
    case Receive(_) => conn.session == Receiving && TryRead(conn.toServer).Got?
    case ReceiveUnparsable => conn.session == Receiving && TryRead(conn.toServer).BadHeader?
    case Reply => conn.session.Replying?
    case Fail(delivered) =>
      conn.session == Receiving || (conn.session.Replying? && delivered <= |conn.session.frame|)
  }

  function SessionNext(c: Config, conn: Connection, e: SessionEvent): SessionOutcome
    requires SessionEnabled(conn, e)
  {
    match e
    case InitializeOk => Continues(conn.(session := Receiving))
    case InitializeFail => Crashes(HandshakeFailed)
    case Receive(now) => Execute(c, conn, TryRead(conn.toServer), now)
    case ReceiveUnparsable => Continues(conn.(session := Closed))
    case Reply => Continues(Write(conn, conn.session.frame, Receiving))
    case Fail(delivered) =>
      if conn.session.Replying? then Continues(Write(conn, conn.session.frame[..delivered], Closed))
      else Continues(conn.(session := Closed))
  }

  /** Bytes of a response are written, and the session goes on. */
  function Write(conn: Connection, bytes: Bytes, session: Session): Connection {
    conn.(toClient := conn.toClient + bytes, session := session)
  }

  /** A whole request has arrived: decode it, execute the strategy, start the write of the response. */
  function Execute(c: Config, conn: Connection, got: Attempt, now: int): SessionOutcome
    requires got.Got?
  {
    match c.readRequest(got.payload)
    case None => Crashes(UndecodableRequest)
    case Some(d) =>
      match Serve(c.arithmetic, d, now)
      case None => Crashes(InvalidOperation)
      case Some(data) => Continues(Executed(c, conn.(toServer := got.rest), d, Response(OK, data)))
  }

  function Executed(c: Config, conn: Connection, d: ClientData, r: Response): Connection {
    conn.(session := match c.ResponseFrame(r)
                     case None => Closed
                     case Some(frame) => Replying(r, frame),
          executed := conn.executed + [d],
          responses := conn.responses + [r])
  }

  /* Runs */

  /** The state after a list of events, if each of them is enabled when its turn comes. */
  function Run(c: Config, s: State, events: seq<Event>): Option<State>
    decreases |events|
  {
    if events == [] then Some(s)
    else
      var last := |events| - 1;
      match Run(c, s, events[..last])
      case None => None
      case Some(t) => if Enabled(c, t, events[last]) then Some(Next(c, t, events[last])) else None
  }

  ghost predicate Reachable(c: Config, s: State) {
    exists padding: Padding, events: seq<Event> :: Run(c, Initial(c, padding), events) == Some(s)
  }
}
