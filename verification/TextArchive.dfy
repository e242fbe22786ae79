/** A text archive that takes back what it puts: integers in decimal, each followed by a blank, and
    strings after their length, in the order in which the messages serialize their fields. */
module TextArchive {
  import opened Wrappers
  import opened Text
  import opened Rounding
  import opened Numbers
  import opened Doubles
  import opened Records
  import opened Messages

  datatype Taken<+T> = Taken(value: T, rest: Bytes)

  function PutInt(n: int): Bytes {
    PrintInt(n) + " "
  }

  function TakeInt(s: Bytes): (t: Option<Taken<int>>) {
    var a := Accumulate(EMPTY_FIELD, s, false);
    if Complete(a.field) && a.rest != [] && a.rest[0] == ' ' then Some(Taken(SignedMantissa(a.field), a.rest[1..]))
    else None
  }

  lemma IntIsTaken(n: int, rest: Bytes)
    ensures TakeInt(PutInt(n) + rest) == Some(Taken(n, rest))
  {
    PrintedIntField(n, false);
    FieldEndsAtBlank(EMPTY_FIELD, PrintInt(n), " " + rest, false);
    assert PutInt(n) + rest == PrintInt(n) + (" " + rest);
    assert (" " + rest)[1..] == rest;
  }

  function PutBytes(b: Bytes): Bytes {
    PutInt(|b|) + b
  }

  function TakeBytes(s: Bytes): (t: Option<Taken<Bytes>>) {
    var n := TakeInt(s);
    if n.None? || n.value.value < 0 || n.value.value > |n.value.rest| then None
    else Some(Taken(n.value.rest[..n.value.value], n.value.rest[n.value.value..]))
  }

  lemma BytesAreTaken(b: Bytes, rest: Bytes)
    ensures TakeBytes(PutBytes(b) + rest) == Some(Taken(b, rest))
  {
    IntIsTaken(|b|, b + rest);
    assert PutBytes(b) + rest == PutInt(|b|) + (b + rest);
    assert (b + rest)[..|b|] == b && (b + rest)[|b|..] == rest;
  }

  datatype Four = Four(a: int, b: int, c: int, d: int)

  function PutFour(f: Four, rest: Bytes): Bytes {
    PutInt(f.a) + (PutInt(f.b) + (PutInt(f.c) + (PutInt(f.d) + rest)))
  }

  function TakeFour(s: Bytes): (t: Option<Taken<Four>>) {
    var a := TakeInt(s);
    if a.None? then None else
    var b := TakeInt(a.value.rest);
    if b.None? then None else
    var c := TakeInt(b.value.rest);
    if c.None? then None else
    var d := TakeInt(c.value.rest);
    if d.None? then None else
    Some(Taken(Four(a.value.value, b.value.value, c.value.value, d.value.value), d.value.rest))
  }

  lemma FourAreTaken(f: Four, rest: Bytes)
    ensures TakeFour(PutFour(f, rest)) == Some(Taken(f, rest))
  {
    var s1 := PutInt(f.d) + rest;
    var s2 := PutInt(f.c) + s1;
    var s3 := PutInt(f.b) + s2;
    IntIsTaken(f.a, s3);
    IntIsTaken(f.b, s2);
    IntIsTaken(f.c, s1);
    IntIsTaken(f.d, rest);
  }

  /** The integers that stand for a double: its kind, its sign, its significand and its exponent. */
  function Parts(d: Double): Four {
    var sign := if d.negative then 1 else 0;
    match d
    case Finite(_, s, e) => Four(0, sign, s, e)
    case Infinite(_) => Four(1, sign, 0, 0)
    case NaN(_) => Four(2, sign, 0, 0)
  }

  function FromParts(f: Four): (d: Option<Double>)
    ensures forall x: Double :: f == Parts(x) ==> d == Some(x)
  {
    if f.a == 0 && f.c >= 0 && IsDouble(Finite(f.b == 1, f.c, f.d)) then Some(Finite(f.b == 1, f.c, f.d))
    else if f.a == 1 then Some(Infinite(f.b == 1))
    else if f.a == 2 then Some(NaN(f.b == 1))
    else None
  }

  function Code(operation: Operation): int {
    match operation
    case NOP => 0
    case ADD => 1
    case SUBTRACT => 2
    case MULTIPLY => 3
    case DIVIDE => 4
  }

  function FromCode(n: int): (operation: Option<Operation>)
    ensures forall o: Operation :: n == Code(o) ==> operation == Some(o)
  {
    match n
    case 0 => Some(NOP)
    case 1 => Some(ADD)
    case 2 => Some(SUBTRACT)
    case 3 => Some(MULTIPLY)
    case 4 => Some(DIVIDE)
    case _ => None
  }

  /* Requests */

  datatype Calculation = Calculation(operand1: Four, operation: int, operand2: Four, padding: Bytes)

  function SaveCalculation(c: Calculation): Bytes {
    PutFour(c.operand1, PutInt(c.operation) + PutFour(c.operand2, PutBytes(c.padding)))
  }

  function LoadCalculation(s: Bytes): Option<Calculation> {
    var operand1 := TakeFour(s);
    if operand1.None? then None else
    var operation := TakeInt(operand1.value.rest);
    if operation.None? then None else
    var operand2 := TakeFour(operation.value.rest);
    if operand2.None? then None else
    var padding := TakeBytes(operand2.value.rest);
    if padding.None? then None else
    Some(Calculation(operand1.value.value, operation.value.value, operand2.value.value, padding.value.value))
  }

  lemma CalculationIsLoaded(c: Calculation)
    ensures LoadCalculation(SaveCalculation(c)) == Some(c)
  {
    var s1 := PutFour(c.operand2, PutBytes(c.padding));
    FourAreTaken(c.operand1, PutInt(c.operation) + s1);
    IntIsTaken(c.operation, s1);
    FourAreTaken(c.operand2, PutBytes(c.padding));
    BytesAreTaken(c.padding, []);
    assert PutBytes(c.padding) + [] == PutBytes(c.padding);
  }

  function ToCalculation(d: ClientData): Calculation {
    Calculation(Parts(d.operand1), Code(d.operation), Parts(d.operand2), d.padding)
  }

  function ToRequest(clientId: Bytes, id: int, c: Calculation): Option<ClientData> {
    var operand1, operation, operand2 := FromParts(c.operand1), FromCode(c.operation), FromParts(c.operand2);
    if -0x8000_0000 <= id < 0x8000_0000 && operand1.Some? && operation.Some? && operand2.Some?
       && |c.padding| == PADDING_SIZE
    then Some(ClientData(clientId, id, operand1.value, operation.value, operand2.value, c.padding))
    else None
  }

  lemma RequestIsRestored(d: ClientData)
    ensures ToRequest(d.clientId, d.id, ToCalculation(d)) == Some(d)
  {
    assert FromParts(Parts(d.operand1)) == Some(d.operand1);
    assert FromParts(Parts(d.operand2)) == Some(d.operand2);
    assert FromCode(Code(d.operation)) == Some(d.operation);
  }

  function SaveRequest(d: ClientData): Bytes {
    PutBytes(d.clientId) + (PutInt(d.id) + SaveCalculation(ToCalculation(d)))
  }

  function LoadRequest(s: Bytes): Option<ClientData> {
    var clientId := TakeBytes(s);
    if clientId.None? then None else
    var id := TakeInt(clientId.value.rest);
    if id.None? then None else
    var c := LoadCalculation(id.value.rest);
    if c.None? then None else
    ToRequest(clientId.value.value, id.value.value, c.value)
  }

  lemma RequestIsLoaded(d: ClientData)
    ensures LoadRequest(SaveRequest(d)) == Some(d)
  {
    var rest := SaveCalculation(ToCalculation(d));
    BytesAreTaken(d.clientId, PutInt(d.id) + rest);
    IntIsTaken(d.id, rest);
    CalculationIsLoaded(ToCalculation(d));
    RequestIsRestored(d);
    assert TakeBytes(SaveRequest(d)) == Some(Taken(d.clientId, PutInt(d.id) + rest));
  }

  /* Responses */

  datatype Result = Result(timestamp: int, id: int, result: Four, padding: Bytes)

  function SaveResult(r: Result): Bytes {
    PutInt(r.timestamp) + (PutInt(r.id) + PutFour(r.result, PutBytes(r.padding)))
  }

  function LoadResult(s: Bytes): Option<Result> {
    var timestamp := TakeInt(s);
    if timestamp.None? then None else
    var id := TakeInt(timestamp.value.rest);
    if id.None? then None else
    var result := TakeFour(id.value.rest);
    if result.None? then None else
    var padding := TakeBytes(result.value.rest);
    if padding.None? then None else
    Some(Result(timestamp.value.value, id.value.value, result.value.value, padding.value.value))
  }

  lemma ResultIsLoaded(r: Result)
    ensures LoadResult(SaveResult(r)) == Some(r)
  {
    var s1 := PutFour(r.result, PutBytes(r.padding));
    IntIsTaken(r.timestamp, PutInt(r.id) + s1);
    IntIsTaken(r.id, s1);
    FourAreTaken(r.result, PutBytes(r.padding));
    BytesAreTaken(r.padding, []);
    assert PutBytes(r.padding) + [] == PutBytes(r.padding);
  }

  function ToResult(d: ServerData): Result {
    Result(d.timestamp, d.id, Parts(d.result), d.padding)
  }

  function ToResponse(status: int, r: Result): Option<Response> {
    var result := FromParts(r.result);
    if -0x8000_0000 <= r.id < 0x8000_0000 && result.Some? && |r.padding| == PADDING_SIZE
    then Some(Response(if status == 0 then OK else BAD, ServerData(r.timestamp, r.id, result.value, r.padding)))
    else None
  }

  function StatusCode(status: Status): int {
    if status == OK then 0 else 1
  }

  lemma ResponseIsRestored(r: Response)
    ensures ToResponse(StatusCode(r.status), ToResult(r.data)) == Some(r)
  {
    assert FromParts(Parts(r.data.result)) == Some(r.data.result);
  }

  function SaveResponse(r: Response): Bytes {
    PutInt(StatusCode(r.status)) + SaveResult(ToResult(r.data))
  }

  function LoadResponse(s: Bytes): Option<Response> {
    var status := TakeInt(s);
    if status.None? then None else
    var r := LoadResult(status.value.rest);
    if r.None? then None else
    ToResponse(status.value.value, r.value)
  }

  lemma ResponseIsLoaded(r: Response)
    ensures LoadResponse(SaveResponse(r)) == Some(r)
  {
    var rest := SaveResult(ToResult(r.data));
    IntIsTaken(StatusCode(r.status), rest);
    ResultIsLoaded(ToResult(r.data));
    ResponseIsRestored(r);
    assert TakeInt(SaveResponse(r)) == Some(Taken(StatusCode(r.status), rest));
  }

  /* Lengths */

  const INT_LIMIT: int := 10 * DECIMALS

  lemma IntLength(n: int)
    requires -INT_LIMIT < n < INT_LIMIT
    ensures |PutInt(n)| <= 18
  {
    PowersOfTen();
    assert Pow(10, 16) == INT_LIMIT;
    DigitsLength(if n < 0 then -n else n, 16);
  }

  lemma FourLength(d: Double, rest: Bytes)
    ensures |PutFour(Parts(d), rest)| <= 72 + |rest|
  {
    var f := Parts(d);
    IntLength(f.a);
    IntLength(f.b);
    IntLength(f.c);
    IntLength(f.d);
  }

  /** Requests of clients with short ids, and their responses, fit a frame. */
  lemma RequestLength(d: ClientData)
    requires |d.clientId| <= 1_000_000
    ensures |SaveRequest(d)| < 2_000_000
  {
    IntLength(|d.clientId|);
    IntLength(d.id);
    IntLength(Code(d.operation));
    IntLength(|d.padding|);
    FourLength(d.operand2, PutBytes(d.padding));
    FourLength(d.operand1, PutInt(Code(d.operation)) + PutFour(Parts(d.operand2), PutBytes(d.padding)));
  }

  lemma ResponseLength(r: Response)
    requires -INT_LIMIT < r.data.timestamp < INT_LIMIT
    ensures 0 < |SaveResponse(r)| < 2_000_000
  {
    IntLength(StatusCode(r.status));
    IntLength(r.data.timestamp);
    IntLength(r.data.id);
    IntLength(|r.data.padding|);
    FourLength(r.data.result, PutBytes(r.data.padding));
  }

  /* The archives */

  function Requests(): Archive<ClientData> {
    Archive((d: ClientData) => SaveRequest(d), (s: Bytes) => LoadRequest(s))
  }

  function Responses(): Archive<Response> {
    Archive((r: Response) => SaveResponse(r), (s: Bytes) => LoadResponse(s))
  }

  /** There are archives that take back every record and every response. */
  lemma TextArchivesInvert()
    ensures Requests().Inverts() && Responses().Inverts()
  {
    forall d: ClientData ensures Requests().load(Requests().save(d)) == Some(d) {
      RequestIsLoaded(d);
    }
    forall r: Response ensures Responses().load(Responses().save(r)) == Some(r) {
      ResponseIsLoaded(r);
    }
  }

  lemma NothingToTake(s: Bytes)
    requires s == [] || s[0] == '\0'
    ensures TakeInt(s) == None
  {
    assert Accumulate(EMPTY_FIELD, s, false) == Accumulated(EMPTY_FIELD, s);
  }

  /** Bytes that were never filled in do not load. */
  lemma ZerosDoNotLoad(s: Bytes)
    requires s == [] || s[0] == '\0'
    ensures LoadResponse(s) == None
  {
    NothingToTake(s);
  }
}
