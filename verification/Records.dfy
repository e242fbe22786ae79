/** The records of the calculator: what the client sends, what the server answers, how a record is
    printed, and the server's strategy. */
module Records {
  import opened Wrappers
  import opened Text
  import opened Numbers
  import opened Doubles

  datatype Operation = NOP | ADD | SUBTRACT | MULTIPLY | DIVIDE

  const PADDING_SIZE: nat := 2000

  type Padding = p: Bytes | |p| == PADDING_SIZE witness seq(PADDING_SIZE, _ => 'p')

  datatype ClientData = ClientData(clientId: Bytes, id: Int32, operand1: Double,
                                   operation: Operation, operand2: Double, padding: Padding)

  datatype ServerData = ServerData(timestamp: int, id: Int32, result: Double, padding: Padding)

  datatype Status = OK | BAD

  datatype Response = Response(status: Status, data: ServerData)

  /** The four floating-point operations, left uninterpreted. */
  datatype Arithmetic = Arithmetic(add: (Double, Double) -> Double, subtract: (Double, Double) -> Double,
                                   multiply: (Double, Double) -> Double, divide: (Double, Double) -> Double)

  /** The server's strategy; none stands for its "Invalid operation" exception. */
  function Serve(a: Arithmetic, d: ClientData, now: int): (answer: Option<ServerData>)
    ensures answer.None? <==> d.operation == NOP
  {
    var x, y := d.operand1, d.operand2;
    if d.operation == NOP then None
    else
      var result := match d.operation
                    case ADD => a.add(x, y)
                    case SUBTRACT => a.subtract(x, y)
                    case MULTIPLY => a.multiply(x, y)
                    case _ => a.divide(x, y);
      Some(ServerData(now, d.id, result, d.padding))
  }

  /** `r` is an answer to `d`, whenever it was computed. */
  ghost predicate Answers(a: Arithmetic, r: Response, d: ClientData) {
    && r.status == OK
    && r.data.id == d.id
    && r.data.padding == d.padding
    && (d.operation == ADD ==> r.data.result == a.add(d.operand1, d.operand2))
    && (d.operation == SUBTRACT ==> r.data.result == a.subtract(d.operand1, d.operand2))
    && (d.operation == MULTIPLY ==> r.data.result == a.multiply(d.operand1, d.operand2))
    && (d.operation == DIVIDE ==> r.data.result == a.divide(d.operand1, d.operand2))
    && d.operation != NOP
  }

  /** The strategy succeeds exactly on the records that have an answer, and then gives one. */
  lemma ServeAnswers(a: Arithmetic, d: ClientData, now: int)
    ensures Serve(a, d, now).Some? ==> Answers(a, Response(OK, Serve(a, d, now).value), d)
    ensures Serve(a, d, now).None? ==> forall r :: !Answers(a, r, d)
  {
  }

  /* Printing */

  function OperationText(operation: Operation): Bytes {
    match operation
    case NOP => "NOP"
    case ADD => "+"
    case SUBTRACT => "-"
    case MULTIPLY => "*"
    case DIVIDE => "/"
  }

  /** One line for a record. The client id and the padding are not printed. */
  function PrintLine(d: ClientData): Bytes {
    PrintInt(d.id) + " " + PrintDouble(d.operand1) + " " + OperationText(d.operation) + " " + PrintDouble(d.operand2)
  }

  /** A record as the data generator emits it: its line, ended, then an empty line. */
  function PrintRecord(d: ClientData): Bytes {
    PrintLine(d) + "\n" + "\n"
  }

  function PrintAll(ds: seq<ClientData>): Bytes {
    if ds == [] then [] else PrintRecord(ds[0]) + PrintAll(ds[1..])
  }
}
