/** From a text stream to records: reading lines into a buffer of fixed size, skipping empty ones,
    parsing a line, and the loop that pushes the records found. */
module Scraping {
  import opened Wrappers
  import opened Text
  import opened Numbers
  import opened Doubles
  import opened Records

  const BUFFER_SIZE: nat := 1000

  /* The input stream */

  datatype Input = Input(rest: Bytes, eof: bool, fail: bool) {
    predicate Good() {
      !eof && !fail
    }
  }

  function FreshInput(text: Bytes): Input {
    Input(text, false, false)
  }

  /** The position of the first newline, or the length of the text. */
  function LineEnd(s: Bytes): (j: nat)
    ensures j <= |s|
  {
    if s == [] || s[0] == '\n' then 0 else 1 + LineEnd(s[1..])
  }

  lemma {:induction false} LineEndIsFirst(s: Bytes)
    ensures forall i :: 0 <= i < LineEnd(s) ==> s[i] != '\n'
    ensures LineEnd(s) < |s| ==> s[LineEnd(s)] == '\n'
    decreases |s|
  {
    if s != [] && s[0] != '\n' {
      LineEndIsFirst(s[1..]);
      assert forall i :: 1 <= i < |s| ==> s[i] == s[1..][i - 1];
    }
  }

  datatype Line = Line(text: Bytes, input: Input)

  /** `getline(buffer, 1000)`: the newline is removed; running out of text sets eof, and fail as
      well when nothing was read; a full buffer sets fail and leaves the rest of the line. */
  function GetLine(input: Input): (l: Line)
    ensures !l.input.Good() || |l.input.rest| < |input.rest|
    ensures |l.input.rest| <= |input.rest|
    ensures |l.text| < BUFFER_SIZE
  {
    if !input.Good() then Line([], input.(fail := true))
    else
      var j := LineEnd(input.rest);
      if j < BUFFER_SIZE then
        if j < |input.rest| then Line(input.rest[..j], Input(input.rest[j + 1..], false, false))
        else Line(input.rest, Input([], true, j == 0))
      else Line(input.rest[..BUFFER_SIZE - 1], Input(input.rest[BUFFER_SIZE - 1..], false, true))
  }

  /** The buffer as a C string: a NUL ends it. */
  function CString(s: Bytes): (r: Bytes)
    ensures |r| <= |s|
    ensures forall i :: 0 <= i < |r| ==> r[i] != '\0'
  {
    if s == [] || s[0] == '\0' then [] else [s[0]] + CString(s[1..])
  }

  /** Read lines until one is not empty or the stream stops being good. */
  function NextLine(input: Input): (l: Line)
    ensures |l.input.rest| <= |input.rest|
    ensures input.Good() && l.input.Good() ==> |l.input.rest| < |input.rest|
    ensures !input.Good() ==> l == Line([], input)
    ensures input.Good() && l.text == [] ==> !l.input.Good()
    ensures l.text != [] && l.input.eof ==> !l.input.fail
    decreases |input.rest|, if input.Good() then 1 else 0
  {
    if !input.Good() then Line([], input)
    else
      var l := GetLine(input);
      if CString(l.text) != [] then Line(CString(l.text), l.input) else NextLine(l.input)
  }

  /* One line */

  /** The indeterminate values that local variables of the parser start with. */
  datatype Garbage = Garbage(operand1: Double, operation: Byte, operand2: Double, padding: Padding)

  /** What the parser depends on besides the text: the client id; and the indeterminate values, different
      for every line, a line being known by the amount of text after it. */
  datatype Environment = Environment(clientId: Bytes, memory: nat -> Garbage)

  datatype Item<+T> = Item(value: Option<T>, rest: Bytes)

  function IntItem(s: Bytes): (i: Item<Int32>) {
    var a := Accumulate(EMPTY_FIELD, SkipSpace(s), false);
    Item(IntValue(a.field), a.rest)
  }

  function DoubleItem(s: Bytes): (i: Item<Double>) {
    var a := Accumulate(EMPTY_FIELD, SkipSpace(s), true);
    Item(DoubleValue(a.field), a.rest)
  }

  function CharItem(s: Bytes): (i: Item<Byte>) {
    var t := SkipSpace(s);
    if t == [] then Item(None, []) else Item(Some(t[0]), t[1..])
  }

  function Operator(c: Byte): (o: Option<Operation>)
    ensures o != Some(NOP)
    ensures o.Some? ==> OperationText(o.value) == [c]
    ensures o.None? ==> c !in {'+', '-', '*', '/'}
  {
    if c == '+' then Some(ADD)
    else if c == '-' then Some(SUBTRACT)
    else if c == '*' then Some(MULTIPLY)
    else if c == '/' then Some(DIVIDE)
    else None
  }

  /** The record on a line; none stands for the bad-data exception. An item whose turn comes when a
      numeric item has just used up the line is neither read nor refused: it keeps its garbage. */
  function ParseLine(env: Environment, line: Bytes, g: Garbage): (d: Option<ClientData>)
    ensures d.Some? ==> d.value.operation != NOP && d.value.clientId == env.clientId && d.value.padding == g.padding
  {
    var id := IntItem(line);
    if id.value.None? then None
    else if id.rest == [] then
      Assemble(env.clientId, id.value.value, g.operand1, g.operation, g.operand2, g)
    else
      var first := DoubleItem(id.rest);
      if first.value.None? then None
      else if first.rest == [] then
        Assemble(env.clientId, id.value.value, first.value.value, g.operation, g.operand2, g)
      else
        var op := CharItem(first.rest);
        if op.value.None? || Operator(op.value.value).None? then None
        else
          var second := DoubleItem(op.rest);
          if second.value.None? then None
          else Assemble(env.clientId, id.value.value, first.value.value, op.value.value, second.value.value, g)
  }

  function Assemble(clientId: Bytes, id: Int32, x: Double, op: Byte, y: Double, g: Garbage): (d: Option<ClientData>)
    ensures d.Some? ==> d.value.operation != NOP && d.value.clientId == clientId && d.value.padding == g.padding
  {
    match Operator(op)
    case None => None
    case Some(operation) => Some(ClientData(clientId, id, x, operation, y, g.padding))
  }

  /* The loop */

  datatype Outcome = Datum(data: ClientData) | BadData | OutOfData

  datatype Scraped = Scraped(outcome: Outcome, input: Input)

  /** One call of `get_datum`. */
  function GetDatum(env: Environment, input: Input): (s: Scraped)
    ensures |s.input.rest| <= |input.rest|
    ensures input.Good() && s.input.Good() ==> |s.input.rest| < |input.rest|
    ensures !input.Good() ==> s == Scraped(OutOfData, input)
    ensures s.outcome != OutOfData && s.input.eof ==> !s.input.fail
    ensures s.outcome.Datum? ==>
              s.outcome.data.operation != NOP && s.outcome.data.clientId == env.clientId
  {
    var l := NextLine(input);
    if l.text == [] then Scraped(OutOfData, l.input)
    else match ParseLine(env, l.text, env.memory(|l.input.rest|))
      case None => Scraped(BadData, l.input)
      case Some(d) => Scraped(Datum(d), l.input)
  }

  function Found(outcome: Outcome): seq<ClientData> {
    if outcome.Datum? then [outcome.data] else []
  }

  datatype Harvest = Harvest(pushed: seq<ClientData>, input: Input)

  /** All the records the loop pushes, and the stream when it stops being good. */
  function Scrape(env: Environment, input: Input): (h: Harvest)
    ensures !h.input.Good()
    ensures forall i :: 0 <= i < |h.pushed| ==>
              h.pushed[i].operation != NOP && h.pushed[i].clientId == env.clientId
    decreases |input.rest|, if input.Good() then 1 else 0
  {
    if !input.Good() then Harvest([], input)
    else
      var s := GetDatum(env, input);
      var h := Scrape(env, s.input);
      Harvest(Found(s.outcome) + h.pushed, h.input)
  }
}
