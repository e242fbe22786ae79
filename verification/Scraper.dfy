/** The scraper as it works: a character stream read line by line into a fixed buffer, the items of a
    line extracted one after the other, and the loop that pushes what it finds. */
module Scraper {
  import opened Wrappers
  import opened Text
  import opened Numbers
  import opened Doubles
  import opened Records
  import opened Scraping
  import opened ScrapingLaws
  import SafeQueue

  /** The text stream that the program reads from. */
  class InputStream {
    var rest: Bytes
    var eof: bool
    var fail: bool

    constructor (text: Bytes)
      ensures View() == FreshInput(text)
    {
      rest, eof, fail := text, false, false;
    }

    function View(): Input
      reads this
    {
      Input(rest, eof, fail)
    }

    /** `getline`: stores characters, then a NUL, in the buffer. */
    method GetLineInto(buffer: array<Byte>)
      requires buffer.Length == BUFFER_SIZE
      modifies this, buffer
      ensures var l := GetLine(old(View()));
              View() == l.input && BufferHolds(buffer, l.text)
    {
      if eof || fail {
        fail := true;
        buffer[0] := '\0';
        return;
      }
      var n := 0;
      while n < BUFFER_SIZE - 1 && n < |rest| && rest[n] != '\n'
        invariant n <= BUFFER_SIZE - 1 && n <= |rest|
        invariant buffer[..n] == rest[..n]
        invariant n <= LineEnd(rest) == n + LineEnd(rest[n..])
        invariant View() == old(View())
      {
        buffer[n] := rest[n];
        assert rest[n..][1..] == rest[n + 1..];
        n := n + 1;
      }
      buffer[n] := '\0';
      if n == |rest| {
        eof, fail, rest := true, n == 0, [];
      } else if rest[n] == '\n' {
        rest := rest[n + 1..];
      } else {
        fail, rest := true, rest[n..];
      }
    }
  }

  /** The buffer holds a line and the NUL after it. */
  ghost predicate BufferHolds(buffer: array<Byte>, line: Bytes)
    reads buffer
  {
    |line| < buffer.Length && buffer[..|line|] == line && buffer[|line|] == '\0'
  }

  lemma {:induction false} CStringOfBuffer(buffer: Bytes, line: Bytes)
    requires |line| < |buffer| && buffer[..|line|] == line && buffer[|line|] == '\0'
    ensures CString(buffer) == CString(line)
    decreases |line|
  {
    if line != [] && line[0] != '\0' {
      assert buffer[0] == line[0];
      assert buffer[1..][..|line| - 1] == line[1..];
      CStringOfBuffer(buffer[1..], line[1..]);
    }
  }

  /** The string stream over one line. */
  class ItemStream {
    var rest: Bytes
    var eof: bool
    var fail: bool

    constructor (line: Bytes)
      ensures rest == line && !eof && !fail
    {
      rest, eof, fail := line, false, false;
    }

    /** Skips blanks; finding nothing else sets eof and fail. */
    method Skip()
      requires !eof && !fail
      modifies this
      ensures rest == SkipSpace(old(rest))
      ensures eof == fail == (rest == [])
    {
      while rest != [] && IsSpace(rest[0])
        invariant SkipSpace(rest) == SkipSpace(old(rest)) && !eof && !fail
        decreases |rest|
      {
        rest := rest[1..];
      }
      if rest == [] {
        eof, fail := true, true;
      }
    }

    /** Accumulates the characters of a numeric field; reaching the end of the line sets eof. */
    method Field(floating: bool) returns (field: Field)
      requires !eof && !fail
      modifies this
      ensures var a := Accumulate(EMPTY_FIELD, SkipSpace(old(rest)), floating);
              field == a.field && rest == a.rest && eof == (rest == [])
      ensures fail ==> !Complete(field)
    {
      field := EMPTY_FIELD;
      Skip();
      if fail {
        return;
      }
      ghost var start := rest;
      while rest != [] && Allowed(field, rest[0], floating)
        invariant Accumulate(field, rest, floating) == Accumulate(EMPTY_FIELD, start, floating)
        invariant !fail
        decreases |rest|
      {
        field, rest := Extend(field, rest[0], floating), rest[1..];
      }
      eof := rest == [];
    }

    /** `get_item` on an int32, a double and a char. An item is left as it was when the stream is at
        eof without a failure; `ok` is false when bad data is thrown. */
    method GetInt(was: Int32) returns (ok: bool, item: Int32)
      requires !fail
      modifies this
      ensures var i := IntItem(old(rest));
              if old(eof) then ok && item == was && eof && rest == old(rest)
              else ok == i.value.Some? && (ok ==> item == i.value.value && rest == i.rest && eof == (rest == []))
      ensures ok ==> !fail
    {
      ok, item := true, was;
      if !eof {
        var field := Field(false);
        var v := IntValue(field);
        if v.None? {
          fail, ok := true, false;
        } else {
          item := v.value;
        }
      }
    }

    method GetDouble(was: Double) returns (ok: bool, item: Double)
      requires !fail
      modifies this
      ensures var i := DoubleItem(old(rest));
              if old(eof) then ok && item == was && eof && rest == old(rest)
              else ok == i.value.Some? && (ok ==> item == i.value.value && rest == i.rest && eof == (rest == []))
      ensures ok ==> !fail
    {
      ok, item := true, was;
      if !eof {
        var field := Field(true);
        var v := DoubleValue(field);
        if v.None? {
          fail, ok := true, false;
        } else {
          item := v.value;
        }
      }
    }

    method GetChar(was: Byte) returns (ok: bool, item: Byte)
      requires !fail
      modifies this
      ensures var i := CharItem(old(rest));
              if old(eof) then ok && item == was && eof && rest == old(rest)
              else ok == i.value.Some? && (ok ==> item == i.value.value && rest == i.rest && !eof)
      ensures ok ==> !fail
    {
      ok, item := true, was;
      if !eof {
        Skip();
        if fail {
          ok := false;
        } else {
          item, rest := rest[0], rest[1..];
        }
      }
    }
  }

  /** The scraper of the calculator. */
  class DataScraper {
    const env: Environment
    const input: InputStream
    const queue: SafeQueue.Queue<ClientData>

    constructor (env: Environment, input: InputStream, queue: SafeQueue.Queue<ClientData>)
      ensures this.env == env && this.input == input && this.queue == queue
    {
      this.env, this.input, this.queue := env, input, queue;
    }

    /** Everything `get_datum` does with a line: none stands for the bad-data exception. */
    method ParseItems(line: Bytes, g: Garbage) returns (d: Option<ClientData>)
      ensures d == ParseLine(env, line, g)
    {
      var items := new ItemStream(line);
      var ok, id := items.GetInt(0);
      if !ok {
        return None;
      }
      var x, op, y;
      ok, x := items.GetDouble(g.operand1);
      if !ok {
        return None;
      }
      ok, op := items.GetChar(g.operation);
      if !ok {
        return None;
      }
      var operation;
      match op {
        case '+' => operation := ADD;
        case '-' => operation := SUBTRACT;
        case '*' => operation := MULTIPLY;
        case '/' => operation := DIVIDE;
        case _ => return None;
      }
      ok, y := items.GetDouble(g.operand2);
      if !ok {
        return None;
      }
      d := Some(ClientData(env.clientId, id, x, operation, y, g.padding));
    }

    /** `get_datum` */
    method ReadDatum() returns (outcome: Outcome)
      modifies input
      ensures Scraped(outcome, input.View()) == GetDatum(env, old(input.View()))
    {
      var buffer := new Byte[BUFFER_SIZE](_ => '\0');
      ghost var line: Bytes := [];
      while !input.fail && !input.eof && buffer[0] == '\0'
        invariant fresh(buffer) && BufferHolds(buffer, line)
        invariant buffer[0] == '\0' ==> NextLine(input.View()) == NextLine(old(input.View()))
        invariant buffer[0] != '\0' ==> NextLine(old(input.View())) == Line(CString(line), input.View())
        decreases |input.rest|, input.View().Good()
      {
        ghost var before := input.View();
        input.GetLineInto(buffer);
        line := GetLine(before).text;
        assert buffer[0] == '\0' <==> CString(line) == [];
      }
      if buffer[0] == '\0' {
        return OutOfData;
      }
      var text := CString(buffer[..]);
      CStringOfBuffer(buffer[..], line);
      var d := ParseItems(text, env.memory(|input.rest|));
      outcome := if d.None? then BadData else Datum(d.value);
    }

    /** One round of the loop in `start`. */
    method ScrapeOnce() returns (ghost outcome: Outcome)
      modifies input, queue
      ensures Scraped(outcome, input.View()) == GetDatum(env, old(input.View()))
      ensures queue.contents == old(queue.contents) + Found(outcome)
    {
      var found := ReadDatum();
      if found.Datum? {
        queue.Push(found.data);
      }
      outcome := found;
    }

    /** `start`, for as many rounds as the thread gets: it ends only when the stream has failed. */
    method Start(rounds: nat) returns (ended: bool)
      modifies input, queue
      ensures var h := Rounds(env, old(input.View()), rounds);
              && queue.contents == old(queue.contents) + h.pushed && input.View() == h.input
              && ended == h.input.fail
    {
      ghost var all := Rounds(env, input.View(), rounds);
      ghost var start := queue.contents;
      var n := rounds;
      while !input.fail && n > 0
        invariant queue.contents + Rounds(env, input.View(), n).pushed == start + all.pushed
        invariant Rounds(env, input.View(), n).input == all.input
        decreases n
      {
        ghost var before, contents := input.View(), queue.contents;
        ghost var outcome := ScrapeOnce();
        n := n - 1;
        Associative(contents, Found(outcome), Rounds(env, input.View(), n).pushed);
      }
      ended := input.fail;
    }
  }
}
