/** Scraping undoes printing: the text printed for a list of records is scraped back to the records
    with a valid operation, in order, up to what printing does to their operands. */
module RoundTrip {
  import opened Wrappers
  import opened Text
  import opened Rounding
  import opened Numbers
  import opened Doubles
  import opened Characters
  import opened Records
  import opened Scraping
  import opened ScrapingLaws

  function NoPadding(): Padding {
    seq(PADDING_SIZE, _ => ' ')
  }

  /** The part of a record that comes from text. */
  function Core(d: ClientData): ClientData {
    d.(padding := NoPadding())
  }

  function Cores(ds: seq<ClientData>): (cs: seq<ClientData>)
    ensures |cs| == |ds| && forall i :: 0 <= i < |ds| ==> cs[i] == Core(ds[i])
  {
    if ds == [] then [] else [Core(ds[0])] + Cores(ds[1..])
  }

  /** What is scraped for one printed record. */
  function Survivor(env: Environment, d: ClientData): seq<ClientData> {
    var x, y := Reread(d.operand1), Reread(d.operand2);
    if d.operation == NOP || x.None? || y.None? then []
    else [ClientData(env.clientId, d.id, x.value, d.operation, y.value, NoPadding())]
  }

  function Survivors(env: Environment, ds: seq<ClientData>): seq<ClientData> {
    if ds == [] then [] else Survivor(env, ds[0]) + Survivors(env, ds[1..])
  }

  /* One line */

  lemma {:induction false} NumericCharacters(f: Field, t: Bytes, floating: bool)
    requires Accumulate(f, t, floating).rest == []
    ensures forall i :: 0 <= i < |t| ==> t[i] != '\n' && t[i] != '\0' && !IsSpace(t[i])
    decreases |t|
  {
    if t != [] {
      NumericCharacters(Extend(f, t[0], floating), t[1..], floating);
      assert forall i :: 1 <= i < |t| ==> t[i] == t[1..][i - 1];
    }
  }

  function AfterBlank(s: Bytes): (t: Bytes)
    ensures t != [] && t[0] == ' ' && t[1..] == s
  {
    " " + s
  }

  /** A blank before an item is skipped, and nothing else. */
  lemma BlankIsSkipped(s: Bytes)
    requires s != [] && !IsSpace(s[0])
    ensures SkipSpace(AfterBlank(s)) == s == SkipSpace(s)
  {
  }

  /** A numeric text is accumulated whole. */
  lemma NumericItem(t: Bytes, rest: Bytes, floating: bool)
    requires IsNumericText(t, floating)
    requires rest == [] || IsSpace(rest[0])
    ensures t + rest != [] && !IsSpace((t + rest)[0])
    ensures Accumulate(EMPTY_FIELD, t + rest, floating) == Accumulated(Accumulate(EMPTY_FIELD, t, floating).field, rest)
  {
    NumericCharacters(EMPTY_FIELD, t, floating);
    assert (t + rest)[0] == t[0];
    FieldEndsAtBlank(EMPTY_FIELD, t, rest, floating);
  }

  function AfterOperand1(operation: Operation, y: Bytes): Bytes {
    AfterBlank(OperationText(operation) + AfterBlank(y))
  }

  lemma PrintedId(id: Int32, rest: Bytes)
    requires rest != [] && IsSpace(rest[0])
    ensures IntItem(PrintInt(id) + rest) == Item(Some(id), rest)
  {
    PrintedIntField(id, false);
    NumericItem(PrintInt(id), rest, false);
    BlankIsSkipped(PrintInt(id) + rest);
  }

  /** An operand is read back from its text, and nothing after it; one that is not finite is refused. */
  lemma PrintedOperand(x: Double, text: Bytes, rest: Bytes)
    requires text == PrintDouble(x) && (rest == [] || IsSpace(rest[0]))
    ensures var i := DoubleItem(AfterBlank(text + rest));
            i.value == Reread(x) && (x.Finite? ==> i.rest == rest)
  {
    if x.Finite? {
      PrintedDoubleField(x);
      NumericItem(text, rest, true);
    } else {
      PrintedWord(x, rest);
      PrintedWord(x, []);
      assert text + [] == text;
      assert !IsSpace((text + rest)[0]);
    }
    BlankIsSkipped(text + rest);
  }

  lemma PrintedOperation(operation: Operation, y: Bytes)
    ensures var op := CharItem(AfterOperand1(operation, y));
            && op.value == Some(OperationText(operation)[0])
            && (operation != NOP ==> op.rest == AfterBlank(y))
    ensures Operator(OperationText(operation)[0]) == if operation == NOP then None else Some(operation)
  {
    var rest := OperationText(operation) + AfterBlank(y);
    BlankIsSkipped(rest);
    assert operation != NOP ==> rest[1..] == AfterBlank(y);
  }

  /** A line of which the operands are read as `first` and `second`. */
  lemma LineParses(env: Environment, id: Int32, x: Bytes, operation: Operation, y: Bytes,
                   first: Option<Double>, second: Option<Double>, g: Garbage)
    requires var i := DoubleItem(AfterBlank(x + AfterOperand1(operation, y)));
             i.value == first && (first.Some? ==> i.rest == AfterOperand1(operation, y))
    requires DoubleItem(AfterBlank(y)).value == second
    ensures ParseLine(env, PrintInt(id) + " " + x + " " + OperationText(operation) + " " + y, g)
         == if operation == NOP || first.None? || second.None? then None
            else Some(ClientData(env.clientId, id, first.value, operation, second.value, g.padding))
  {
    var rest := AfterBlank(x + AfterOperand1(operation, y));
    PrintedId(id, rest);
    LineShape(PrintInt(id), x, OperationText(operation), y);
    ItemsParse(env, PrintInt(id) + rest, id, rest, operation, y, first, second, g);
  }

  lemma LineShape(id: Bytes, x: Bytes, operation: Bytes, y: Bytes)
    ensures id + " " + x + " " + operation + " " + y
         == id + AfterBlank(x + AfterBlank(operation + AfterBlank(y)))
  {
  }

  /** The same once the id has been read. */
  lemma ItemsParse(env: Environment, line: Bytes, id: Int32, rest: Bytes, operation: Operation, y: Bytes,
                   first: Option<Double>, second: Option<Double>, g: Garbage)
    requires IntItem(line) == Item(Some(id), rest) && rest != []
    requires DoubleItem(rest).value == first && (first.Some? ==> DoubleItem(rest).rest == AfterOperand1(operation, y))
    requires DoubleItem(AfterBlank(y)).value == second
    ensures ParseLine(env, line, g)
         == if operation == NOP || first.None? || second.None? then None
            else Some(ClientData(env.clientId, id, first.value, operation, second.value, g.padding))
  {
    PrintedOperation(operation, y);
  }

  lemma PrintedOperands(x: Double, y: Double, operation: Operation, first: Bytes, second: Bytes)
    requires first == PrintDouble(x) && second == PrintDouble(y)
    ensures var i := DoubleItem(AfterBlank(first + AfterOperand1(operation, second)));
            i.value == Reread(x) && (Reread(x).Some? ==> i.rest == AfterOperand1(operation, second))
    ensures DoubleItem(AfterBlank(second)).value == Reread(y)
  {
    PrintedOperand(x, first, AfterOperand1(operation, second));
    PrintedOperand(y, second, []);
    assert second + [] == second;
    RereadIsFinite(x);
  }

  /** A printed line parses to its record, or not at all when the operation is NOP or an operand
      cannot be converted. */
  lemma PrintedLineParses(env: Environment, d: ClientData, g: Garbage)
    ensures ParseLine(env, PrintLine(d), g)
         == if Survivor(env, d) == [] then None
            else Some(Survivor(env, d)[0].(padding := g.padding))
  {
    var x, y := PrintDouble(d.operand1), PrintDouble(d.operand2);
    PrintedOperands(d.operand1, d.operand2, d.operation, x, y);
    LineParses(env, d.id, x, d.operation, y, Reread(d.operand1), Reread(d.operand2), g);
  }

  lemma RereadIsFinite(x: Double)
    ensures Reread(x).Some? ==> x.Finite?
  {
    if !x.Finite? {
      PrintedWord(x, []);
      assert PrintDouble(x) + [] == PrintDouble(x);
    }
  }

  /* Lines in a text */

  lemma {:induction false} CStringWhole(line: Bytes)
    requires forall i :: 0 <= i < |line| ==> line[i] != '\0'
    ensures CString(line) == line
    decreases |line|
  {
    if line != [] {
      CStringWhole(line[1..]);
    }
  }

  ghost predicate Plain(s: Bytes) {
    forall i :: 0 <= i < |s| ==> s[i] != '\n' && s[i] != '\0'
  }

  lemma PlainField(t: Bytes, floating: bool)
    requires IsNumericText(t, floating)
    ensures Plain(t)
  {
    NumericCharacters(EMPTY_FIELD, t, floating);
  }

  lemma PlainId(id: Int32)
    ensures Plain(PrintInt(id)) && 0 < |PrintInt(id)| <= 11
  {
    PrintedIntField(id, false);
    PlainField(PrintInt(id), false);
    Int32Length(id);
  }

  lemma PlainDouble(x: Double)
    ensures Plain(PrintDouble(x)) && 0 < |PrintDouble(x)| <= LONGEST + 1
  {
    PrintedLength(x);
    if x.Finite? {
      PrintedDoubleField(x);
      PlainField(PrintDouble(x), true);
    }
  }

  lemma PlainOperation(operation: Operation)
    ensures Plain(OperationText(operation)) && |OperationText(operation)| <= 3
  {
  }

  lemma PlainLine(id: Bytes, x: Bytes, op: Bytes, y: Bytes)
    requires Plain(id) && Plain(x) && Plain(op) && Plain(y)
    ensures Plain(id + " " + x + " " + op + " " + y)
    ensures |id + " " + x + " " + op + " " + y| == |id| + |x| + |op| + |y| + 3
  {
  }

  /** A printed line is short and free of newlines and NULs. */
  lemma PrintedLineIsPlain(d: ClientData)
    ensures 0 < |PrintLine(d)| < BUFFER_SIZE && Plain(PrintLine(d))
  {
    var id, x, op, y := PrintInt(d.id), PrintDouble(d.operand1), OperationText(d.operation), PrintDouble(d.operand2);
    assert Plain(id) && |id| <= 11 by { PlainId(d.id); }
    assert Plain(x) && |x| <= 33 by { PlainDouble(d.operand1); }
    assert Plain(op) && |op| <= 3 by { PlainOperation(d.operation); }
    assert Plain(y) && |y| <= 33 by { PlainDouble(d.operand2); }
    PlainLine(id, x, op, y);
  }

  lemma NumericIsWord(t: Bytes, floating: bool)
    requires IsNumericText(t, floating)
    ensures IsWord(t)
  {
    NumericCharacters(EMPTY_FIELD, t, floating);
  }

  lemma DoubleIsWord(x: Double)
    ensures IsWord(PrintDouble(x))
  {
    if x.Finite? {
      PrintedDoubleField(x);
      NumericIsWord(PrintDouble(x), true);
    } else {
      PrintedWords(x);
    }
  }

  lemma OperationIsWord(operation: Operation)
    ensures IsWord(OperationText(operation))
  {
  }

  /** The words of a printed line: the id, the first operand, the operation and the second operand. */
  lemma PrintedLineWords(d: ClientData)
    ensures Split(PrintLine(d))
         == [PrintInt(d.id), PrintDouble(d.operand1), OperationText(d.operation), PrintDouble(d.operand2)]
  {
    PrintedIntField(d.id, false);
    NumericIsWord(PrintInt(d.id), false);
    DoubleIsWord(d.operand1);
    OperationIsWord(d.operation);
    DoubleIsWord(d.operand2);
    FourWords(PrintInt(d.id), PrintDouble(d.operand1), OperationText(d.operation), PrintDouble(d.operand2));
  }

  lemma PrintedRecordLines(d: ClientData, more: Bytes)
    ensures GetLine(FreshInput(PrintRecord(d) + more))
         == Line(PrintLine(d), FreshInput("\n" + more))
    ensures GetLine(FreshInput("\n" + more)) == Line([], FreshInput(more))
  {
    var line := PrintLine(d);
    PrintedLineIsPlain(d);
    assert PrintRecord(d) + more == line + "\n" + ("\n" + more);
    GetLineTakes(line, "\n" + more);
    assert [] + "\n" + more == "\n" + more;
    GetLineTakes([], more);
  }

  /* The whole text */

  lemma PrintedRecordContributes(env: Environment, d: ClientData, g: Garbage)
    ensures Cores(FromLine(env, g, PrintLine(d))) == Survivor(env, d)
  {
    PrintedLineIsPlain(d);
    CStringWhole(PrintLine(d));
    PrintedLineParses(env, d, g);
  }

  lemma CoresAppend(a: seq<ClientData>, b: seq<ClientData>)
    ensures Cores(a + b) == Cores(a) + Cores(b)
  {
  }

  /** The first record of a printed text takes two lines. */
  lemma PrintedHead(env: Environment, d: ClientData, more: Bytes)
    ensures Cores(LineByLine(Contribute(env), PrintRecord(d) + more))
         == Survivor(env, d) + Cores(LineByLine(Contribute(env), more))
  {
    var c := Contribute(env);
    var line, blank := PrintLine(d), "\n" + more;
    PrintedRecordLines(d, more);
    LineByLineHead(c, PrintRecord(d) + more, line, blank);
    LineByLineHead(c, blank, [], more);
    assert c([], |more|) == FromLine(env, env.memory(|more|), []) == [];
    assert [] + LineByLine(c, more) == LineByLine(c, more);
    assert c(line, |blank|) == FromLine(env, env.memory(|blank|), line);
    PrintedRecordContributes(env, d, env.memory(|blank|));
    CoresAppend(c(line, |blank|), LineByLine(c, more));
  }

  lemma {:induction false} PrintedTextLineByLine(env: Environment, ds: seq<ClientData>)
    ensures Cores(LineByLine(Contribute(env), PrintAll(ds))) == Survivors(env, ds)
    decreases |ds|
  {
    if ds == [] {
      assert LineByLine(Contribute(env), []) == FromLine(env, env.memory(0), []);
    } else {
      PrintedHead(env, ds[0], PrintAll(ds[1..]));
      PrintedTextLineByLine(env, ds[1..]);
    }
  }

  lemma {:induction false} PrintedTextIsUsedUp(ds: seq<ClientData>)
    ensures LastInput(PrintAll(ds)) == Input([], true, true)
    decreases |ds|
  {
    if ds != [] {
      PrintedRecordLines(ds[0], PrintAll(ds[1..]));
      PrintedTextIsUsedUp(ds[1..]);
    }
  }

  /** Scraping the printed text of any records runs to its end and pushes, in order, exactly the records
      with a valid operation and readable operands: id and operation unchanged, the client id stamped in,
      each operand as it reads back. */
  lemma PrintedTextIsScrapedBack(env: Environment, ds: seq<ClientData>)
    ensures var h := Scrape(env, FreshInput(PrintAll(ds)));
            Cores(h.pushed) == Survivors(env, ds) && h.input == Input([], true, true)
  {
    ScrapeIsLineByLine(env, PrintAll(ds));
    PrintedTextLineByLine(env, ds);
    PrintedTextIsUsedUp(ds);
  }

  /** The records with a valid operation, as they would come back if printing lost nothing. */
  function Kept(clientId: Bytes, ds: seq<ClientData>): seq<ClientData> {
    if ds == [] then []
    else (if ds[0].operation == NOP then [] else [Core(ds[0]).(clientId := clientId)]) + Kept(clientId, ds[1..])
  }

  /** The operands, unless the operation is NOP, are the nearest doubles to numbers of at most fifteen
      decimal digits. */
  ghost predicate Intact(d: ClientData) {
    d.operation != NOP ==> FewDigits(d.operand1) && FewDigits(d.operand2)
  }

  ghost predicate AllIntact(ds: seq<ClientData>) {
    forall i :: 0 <= i < |ds| ==> Intact(ds[i])
  }

  lemma AllIntactHead(ds: seq<ClientData>)
    requires ds != []
    ensures AllIntact(ds) <==> Intact(ds[0]) && AllIntact(ds[1..])
  {
    assert forall i :: 1 <= i < |ds| ==> ds[i] == ds[1..][i - 1];
  }

  lemma {:induction false} SurvivorsExactly(env: Environment, ds: seq<ClientData>)
    ensures |Survivors(env, ds)| <= |Kept(env.clientId, ds)|
    ensures Survivors(env, ds) == Kept(env.clientId, ds) <==> AllIntact(ds)
    decreases |ds|
  {
    if ds != [] {
      var s, k := Survivors(env, ds[1..]), Kept(env.clientId, ds[1..]);
      var head := Core(ds[0]).(clientId := env.clientId);
      SurvivorsExactly(env, ds[1..]);
      AllIntactHead(ds);
      SurvivesExactly(ds[0].operand1);
      SurvivesExactly(ds[0].operand2);
      if ds[0].operation == NOP {
        assert [] + s == s && [] + k == k;
      } else if Survivor(env, ds[0]) == [] {
        assert |Survivors(env, ds)| < |Kept(env.clientId, ds)|;
      } else {
        var back := Survivor(env, ds[0])[0];
        assert [back] + s == [head] + k <==> back == head && s == k by {
          assert ([back] + s)[1..] == s && ([head] + k)[1..] == k;
          assert ([back] + s)[0] == back && ([head] + k)[0] == head;
        }
      }
    }
  }

  /** The round trip keeps every valid record unchanged exactly when each of their operands is the
      nearest double to some number of at most fifteen decimal digits. */
  lemma RoundTripExactly(env: Environment, ds: seq<ClientData>)
    ensures Cores(Scrape(env, FreshInput(PrintAll(ds))).pushed) == Kept(env.clientId, ds) <==> AllIntact(ds)
  {
    PrintedTextIsScrapedBack(env, ds);
    SurvivorsExactly(env, ds);
  }

  /** An integer of at most fifteen digits, of either sign, zeros included. */
  predicate IsSmallInteger(x: Double) {
    x.Finite? && Magnitude(x).Floor as real == Magnitude(x) && Magnitude(x) < DECIMALS as real
  }

  /** Records with integer operands below 10^15 in magnitude come back unchanged. */
  lemma IntegerRoundTrip(env: Environment, ds: seq<ClientData>)
    requires forall i :: 0 <= i < |ds| ==> IsSmallInteger(ds[i].operand1) && IsSmallInteger(ds[i].operand2)
    ensures Cores(Scrape(env, FreshInput(PrintAll(ds))).pushed) == Kept(env.clientId, ds)
  {
    forall i | 0 <= i < |ds| ensures Intact(ds[i]) {
      SmallIntegersSurvive(ds[i].operand1, Magnitude(ds[i].operand1).Floor);
      SmallIntegersSurvive(ds[i].operand2, Magnitude(ds[i].operand2).Floor);
    }
    RoundTripExactly(env, ds);
  }

  /** A record that does not come back: its first operand has sixteen digits, and loses the last. */
  lemma SixteenDigitsDoNotComeBack(env: Environment, d: ClientData)
    requires d.operation != NOP && d.operand1 == SIXTEEN_DIGITS && FewDigits(d.operand2)
    ensures var back := Core(d).(clientId := env.clientId, operand1 := Finite(false, 9_007_199_254_740_990, 0));
            Cores(Scrape(env, FreshInput(PrintAll([d]))).pushed) == [back]
  {
    PrintedTextIsScrapedBack(env, [d]);
    SixteenDigitsAreLost();
    SurvivesExactly(d.operand2);
    assert [d][1..] == [] && Survivors(env, []) == [];
    assert Survivor(env, d) + [] == Survivor(env, d);
  }

  /** A text on which the scraping loop goes round for ever: a printed line without its newline. */
  lemma UnterminatedLineSpins(env: Environment, d: ClientData, n: nat)
    ensures !Rounds(env, FreshInput(PrintLine(d)), n).input.fail
  {
    var line := PrintLine(d);
    PrintedLineIsPlain(d);
    LineEndIs(line, |line|);
    LoopEndsExactly(env, line);
  }
}
