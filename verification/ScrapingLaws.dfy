/** What the scraping loop does on any text, line by line; when it ends; and that it undoes the
    printer. */
module ScrapingLaws {
  import opened Wrappers
  import opened Text
  import opened Records
  import opened Scraping

  /** `getline` on any text, told by where its first line ends: within the buffer and with a newline;
      within the buffer and without one; or beyond the buffer. */
  lemma GetLineTakes(line: Bytes, more: Bytes)
    requires forall i :: 0 <= i < |line| ==> line[i] != '\n'
    ensures |line| < BUFFER_SIZE ==>
              && GetLine(FreshInput(line + "\n" + more)) == Line(line, FreshInput(more))
              && GetLine(FreshInput(line)) == Line(line, Input([], true, line == []))
    ensures |line| >= BUFFER_SIZE ==>
              GetLine(FreshInput(line + more)) == Line(line[..999], Input((line + more)[999..], false, true))
  {
    var text := line + "\n" + more;
    LineEndIs(text, |line|);
    LineEndIs(line, |line|);
    assert text[..|line|] == line && text[|line| + 1..] == more;
    if |line| >= BUFFER_SIZE {
      LineEndBeyond(line + more, |line|);
      assert (line + more)[..999] == line[..999];
    }
  }

  /** The buffer as a C string: what is before the first NUL, or all of it. */
  lemma {:induction false} CStringIsPrefix(s: Bytes)
    ensures CString(s) <= s
    ensures CString(s) == s || s[|CString(s)|] == '\0'
  {
    if s != [] && s[0] != '\0' {
      CStringIsPrefix(s[1..]);
    }
  }

  lemma {:induction false} LineEndIs(s: Bytes, j: nat)
    requires j <= |s| && (forall i :: 0 <= i < j ==> s[i] != '\n') && (j < |s| ==> s[j] == '\n')
    ensures LineEnd(s) == j
    decreases j
  {
    if j > 0 {
      assert forall i :: 0 <= i < j - 1 ==> s[1..][i] == s[i + 1];
      LineEndIs(s[1..], j - 1);
    }
  }

  lemma LineEndBeyond(s: Bytes, j: nat)
    requires j <= |s| && forall i :: 0 <= i < j ==> s[i] != '\n'
    ensures LineEnd(s) >= j
  {
    LineEndIsFirst(s);
  }

  /** What a line on its own contributes. */
  function FromLine(env: Environment, g: Garbage, line: Bytes): seq<ClientData> {
    if CString(line) == [] then []
    else match ParseLine(env, CString(line), g)
      case None => []
      case Some(d) => [d]
  }

  /** A contribution for every line, given the amount of text after it. */
  type Contribution<T> = (Bytes, nat) -> seq<T>

  function Contribute(env: Environment): Contribution<ClientData> {
    (line: Bytes, after: nat) => FromLine(env, env.memory(after), line)
  }

  /** The reference: each line contributes on its own, up to and including the first 999 characters
      of the first line that is too long. */
  function LineByLine<T>(c: Contribution<T>, text: Bytes): seq<T>
    decreases |text|
  {
    var l := GetLine(FreshInput(text));
    c(l.text, |l.input.rest|) + if l.input.Good() then LineByLine(c, l.input.rest) else []
  }

  /** The stream after the last line read. */
  function LastInput(text: Bytes): Input
    decreases |text|
  {
    var l := GetLine(FreshInput(text));
    if l.input.Good() then LastInput(l.input.rest) else l.input
  }

  /** Every line fits the buffer. */
  predicate ShortLines(text: Bytes)
    decreases |text|
  {
    var j := LineEnd(text);
    j < BUFFER_SIZE && (j < |text| ==> ShortLines(text[j + 1..]))
  }

  predicate EndsLine(text: Bytes) {
    text == [] || text[|text| - 1] == '\n'
  }

  /** Newline-terminated, or empty, with lines that fit. */
  predicate CompleteText(text: Bytes) {
    ShortLines(text) && EndsLine(text)
  }

  /* The loop against the reference */

  /** The loop takes one line, then goes on with the rest. */
  lemma ScrapeOneLine(env: Environment, text: Bytes)
    ensures var l := GetLine(FreshInput(text));
            var h := Scrape(env, l.input);
            Scrape(env, FreshInput(text))
            == Harvest(FromLine(env, env.memory(|l.input.rest|), l.text) + h.pushed, h.input)
  {
    var input := FreshInput(text);
    var l := GetLine(input);
    if CString(l.text) == [] {
      assert GetDatum(env, input) == GetDatum(env, l.input);
    }
  }

  /** The loop pushes what the lines contribute one by one, and skips nothing else. */
  lemma {:induction false} ScrapeIsLineByLine(env: Environment, text: Bytes)
    ensures Scrape(env, FreshInput(text)) == Harvest(LineByLine(Contribute(env), text), LastInput(text))
    decreases |text|
  {
    var l := GetLine(FreshInput(text));
    ScrapeOneLine(env, text);
    if l.input.Good() {
      assert l.input == FreshInput(l.input.rest);
      ScrapeIsLineByLine(env, l.input.rest);
    }
  }

  /** The loop runs to its end exactly on newline-terminated text with lines of at most 999
      characters (or no text at all); it spins at an unterminated last line; and a line that is too
      long stops it. */
  lemma ScrapingEndsExactly(env: Environment, text: Bytes)
    ensures var last := Scrape(env, FreshInput(text)).input;
            && (last == Input([], true, true) <==> CompleteText(text))
            && (last == Input([], true, false) <==> ShortLines(text) && !EndsLine(text))
            && (last.fail && !last.eof <==> !ShortLines(text))
  {
    ScrapeIsLineByLine(env, text);
    Fate(text);
  }

  lemma {:induction false} Fate(text: Bytes)
    ensures var last := LastInput(text);
            && (last == Input([], true, true) <==> CompleteText(text))
            && (last == Input([], true, false) <==> ShortLines(text) && !EndsLine(text))
            && (last.fail && !last.eof <==> !ShortLines(text))
    decreases |text|
  {
    var j := LineEnd(text);
    if j < BUFFER_SIZE && j < |text| {
      Fate(text[j + 1..]);
      SameEnd(text, j);
    } else if j < BUFFER_SIZE {
      UnterminatedLine(text);
    }
  }

  lemma SameEnd(text: Bytes, j: nat)
    requires j == LineEnd(text) < |text|
    ensures EndsLine(text) <==> EndsLine(text[j + 1..])
  {
    LineEndIsFirst(text);
    if j + 1 < |text| {
      assert text[j + 1..][|text| - j - 2] == text[|text| - 1];
    }
  }

  lemma UnterminatedLine(text: Bytes)
    requires LineEnd(text) == |text|
    ensures EndsLine(text) <==> text == []
  {
    LineEndIsFirst(text);
  }

  /** At most `n` rounds of the loop, which goes on as long as the stream has not failed. */
  function Rounds(env: Environment, input: Input, n: nat): (h: Harvest)
    decreases n
  {
    if n == 0 || input.fail then Harvest([], input)
    else
      var s := GetDatum(env, input);
      var h := Rounds(env, s.input, n - 1);
      Harvest(Found(s.outcome) + h.pushed, h.input)
  }

  lemma OneRound(env: Environment, input: Input, n: nat)
    requires n > 0 && input.Good()
    ensures var s := GetDatum(env, input);
            && Rounds(env, input, n)
            == Harvest(Found(s.outcome) + Rounds(env, s.input, n - 1).pushed, Rounds(env, s.input, n - 1).input)
            && Scrape(env, input)
            == Harvest(Found(s.outcome) + Scrape(env, s.input).pushed, Scrape(env, s.input).input)
  {
  }

  lemma {:induction false} NoMoreRounds(env: Environment, input: Input, n: nat)
    requires !input.Good()
    ensures Rounds(env, input, n) == Scrape(env, input) == Harvest([], input)
    decreases n
  {
    if n > 0 && !input.fail {
      NoMoreRounds(env, input, n - 1);
    }
  }

  /** No more is pushed after the stream has stopped being good, and that takes fewer rounds than there
      is text. */
  lemma {:induction false} EnoughRounds(env: Environment, input: Input, n: nat)
    requires n >= if input.Good() then |input.rest| + 1 else 0
    ensures Rounds(env, input, n) == Scrape(env, input)
    decreases n
  {
    if input.Good() {
      OneRound(env, input, n);
      EnoughRounds(env, GetDatum(env, input).input, n - 1);
    } else {
      NoMoreRounds(env, input, n);
    }
  }

  lemma {:induction false} MoreRounds(env: Environment, input: Input, n: nat, m: nat)
    requires n <= m && Rounds(env, input, n).input.fail
    ensures Rounds(env, input, m) == Rounds(env, input, n)
    decreases n
  {
    if n > 0 && !input.fail {
      MoreRounds(env, GetDatum(env, input).input, n - 1, m - 1);
    }
  }

  /** The loop comes to an end exactly on text that is newline-terminated or empty, or has a line that is
      too long; on any other it goes round for ever. Either way it pushes what the lines contribute. */
  lemma LoopEndsExactly(env: Environment, text: Bytes)
    ensures (exists n: nat :: Rounds(env, FreshInput(text), n).input.fail) <==> EndsLine(text) || !ShortLines(text)
    ensures forall n: nat :: n > |text| ==> Rounds(env, FreshInput(text), n).pushed == LineByLine(Contribute(env), text)
  {
    var input := FreshInput(text);
    ScrapingEndsExactly(env, text);
    ScrapeIsLineByLine(env, text);
    forall n: nat | n > |text| ensures Rounds(env, input, n) == Scrape(env, input) {
      EnoughRounds(env, input, n);
    }
    if n: nat :| Rounds(env, input, n).input.fail {
      MoreRounds(env, input, n, n + |text| + 1);
    }
    assert Rounds(env, input, |text| + 1) == Scrape(env, input);
  }

  /** A text on which it stops early: after a line of a thousand characters nothing more is scraped,
      whatever follows. */
  lemma LongLineStops(env: Environment, more: Bytes)
    ensures var h := Scrape(env, FreshInput(LongLine() + ("\n" + more)));
            h.pushed == [] && h.input.fail && !h.input.eof
  {
    var text, first := LongLine() + ("\n" + more), LongLine()[..999];
    GetLineTakes(LongLine(), "\n" + more);
    var l := GetLine(FreshInput(text));
    ScrapeOneLine(env, text);
    assert CString(first) != [] && CString(first)[0] == 'x';
    assert IntItem(CString(first)).value == None;
  }

  function LongLine(): (s: Bytes)
    ensures |s| == BUFFER_SIZE && forall i :: 0 <= i < BUFFER_SIZE ==> s[i] == 'x'
  {
    seq(BUFFER_SIZE, _ => 'x')
  }

  /* Concatenation */

  lemma {:induction false} LineEndAppend(a: Bytes, b: Bytes)
    requires LineEnd(a) < |a|
    ensures LineEnd(a + b) == LineEnd(a)
    decreases |a|
  {
    if a[0] != '\n' {
      assert (a + b)[1..] == a[1..] + b;
      LineEndAppend(a[1..], b);
    }
  }

  lemma CompleteTextHasNewline(a: Bytes)
    requires EndsLine(a) && a != []
    ensures LineEnd(a) < |a|
    ensures EndsLine(a[LineEnd(a) + 1..])
  {
    var last := |a| - 1;
    LineEndIsFirst(a);
    assert a[last] == '\n' && !(last < LineEnd(a));
  }

  lemma CutBoth(a: Bytes, b: Bytes, j: nat)
    requires j < |a|
    ensures (a + b)[j + 1..] == a[j + 1..] + b && (a + b)[..j] == a[..j]
  {
  }

  /** Both texts start with the same line. */
  lemma FirstLineOfBoth(a: Bytes, b: Bytes)
    requires CompleteText(a) && a != []
    ensures var tail := GetLine(FreshInput(a)).input.rest;
            && |tail| < |a| && CompleteText(tail)
            && GetLine(FreshInput(a)).input == FreshInput(tail)
            && GetLine(FreshInput(a + b)) == Line(GetLine(FreshInput(a)).text, FreshInput(tail + b))
  {
    CompleteTextHasNewline(a);
    LineEndAppend(a, b);
    CutBoth(a, b, LineEnd(a));
  }

  /** `shifted` sees a line with `k` bytes after it as `c` sees it with `k + n`. */
  ghost predicate ShiftedAt<T>(c: Contribution<T>, shifted: Contribution<T>, n: nat, line: Bytes, k: nat) {
    shifted(line, k) == c(line, k + n) && (line == [] ==> shifted(line, k) == [])
  }

  lemma LineByLineHead<T>(c: Contribution<T>, text: Bytes, line: Bytes, tail: Bytes)
    requires GetLine(FreshInput(text)) == Line(line, FreshInput(tail))
    ensures LineByLine(c, text) == c(line, |tail|) + LineByLine(c, tail)
  {
  }

  lemma LineByLineNothing<T>(c: Contribution<T>, shifted: Contribution<T>, b: Bytes)
    requires ShiftedAt(c, shifted, |b|, [], 0)
    ensures LineByLine(shifted, []) == []
  {
  }

  lemma Chain<T>(whole: seq<T>, x: seq<T>, both: seq<T>, part: seq<T>, y: seq<T>, z: seq<T>)
    requires whole == x + both && both == y + z && part == x + y
    ensures whole == part + z
  {
  }

  lemma SameContribution<T>(c: Contribution<T>, shifted: Contribution<T>, n: nat, line: Bytes, k: nat, after: nat)
    requires ShiftedAt(c, shifted, n, line, k) && after == k + n
    ensures c(line, after) == shifted(line, k)
  {
  }

  lemma {:induction false} LineByLineAppend<T>(c: Contribution<T>, shifted: Contribution<T>, a: Bytes, b: Bytes)
    requires CompleteText(a)
    requires forall line: Bytes, k: nat :: ShiftedAt(c, shifted, |b|, line, k)
    ensures LineByLine(c, a + b) == LineByLine(shifted, a) + LineByLine(c, b)
    decreases |a|
  {
    if a == [] {
      assert a + b == b;
      LineByLineNothing(c, shifted, b);
    } else {
      var line, tail := GetLine(FreshInput(a)).text, GetLine(FreshInput(a)).input.rest;
      FirstLineOfBoth(a, b);
      LineByLineAppend(c, shifted, tail, b);
      LineByLineHead(c, a + b, line, tail + b);
      LineByLineHead(shifted, a, line, tail);
      SameContribution(c, shifted, |b|, line, |tail|, |tail + b|);
      Chain(LineByLine(c, a + b), shifted(line, |tail|), LineByLine(c, tail + b),
            LineByLine(shifted, a), LineByLine(shifted, tail), LineByLine(c, b));
    }
  }

  lemma {:induction false} LastInputAppend(a: Bytes, b: Bytes)
    requires CompleteText(a)
    ensures LastInput(a + b) == LastInput(b)
    decreases |a|
  {
    if a == [] {
      assert a + b == b;
    } else {
      FirstLineOfBoth(a, b);
      LastInputAppend(GetLine(FreshInput(a)).input.rest, b);
    }
  }

  /** The same environment for a text that is followed by `n` more bytes. */
  function Shifted(env: Environment, n: nat): Environment {
    env.(memory := (k: nat) => env.memory(k + n))
  }

  lemma ContributionShifted(env: Environment, n: nat, line: Bytes, k: nat)
    ensures ShiftedAt(Contribute(env), Contribute(Shifted(env, n)), n, line, k)
  {
    var g := env.memory(k + n);
    assert Shifted(env, n).memory(k) == g;
    assert ParseLine(Shifted(env, n), CString(line), g) == ParseLine(env, CString(line), g);
    assert FromLine(Shifted(env, n), g, line) == FromLine(env, g, line);
    assert Contribute(Shifted(env, n))(line, k) == FromLine(Shifted(env, n), Shifted(env, n).memory(k), line);
    assert Contribute(env)(line, k + n) == FromLine(env, env.memory(k + n), line);
  }

  /** Scraping one complete text after another finds the records of both, in order, and ends as the
      second one does. */
  lemma ScrapeConcatenation(env: Environment, a: Bytes, b: Bytes)
    requires CompleteText(a)
    ensures Scrape(env, FreshInput(a + b))
         == Harvest(Scrape(Shifted(env, |b|), FreshInput(a)).pushed + Scrape(env, FreshInput(b)).pushed,
                    Scrape(env, FreshInput(b)).input)
  {
    var c, shifted := Contribute(env), Contribute(Shifted(env, |b|));
    forall line: Bytes, k: nat ensures ShiftedAt(c, shifted, |b|, line, k) {
      ContributionShifted(env, |b|, line, k);
    }
    LineByLineAppend(c, shifted, a, b);
    LastInputAppend(a, b);
    ScrapeIsLineByLine(env, a + b);
    ScrapeIsLineByLine(Shifted(env, |b|), a);
    ScrapeIsLineByLine(env, b);
  }
}
