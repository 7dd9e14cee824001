/** Joining the lines of a log that make up one query (pt-secure-collect, sanitize.go,
    joinQueryLines). */
module JoinLines {
  /** The regular expressions of mightBeAQueryLine, and what counts as white space. */
  datatype Matcher = Matcher(mightBeAQueryLine: string -> bool, isSpace: char -> bool)

  predicate HasPrefix(s: string, prefix: string) { prefix <= s }

  function TrimRight(m: Matcher, s: string): string {
    if s == "" || !m.isSpace(s[|s| - 1]) then s else TrimRight(m, s[..|s| - 1])
  }

  /** The last character that is not white space is a semicolon: strings.TrimSpace, then
      strings.HasSuffix. */
  predicate EndsStatement(m: Matcher, s: string) {
    var trimmed := TrimRight(m, s);
    trimmed != "" && trimmed[|trimmed| - 1] == ';'
  }

  /** The state of the loop: what has been joined, and the query that is being read. */
  datatype State = State(joined: seq<string>, inQuery: bool, queryString: string, separator: string)

  const START := State([], false, "", "")

  function Step(m: Matcher, st: State, line: string): State {
    var inQuery := st.inQuery || m.mightBeAQueryLine(line);
    if inQuery then
      if HasPrefix(line, "***") then State(st.joined + [st.queryString, line], false, "", "")
      else
        var query := st.queryString + st.separator + line;
        if EndsStatement(m, line) then State(st.joined + [query], false, "", "")
        else State(st.joined, true, query, "\n")
    else st.(joined := st.joined + [line])
  }

  function Steps(m: Matcher, lines: seq<string>): State {
    if lines == [] then START else Step(m, Steps(m, lines[..|lines| - 1]), lines[|lines| - 1])
  }

  method JoinQueryLines(m: Matcher, lines: seq<string>) returns (joined: seq<string>)
    ensures joined == Steps(m, lines).joined
  {
    var inQuery := false;
    joined := [];
    var queryString, separator := "", "";
    for i := 0 to |lines|
      invariant State(joined, inQuery, queryString, separator) == Steps(m, lines[..i])
    {
      assert lines[..i + 1][..i] == lines[..i];
      var line := lines[i];
      if !inQuery && m.mightBeAQueryLine(line) {
        inQuery := true;
      }
      if inQuery {
        if HasPrefix(line, "***") {
          joined := joined + [queryString];
          queryString := "";
          joined := joined + [line];
          inQuery := false;
          separator := "";
          continue;
        }
        queryString := queryString + separator + line;
        separator := "\n";
        if !EndsStatement(m, line) {
          continue;
        }
        inQuery := false;
        separator := "";
        joined := joined + [queryString];
        queryString := "";
        continue;
      }
      joined := joined + [line];
    }
    assert lines[..|lines|] == lines;
  }

  /** The lines of a text. */
  function Split(s: string): (lines: seq<string>)
    ensures lines != []
  {
    if s == "" then [""]
    else
      var rest := Split(s[1..]);
      if s[0] == '\n' then [""] + rest else [[s[0]] + rest[0]] + rest[1..]
  }

  function SplitAll(texts: seq<string>): seq<string> {
    if texts == [] then [] else SplitAll(texts[..|texts| - 1]) + Split(texts[|texts| - 1])
  }

  lemma {:induction false} SplitJoin(a: string, b: string)
    ensures Split(a + "\n" + b) == Split(a) + Split(b)
  {
    if a == "" {
      assert (a + "\n" + b)[1..] == b;
    } else {
      assert (a + "\n" + b)[1..] == a[1..] + "\n" + b;
      SplitJoin(a[1..], b);
    }
  }

  lemma SplitMore(texts: seq<string>, line: string)
    ensures SplitAll(texts + [line]) == SplitAll(texts) + Split(line)
  {
    assert (texts + [line])[..|texts|] == texts;
  }

  lemma Associative(a: seq<string>, b: seq<string>, c: seq<string>)
    ensures a + (b + c) == (a + b) + c
  {
  }

  lemma SplitReplaced(texts: seq<string>, query: string, longer: string, line: string)
    requires Split(longer) == Split(query) + Split(line)
    ensures SplitAll(texts + [longer]) == SplitAll(texts + [query]) + Split(line)
  {
    calc {
      SplitAll(texts + [longer]);
      { SplitMore(texts, longer); }
      SplitAll(texts) + Split(longer);
      SplitAll(texts) + (Split(query) + Split(line));
      { Associative(SplitAll(texts), Split(query), Split(line)); }
      (SplitAll(texts) + Split(query)) + Split(line);
      { SplitMore(texts, query); }
      SplitAll(texts + [query]) + Split(line);
    }
  }

  lemma SplitExtended(texts: seq<string>, query: string, line: string)
    ensures SplitAll(texts + [query + "\n" + line]) == SplitAll(texts + [query]) + Split(line)
  {
    SplitJoin(query, line);
    SplitReplaced(texts, query, query + "\n" + line, line);
  }

  /** The pending statement, if there is one. */
  function Pending(st: State): seq<string> {
    if st.separator == "" then [] else [st.queryString]
  }

  /** Everything kept so far. */
  function Output(st: State): seq<string> { st.joined + Pending(st) }

  /** What holds between two lines: a query is being read exactly if something of it was kept. */
  predicate Between(st: State) {
    if st.inQuery then st.separator == "\n" else st.separator == "" && st.queryString == ""
  }

  /** No line that starts a query starts with the stars that separate records. */
  ghost predicate StarsAreNoQuery(m: Matcher) {
    forall s :: m.mightBeAQueryLine(s) ==> !HasPrefix(s, "***")
  }

  /** The output and the pending statement after one more line. */
  lemma StepOutput(m: Matcher, st: State, line: string)
    requires StarsAreNoQuery(m) && Between(st)
    ensures Between(Step(m, st, line))
    ensures Output(Step(m, st, line))
         == if st.inQuery && !HasPrefix(line, "***") then st.joined + [st.queryString + "\n" + line]
            else Output(st) + [line]
  {
    assert "" + "" + line == line;
  }

  lemma StepConserves(m: Matcher, st: State, line: string, out: seq<string>, out': seq<string>)
    requires StarsAreNoQuery(m) && Between(st)
    requires out == Output(st) && out' == Output(Step(m, st, line))
    ensures SplitAll(out') == SplitAll(out) + Split(line)
  {
    StepOutput(m, st, line);
    if st.inQuery && !HasPrefix(line, "***") {
      SplitExtended(st.joined, st.queryString, line);
    } else {
      SplitMore(out, line);
    }
  }

  /** Splitting the output, and the pending statement after it, gives back the lines of the input,
      in order. */
  lemma {:induction false} Conservation(m: Matcher, lines: seq<string>)
    requires StarsAreNoQuery(m)
    ensures Between(Steps(m, lines))
    ensures SplitAll(Output(Steps(m, lines))) == SplitAll(lines)
  {
    if lines == [] {
    } else {
      Conservation(m, lines[..|lines| - 1]);
      StepOutput(m, Steps(m, lines[..|lines| - 1]), lines[|lines| - 1]);
      var st, line := Steps(m, lines[..|lines| - 1]), lines[|lines| - 1];
      StepConserves(m, st, line, Output(st), Output(Step(m, st, line)));
    }
  }

  lemma {:induction false} PlainLine(line: string)
    requires '\n' !in line
    ensures Split(line) == [line]
  {
    if line == "" {
    } else {
      PlainLine(line[1..]);
      assert Split(line[1..])[1..] == [] && line[0] in line && [line[0]] + line[1..] == line;
    }
  }

  /** Lines as a scanner reads them, without line ends, come back one by one. */
  lemma {:induction false} PlainLines(lines: seq<string>)
    requires forall i :: 0 <= i < |lines| ==> '\n' !in lines[i]
    ensures SplitAll(lines) == lines
  {
    if lines == [] {
    } else {
      PlainLines(lines[..|lines| - 1]);
      PlainLine(lines[|lines| - 1]);
    }
  }

  /** The lines of the input come back unchanged; only a statement that never ends is left out. */
  lemma LinesComeBack(m: Matcher, lines: seq<string>)
    requires StarsAreNoQuery(m) && forall i :: 0 <= i < |lines| ==> '\n' !in lines[i]
    ensures SplitAll(Steps(m, lines).joined + Pending(Steps(m, lines))) == lines
  {
    Conservation(m, lines);
    PlainLines(lines);
  }

  /** The query test looks at the first line only, and the line end is white space. */
  ghost predicate LineWise(m: Matcher) {
    && (forall s :: m.mightBeAQueryLine(s) <==> m.mightBeAQueryLine(Split(s)[0]))
    && m.isSpace('\n')
    && !m.isSpace(';')
  }

  /** A query under way: it starts with a query line, and no statement ends in it. */
  predicate Open(m: Matcher, query: string) {
    m.mightBeAQueryLine(query) && !EndsStatement(m, query)
  }

  lemma {:induction false} EndOfLast(m: Matcher, a: string, b: string)
    requires LineWise(m)
    ensures EndsStatement(m, a + "\n" + b) <==> EndsStatement(m, b) || (TrimRight(m, b) == "" && EndsStatement(m, a))
    decreases |b|
  {
    var s := a + "\n" + b;
    if b == "" {
      assert s[..|s| - 1] == a;
    } else {
      assert s[..|s| - 1] == a + "\n" + b[..|b| - 1];
      EndOfLast(m, a, b[..|b| - 1]);
    }
  }

  lemma StillAQuery(m: Matcher, query: string, line: string)
    requires LineWise(m) && m.mightBeAQueryLine(query)
    ensures m.mightBeAQueryLine(query + "\n" + line)
  {
    SplitJoin(query, line);
  }

  lemma StepsMore(m: Matcher, lines: seq<string>, line: string)
    ensures Steps(m, lines + [line]) == Step(m, Steps(m, lines), line)
  {
    assert (lines + [line])[..|lines|] == lines;
  }

  /** A second pass over what has been joined so far changes nothing and leaves nothing pending. */
  predicate Settled(m: Matcher, joined: seq<string>) {
    Steps(m, joined) == State(joined, false, "", "")
  }

  lemma SettledQuery(m: Matcher, joined: seq<string>, query: string)
    requires StarsAreNoQuery(m) && Settled(m, joined) && m.mightBeAQueryLine(query) && EndsStatement(m, query)
    ensures Settled(m, joined + [query])
  {
    StepsMore(m, joined, query);
    assert "" + "" + query == query;
  }

  lemma SettledOpenQuery(m: Matcher, joined: seq<string>, query: string, stars: string)
    requires StarsAreNoQuery(m) && Settled(m, joined) && Open(m, query) && HasPrefix(stars, "***")
    ensures Settled(m, joined + [query, stars])
  {
    StepsMore(m, joined, query);
    StepsMore(m, joined + [query], stars);
    assert "" + "" + query == query;
    assert joined + [query] + [stars] == joined + [query, stars];
  }

  lemma StepSettles(m: Matcher, st: State, line: string)
    requires StarsAreNoQuery(m) && LineWise(m) && Between(st)
    requires Settled(m, st.joined) && (st.inQuery ==> Open(m, st.queryString))
    ensures var st' := Step(m, st, line);
            Settled(m, st'.joined) && (st'.inQuery ==> Open(m, st'.queryString))
  {
    if st.inQuery {
      if HasPrefix(line, "***") {
        SettledOpenQuery(m, st.joined, st.queryString, line);
      } else {
        var query := st.queryString + "\n" + line;
        StillAQuery(m, st.queryString, line);
        EndOfLast(m, st.queryString, line);
        if EndsStatement(m, line) {
          SettledQuery(m, st.joined, query);
        }
      }
    } else if m.mightBeAQueryLine(line) {
      assert "" + "" + line == line;
      if EndsStatement(m, line) {
        SettledQuery(m, st.joined, line);
      }
    } else {
      StepsMore(m, st.joined, line);
    }
  }

  lemma {:induction false} AllSettled(m: Matcher, lines: seq<string>)
    requires StarsAreNoQuery(m) && LineWise(m)
    ensures var st := Steps(m, lines);
            Between(st) && Settled(m, st.joined) && (st.inQuery ==> Open(m, st.queryString))
  {
    if lines == [] {
    } else {
      AllSettled(m, lines[..|lines| - 1]);
      StepSettles(m, Steps(m, lines[..|lines| - 1]), lines[|lines| - 1]);
    }
  }

  /** Joining what has been joined changes nothing. */
  lemma Idempotence(m: Matcher, lines: seq<string>)
    requires StarsAreNoQuery(m) && LineWise(m)
    ensures Steps(m, Steps(m, lines).joined).joined == Steps(m, lines).joined
  {
    AllSettled(m, lines);
  }

  /** If a line could start a query and start with stars, an empty line would be added before it. */
  lemma StarQueryAddsALine(m: Matcher, line: string)
    requires m.mightBeAQueryLine(line) && HasPrefix(line, "***")
    ensures Steps(m, [line]).joined == ["", line]
    ensures SplitAll(Output(Steps(m, [line]))) == [""] + SplitAll([line])
  {
    StepsMore(m, [], line);
    assert [] + [line] == [line] && [] + [""] == [""] && [""] + [line] == ["", line];
    assert Output(Steps(m, [line])) == ["", line];
    SplitMore([""], line);
    SplitMore([], "");
    SplitMore([], line);
  }

  /** Conservation holds for all inputs exactly if no line that starts a query starts with stars. */
  lemma ConservationExactly(m: Matcher)
    ensures StarsAreNoQuery(m) <==> forall lines :: SplitAll(Output(Steps(m, lines))) == SplitAll(lines)
  {
    if StarsAreNoQuery(m) {
      forall lines ensures SplitAll(Output(Steps(m, lines))) == SplitAll(lines) {
        Conservation(m, lines);
      }
    } else {
      var line :| m.mightBeAQueryLine(line) && HasPrefix(line, "***");
      StarQueryAddsALine(m, line);
      assert |SplitAll(Output(Steps(m, [line])))| != |SplitAll([line])|;
    }
  }

  // ---- which lines make up one element

  /** The last character that is not white space is a semicolon. */
  lemma {:induction false} EndsWithSemicolon(m: Matcher, s: string)
    requires !m.isSpace(';')
    ensures EndsStatement(m, s) <==>
            exists k :: 0 <= k < |s| && s[k] == ';' && forall j :: k < j < |s| ==> m.isSpace(s[j])
  {
    if s == "" || !m.isSpace(s[|s| - 1]) {
    } else {
      var front := s[..|s| - 1];
      EndsWithSemicolon(m, front);
      if k :| 0 <= k < |front| && front[k] == ';' && forall j :: k < j < |front| ==> m.isSpace(front[j]) {
        assert s[k] == ';' && forall j :: k < j < |s| ==> m.isSpace(s[j]);
      }
      if k :| 0 <= k < |s| && s[k] == ';' && forall j :: k < j < |s| ==> m.isSpace(s[j]) {
        assert front[k] == ';' && forall j :: k < j < |front| ==> m.isSpace(front[j]);
      }
    }
  }

  /** A query that does not end a statement is followed by the stars of a record. */
  predicate StatementsEnd(m: Matcher, joined: seq<string>) {
    forall i :: 0 <= i < |joined| && Open(m, joined[i]) ==> i + 1 < |joined| && HasPrefix(joined[i + 1], "***")
  }

  lemma EndsMore(m: Matcher, joined: seq<string>, text: string)
    requires StatementsEnd(m, joined) && !Open(m, text)
    ensures StatementsEnd(m, joined + [text])
  {
    forall i | 0 <= i < |joined + [text]| && Open(m, (joined + [text])[i])
      ensures i + 1 < |joined + [text]| && HasPrefix((joined + [text])[i + 1], "***")
    {
      assert Open(m, joined[i]);
    }
  }

  lemma StepEnds(m: Matcher, st: State, line: string)
    requires StarsAreNoQuery(m) && LineWise(m) && Between(st)
    requires StatementsEnd(m, st.joined) && (st.inQuery ==> Open(m, st.queryString))
    ensures StatementsEnd(m, Step(m, st, line).joined)
  {
    if !st.inQuery && !m.mightBeAQueryLine(line) {
      EndsMore(m, st.joined, line);
    } else if HasPrefix(line, "***") {
      var joined := st.joined + [st.queryString, line];
      forall i | 0 <= i < |joined| && Open(m, joined[i])
        ensures i + 1 < |joined| && HasPrefix(joined[i + 1], "***")
      {
        assert i < |st.joined| ==> Open(m, st.joined[i]);
      }
    } else if EndsStatement(m, line) {
      if st.inQuery {
        EndOfLast(m, st.queryString, line);
      } else {
        assert "" + "" + line == line;
      }
      EndsMore(m, st.joined, st.queryString + st.separator + line);
    }
  }

  /** No query is cut off: what may start a query ends a statement, or is followed by stars. */
  lemma {:induction false} QueriesAreWhole(m: Matcher, lines: seq<string>)
    requires StarsAreNoQuery(m) && LineWise(m)
    ensures StatementsEnd(m, Steps(m, lines).joined)
  {
    if lines == [] {
    } else {
      var front := lines[..|lines| - 1];
      QueriesAreWhole(m, front);
      AllSettled(m, front);
      StepEnds(m, Steps(m, front), lines[|lines| - 1]);
    }
  }

  /** The lines as one text. */
  function Lines(lines: seq<string>): string
    requires lines != []
  {
    if |lines| == 1 then lines[0] else Lines(lines[..|lines| - 1]) + "\n" + lines[|lines| - 1]
  }

  lemma {:induction false} SplitLines(lines: seq<string>)
    requires lines != [] && forall i :: 0 <= i < |lines| ==> '\n' !in lines[i]
    ensures Split(Lines(lines)) == lines
  {
    var front, last := lines[..|lines| - 1], lines[|lines| - 1];
    PlainLine(last);
    if front == [] {
      assert lines == [last];
    } else {
      SplitLines(front);
      SplitJoin(Lines(front), last);
      assert lines == front + [last];
    }
  }

  /** The line neither ends a statement nor starts with stars. */
  predicate Continues(m: Matcher, line: string) {
    !EndsStatement(m, line) && !HasPrefix(line, "***")
  }

  lemma {:induction false} QueryIsRead(m: Matcher, before: seq<string>, query: seq<string>)
    requires Between(Steps(m, before)) && !Steps(m, before).inQuery
    requires query != [] && m.mightBeAQueryLine(query[0]) && forall i :: 0 <= i < |query| ==> Continues(m, query[i])
    ensures Steps(m, before + query) == State(Steps(m, before).joined, true, Lines(query), "\n")
  {
    var front, last := query[..|query| - 1], query[|query| - 1];
    assert before + query == (before + front) + [last];
    StepsMore(m, before + front, last);
    if front == [] {
      assert before + front == before;
      assert "" + "" + last == last;
    } else {
      QueryIsRead(m, before, front);
    }
  }

  /** A query line, lines that neither end a statement nor start with stars, and a line that ends one come out
      as one element. */
  lemma StatementIsJoined(m: Matcher, before: seq<string>, query: seq<string>, last: string)
    requires StarsAreNoQuery(m) && !Steps(m, before).inQuery
    requires m.mightBeAQueryLine((query + [last])[0]) && forall i :: 0 <= i < |query| ==> Continues(m, query[i])
    requires EndsStatement(m, last) && !HasPrefix(last, "***")
    ensures Steps(m, before + query + [last])
         == State(Steps(m, before).joined + [Lines(query + [last])], false, "", "")
  {
    Conservation(m, before);
    StepsMore(m, before + query, last);
    if query == [] {
      assert before + query == before;
      assert "" + "" + last == last;
    } else {
      QueryIsRead(m, before, query);
      assert (query + [last])[..|query|] == query;
    }
  }

  /** So does a query that is followed by stars, and the stars come out apart. */
  lemma OpenQueryIsJoined(m: Matcher, before: seq<string>, query: seq<string>, stars: string)
    requires StarsAreNoQuery(m) && !Steps(m, before).inQuery
    requires query != [] && m.mightBeAQueryLine(query[0]) && forall i :: 0 <= i < |query| ==> Continues(m, query[i])
    requires HasPrefix(stars, "***")
    ensures Steps(m, before + query + [stars])
         == State(Steps(m, before).joined + [Lines(query), stars], false, "", "")
  {
    Conservation(m, before);
    StepsMore(m, before + query, stars);
    QueryIsRead(m, before, query);
  }

  /** Every other line comes out as it is. */
  lemma OtherLineStays(m: Matcher, before: seq<string>, line: string)
    requires !Steps(m, before).inQuery && !m.mightBeAQueryLine(line)
    ensures Steps(m, before + [line]).joined == Steps(m, before).joined + [line]
    ensures !Steps(m, before + [line]).inQuery
  {
    StepsMore(m, before, line);
  }

  /** The element is one line, or a query whose lines, but for the last one, end no statement. */
  predicate IsElement(m: Matcher, text: string) {
    var lines := Split(text);
    |lines| == 1
    || (&& m.mightBeAQueryLine(lines[0])
        && !HasPrefix(lines[|lines| - 1], "***")
        && forall i :: 0 <= i < |lines| - 1 ==> Continues(m, lines[i]))
  }

  /** The lines of a query under way. */
  predicate IsQuery(m: Matcher, text: string) {
    m.mightBeAQueryLine(Split(text)[0]) && forall i :: 0 <= i < |Split(text)| ==> Continues(m, Split(text)[i])
  }

  lemma QueryWithLine(m: Matcher, query: string, line: string)
    requires IsQuery(m, query) && '\n' !in line && !HasPrefix(line, "***")
    ensures IsElement(m, query + "\n" + line)
    ensures !EndsStatement(m, line) ==> IsQuery(m, query + "\n" + line)
  {
    SplitJoin(query, line);
    PlainLine(line);
  }

  lemma StepElements(m: Matcher, st: State, line: string)
    requires StarsAreNoQuery(m) && Between(st) && '\n' !in line
    requires (forall i :: 0 <= i < |st.joined| ==> IsElement(m, st.joined[i]))
    requires st.inQuery ==> IsQuery(m, st.queryString)
    ensures var st' := Step(m, st, line);
            (forall i :: 0 <= i < |st'.joined| ==> IsElement(m, st'.joined[i]))
            && (st'.inQuery ==> IsQuery(m, st'.queryString))
  {
    PlainLine(line);
    if st.inQuery {
      if !HasPrefix(line, "***") {
        QueryWithLine(m, st.queryString, line);
      }
    } else if m.mightBeAQueryLine(line) {
      assert "" + "" + line == line;
    }
  }

  lemma {:induction false} AllElements(m: Matcher, lines: seq<string>)
    requires StarsAreNoQuery(m) && forall i :: 0 <= i < |lines| ==> '\n' !in lines[i]
    ensures var st := Steps(m, lines);
            Between(st) && (forall i :: 0 <= i < |st.joined| ==> IsElement(m, st.joined[i]))
            && (st.inQuery ==> IsQuery(m, st.queryString))
  {
    Conservation(m, lines);
    if lines == [] {
    } else {
      var front := lines[..|lines| - 1];
      AllElements(m, front);
      StepElements(m, Steps(m, front), lines[|lines| - 1]);
    }
  }

  /** Nothing else is joined: an element of several lines starts with a query line, none of its lines starts
      with stars, and none but the last ends a statement. */
  lemma OnlyQueriesAreJoined(m: Matcher, lines: seq<string>, text: string)
    requires StarsAreNoQuery(m) && forall i :: 0 <= i < |lines| ==> '\n' !in lines[i]
    requires text in Steps(m, lines).joined && 1 < |Split(text)|
    ensures m.mightBeAQueryLine(Split(text)[0])
    ensures forall i :: 0 <= i < |Split(text)| ==> !HasPrefix(Split(text)[i], "***")
    ensures forall i :: 0 <= i < |Split(text)| - 1 ==> !EndsStatement(m, Split(text)[i])
  {
    AllElements(m, lines);
  }

  /** A query of two lines. */
  lemma TwoLinesAreJoined(m: Matcher)
    requires StarsAreNoQuery(m) && m.mightBeAQueryLine("SELECT 1") && !m.isSpace('1') && !m.isSpace(';')
    ensures Steps(m, ["SELECT 1", "FROM t;"]).joined == ["SELECT 1\nFROM t;"]
  {
    var query, last := ["SELECT 1"], "FROM t;";
    assert !HasPrefix("SELECT 1", "***") by { assert "SELECT 1"[0] != '*'; }
    assert !HasPrefix(last, "***") by { assert last[0] != '*'; }
    StatementIsJoined(m, [], query, last);
    assert [] + query + [last] == ["SELECT 1", "FROM t;"];
    assert (query + [last])[..1] == query;
    assert Lines(query + [last]) == "SELECT 1" + "\n" + "FROM t;";
    assert "SELECT 1" + "\n" + "FROM t;" == "SELECT 1\nFROM t;";
    assert [] + ["SELECT 1\nFROM t;"] == ["SELECT 1\nFROM t;"];
    assert [] + query + [last] == query + [last];
  }
}
