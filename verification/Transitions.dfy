/** The block that tells which columns changed their file, name, address or version
    (display/timelinecli.go, transitionSeparator and the methods of transitions).
    Colours are left out. */
module Transitions {
  import opened LogTypes

  const ROWS_PER_TRANSITION := 4
  const NUMBER_OF_POSSIBLE_TRANSITIONS := 4

  /** A comparison of an old and a new value, and the four cells that show it. */
  datatype Transition = Transition(s1: string, s2: string, changeType: string, ok: bool, summary: seq<string>)

  const EMPTY_SUMMARY := ["", "", "", ""]

  function Test(s1: string, s2: string, changeType: string): Transition {
    Transition(s1, s2, changeType, false, EMPTY_SUMMARY)
  }

  /** summarizeIfDifferent: every cell ends in one tab, also when there is nothing to show. */
  function Summarized(t: Transition): (t': Transition)
    ensures |t'.summary| == ROWS_PER_TRANSITION
    ensures forall i :: 0 <= i < ROWS_PER_TRANSITION ==>
              t'.summary[i] != "" && t'.summary[i][|t'.summary[i]| - 1] == '\t'
  {
    if t.s1 != t.s2 then
      t.(ok := true, summary := [t.s1 + "\t", "(" + t.changeType + ")\t", " V \t", t.s2 + "\t"])
    else
      t.(summary := ["\t", "\t", "\t", "\t"])
  }

  /** The transitions of a list that did happen. */
  function Changed(ts: seq<Transition>): (changed: seq<Transition>)
    ensures |changed| <= |ts|
  {
    if ts == [] then [] else Changed(ts[..|ts| - 1]) + if ts[|ts| - 1].ok then [ts[|ts| - 1]] else []
  }

  lemma {:induction false} ChangedConcat(a: seq<Transition>, b: seq<Transition>)
    ensures Changed(a + b) == Changed(a) + Changed(b)
  {
    if b == [] {
      assert a + b == a;
    } else {
      assert (a + b)[..|a + b| - 1] == a + b[..|b| - 1];
      ChangedConcat(a, b[..|b| - 1]);
    }
  }

  /** The list without the first `n` transitions that did not happen. */
  function WithoutBlanks(ts: seq<Transition>, n: nat): seq<Transition> {
    if ts == [] || n == 0 then ts
    else if ts[0].ok then [ts[0]] + WithoutBlanks(ts[1..], n)
    else WithoutBlanks(ts[1..], n - 1)
  }

  lemma ChangedFirst(t: Transition, ts: seq<Transition>)
    ensures Changed([t] + ts) == (if t.ok then [t] else []) + Changed(ts)
  {
    ChangedConcat([t], ts);
    assert [t][..0] == [];
  }

  /** Leaving blanks out loses no change. */
  lemma {:induction false} ChangesStay(ts: seq<Transition>, n: nat)
    ensures Changed(WithoutBlanks(ts, n)) == Changed(ts)
  {
    if ts == [] || n == 0 {
    } else {
      var m := if ts[0].ok then n else n - 1;
      ChangesStay(ts[1..], m);
      ChangedFirst(ts[0], ts[1..]);
      ChangedFirst(ts[0], WithoutBlanks(ts[1..], m));
      assert [ts[0]] + ts[1..] == ts;
    }
  }

  /** How many of the first `i` transitions did not happen. */
  function Blanks(ts: seq<Transition>, i: nat): (n: nat)
    requires i <= |ts|
  {
    i - |Changed(ts[..i])|
  }

  /** What happened among the first tests, and then all others: that is, the tests without those blanks. */
  ghost predicate DropsBlanks(tests: seq<Transition>, i: nat)
    requires i <= |tests|
  {
    WithoutBlanks(tests, Blanks(tests, i)) == Changed(tests[..i]) + tests[i..]
  }

  lemma FirstBlanks(t: Transition, rest: seq<Transition>, i: nat, next: nat)
    requires i <= |rest| && next == i + 1
    ensures ([t] + rest)[..next] == [t] + rest[..i] && ([t] + rest)[next..] == rest[i..]
    ensures Changed(([t] + rest)[..next]) == (if t.ok then [t] else []) + Changed(rest[..i])
  {
    assert ([t] + rest)[..next] == [t] + rest[..i];
    ChangedFirst(t, rest[..i]);
  }

  lemma KeepsChange(t: Transition, rest: seq<Transition>, n: nat)
    requires t.ok
    ensures WithoutBlanks([t] + rest, n) == [t] + WithoutBlanks(rest, n)
  {
    assert ([t] + rest)[1..] == rest;
  }

  lemma LeavesBlankOut(t: Transition, rest: seq<Transition>, n: nat)
    requires !t.ok && 0 < n
    ensures WithoutBlanks([t] + rest, n) == WithoutBlanks(rest, n - 1)
  {
    assert ([t] + rest)[1..] == rest;
  }

  lemma DropsOneMore(t: Transition, rest: seq<Transition>, i: nat, next: nat)
    requires i <= |rest| && next == i + 1 && DropsBlanks(rest, i)
    ensures DropsBlanks([t] + rest, next)
  {
    FirstBlanks(t, rest, i, next);
    var changed, n := Changed(rest[..i]), Blanks(rest, i);
    if t.ok {
      KeepsChange(t, rest, n);
      assert [t] + (changed + rest[i..]) == ([t] + changed) + rest[i..];
    } else {
      LeavesBlankOut(t, rest, n + 1);
      assert [] + changed == changed;
    }
  }

  lemma {:induction false} BlanksDropped(tests: seq<Transition>, i: nat)
    requires i <= |tests|
    ensures DropsBlanks(tests, i)
  {
    if i == 0 {
      assert tests[..0] == [] && tests[0..] == tests;
    } else {
      BlanksDropped(tests[1..], i - 1);
      DropsOneMore(tests[0], tests[1..], i - 1, i);
      assert [tests[0]] + tests[1..] == tests;
    }
  }

  /** The stack holds, up to the height, the tests without as many blanks as do not fit. */
  predicate Fits(stack: seq<Transition>, tests: seq<Transition>, height: nat) {
    && height <= |tests| && height <= |stack|
    && stack[..height] == WithoutBlanks(tests, |tests| - height)
  }

  lemma RestFits(tests: seq<Transition>, i: nat, stack: seq<Transition>, height: nat)
    requires i <= |tests| && stack == Changed(tests[..i]) && |tests| - i + |stack| == height <= |tests|
    ensures Fits(stack + tests[i..], tests, height)
  {
    BlanksDropped(tests, i);
    assert (stack + tests[i..])[..height] == stack + tests[i..];
  }

  lemma StillFits(stack: seq<Transition>, t: Transition, tests: seq<Transition>, height: nat)
    requires Fits(stack, tests, height)
    ensures Fits(stack + [t], tests, height)
  {
    assert (stack + [t])[..height] == stack[..height];
  }

  lemma ChangedUpTo(tests: seq<Transition>, i: nat, next: nat)
    requires next == i + 1 <= |tests|
    ensures Changed(tests[..next]) == Changed(tests[..i]) + if tests[i].ok then [tests[i]] else []
  {
    assert tests[..next][..i] == tests[..i];
  }

  lemma AllFit(tests: seq<Transition>, stack: seq<Transition>)
    requires stack == Changed(tests)
    ensures Fits(stack, tests, |stack|)
  {
    assert tests[..|tests|] == tests && tests[|tests|..] == [];
    RestFits(tests, |tests|, stack, |stack|);
    assert stack + [] == stack;
  }

  /** The stack after `i` tests: it is filled, or it holds what happened so far and may still be filled. */
  ghost predicate Stacking(stack: seq<Transition>, tests: seq<Transition>, i: nat, height: nat, filled: bool) {
    && i <= |tests| && height <= |tests|
    && (forall t :: t in stack ==> t in tests)
    && if filled then Fits(stack, tests, height)
       else stack == Changed(tests[..i]) && height <= |tests| - i + |stack|
  }

  lemma StackStart(tests: seq<Transition>, height: nat)
    requires height <= |tests|
    ensures Stacking([], tests, 0, height, false)
  {
    assert tests[..0] == [];
  }

  lemma StackFilled(stack: seq<Transition>, tests: seq<Transition>, i: nat, height: nat, filled: bool)
    requires i < |tests| && Stacking(stack, tests, i, height, filled) && |tests| - i + |stack| == height
    ensures Stacking(stack + tests[i..], tests, i, height, true)
  {
    RestFits(tests, i, stack, height);
  }

  lemma StackMore(stack: seq<Transition>, tests: seq<Transition>, i: nat, next: nat, height: nat, filled: bool)
    requires next == i + 1 <= |tests| && Stacking(stack, tests, i, height, filled)
    requires filled || |tests| - i + |stack| != height
    ensures Stacking(if tests[i].ok then stack + [tests[i]] else stack, tests, next, height, filled)
  {
    ChangedUpTo(tests, i, next);
    if filled {
      StillFits(stack, tests[i], tests, height);
    } else {
      assert stack + [] == stack;
    }
  }

  lemma FitsSoShows(stack: seq<Transition>, tests: seq<Transition>, height: nat)
    requires Fits(stack, tests, height)
    ensures Shows(stack, tests, height)
  {
    ChangesStay(tests, |tests| - height);
  }

  lemma NotFilled(stack: seq<Transition>, tests: seq<Transition>, height: nat)
    requires Stacking(stack, tests, |tests|, height, false) && |Changed(tests)| <= height
    ensures Fits(stack, tests, height)
  {
    assert tests[..|tests|] == tests;
    AllFit(tests, stack);
  }

  lemma StackDone(stack: seq<Transition>, tests: seq<Transition>, height: nat, filled: bool)
    requires Stacking(stack, tests, |tests|, height, filled) && |Changed(tests)| <= height
    ensures Shows(stack, tests, height)
  {
    if !filled {
      NotFilled(stack, tests, height);
    }
    FitsSoShows(stack, tests, height);
  }

  /** So the stack shows every change, in order. */
  predicate Shows(stack: seq<Transition>, tests: seq<Transition>, height: nat) {
    Fits(stack, tests, height) && Changed(stack[..height]) == Changed(tests)
  }

  /** The tests of a column whose context is known before and after. */
  function TestsOf(old': LogCtx, new': LogCtx): (tests: seq<Transition>)
    ensures |tests| <= NUMBER_OF_POSSIBLE_TRANSITIONS
  {
    [Test(old'.filePath, new'.filePath, "file path")]
    + (if old'.ownNames != [] && new'.ownNames != [] then
         [Test(old'.ownNames[|old'.ownNames| - 1], new'.ownNames[|new'.ownNames| - 1], "node name")] else [])
    + (if old'.ownIPs != [] && new'.ownIPs != [] then
         [Test(old'.ownIPs[|old'.ownIPs| - 1], new'.ownIPs[|new'.ownIPs| - 1], "node ip")] else [])
    + (if old'.version != "" && new'.version != "" then [Test(old'.version, new'.version, "version")] else [])
  }

  /** At most four tests, filled up with tests that find nothing. */
  function Filled(tests: seq<Transition>): (filled: seq<Transition>)
    ensures |tests| <= NUMBER_OF_POSSIBLE_TRANSITIONS ==> |filled| == NUMBER_OF_POSSIBLE_TRANSITIONS
    decreases NUMBER_OF_POSSIBLE_TRANSITIONS - |tests|
  {
    if |tests| >= NUMBER_OF_POSSIBLE_TRANSITIONS then tests else Filled(tests + [Test("", "", "")])
  }

  function SummarizedAll(tests: seq<Transition>): (resolved: seq<Transition>)
    ensures |resolved| == |tests|
    ensures forall i :: 0 <= i < |resolved| ==>
              resolved[i] == Summarized(tests[i]) && |resolved[i].summary| == ROWS_PER_TRANSITION
  {
    if tests == [] then [] else SummarizedAll(tests[..|tests| - 1]) + [Summarized(tests[|tests| - 1])]
  }

  function PartlyResolved(tests: seq<Transition>, i: nat): seq<Transition>
    requires i <= |tests|
  {
    SummarizedAll(tests[..i]) + tests[i..]
  }

  function FoundAmong(tests: seq<Transition>, i: nat): nat
    requires i <= |tests|
  {
    |Changed(SummarizedAll(tests[..i]))|
  }

  lemma ResolveNext(tests: seq<Transition>, i: nat)
    requires i < |tests|
    ensures PartlyResolved(tests, i)[i] == tests[i]
    ensures PartlyResolved(tests, i)[i := Summarized(tests[i])] == PartlyResolved(tests, i + 1)
    ensures FoundAmong(tests, i + 1) == FoundAmong(tests, i) + if Summarized(tests[i]).ok then 1 else 0
  {
    var next := SummarizedAll(tests[..i + 1]);
    assert tests[..i + 1][..i] == tests[..i];
    assert next == SummarizedAll(tests[..i]) + [Summarized(tests[i])];
    assert next[..|next| - 1] == SummarizedAll(tests[..i]);
  }

  lemma AllResolved(tests: seq<Transition>)
    ensures PartlyResolved(tests, |tests|) == SummarizedAll(tests) && tests[..|tests|] == tests
  {
  }

  class Column {
    var tests: seq<Transition>
    var transitionToPrint: seq<Transition>
    var numberFound: nat

    constructor (tests: seq<Transition>)
      ensures this.tests == tests && transitionToPrint == [] && numberFound == 0
    {
      this.tests, transitionToPrint, numberFound := tests, [], 0;
    }

    method FillEmptyTransition()
      modifies this`tests
      ensures tests == Filled(old(tests))
    {
      var i := |tests|;
      while i < NUMBER_OF_POSSIBLE_TRANSITIONS
        invariant |tests| == i && Filled(tests) == Filled(old(tests))
      {
        tests := tests + [Test("", "", "")];
        i := i + 1;
      }
    }

    /** Resolves the tests and counts those that found a change. */
    method Iterate()
      modifies this`tests, this`numberFound
      ensures tests == SummarizedAll(old(tests))
      ensures numberFound == old(numberFound) + |Changed(SummarizedAll(old(tests)))|
    {
      ghost var all := tests;
      for i := 0 to |tests|
        invariant |tests| == |all| && tests == PartlyResolved(all, i)
        invariant numberFound == old(numberFound) + FoundAmong(all, i)
      {
        ResolveNext(all, i);
        var resolved := Summarized(tests[i]);
        tests := tests[i := resolved];
        if resolved.ok {
          numberFound := numberFound + 1;
        }
      }
      AllResolved(all);
    }

    /** Prints the transitions found so far, and all that are left as soon as they just fill the
        height.  The number of rows this would give starts at the number of tests, falls by one at
        most at each test, and ends at the number found, so it meets the height. */
    method StackPrioritizeFound(height: nat)
      requires transitionToPrint == [] && |Changed(tests)| <= height <= |tests|
      modifies this`transitionToPrint
      ensures Shows(transitionToPrint, tests, height)
      ensures forall t :: t in transitionToPrint ==> t in tests
    {
      ghost var filled := false;
      StackStart(tests, height);
      for i := 0 to |tests|
        invariant Stacking(transitionToPrint, tests, i, height, filled)
      {
        ghost var next := i + 1;
        if |tests| - i + |transitionToPrint| == height {
          StackFilled(transitionToPrint, tests, i, height, filled);
          transitionToPrint := transitionToPrint + tests[i..];
          filled := true;
        }
        StackMore(transitionToPrint, tests, i, next, height, filled);
        if tests[i].ok {
          transitionToPrint := transitionToPrint + [tests[i]];
        }
      }
      StackDone(transitionToPrint, tests, height, filled);
    }
  }

  /** The tests of a column, if its context is known before and after. */
  function ColumnTests(key: string, oldlogCtxs: map<string, LogCtx>, logCtxs: map<string, LogCtx>)
    : (tests: seq<Transition>)
    ensures |tests| <= NUMBER_OF_POSSIBLE_TRANSITIONS
  {
    if key in logCtxs && key in oldlogCtxs then TestsOf(oldlogCtxs[key], logCtxs[key]) else []
  }

  /** The four resolved tests of a column. */
  function Resolved(tests: seq<Transition>): (resolved: seq<Transition>)
    requires |tests| <= NUMBER_OF_POSSIBLE_TRANSITIONS
    ensures |resolved| == NUMBER_OF_POSSIBLE_TRANSITIONS
    ensures forall i :: 0 <= i < |resolved| ==> |resolved[i].summary| == ROWS_PER_TRANSITION
  {
    SummarizedAll(Filled(tests))
  }

  /** The tests whose values differ, in order. */
  function Differing(tests: seq<Transition>): seq<Transition> {
    if tests == [] then []
    else
      var last := tests[|tests| - 1];
      Differing(tests[..|tests| - 1]) + if last.s1 != last.s2 then [Summarized(last)] else []
  }

  lemma {:induction false} ChangedIsDiffering(tests: seq<Transition>)
    requires forall i :: 0 <= i < |tests| ==> !tests[i].ok
    ensures Changed(SummarizedAll(tests)) == Differing(tests)
  {
    if tests == [] {
    } else {
      ChangedIsDiffering(tests[..|tests| - 1]);
    }
  }

  lemma {:induction false} FillingAddsNoDifference(tests: seq<Transition>)
    requires forall i :: 0 <= i < |tests| ==> !tests[i].ok
    ensures Differing(Filled(tests)) == Differing(tests)
    ensures forall i :: 0 <= i < |Filled(tests)| ==> !Filled(tests)[i].ok
    decreases NUMBER_OF_POSSIBLE_TRANSITIONS - |tests|
  {
    if NUMBER_OF_POSSIBLE_TRANSITIONS <= |tests| {
    } else {
      var longer := tests + [Test("", "", "")];
      assert longer[..|longer| - 1] == tests;
      FillingAddsNoDifference(longer);
    }
  }

  /** What a column reports as changed are its tests whose old and new value differ, each once and in
      order; the tests it is filled up with report nothing. */
  lemma ChangesAreDifferences(tests: seq<Transition>)
    requires |tests| <= NUMBER_OF_POSSIBLE_TRANSITIONS && forall i :: 0 <= i < |tests| ==> !tests[i].ok
    ensures Changed(Resolved(tests)) == Differing(tests)
  {
    FillingAddsNoDifference(tests);
    ChangedIsDiffering(Filled(tests));
  }

  method ResolvedColumn(tests: seq<Transition>) returns (column: Column)
    requires |tests| <= NUMBER_OF_POSSIBLE_TRANSITIONS
    ensures fresh(column) && column.tests == Resolved(tests) && column.transitionToPrint == []
    ensures column.numberFound == |Changed(column.tests)|
  {
    column := new Column(tests);
    column.FillEmptyTransition();
    column.Iterate();
  }

  /** The column holds its resolved tests, and is stacked up to the height if it is its turn. */
  ghost predicate ColumnOk(column: Column, tests: seq<Transition>, c: nat, stacked: nat, height: nat)
    reads column
  {
    && column.tests == tests
    && column.numberFound == |Changed(tests)|
    && if c < stacked then
         && Shows(column.transitionToPrint, tests, height)
         && (forall t :: t in column.transitionToPrint ==> t in tests)
       else column.transitionToPrint == []
  }

  ghost predicate Stacked(columns: seq<Column>, tests: seq<seq<Transition>>, stacked: nat, height: nat)
    reads columns
  {
    && |columns| == |tests|
    && (forall c, d :: 0 <= c < d < |columns| ==> columns[c] != columns[d])
    && (forall c :: 0 <= c < |columns| ==>
          ColumnOk(columns[c], tests[c], c, stacked, height))
  }

  predicate Printable(stacks: seq<seq<Transition>>, height: nat) {
    forall c :: 0 <= c < |stacks| ==>
      height <= |stacks[c]| && forall i :: 0 <= i < |stacks[c]| ==> |stacks[c][i].summary| == ROWS_PER_TRANSITION
  }

  /** Row `row` of the `i`-th block: one cell for each column. */
  function Cells(stacks: seq<seq<Transition>>, i: nat, row: nat): (cells: seq<string>)
    requires Printable(stacks, i + 1) && row < ROWS_PER_TRANSITION
    ensures |cells| == |stacks|
  {
    seq(|stacks|, c requires 0 <= c < |stacks| => stacks[c][i].summary[row])
  }

  function BlockRows(stacks: seq<seq<Transition>>, i: nat, rows: nat): (block: seq<seq<string>>)
    requires Printable(stacks, i + 1) && rows <= ROWS_PER_TRANSITION
    ensures |block| == rows
  {
    if rows == 0 then [] else BlockRows(stacks, i, rows - 1) + [Cells(stacks, i, rows - 1)]
  }

  function RowsOf(stacks: seq<seq<Transition>>, height: nat): (rows: seq<seq<string>>)
    requires Printable(stacks, height)
    ensures |rows| == height * ROWS_PER_TRANSITION
  {
    if height == 0 then [] else RowsOf(stacks, height - 1) + BlockRows(stacks, height - 1, ROWS_PER_TRANSITION)
  }

  /** The printing loop. */
  method PrintRows(stacks: seq<seq<Transition>>, height: nat) returns (rows: seq<seq<string>>)
    requires Printable(stacks, height)
    ensures rows == RowsOf(stacks, height)
  {
    rows := [];
    for i := 0 to height
      invariant rows == RowsOf(stacks, i)
    {
      var block := [];
      for row := 0 to ROWS_PER_TRANSITION
        invariant block == BlockRows(stacks, i, row)
      {
        var cells := [];
        for c := 0 to |stacks|
          invariant cells == Cells(stacks, i, row)[..c]
        {
          cells := cells + [stacks[c][i].summary[row]];
        }
        assert Cells(stacks, i, row)[..|stacks|] == Cells(stacks, i, row);
        block := block + [cells];
      }
      rows := rows + block;
    }
  }

  method BuildColumns(inputs: seq<seq<Transition>>) returns (columns: seq<Column>, ghost tests: seq<seq<Transition>>)
    requires forall c :: 0 <= c < |inputs| ==> |inputs[c]| <= NUMBER_OF_POSSIBLE_TRANSITIONS
    ensures Stacked(columns, tests, 0, 0) && |tests| == |inputs|
    ensures forall c :: 0 <= c < |columns| ==> fresh(columns[c])
    ensures forall c :: 0 <= c < |inputs| ==> tests[c] == Resolved(inputs[c])
  {
    columns, tests := [], [];
    for c := 0 to |inputs|
      invariant Stacked(columns, tests, 0, 0) && |tests| == c
      invariant forall k :: 0 <= k < |columns| ==> fresh(columns[k])
      invariant forall k :: 0 <= k < c ==> tests[k] == Resolved(inputs[k])
    {
      var column := ResolvedColumn(inputs[c]);
      ghost var resolved := column.tests;
      assert ColumnOk(column, resolved, c, 0, 0);
      assert forall k :: 0 <= k < |columns| ==> columns[k] != column;
      columns, tests := columns + [column], tests + [resolved];
    }
  }

  /** The height: the most changes that a column has. */
  method Highest(columns: seq<Column>, ghost tests: seq<seq<Transition>>) returns (height: nat)
    requires Stacked(columns, tests, 0, 0)
    ensures forall c :: 0 <= c < |tests| ==> |Changed(tests[c])| <= height
    ensures height == 0 || exists c :: 0 <= c < |tests| && |Changed(tests[c])| == height
  {
    height := 0;
    for c := 0 to |columns|
      invariant forall k :: 0 <= k < c ==> |Changed(tests[k])| <= height
      invariant height == 0 || exists k :: 0 <= k < c && |Changed(tests[k])| == height
    {
      if columns[c].numberFound > height {
        height := columns[c].numberFound;
      }
    }
  }

  method StackAll(columns: seq<Column>, ghost tests: seq<seq<Transition>>, height: nat)
    returns (stacks: seq<seq<Transition>>)
    requires Stacked(columns, tests, 0, 0)
    requires forall c :: 0 <= c < |tests| ==> |Changed(tests[c])| <= height <= |tests[c]|
    modifies columns
    ensures |stacks| == |tests|
    ensures forall c :: 0 <= c < |tests| ==>
              && Shows(stacks[c], tests[c], height)
              && forall t :: t in stacks[c] ==> t in tests[c]
  {
    stacks := [];
    for c := 0 to |columns|
      invariant Stacked(columns, tests, c, height)
      invariant |stacks| == c && forall k :: 0 <= k < c ==> stacks[k] == columns[k].transitionToPrint
    {
      columns[c].StackPrioritizeFound(height);
      stacks := stacks + [columns[c].transitionToPrint];
    }
  }

  lemma AllPrintable(stacks: seq<seq<Transition>>, tests: seq<seq<Transition>>, height: nat)
    requires |stacks| == |tests|
    requires forall c :: 0 <= c < |tests| ==> height <= |stacks[c]| && forall t :: t in stacks[c] ==> t in tests[c]
    requires forall c, i :: 0 <= c < |tests| && 0 <= i < |tests[c]| ==> |tests[c][i].summary| == ROWS_PER_TRANSITION
    ensures Printable(stacks, height)
  {
    forall c, i | 0 <= c < |stacks| && 0 <= i < |stacks[c]|
      ensures |stacks[c][i].summary| == ROWS_PER_TRANSITION
    {
      assert stacks[c][i] in tests[c];
    }
  }

  /** The stacks of all columns, as high as the column with most changes needs. */
  method StackColumns(inputs: seq<seq<Transition>>) returns (height: nat, stacks: seq<seq<Transition>>)
    requires forall c :: 0 <= c < |inputs| ==> |inputs[c]| <= NUMBER_OF_POSSIBLE_TRANSITIONS
    ensures |stacks| == |inputs| && Printable(stacks, height)
    ensures forall c :: 0 <= c < |inputs| ==> Shows(stacks[c], Resolved(inputs[c]), height)
    ensures height == 0 || exists c :: 0 <= c < |inputs| && |Changed(Resolved(inputs[c]))| == height
  {
    var columns;
    ghost var tests;
    columns, tests := BuildColumns(inputs);
    height := Highest(columns, tests);
    stacks := StackAll(columns, tests, height);
    AllPrintable(stacks, tests, height);
  }

  /** Prints the changes of all columns side by side, in as many blocks as the column with most
      changes needs.  In each column the blocks that show a change are its changes, in order. */
  method TransitionSeparator(keys: seq<string>, oldlogCtxs: map<string, LogCtx>, logCtxs: map<string, LogCtx>)
    returns (rows: seq<seq<string>>, height: nat, stacks: seq<seq<Transition>>)
    ensures |stacks| == |keys| && Printable(stacks, height) && rows == RowsOf(stacks, height)
    ensures forall c :: 0 <= c < |keys| ==>
              Shows(stacks[c], Resolved(ColumnTests(keys[c], oldlogCtxs, logCtxs)), height)
    ensures height == 0 || exists c :: 0 <= c < |keys| && |Changed(stacks[c][..height])| == height
  {
    var inputs := seq(|keys|, c requires 0 <= c < |keys| => ColumnTests(keys[c], oldlogCtxs, logCtxs));
    height, stacks := StackColumns(inputs);
    rows := PrintRows(stacks, height);
  }

  // ---- what the block shows

  /** A change of a value, in four cells. */
  function Change(old': string, changeType: string, new': string): Transition {
    Transition(old', new', changeType, true, [old' + "\t", "(" + changeType + ")\t", " V \t", new' + "\t"])
  }

  /** The change, if both values are known and differ. */
  function ChangeIf(known: bool, old': string, changeType: string, new': string): seq<Transition> {
    if known && old' != new' then [Change(old', changeType, new')] else []
  }

  function LastOf(values: seq<string>): string {
    if values == [] then "" else values[|values| - 1]
  }

  lemma {:induction false} DifferingConcat(a: seq<Transition>, b: seq<Transition>)
    ensures Differing(a + b) == Differing(a) + Differing(b)
  {
    if b == [] {
      assert a + b == a;
    } else {
      assert (a + b)[..|a + b| - 1] == a + b[..|b| - 1];
      DifferingConcat(a, b[..|b| - 1]);
    }
  }

  /** The test of a value, if it is made. */
  function TestIf(known: bool, old': string, new': string, changeType: string): seq<Transition> {
    if known then [Test(old', new', changeType)] else []
  }

  lemma DifferingIf(known: bool, old': string, new': string, changeType: string)
    ensures Differing(TestIf(known, old', new', changeType)) == ChangeIf(known, old', changeType, new')
  {
    var test := Test(old', new', changeType);
    assert [test][..0] == [];
    assert Differing([test]) == if old' != new' then [Summarized(test)] else [];
  }

  lemma TestsAre(old': LogCtx, new': LogCtx)
    ensures TestsOf(old', new') ==
      TestIf(true, old'.filePath, new'.filePath, "file path")
      + TestIf(old'.ownNames != [] && new'.ownNames != [], LastOf(old'.ownNames), LastOf(new'.ownNames), "node name")
      + TestIf(old'.ownIPs != [] && new'.ownIPs != [], LastOf(old'.ownIPs), LastOf(new'.ownIPs), "node ip")
      + TestIf(old'.version != "" && new'.version != "", old'.version, new'.version, "version")
  {
  }

  lemma TestsAreFresh(old': LogCtx, new': LogCtx)
    ensures forall i :: 0 <= i < |TestsOf(old', new')| ==> !TestsOf(old', new')[i].ok
  {
  }

  /** The block shows a new file, and the last name, the last address and the version if they were known before
      and are different now, in this order: the old value, what it is, an arrow, and the new value. */
  lemma ShownChanges(old': LogCtx, new': LogCtx)
    ensures Changed(Resolved(TestsOf(old', new'))) ==
      ChangeIf(true, old'.filePath, "file path", new'.filePath)
      + ChangeIf(old'.ownNames != [] && new'.ownNames != [], LastOf(old'.ownNames), "node name", LastOf(new'.ownNames))
      + ChangeIf(old'.ownIPs != [] && new'.ownIPs != [], LastOf(old'.ownIPs), "node ip", LastOf(new'.ownIPs))
      + ChangeIf(old'.version != "" && new'.version != "", old'.version, "version", new'.version)
  {
    TestsAreFresh(old', new');
    ChangesAreDifferences(TestsOf(old', new'));
    TestsAre(old', new');
    var names, ips := old'.ownNames != [] && new'.ownNames != [], old'.ownIPs != [] && new'.ownIPs != [];
    var versions := old'.version != "" && new'.version != "";
    var a := TestIf(true, old'.filePath, new'.filePath, "file path");
    var b := TestIf(names, LastOf(old'.ownNames), LastOf(new'.ownNames), "node name");
    var c := TestIf(ips, LastOf(old'.ownIPs), LastOf(new'.ownIPs), "node ip");
    var d := TestIf(versions, old'.version, new'.version, "version");
    DifferingConcat(a + b + c, d);
    DifferingConcat(a + b, c);
    DifferingConcat(a, b);
    DifferingIf(true, old'.filePath, new'.filePath, "file path");
    DifferingIf(names, LastOf(old'.ownNames), LastOf(new'.ownNames), "node name");
    DifferingIf(ips, LastOf(old'.ownIPs), LastOf(new'.ownIPs), "node ip");
    DifferingIf(versions, old'.version, new'.version, "version");
  }

  /** What is not a change is four empty cells. */
  lemma UnchangedIsBlank(tests: seq<Transition>, i: nat)
    requires i < |tests| && !tests[i].ok && tests[i].s1 == tests[i].s2
    ensures SummarizedAll(tests)[i].summary == ["\t", "\t", "\t", "\t"] && !SummarizedAll(tests)[i].ok
  {
  }

  lemma {:induction false} BlockAt(stacks: seq<seq<Transition>>, i: nat, rows: nat, row: nat)
    requires Printable(stacks, i + 1) && row < rows <= ROWS_PER_TRANSITION
    ensures BlockRows(stacks, i, rows)[row] == Cells(stacks, i, row)
  {
    if row < rows - 1 {
      BlockAt(stacks, i, rows - 1, row);
    }
  }

  /** The cell of column `c` in line `row` of the `i`-th block. */
  lemma {:induction false} CellAt(stacks: seq<seq<Transition>>, height: nat, i: nat, row: nat, c: nat)
    requires Printable(stacks, height) && i < height && row < ROWS_PER_TRANSITION && c < |stacks|
    ensures var cells := RowsOf(stacks, height)[4 * i + row];
            |cells| == |stacks| && cells[c] == stacks[c][i].summary[row]
  {
    if i < height - 1 {
      CellAt(stacks, height - 1, i, row, c);
    } else {
      BlockAt(stacks, i, ROWS_PER_TRANSITION, row);
    }
  }
}
