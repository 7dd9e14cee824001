/** Expanding tabs in text that arrives in chunks (GooglePrettify.js, makeTabExpander). */
module TabExpander {
  function Repeat(c: char, n: nat): (s: string)
    ensures |s| == n
  {
    seq(n, i => c)
  }

  /** The column after `c` is printed at column `column`. */
  function NextColumn(width: nat, column: nat, c: char): nat
    requires 0 < width
  {
    if c == '\t' then column + width - column % width else if c == '\n' then 0 else column + 1
  }

  function ColumnAfter(width: nat, column: nat, s: string): nat
    requires 0 < width
    decreases s
  {
    if s == "" then column else ColumnAfter(width, NextColumn(width, column, s[0]), s[1..])
  }

  /** `c` at column `column`: a tab becomes the spaces up to the next multiple of the width. */
  function ExpandChar(width: nat, column: nat, c: char): string
    requires 0 < width
  {
    if c == '\t' then Repeat(' ', width - column % width) else [c]
  }

  function Expanded(width: nat, column: nat, s: string): string
    requires 0 < width
    decreases s
  {
    if s == "" then "" else ExpandChar(width, column, s[0]) + Expanded(width, NextColumn(width, column, s[0]), s[1..])
  }

  /** Expanding chunk by chunk, with the column carried over, is expanding the whole text. */
  lemma {:induction false} ExpandChunks(width: nat, column: nat, a: string, b: string)
    requires 0 < width
    ensures Expanded(width, column, a + b)
         == Expanded(width, column, a) + Expanded(width, ColumnAfter(width, column, a), b)
    ensures ColumnAfter(width, column, a + b) == ColumnAfter(width, ColumnAfter(width, column, a), b)
    decreases a
  {
    if a == "" {
      assert a + b == b;
    } else {
      assert (a + b)[1..] == a[1..] + b;
      ExpandChunks(width, NextColumn(width, column, a[0]), a[1..], b);
    }
  }

  lemma MultipleHasNoRest(k: nat, width: nat)
    requires 0 < width
    ensures k * width % width == 0
  {
    var quotient, rest := k * width / width, k * width % width;
    assert (k - quotient) * width == rest;
    assert k - quotient >= 1 ==> (k - quotient) * width >= width;
  }

  /** A tab leads to the nearest tab stop to the right. */
  lemma TabStop(width: nat, column: nat)
    requires 0 < width
    ensures NextColumn(width, column, '\t') % width == 0
    ensures column < NextColumn(width, column, '\t') <= column + width
  {
    var stop := column / width + 1;
    assert NextColumn(width, column, '\t') == stop * width;
    MultipleHasNoRest(stop, width);
  }

  lemma {:induction false} SpacesColumn(width: nat, column: nat, n: nat)
    requires 0 < width
    ensures ColumnAfter(width, column, Repeat(' ', n)) == column + n
    ensures Expanded(width, column, Repeat(' ', n)) == Repeat(' ', n)
    decreases n
  {
    if n == 0 {
    } else {
      SpacesColumn(width, column + 1, n - 1);
      assert Repeat(' ', n)[1..] == Repeat(' ', n - 1);
    }
  }

  /** The expanded text has no tabs left and ends in the column the text ends in. */
  lemma {:induction false} ExpandKeepsColumns(width: nat, column: nat, s: string)
    requires 0 < width
    ensures '\t' !in Expanded(width, column, s)
    ensures ColumnAfter(width, column, Expanded(width, column, s)) == ColumnAfter(width, column, s)
    ensures Expanded(width, column, Expanded(width, column, s)) == Expanded(width, column, s)
    decreases s
  {
    if s == "" {
    } else {
      var head := ExpandChar(width, column, s[0]);
      var next := NextColumn(width, column, s[0]);
      ExpandKeepsColumns(width, next, s[1..]);
      assert ColumnAfter(width, column, head) == next && Expanded(width, column, head) == head by {
        if s[0] == '\t' {
          SpacesColumn(width, column, |head|);
        } else {
          assert head[1..] == "" && ColumnAfter(width, next, "") == next && Expanded(width, next, "") == "";
        }
      }
      ExpandChunks(width, column, head, Expanded(width, next, s[1..]));
    }
  }

  const SPACES := "                "

  /** The loop that pushes the spaces in front of a tab stop, sixteen at a time. */
  method Padding(nSpaces: nat) returns (out: string)
    ensures out == Repeat(' ', nSpaces)
  {
    out := "";
    var left: int := nSpaces;
    while 0 <= left
      invariant -|SPACES| <= left <= nSpaces
      invariant out == Repeat(' ', nSpaces - (if left < 0 then 0 else left))
    {
      out := out + SPACES[..if left < |SPACES| then left else |SPACES|];
      left := left - |SPACES|;
    }
  }

  lemma ExpandNext(width: nat, column: nat, s: string, i: nat)
    requires 0 < width && i < |s|
    ensures var here := ColumnAfter(width, column, s[..i]);
            && Expanded(width, column, s[..i + 1]) == Expanded(width, column, s[..i]) + ExpandChar(width, here, s[i])
            && ColumnAfter(width, column, s[..i + 1]) == NextColumn(width, here, s[i])
  {
    assert s[..i + 1] == s[..i] + [s[i]];
    ExpandChunks(width, column, s[..i], [s[i]]);
    var here := ColumnAfter(width, column, s[..i]);
    var next := NextColumn(width, here, s[i]);
    assert [s[i]][1..] == "" && Expanded(width, next, "") == "" && ColumnAfter(width, next, "") == next;
  }

  /** The first `i` characters are expanded to `out` and what follows `pos`; the text printed ends in `column`. */
  predicate Expanding(width: nat, start: nat, s: string, i: nat, pos: nat, out: string, column: nat)
    requires 0 < width
  {
    && pos <= i <= |s|
    && out + s[pos..i] == Expanded(width, start, s[..i])
    && column == ColumnAfter(width, start, s[..i])
  }

  function SpacesToStop(width: nat, column: nat): (n: nat)
    requires 0 < width
    ensures 0 < n <= width
  {
    width - column % width
  }

  lemma TabStep(width: nat, start: nat, s: string, i: nat, next: nat, pos: nat, out: string, column: nat)
    requires 0 < width && next == i + 1 <= |s| && s[i] == '\t' && Expanding(width, start, s, i, pos, out, column)
    ensures var n := SpacesToStop(width, column);
            Expanding(width, start, s, next, next, out + s[pos..i] + Repeat(' ', n), column + n)
  {
    ExpandNext(width, start, s, i);
    assert s[next..next] == "";
  }

  lemma CharStep(width: nat, start: nat, s: string, i: nat, next: nat, pos: nat, out: string, column: nat)
    requires 0 < width && next == i + 1 <= |s| && s[i] != '\t' && Expanding(width, start, s, i, pos, out, column)
    ensures Expanding(width, start, s, next, pos, out, if s[i] == '\n' then 0 else column + 1)
  {
    ExpandNext(width, start, s, i);
    assert s[pos..next] == s[pos..i] + [s[i]];
    assert out + (s[pos..i] + [s[i]]) == (out + s[pos..i]) + [s[i]];
  }

  class Expander {
    const tabWidth: nat
    var charInLine: nat

    constructor (tabWidth: nat)
      ensures this.tabWidth == tabWidth && charInLine == 0
    {
      this.tabWidth, charInLine := tabWidth, 0;
    }

    /** Expands the next chunk of text. */
    method Expand(plainText: string) returns (text: string)
      requires 0 < tabWidth
      modifies this
      ensures text == Expanded(tabWidth, old(charInLine), plainText)
      ensures charInLine == ColumnAfter(tabWidth, old(charInLine), plainText)
    {
      var out, changed, pos := "", false, 0;
      for i := 0 to |plainText|
        invariant Expanding(tabWidth, old(charInLine), plainText, i, pos, out, charInLine)
        invariant !changed ==> pos == 0 && out == ""
      {
        var ch := plainText[i];
        if ch == '\t' {
          TabStep(tabWidth, old(charInLine), plainText, i, i + 1, pos, out, charInLine);
          changed := true;
          out := out + plainText[pos..i];
          var nSpaces := SpacesToStop(tabWidth, charInLine);
          charInLine := charInLine + nSpaces;
          var padding := Padding(nSpaces);
          out := out + padding;
          pos := i + 1;
        } else {
          CharStep(tabWidth, old(charInLine), plainText, i, i + 1, pos, out, charInLine);
          charInLine := if ch == '\n' then 0 else charInLine + 1;
        }
      }
      assert plainText[..|plainText|] == plainText;
      if !changed {
        return plainText;
      }
      text := out + plainText[pos..];
    }
  }

  /** The column counts the characters since the last line end. */
  lemma {:induction false} ColumnOnLine(width: nat, column: nat, line: string)
    requires 0 < width && '\t' !in line && '\n' !in line
    ensures ColumnAfter(width, column, line) == column + |line|
    decreases |line|
  {
    if line != "" {
      ColumnOnLine(width, column + 1, line[1..]);
    }
  }

  lemma ColumnAfterLineEnd(width: nat, column: nat, text: string, line: string)
    requires 0 < width && '\t' !in line && '\n' !in line
    ensures ColumnAfter(width, column, text + "\n" + line) == |line|
  {
    ExpandChunks(width, column, text, "\n");
    ExpandChunks(width, column, text + "\n", line);
    var here := ColumnAfter(width, column, text);
    assert "\n"[1..] == "" && ColumnAfter(width, here, "\n") == 0;
    ColumnOnLine(width, 0, line);
  }

  /** A tab behind `line` becomes the spaces up to the next tab stop, and all other characters stay. */
  lemma TabOnLine(width: nat, text: string, line: string)
    requires 0 < width && '\t' !in line && '\n' !in line
    ensures var n := width - |line| % width;
            && (|line| + n) % width == 0
            && Expanded(width, 0, text + "\n" + line + "\t")
               == Expanded(width, 0, text) + "\n" + line + Repeat(' ', n)
  {
    var start := ColumnAfter(width, 0, text);
    ColumnAfterLineEnd(width, 0, text, line);
    ExpandChunks(width, 0, text + "\n" + line, "\t");
    ExpandChunks(width, 0, text + "\n", line);
    ExpandChunks(width, 0, text, "\n");
    ExpandOne(width, |line|, '\t');
    ExpandOne(width, start, '\n');
    ExpandLine(width, ColumnAfter(width, 0, text + "\n"), line);
    TabStop(width, |line|);
  }

  lemma ExpandOne(width: nat, column: nat, c: char)
    requires 0 < width
    ensures Expanded(width, column, [c]) == ExpandChar(width, column, c)
    ensures ColumnAfter(width, column, [c]) == NextColumn(width, column, c)
  {
    var next := NextColumn(width, column, c);
    assert [c][1..] == "" && Expanded(width, next, "") == "" && ColumnAfter(width, next, "") == next;
  }

  /** Text without tabs stays as it is. */
  lemma {:induction false} ExpandLine(width: nat, column: nat, line: string)
    requires 0 < width && '\t' !in line
    ensures Expanded(width, column, line) == line
    decreases |line|
  {
    if line != "" {
      ExpandLine(width, NextColumn(width, column, line[0]), line[1..]);
    }
  }
}
