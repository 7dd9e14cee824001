/** The ranges of a regular expression's character set, folded and consolidated
    (GooglePrettify.js, caseFoldCharset). */
module CaseFold {
  import opened Sorting

  /** A range of character codes, both ends included. */
  datatype Range = Range(start: int, end: int)

  predicate Proper(ranges: seq<Range>) {
    forall i :: 0 <= i < |ranges| ==> ranges[i].start <= ranges[i].end
  }

  ghost predicate Covers(ranges: seq<Range>, code: int) {
    exists i :: 0 <= i < |ranges| && ranges[i].start <= code <= ranges[i].end
  }

  /** Between two ranges there is at least one code that neither holds. */
  ghost predicate Separated(ranges: seq<Range>) {
    Proper(ranges) && forall i, j :: 0 <= i < j < |ranges| ==> ranges[i].end + 1 < ranges[j].start
  }

  /** The other case of an ASCII letter. */
  function CaseMate(code: int): int {
    if 65 <= code <= 90 then code + 32 else if 97 <= code <= 122 then code - 32 else code
  }

  /** The ranges hold `code` or its other case. */
  ghost predicate Matches(ranges: seq<Range>, code: int) {
    Covers(ranges, code) || Covers(ranges, CaseMate(code))
  }

  function Max(a: int, b: int): int { if a < b then b else a }

  function Min(a: int, b: int): int { if a < b then a else b }

  /** `code | 32` and `code & ~32`. */
  function SetCaseBit(code: int): int { if code / 32 % 2 == 0 then code + 32 else code }

  function ClearCaseBit(code: int): int { if code / 32 % 2 == 0 then code else code - 32 }

  lemma CoversConcat(a: seq<Range>, b: seq<Range>, code: int)
    ensures Covers(a + b, code) <==> Covers(a, code) || Covers(b, code)
  {
    if i :| 0 <= i < |a| && a[i].start <= code <= a[i].end {
      assert (a + b)[i] == a[i];
    }
    if i :| 0 <= i < |b| && b[i].start <= code <= b[i].end {
      assert (a + b)[|a| + i] == b[i];
    }
  }

  lemma CoversAppend(ranges: seq<Range>, range: Range, code: int)
    ensures Covers(ranges + [range], code) <==> Covers(ranges, code) || range.start <= code <= range.end
  {
    CoversConcat(ranges, [range], code);
    assert Covers([range], code) <==> [range][0].start <= code <= [range][0].end;
  }

  /** The ranges pushed for one range of the set: itself, and the other case of the letters in it. */
  function Variants(range: Range): (variants: seq<Range>)
    requires range.start <= range.end
    ensures Proper(variants)
  {
    [range]
    + (if range.end < 65 || range.start > 90 then []
       else [Range(SetCaseBit(Max(65, range.start)), SetCaseBit(Min(range.end, 90)))])
    + (if range.end < 97 || range.start > 122 then []
       else [Range(ClearCaseBit(Max(97, range.start)), ClearCaseBit(Min(range.end, 122)))])
  }

  lemma VariantsCover(range: Range, c: int)
    requires range.start <= range.end
    ensures Covers(Variants(range), c) <==> range.start <= c <= range.end || range.start <= CaseMate(c) <= range.end
  {
    var v := Variants(range);
    assert v[0] == range;
    if range.start <= CaseMate(c) <= range.end && CaseMate(c) != c {
      assert 65 <= c <= 90 ==> v[|v| - 1].start <= c <= v[|v| - 1].end;
      assert 97 <= c <= 122 ==> v[1].start <= c <= v[1].end;
    }
  }

  /** The loop that collects the ranges of a set. */
  method AddCaseVariants(input: seq<Range>) returns (ranges: seq<Range>)
    requires Proper(input)
    ensures Proper(ranges)
    ensures forall c :: Covers(ranges, c) <==> Matches(input, c)
  {
    ranges := [];
    for i := 0 to |input|
      invariant Proper(ranges)
      invariant forall c :: Covers(ranges, c) <==> Matches(input[..i], c)
    {
      forall c
        ensures Covers(ranges + Variants(input[i]), c) <==> Matches(input[..i + 1], c)
      {
        assert input[..i + 1] == input[..i] + [input[i]];
        CoversConcat(ranges, Variants(input[i]), c);
        VariantsCover(input[i], c);
        CoversAppend(input[..i], input[i], c);
        CoversAppend(input[..i], input[i], CaseMate(c));
      }
      ranges := ranges + Variants(input[i]);
    }
    assert input[..|input|] == input;
  }

  /** The comparator of the sort: by start, longer ranges first. */
  predicate Before(a: Range, b: Range) {
    a.start < b.start || (a.start == b.start && b.end < a.end)
  }

  lemma BeforeOrders()
    ensures Orders(Before)
  {
  }

  lemma SameCover(a: seq<Range>, b: seq<Range>, code: int)
    requires multiset(a) == multiset(b)
    ensures Covers(a, code) <==> Covers(b, code)
  {
    if i :| 0 <= i < |a| && a[i].start <= code <= a[i].end {
      assert a[i] in multiset(b);
    }
    if i :| 0 <= i < |b| && b[i].start <= code <= b[i].end {
      assert b[i] in multiset(a);
    }
  }

  /** Merges sorted ranges that overlap or touch.  The last range is extended in place. */
  method Consolidate(ranges: seq<Range>) returns (out: seq<Range>)
    requires Proper(ranges) && InOrder(Before, ranges)
    ensures Separated(out)
    ensures forall c :: Covers(out, c) <==> Covers(ranges, c)
  {
    out := [];
    for i := 0 to |ranges|
      invariant Separated(out)
      invariant forall c :: Covers(out, c) <==> Covers(ranges[..i], c)
      invariant 0 < |out| && i < |ranges| ==> out[|out| - 1].start <= ranges[i].start
    {
      var range := ranges[i];
      ghost var before := out;
      if 0 < |out| && range.start <= out[|out| - 1].end + 1 {
        var last := out[|out| - 1];
        out := out[|out| - 1 := Range(last.start, Max(last.end, range.end))];
        forall c
          ensures Covers(out, c) <==> Covers(before, c) || range.start <= c <= range.end
        {
          var front := before[..|before| - 1];
          assert before == front + [last] && out == front + [out[|out| - 1]];
          CoversAppend(front, last, c);
          CoversAppend(front, out[|out| - 1], c);
        }
      } else {
        out := out + [range];
        forall c
          ensures Covers(out, c) <==> Covers(before, c) || range.start <= c <= range.end
        {
          CoversAppend(before, range, c);
        }
      }
      assert ranges[..i + 1] == ranges[..i] + [range];
      forall c
        ensures Covers(ranges[..i + 1], c) <==> Covers(ranges[..i], c) || range.start <= c <= range.end
      {
        CoversAppend(ranges[..i], range, c);
      }
    }
    assert ranges[..|ranges|] == ranges;
  }

  /** The ranges of a character set that matches both cases: disjoint, sorted, not touching, and
      holding exactly the codes of the set and their other cases. */
  method FoldCharset(input: seq<Range>) returns (out: seq<Range>)
    requires Proper(input)
    ensures Separated(out)
    ensures forall c :: Covers(out, c) <==> Matches(input, c)
  {
    var ranges := AddCaseVariants(input);
    var sorted := SortBy(Before, ranges);
    BeforeOrders();
    SortByOrders(Before, ranges);
    forall i | 0 <= i < |sorted|
      ensures sorted[i].start <= sorted[i].end
    {
      assert sorted[i] in multiset(ranges);
    }
    out := Consolidate(sorted);
    forall c
      ensures Covers(sorted, c) <==> Covers(ranges, c)
    {
      SameCover(sorted, ranges, c);
    }
  }

  lemma CoversTail(a: seq<Range>, c: int)
    requires Separated(a) && a != []
    ensures Covers(a[1..], c) <==> Covers(a, c) && a[0].end < c
  {
    if Covers(a, c) && a[0].end < c {
      var i :| 0 <= i < |a| && a[i].start <= c <= a[i].end;
      assert a[1..][i - 1] == a[i];
    }
    if Covers(a[1..], c) {
      var i :| 0 <= i < |a[1..]| && a[1..][i].start <= c <= a[1..][i].end;
      assert a[i + 1] == a[1..][i];
    }
  }

  lemma FirstRange(a: seq<Range>, b: seq<Range>)
    requires Separated(a) && Separated(b) && a != [] && b != []
    requires forall c :: Covers(a, c) <==> Covers(b, c)
    ensures a[0].start <= b[0].start && b[0].end <= a[0].end
  {
    assert Covers(b, b[0].start) && Covers(b, b[0].end);
    assert Covers(a, a[0].start);
    var c := Max(a[0].end + 1, b[0].start);
    assert c <= b[0].end ==> Covers(b, c);
  }

  /** Separated ranges are a normal form: they are determined by the codes they hold. */
  lemma {:induction false} NormalForm(a: seq<Range>, b: seq<Range>)
    requires Separated(a) && Separated(b)
    requires forall c :: Covers(a, c) <==> Covers(b, c)
    ensures a == b
  {
    if a == [] || b == [] {
      assert a != [] ==> Covers(a, a[0].start);
      assert b != [] ==> Covers(b, b[0].start);
    } else {
      FirstRange(a, b);
      FirstRange(b, a);
      forall c
        ensures Covers(a[1..], c) <==> Covers(b[1..], c)
      {
        CoversTail(a, c);
        CoversTail(b, c);
      }
      NormalForm(a[1..], b[1..]);
      assert a == [a[0]] + a[1..] && b == [b[0]] + b[1..];
    }
  }

  /** Sets that match the same codes, up to case, are written the same way. */
  lemma FoldIsCanonical(input: seq<Range>, other: seq<Range>, out: seq<Range>, out': seq<Range>)
    requires forall c :: Matches(input, c) <==> Matches(other, c)
    requires Separated(out) && forall c :: Covers(out, c) <==> Matches(input, c)
    requires Separated(out') && forall c :: Covers(out', c) <==> Matches(other, c)
    ensures out == out'
  {
    NormalForm(out, out');
  }
}
