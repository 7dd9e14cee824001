/** What the printed source looks like (GooglePrettify.js, recombineTagsAndDecorations): pieces of
    output, what a reader sees of them, and the reference they are compared with.  Tags and
    decorations are lists of (position, text) pairs; a style "" stands for no style.  The rewriting of
    spaces and line ends is not part of this model. */
module StyledText {
  import opened HtmlEscape
  import opened TabExpander

  datatype Mark = Mark(pos: nat, text: string)

  /** A piece of the output: the start or end of a span, escaped text, or a raw tag. */
  datatype Piece = Open(style: string) | Close | Text(html: string) | Tag(raw: string)

  /** What a reader of the output sees: characters, each in a style, and tags. */
  datatype Item = Styled(style: string, c: char) | Raw(tag: string)

  function StyleAfter(style: string, piece: Piece): string {
    match piece
    case Open(newStyle) => newStyle
    case Close => ""
    case _ => style
  }

  /** Spans do not nest, only an open span is closed, and tags stay outside spans. */
  predicate Fits(style: string, piece: Piece) {
    match piece
    case Open(newStyle) => style == "" && newStyle != ""
    case Close => style != ""
    case Text(_) => true
    case Tag(_) => style == ""
  }

  /** The style of the span that is open at the end of `html`, "" if none is. */
  function OpenStyle(html: seq<Piece>): string {
    if html == [] then "" else StyleAfter(OpenStyle(html[..|html| - 1]), html[|html| - 1])
  }

  predicate WellNested(html: seq<Piece>) {
    html == []
    || (WellNested(html[..|html| - 1]) && Fits(OpenStyle(html[..|html| - 1]), html[|html| - 1]))
  }

  /** A span has text right after its start, and is not ended just to be started again. */
  predicate Follows(html: seq<Piece>, piece: Piece) {
    html == [] ||
    var last := html[|html| - 1];
    && (last.Open? ==> piece.Text? && piece.html != "")
    && (last.Close? && piece.Open? ==> OpenStyle(html[..|html| - 1]) != piece.style)
  }

  /** No span is empty, and no two in a row have one style. */
  predicate Compact(html: seq<Piece>) {
    html == [] || (Compact(html[..|html| - 1]) && Follows(html[..|html| - 1], html[|html| - 1]))
  }

  function InStyle(style: string, text: string): (items: seq<Item>)
    ensures |items| == |text|
  {
    seq(|text|, i requires 0 <= i < |text| => Styled(style, text[i]))
  }

  function PieceItems(style: string, piece: Piece): seq<Item> {
    match piece
    case Text(text) => InStyle(style, text)
    case Tag(raw) => [Raw(raw)]
    case _ => []
  }

  function Items(html: seq<Piece>): seq<Item> {
    if html == [] then [] else Items(html[..|html| - 1]) + PieceItems(OpenStyle(html[..|html| - 1]), html[|html| - 1])
  }

  predicate Ascending(marks: seq<Mark>) {
    forall i, j :: 0 <= i < j < |marks| ==> marks[i].pos <= marks[j].pos
  }

  predicate Ordered(marks: seq<Mark>, limit: nat) {
    && Ascending(marks)
    && (forall i :: 0 <= i < |marks| ==> marks[i].pos <= limit)
  }

  /** The style of the last decoration at or before position `k`. */
  function StyleAt(decorations: seq<Mark>, k: nat): string {
    if decorations == [] then "" else
      var last := decorations[|decorations| - 1];
      if last.pos <= k then last.text else StyleAt(decorations[..|decorations| - 1], k)
  }

  /** The tags at position `k`, in order. */
  function TagsAt(tags: seq<Mark>, k: nat): seq<Item> {
    if tags == [] then [] else
      var last := tags[|tags| - 1];
      TagsAt(tags[..|tags| - 1], k) + if last.pos == k then [Raw(last.text)] else []
  }

  /** The characters that textToHtml escapes. */
  const ESCAPED := {'&', '<', '>'}

  /** Position `k` of the source, escaped, with its tab expanded. */
  function CharHtml(source: string, width: nat, k: nat): string
    requires 0 < width && k < |source|
  {
    Encode(ESCAPED, ExpandChar(width, ColumnAfter(width, 0, source[..k]), source[k]))
  }

  function Cells(source: string, width: nat): (cells: seq<string>)
    requires 0 < width
    ensures |cells| == |source|
  {
    seq(|source|, k requires 0 <= k < |source| => CharHtml(source, width, k))
  }

  function Flat(cells: seq<string>): string {
    if cells == [] then "" else Flat(cells[..|cells| - 1]) + cells[|cells| - 1]
  }

  /** The reference: position by position, first the tags of the position and then its character
      in the style of the last decoration. */
  function Reference(cells: seq<string>, tags: seq<Mark>, decorations: seq<Mark>, k: nat): seq<Item>
    requires k <= |cells|
  {
    if k == 0 then [] else
      Reference(cells, tags, decorations, k - 1) + TagsAt(tags, k - 1)
      + InStyle(StyleAt(decorations, k - 1), cells[k - 1])
  }

  /** The text from `from` to `to`, expanded and escaped. */
  function ChunkHtml(source: string, width: nat, from: nat, to: nat): string
    requires 0 < width && from <= to <= |source|
  {
    Encode(ESCAPED, Expanded(width, ColumnAfter(width, 0, source[..from]), source[from..to]))
  }

  lemma ColumnAfterChunk(source: string, width: nat, from: nat, to: nat)
    requires 0 < width && from <= to <= |source|
    ensures ColumnAfter(width, ColumnAfter(width, 0, source[..from]), source[from..to])
         == ColumnAfter(width, 0, source[..to])
  {
    assert source[..to] == source[..from] + source[from..to];
    ExpandChunks(width, 0, source[..from], source[from..to]);
  }

  lemma ExpandedNext(source: string, width: nat, from: nat, to: nat)
    requires 0 < width && from < to <= |source|
    ensures Expanded(width, ColumnAfter(width, 0, source[..from]), source[from..to])
         == Expanded(width, ColumnAfter(width, 0, source[..from]), source[from..to - 1])
            + ExpandChar(width, ColumnAfter(width, 0, source[..to - 1]), source[to - 1])
  {
    var text, n := source[from..], to - 1 - from;
    assert source[from..to] == text[..n + 1] && source[from..to - 1] == text[..n];
    ColumnAfterChunk(source, width, from, to - 1);
    ExpandNext(width, ColumnAfter(width, 0, source[..from]), text, n);
  }

  lemma ChunkNext(source: string, width: nat, from: nat, to: nat)
    requires 0 < width && from < to <= |source|
    ensures ChunkHtml(source, width, from, to)
         == ChunkHtml(source, width, from, to - 1) + CharHtml(source, width, to - 1)
  {
    ExpandedNext(source, width, from, to);
    EncodeConcat(ESCAPED, Expanded(width, ColumnAfter(width, 0, source[..from]), source[from..to - 1]),
                 ExpandChar(width, ColumnAfter(width, 0, source[..to - 1]), source[to - 1]));
  }

  lemma FlatNext(cells: seq<string>, from: nat, to: nat)
    requires from < to <= |cells|
    ensures Flat(cells[from..to]) == Flat(cells[from..to - 1]) + cells[to - 1]
  {
    assert cells[from..to][..to - 1 - from] == cells[from..to - 1];
  }

  /** Escaping and expanding the chunk gives the cells of its positions. */
  ghost predicate IsCells(source: string, width: nat, from: nat, to: nat)
    requires 0 < width && from <= to <= |source|
  {
    ChunkHtml(source, width, from, to) == Flat(Cells(source, width)[from..to])
  }

  lemma OneMoreCell(source: string, width: nat, from: nat, to: nat)
    requires 0 < width && from < to <= |source| && IsCells(source, width, from, to - 1)
    ensures IsCells(source, width, from, to)
  {
    ChunkNext(source, width, from, to);
    FlatNext(Cells(source, width), from, to);
  }

  lemma {:induction false} ChunkIsCells(source: string, width: nat, from: nat, to: nat)
    requires 0 < width && from <= to <= |source|
    ensures IsCells(source, width, from, to)
  {
    if from == to {
      assert source[from..to] == "" && Cells(source, width)[from..to] == [];
    } else {
      ChunkIsCells(source, width, from, to - 1);
      OneMoreCell(source, width, from, to);
    }
  }

  lemma TextOfChunk(source: string, width: nat, from: nat, to: nat)
    requires 0 < width && from <= to <= |source|
    ensures TextToHtml(Expanded(width, ColumnAfter(width, 0, source[..from]), source[from..to]))
         == Flat(Cells(source, width)[from..to])
  {
    EncodedText(Expanded(width, ColumnAfter(width, 0, source[..from]), source[from..to]));
    ChunkIsCells(source, width, from, to);
  }

  lemma InStyleConcat(style: string, a: string, b: string)
    ensures InStyle(style, a + b) == InStyle(style, a) + InStyle(style, b)
  {
  }

  /** From `from` to `to` the reference is one chunk in one style. */
  ghost predicate IsChunk(cells: seq<string>, tags: seq<Mark>, decorations: seq<Mark>, from: nat, to: nat,
                          style: string)
    requires from <= to <= |cells|
  {
    Reference(cells, tags, decorations, to)
    == Reference(cells, tags, decorations, from) + TagsAt(tags, from) + InStyle(style, Flat(cells[from..to]))
  }

  lemma ChunkOfOne(cells: seq<string>, tags: seq<Mark>, decorations: seq<Mark>, from: nat, to: nat)
    requires to == from + 1 <= |cells|
    ensures IsChunk(cells, tags, decorations, from, to, StyleAt(decorations, from))
  {
    FlatNext(cells, from, to);
    assert cells[from..from] == [] && "" + cells[from] == cells[from];
  }

  lemma ReferenceNext(cells: seq<string>, tags: seq<Mark>, decorations: seq<Mark>, k: nat, next: nat)
    requires next == k + 1 <= |cells| && TagsAt(tags, k) == []
    ensures Reference(cells, tags, decorations, next)
         == Reference(cells, tags, decorations, k) + InStyle(StyleAt(decorations, k), cells[k])
  {
    assert Reference(cells, tags, decorations, k) + [] == Reference(cells, tags, decorations, k);
  }

  lemma StyledTwice(before: seq<Item>, style: string, a: string, b: string)
    ensures before + InStyle(style, a) + InStyle(style, b) == before + InStyle(style, a + b)
  {
    InStyleConcat(style, a, b);
  }

  lemma ChunkWithNext(cells: seq<string>, tags: seq<Mark>, decorations: seq<Mark>, from: nat, last: nat, to: nat)
    requires to == last + 1 <= |cells| && from <= last && TagsAt(tags, last) == []
    requires IsChunk(cells, tags, decorations, from, last, StyleAt(decorations, last))
    ensures IsChunk(cells, tags, decorations, from, to, StyleAt(decorations, last))
  {
    FlatNext(cells, from, to);
    ReferenceNext(cells, tags, decorations, last, to);
    StyledTwice(Reference(cells, tags, decorations, from) + TagsAt(tags, from), StyleAt(decorations, last),
                Flat(cells[from..last]), cells[last]);
  }

  /** Between two marks the reference is one chunk in one style. */
  lemma {:induction false} ReferenceChunk(cells: seq<string>, tags: seq<Mark>, decorations: seq<Mark>,
                                          from: nat, to: nat, style: string)
    requires from < to <= |cells|
    requires forall k :: from <= k < to ==> StyleAt(decorations, k) == style
    requires forall k :: from < k < to ==> TagsAt(tags, k) == []
    ensures IsChunk(cells, tags, decorations, from, to, style)
  {
    if from == to - 1 {
      ChunkOfOne(cells, tags, decorations, from, to);
    } else {
      ReferenceChunk(cells, tags, decorations, from, to - 1, style);
      ChunkWithNext(cells, tags, decorations, from, to - 1, to);
    }
  }

  /** Decorations behind `k` do not matter. */
  lemma {:induction false} StyleOfPrefix(decorations: seq<Mark>, d: nat, k: nat)
    requires d <= |decorations|
    requires forall i :: 0 <= i < d ==> decorations[i].pos <= k
    requires forall i :: d <= i < |decorations| ==> k < decorations[i].pos
    ensures StyleAt(decorations, k) == if d == 0 then "" else decorations[d - 1].text
  {
    if d == |decorations| {
    } else {
      StyleOfPrefix(decorations[..|decorations| - 1], d, k);
    }
  }

  lemma {:induction false} TagsOfPrefix(tags: seq<Mark>, t: nat, k: nat)
    requires t <= |tags| && forall i :: t <= i < |tags| ==> k != tags[i].pos
    ensures TagsAt(tags, k) == TagsAt(tags[..t], k)
  {
    if t < |tags| {
      var front := tags[..|tags| - 1];
      TagsOfPrefix(front, t, k);
      assert front[..t] == tags[..t];
    } else {
      assert tags[..t] == tags;
    }
  }

  /** The first `n` marks are not behind `idx`, the others not before it. */
  predicate Between(marks: seq<Mark>, n: nat, idx: nat) {
    && n <= |marks|
    && (forall i :: 0 <= i < n ==> marks[i].pos <= idx)
    && (forall i :: n <= i < |marks| ==> idx <= marks[i].pos)
  }

  /** The mark with the lower position is next. */
  lemma MarkIsNext(marks: seq<Mark>, n: nat, others: seq<Mark>, m: nat, idx: nat)
    requires Ascending(marks) && Ascending(others) && Between(marks, n, idx) && Between(others, m, idx)
    requires n < |marks| && (m < |others| ==> marks[n].pos <= others[m].pos)
    ensures Between(marks, n, marks[n].pos) && Between(others, m, marks[n].pos)
  {
  }

  lemma BetweenNext(marks: seq<Mark>, n: nat)
    requires n < |marks| && Between(marks, n, marks[n].pos)
    ensures Between(marks, n + 1, marks[n].pos)
  {
  }

  /** The style after the first `d` decorations. */
  function StyleAfterMarks(decorations: seq<Mark>, d: nat): string
    requires d <= |decorations|
  {
    if d == 0 then "" else decorations[d - 1].text
  }

  /** What has been written when the text is written up to `k` and `t` tags are. */
  function RefWith(cells: seq<string>, tags: seq<Mark>, decorations: seq<Mark>, t: nat, k: nat): seq<Item>
    requires k <= |cells| && t <= |tags|
  {
    Reference(cells, tags, decorations, k) + TagsAt(tags[..t], k)
  }

  lemma NextTag(cells: seq<string>, tags: seq<Mark>, decorations: seq<Mark>, t: nat)
    requires t < |tags| && tags[t].pos <= |cells|
    ensures RefWith(cells, tags, decorations, t + 1, tags[t].pos)
         == RefWith(cells, tags, decorations, t, tags[t].pos) + [Raw(tags[t].text)]
  {
    assert tags[..t + 1][..t] == tags[..t];
  }

  /** Emitting up to the next mark extends the reference accordingly. */
  lemma EmittedChunk(cells: seq<string>, tags: seq<Mark>, decorations: seq<Mark>, t: nat, d: nat, from: nat, to: nat)
    requires from <= to <= |cells|
    requires Between(tags, t, from) && Between(decorations, d, from)
    requires forall i :: t <= i < |tags| ==> to <= tags[i].pos
    requires forall i :: d <= i < |decorations| ==> to <= decorations[i].pos
    ensures RefWith(cells, tags, decorations, t, to)
         == RefWith(cells, tags, decorations, t, from) + InStyle(StyleAfterMarks(decorations, d), Flat(cells[from..to]))
  {
    if from < to {
      forall k | from <= k < to
        ensures StyleAt(decorations, k) == StyleAfterMarks(decorations, d)
        ensures TagsAt(tags, k) == TagsAt(tags[..t], k)
      {
        StyleOfPrefix(decorations, d, k);
        TagsOfPrefix(tags, t, k);
      }
      forall k | from < k <= to
        ensures TagsAt(tags[..t], k) == []
      {
        TagsOfPrefix(tags[..t], 0, k);
        assert tags[..t][..0] == [];
      }
      ReferenceChunk(cells, tags, decorations, from, to, StyleAfterMarks(decorations, d));
    } else {
      assert cells[from..to] == [];
    }
  }

  /** A reader of the output sees what the reference says, and the tags behind the last character. */
  ghost predicate Recombined(source: string, tags: seq<Mark>, decorations: seq<Mark>, width: nat, html: seq<Piece>)
    requires 0 < width
  {
    Items(html) == Reference(Cells(source, width), tags, decorations, |source|) + TagsAt(tags, |source|)
  }

  lemma {:induction false} EncodeIsLonger(escaped: set<char>, s: string)
    ensures |s| <= |Encode(escaped, s)|
  {
    if s != "" {
      EncodeIsLonger(escaped, s[1..]);
    }
  }

  lemma {:induction false} ExpandedIsLonger(width: nat, column: nat, s: string)
    requires 0 < width
    ensures |s| <= |Expanded(width, column, s)|
    decreases s
  {
    if s != "" {
      ExpandedIsLonger(width, NextColumn(width, column, s[0]), s[1..]);
    }
  }

  /** Text comes out as text. */
  lemma ChunkHasText(width: nat, column: nat, s: string)
    requires 0 < width && s != ""
    ensures TextToHtml(Expanded(width, column, s)) != ""
  {
    ExpandedIsLonger(width, column, s);
    EncodedText(Expanded(width, column, s));
    EncodeIsLonger({'&', '<', '>'}, Expanded(width, column, s));
  }
}
