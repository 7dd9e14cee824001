/** What a reader finds in the printed source: all of the text, and all of the tags. */
module StyledOutput {
  import opened HtmlEscape
  import opened StyledText
  import opened TabExpander

  /** The characters a reader sees. */
  function Chars(items: seq<Item>): string {
    if items == [] then "" else
      Chars(items[..|items| - 1]) +
      match items[|items| - 1]
      case Styled(_, c) => [c]
      case Raw(_) => ""
  }

  lemma {:induction false} CharsConcat(a: seq<Item>, b: seq<Item>)
    ensures Chars(a + b) == Chars(a) + Chars(b)
  {
    if b == [] {
      assert a + b == a;
    } else {
      assert (a + b)[..|a + b| - 1] == a + b[..|b| - 1];
      CharsConcat(a, b[..|b| - 1]);
    }
  }

  lemma {:induction false} CharsInStyle(style: string, text: string)
    ensures Chars(InStyle(style, text)) == text
  {
    if text == "" {
    } else {
      assert InStyle(style, text)[..|text| - 1] == InStyle(style, text[..|text| - 1]);
      CharsInStyle(style, text[..|text| - 1]);
    }
  }

  lemma {:induction false} CharsOfTags(tags: seq<Mark>, k: nat)
    ensures Chars(TagsAt(tags, k)) == ""
  {
    if tags == [] {
    } else {
      CharsOfTags(tags[..|tags| - 1], k);
      var last := tags[|tags| - 1];
      CharsConcat(TagsAt(tags[..|tags| - 1], k), if last.pos == k then [Raw(last.text)] else []);
    }
  }

  ghost predicate Reads(items: seq<Item>, text: string) {
    Chars(items) == text
  }

  lemma ReadsMore(items: seq<Item>, here: seq<Item>, style: string, cell: string, text: string)
    requires Reads(items, text) && Chars(here) == ""
    ensures Reads(items + here + InStyle(style, cell), text + cell)
  {
    CharsConcat(items, here);
    CharsConcat(items + here, InStyle(style, cell));
    CharsInStyle(style, cell);
  }

  lemma {:induction false} CharsOfReference(cells: seq<string>, tags: seq<Mark>, decorations: seq<Mark>, k: nat)
    requires k <= |cells|
    ensures Reads(Reference(cells, tags, decorations, k), Flat(cells[..k]))
  {
    if k == 0 {
    } else {
      CharsOfReference(cells, tags, decorations, k - 1);
      CharsOfTags(tags, k - 1);
      var items, here := Reference(cells, tags, decorations, k - 1), TagsAt(tags, k - 1);
      var style, cell := StyleAt(decorations, k - 1), cells[k - 1];
      ReadsMore(items, here, style, cell, Flat(cells[..k - 1]));
      FlatNext(cells, 0, k);
      assert cells[0..k] == cells[..k] && cells[0..k - 1] == cells[..k - 1];
      assert Reference(cells, tags, decorations, k) == items + here + InStyle(style, cell);
    }
  }

  /** Unescaping what a reader sees of the output gives the source back, its tabs expanded. */
  lemma OutputReadsAsSource(source: string, tags: seq<Mark>, decorations: seq<Mark>, width: nat, html: seq<Piece>,
                            reader: NumberReader)
    requires 0 < width
    requires Recombined(source, tags, decorations, width, html)
    ensures Chars(Items(html)) == TextToHtml(Expanded(width, 0, source))
    ensures UnescapeEntities(ResolveNumeric(Chars(Items(html)), 0, reader)) == Expanded(width, 0, source)
  {
    var cells := Cells(source, width);
    CharsConcat(Reference(cells, tags, decorations, |source|), TagsAt(tags, |source|));
    CharsOfReference(cells, tags, decorations, |source|);
    CharsOfTags(tags, |source|);
    ChunkIsCells(source, width, 0, |source|);
    assert cells[0..|source|] == cells[..|source|] && source[0..|source|] == source && source[..0] == "";
    EncodedText(Expanded(width, 0, source));
    RoundTrip(Expanded(width, 0, source), reader);
  }

  /** The tags a reader sees. */
  function Tags(items: seq<Item>): seq<string> {
    if items == [] then [] else
      Tags(items[..|items| - 1]) +
      match items[|items| - 1]
      case Styled(_, _) => []
      case Raw(tag) => [tag]
  }

  function Texts(marks: seq<Mark>): seq<string> {
    if marks == [] then [] else Texts(marks[..|marks| - 1]) + [marks[|marks| - 1].text]
  }

  lemma {:induction false} TagsConcat(a: seq<Item>, b: seq<Item>)
    ensures Tags(a + b) == Tags(a) + Tags(b)
  {
    if b == [] {
      assert a + b == a;
    } else {
      assert (a + b)[..|a + b| - 1] == a + b[..|b| - 1];
      TagsConcat(a, b[..|b| - 1]);
    }
  }

  lemma {:induction false} NoTagsInStyle(style: string, text: string)
    ensures Tags(InStyle(style, text)) == []
  {
    if text == "" {
    } else {
      assert InStyle(style, text)[..|text| - 1] == InStyle(style, text[..|text| - 1]);
      NoTagsInStyle(style, text[..|text| - 1]);
    }
  }

  function TagsBefore(tags: seq<Mark>, k: nat): seq<Mark> {
    if tags == [] then [] else
      var last := tags[|tags| - 1];
      TagsBefore(tags[..|tags| - 1], k) + if last.pos < k then [last] else []
  }

  lemma {:induction false} NoTagsAt(tags: seq<Mark>, k: nat)
    requires forall i :: 0 <= i < |tags| ==> tags[i].pos < k
    ensures TagsAt(tags, k) == []
  {
    if tags == [] {
    } else {
      NoTagsAt(tags[..|tags| - 1], k);
    }
  }

  lemma {:induction false} AllTagsBefore(tags: seq<Mark>, k: nat)
    requires forall i :: 0 <= i < |tags| ==> tags[i].pos < k
    ensures TagsBefore(tags, k) == tags
  {
    if tags == [] {
    } else {
      var front, last := tags[..|tags| - 1], tags[|tags| - 1];
      AllTagsBefore(front, k);
      assert front + [last] == tags;
    }
  }

  ghost predicate AddsTags(before: seq<Mark>, here: seq<Item>, after: seq<Mark>) {
    Texts(after) == Texts(before) + Tags(here)
  }

  lemma OneMoreTag(items: seq<Item>, tag: string)
    ensures Tags(items + [Raw(tag)]) == Tags(items) + [tag]
  {
    assert (items + [Raw(tag)])[..|items|] == items;
  }

  lemma TextsNext(marks: seq<Mark>, mark: Mark)
    ensures Texts(marks + [mark]) == Texts(marks) + [mark.text]
  {
    assert (marks + [mark])[..|marks|] == marks;
  }

  lemma AddsOneMore(before: seq<Mark>, here: seq<Item>, after: seq<Mark>, tag: Mark)
    requires AddsTags(before, here, after)
    ensures AddsTags(before, here + [Raw(tag.text)], after + [tag])
  {
    TextsNext(after, tag);
    OneMoreTag(here, tag.text);
    assert (Texts(before) + Tags(here)) + [tag.text] == Texts(before) + (Tags(here) + [tag.text]);
  }

  /** Of ordered tags, those at `k` follow those before `k`. */
  lemma {:induction false} TagsBeforeNext(tags: seq<Mark>, k: nat, next: nat)
    requires next == k + 1
    requires Ascending(tags)
    ensures AddsTags(TagsBefore(tags, k), TagsAt(tags, k), TagsBefore(tags, next))
  {
    if tags == [] {
    } else {
      var front, last := tags[..|tags| - 1], tags[|tags| - 1];
      if last.pos < k {
        AllTagsBefore(tags, k);
        AllTagsBefore(tags, next);
        NoTagsAt(tags, k);
      } else {
        TagsBeforeNext(front, k, next);
        assert TagsBefore(tags, k) == TagsBefore(front, k);
        if last.pos == k {
          AddsOneMore(TagsBefore(front, k), TagsAt(front, k), TagsBefore(front, next), last);
        } else {
          assert TagsBefore(tags, next) == TagsBefore(front, next) && TagsAt(tags, k) == TagsAt(front, k);
        }
      }
    }
  }

  ghost predicate ShowsTags(items: seq<Item>, tags: seq<Mark>) {
    Tags(items) == Texts(tags)
  }

  lemma ShowsMore(items: seq<Item>, here: seq<Item>, style: string, cell: string, before: seq<Mark>, after: seq<Mark>)
    requires ShowsTags(items, before) && AddsTags(before, here, after)
    ensures ShowsTags(items + here + InStyle(style, cell), after)
  {
    TagsConcat(items, here);
    TagsConcat(items + here, InStyle(style, cell));
    NoTagsInStyle(style, cell);
  }

  lemma {:induction false} NothingBefore(tags: seq<Mark>)
    ensures TagsBefore(tags, 0) == []
  {
    if tags == [] {
    } else {
      NothingBefore(tags[..|tags| - 1]);
    }
  }

  lemma {:induction false} TagsOfReference(cells: seq<string>, tags: seq<Mark>, decorations: seq<Mark>, k: nat)
    requires k <= |cells|
    requires Ascending(tags)
    ensures ShowsTags(Reference(cells, tags, decorations, k), TagsBefore(tags, k))
  {
    if k == 0 {
      NothingBefore(tags);
    } else {
      TagsOfReference(cells, tags, decorations, k - 1);
      TagsBeforeNext(tags, k - 1, k);
      var items, here := Reference(cells, tags, decorations, k - 1), TagsAt(tags, k - 1);
      var style, cell := StyleAt(decorations, k - 1), cells[k - 1];
      ShowsMore(items, here, style, cell, TagsBefore(tags, k - 1), TagsBefore(tags, k));
      assert Reference(cells, tags, decorations, k) == items + here + InStyle(style, cell);
    }
  }

  /** The output has every tag once, in order. */
  lemma OutputHasAllTags(source: string, tags: seq<Mark>, decorations: seq<Mark>, width: nat, html: seq<Piece>)
    requires 0 < width && Ordered(tags, |source|)
    requires Recombined(source, tags, decorations, width, html)
    ensures Tags(Items(html)) == Texts(tags)
  {
    var cells := Cells(source, width);
    TagsOfReference(cells, tags, decorations, |source|);
    TagsBeforeNext(tags, |source|, |source| + 1);
    AllTagsBefore(tags, |source| + 1);
    TagsConcat(Reference(cells, tags, decorations, |source|), TagsAt(tags, |source|));
  }
}
