/** The printer as a whole (GooglePrettify.js, applyDecorator): the lexer decorates the source, and
    the decorations and tags are put back around it. */
module PrettyPrint {
  import opened TabExpander
  import opened Recombine
  import opened StyledText
  import opened Lexer

  /** Position by position: the tags of the position, then its character in the style that the
      lexer's token at this position has. */
  ghost function LexedReference(lexers: Lexers, id: LexerId, source: string, tags: seq<Mark>, width: nat, k: nat)
    : seq<Item>
    requires WellBehaved(lexers) && 0 < width && k <= |source|
  {
    if k == 0 then [] else
      LexedReference(lexers, id, source, tags, width, k - 1) + TagsAt(tags, k - 1)
      + InStyle(StyleOf(lexers, id, source, k - 1), CharHtml(source, width, k - 1))
  }

  lemma {:induction false} SameReference(lexers: Lexers, id: LexerId, source: string, tags: seq<Mark>,
                                         decorations: seq<Mark>, width: nat, k: nat)
    requires WellBehaved(lexers) && 0 < width && k <= |source|
    requires Paints(lexers, id, source, decorations, 0)
    ensures Reference(Cells(source, width), tags, decorations, k) == LexedReference(lexers, id, source, tags, width, k)
  {
    if k == 0 {
    } else {
      SameReference(lexers, id, source, tags, decorations, width, k - 1);
      var at := k - 1;
      assert StyleAt(decorations, at) == StyleOf(lexers, id, source, at - 0);
      assert Cells(source, width)[at] == CharHtml(source, width, at);
    }
  }

  /** Every character comes out once, in order, in the style of its token, through any nesting of
      embedded languages; tags come out at their positions; spans are closed and not nested. */
  method ApplyDecorator(lexers: Lexers, id: LexerId, source: string, tags: seq<Mark>, width: nat)
    returns (html: seq<Piece>)
    requires WellBehaved(lexers) && 0 < width && Ordered(tags, |source|)
    ensures WellNested(html) && OpenStyle(html) == "" && Compact(html)
    ensures Items(html) == LexedReference(lexers, id, source, tags, width, |source|) + TagsAt(tags, |source|)
  {
    var decorations := Decorate(lexers, id, source, 0);
    DecorationsAreOrdered(decorations, source);
    html := RecombineTagsAndDecorations(source, tags, decorations, width);
    SameReference(lexers, id, source, tags, decorations, width, |source|);
  }
}
