/** Putting decorations and tags back around the source text (GooglePrettify.js,
    recombineTagsAndDecorations). */
module Recombine {
  import opened HtmlEscape
  import opened StyledText
  import opened TabExpander

  class Printer {
    const source: string
    const tabExpander: Expander
    ghost const cells: seq<string>
    var html: seq<Piece>
    var outputIdx: nat
    var openDecoration: string
    var currentDecoration: string

    constructor (source: string, width: nat, ghost tags: seq<Mark>, ghost decorations: seq<Mark>)
      requires 0 < width
      ensures Progress(tags, decorations, 0, 0) && fresh(tabExpander)
      ensures this.source == source && cells == Cells(source, width)
    {
      this.source := source;
      var expander := new Expander(width);
      cells := Cells(source, width);
      tabExpander := expander;
      html, outputIdx, openDecoration, currentDecoration := [], 0, "", "";
      new;
      assert source[..0] == "" && tags[..0] == [];
    }

    ghost predicate Valid()
      reads this, tabExpander
    {
      && 0 < tabExpander.tabWidth
      && cells == Cells(source, tabExpander.tabWidth)
      && outputIdx <= |source|
      && WellNested(html)
      && Compact(html)
      && openDecoration == OpenStyle(html)
      && tabExpander.charInLine == ColumnAfter(tabExpander.tabWidth, 0, source[..outputIdx])
    }

    /** The output so far ends in text or in a tag. */
    ghost predicate Settled()
      reads this
    {
      html == [] || html[|html| - 1].Text? || html[|html| - 1].Tag?
    }

    method Push(piece: Piece)
      modifies this`html
      ensures html == old(html) + [piece]
      ensures OpenStyle(html) == StyleAfter(old(OpenStyle(html)), piece)
      ensures WellNested(html) == (old(WellNested(html)) && Fits(old(OpenStyle(html)), piece))
      ensures Compact(html) == (old(Compact(html)) && Follows(old(html), piece))
      ensures Items(html) == old(Items(html)) + PieceItems(old(OpenStyle(html)), piece)
    {
      html := html + [piece];
      assert html[..|html| - 1] == old(html);
    }

    /** Makes the current style the open span. */
    method SwitchSpan()
      requires Valid() && Settled()
      modifies this
      ensures Valid() && Items(html) == old(Items(html))
      ensures openDecoration == currentDecoration == old(currentDecoration) && outputIdx == old(outputIdx)
    {
      if openDecoration != "" && openDecoration != currentDecoration {
        Push(Close);
        openDecoration := "";
      }
      if openDecoration == "" && currentDecoration != "" {
        openDecoration := currentDecoration;
        Push(Open(openDecoration));
      }
    }

    /** Writes the source up to `sourceIdx` in the current style. */
    method EmitTextUpTo(sourceIdx: nat)
      requires Valid() && Settled() && sourceIdx <= |source|
      modifies this, tabExpander
      ensures Valid() && Settled() && currentDecoration == old(currentDecoration)
      ensures outputIdx == if sourceIdx > old(outputIdx) then sourceIdx else old(outputIdx)
      ensures Items(html) == old(Items(html)) + InStyle(currentDecoration, Flat(cells[old(outputIdx)..outputIdx]))
    {
      if sourceIdx > outputIdx {
        SwitchSpan();
        ChunkHasText(tabExpander.tabWidth, tabExpander.charInLine, source[outputIdx..sourceIdx]);
        var plain := tabExpander.Expand(source[outputIdx..sourceIdx]);
        TextOfChunk(source, tabExpander.tabWidth, outputIdx, sourceIdx);
        ColumnAfterChunk(source, tabExpander.tabWidth, outputIdx, sourceIdx);
        Push(Text(TextToHtml(plain)));
        outputIdx := sourceIdx;
      } else {
        assert cells[outputIdx..outputIdx] == [];
      }
    }

    /** `t` tags and `d` decorations are consumed, and the output agrees with the reference. */
    ghost predicate Progress(tags: seq<Mark>, decorations: seq<Mark>, t: nat, d: nat)
      reads this, tabExpander
    {
      && Valid() && Settled()
      && Between(tags, t, outputIdx)
      && Between(decorations, d, outputIdx)
      && currentDecoration == StyleAfterMarks(decorations, d)
      && Items(html) == RefWith(cells, tags, decorations, t, outputIdx)
    }

    method AdvanceTo(pos: nat, ghost tags: seq<Mark>, ghost decorations: seq<Mark>, ghost t: nat, ghost d: nat)
      requires Progress(tags, decorations, t, d) && outputIdx <= pos <= |source|
      requires Between(tags, t, pos) && Between(decorations, d, pos)
      modifies this, tabExpander
      ensures Progress(tags, decorations, t, d) && outputIdx == pos
    {
      EmittedChunk(cells, tags, decorations, t, d, outputIdx, pos);
      EmitTextUpTo(pos);
    }

    /** Consumes the next tag: writes the text before it, then the tag outside all spans. */
    method ConsumeTag(tags: seq<Mark>, decorations: seq<Mark>, t: nat, ghost d: nat)
      requires Progress(tags, decorations, t, d) && t < |tags| && tags[t].pos <= |source|
      requires Between(tags, t, tags[t].pos) && Between(decorations, d, tags[t].pos)
      modifies this, tabExpander
      ensures Progress(tags, decorations, t + 1, d)
    {
      AdvanceTo(tags[t].pos, tags, decorations, t, d);
      CloseSpan();
      Push(Tag(tags[t].text));
      NextTag(cells, tags, decorations, t);
    }

    /** Consumes the next decoration: writes the text before it in the style so far. */
    method ConsumeDecoration(ghost tags: seq<Mark>, decorations: seq<Mark>, ghost t: nat, d: nat)
      requires Progress(tags, decorations, t, d) && d < |decorations| && decorations[d].pos <= |source|
      requires Between(tags, t, decorations[d].pos) && Between(decorations, d, decorations[d].pos)
      modifies this, tabExpander
      ensures Progress(tags, decorations, t, d + 1)
    {
      AdvanceTo(decorations[d].pos, tags, decorations, t, d);
      BetweenNext(decorations, d);
      currentDecoration := decorations[d].text;
    }

    /** Consumes the mark with the lower position; of two at one position, the tag. */
    method ConsumeNext(tags: seq<Mark>, decorations: seq<Mark>, t: nat, d: nat) returns (tagPos: nat, decPos: nat)
      requires Progress(tags, decorations, t, d) && (t < |tags| || d < |decorations|)
      requires Ordered(tags, |source|) && Ordered(decorations, |source|)
      modifies this, tabExpander
      ensures Progress(tags, decorations, tagPos, decPos)
      ensures (tagPos == t + 1 && decPos == d) || (tagPos == t && decPos == d + 1)
    {
      tagPos, decPos := t, d;
      var outputTag := t < |tags| && (d < |decorations| ==> tags[t].pos <= decorations[d].pos);
      if outputTag {
        MarkIsNext(tags, t, decorations, d, outputIdx);
        ConsumeTag(tags, decorations, t, d);
        tagPos := tagPos + 1;
      } else {
        MarkIsNext(decorations, d, tags, t, outputIdx);
        ConsumeDecoration(tags, decorations, t, d);
        decPos := decPos + 1;
      }
    }

    /** The loop over all marks. */
    method ConsumeAll(tags: seq<Mark>, decorations: seq<Mark>)
      requires Progress(tags, decorations, 0, 0)
      requires Ordered(tags, |source|) && Ordered(decorations, |source|)
      modifies this, tabExpander
      ensures Progress(tags, decorations, |tags|, |decorations|)
    {
      var tagPos: nat, decPos: nat := 0, 0;
      while tagPos < |tags| || decPos < |decorations|
        invariant Progress(tags, decorations, tagPos, decPos)
        decreases |tags| - tagPos + |decorations| - decPos
      {
        tagPos, decPos := ConsumeNext(tags, decorations, tagPos, decPos);
      }
    }

    /** Writes the rest of the source and ends the open span. */
    method Finish(ghost tags: seq<Mark>, ghost decorations: seq<Mark>)
      requires Progress(tags, decorations, |tags|, |decorations|)
      modifies this, tabExpander
      ensures WellNested(html) && OpenStyle(html) == "" && Compact(html)
      ensures Items(html) == Reference(cells, tags, decorations, |source|) + TagsAt(tags, |source|)
    {
      AdvanceTo(|source|, tags, decorations, |tags|, |decorations|);
      CloseSpan();
      assert tags[..|tags|] == tags;
    }

    /** Ends the open span, if there is one. */
    method CloseSpan()
      requires Valid() && Settled()
      modifies this
      ensures Valid() && openDecoration == "" && Items(html) == old(Items(html))
      ensures currentDecoration == old(currentDecoration) && outputIdx == old(outputIdx)
    {
      if openDecoration != "" {
        Push(Close);
        openDecoration := "";
      }
    }
  }

  /** Every character of the source comes out once, in order, escaped and in the style of the last
      decoration at or before it; every tag comes out at its position, outside all spans; and all
      spans are closed. */
  method RecombineTagsAndDecorations(source: string, tags: seq<Mark>, decorations: seq<Mark>, width: nat)
    returns (html: seq<Piece>)
    requires 0 < width && Ordered(tags, |source|) && Ordered(decorations, |source|)
    ensures WellNested(html) && OpenStyle(html) == "" && Compact(html)
    ensures Recombined(source, tags, decorations, width, html)
  {
    var printer := new Printer(source, width, tags, decorations);
    printer.ConsumeAll(tags, decorations);
    printer.Finish(tags, decorations);
    html := printer.html;
  }
}
