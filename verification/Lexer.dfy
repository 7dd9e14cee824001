/** The recursive lexer (GooglePrettify.js, createSimpleLexer's decorate and appendDecorations).
    The regular expressions are abstract: a lexer splits a text into tokens, and classifies each. */
module Lexer {
  import HtmlEscape
  import opened Options
  import opened StyledText

  const PR_PLAIN := "pln"

  type LexerId = nat

  /** A token has a style, or embeds a text in another language: the first group of the match,
      followed by the second group if that one is not empty. */
  datatype Class = Plain(style: string) | Embedded(lang: string, group1: string, group2: string)

  /** The registered lexers, what their patterns match, and which handler a language has. */
  datatype Lexers = Lexers(
    tokenize: (LexerId, string) -> seq<string>,
    classify: (LexerId, string) -> Class,
    handler: (string, string) -> LexerId,
    rank: LexerId -> nat)

  function Join(tokens: seq<string>): string {
    if tokens == [] then "" else tokens[0] + Join(tokens[1..])
  }

  /** Where the embedded text starts and ends in its token. */
  function Span(token: string, m: Class): (int, int)
    requires m.Embedded?
  {
    if m.group2 != "" then
      (|token| - |m.group2| - |m.group1|, |token| - |m.group2|)
    else
      var start := HtmlEscape.IndexOf(token, m.group1, 0);
      (start, start + |m.group1|)
  }

  /** The embedded text is what stands before the second group at the end of the token, or, without a second
      group, the first place in the token where the first group occurs. */
  lemma SpanOfGroups(token: string, m: Class, before: string, after: string)
    requires m.Embedded? && token == before + m.group1 + after
    requires m.group2 != "" ==> after == m.group2
    requires m.group2 == "" ==> forall j :: 0 <= j < |before| ==> !HtmlEscape.At(token, j, m.group1)
    ensures Span(token, m) == (|before|, |before| + |m.group1|)
  {
    assert HtmlEscape.At(token, |before|, m.group1);
  }

  /** Tokens are not empty and make up the text. */
  ghost predicate Tokenizes(lexers: Lexers, id: LexerId) {
    forall s :: Join(lexers.tokenize(id, s)) == s
                && forall i :: 0 <= i < |lexers.tokenize(id, s)| ==> lexers.tokenize(id, s)[i] != ""
  }

  /** What a match must satisfy for the lexer to end: the embedded text lies in the token, neither
      side of it is the whole token again, and if it is the whole token itself, then it goes to a
      handler of lower rank. */
  ghost predicate Embeds(lexers: Lexers, id: LexerId, token: string) {
    var m := lexers.classify(id, token);
    m.Embedded? ==>
      var (start, end) := Span(token, m);
      && 0 <= start <= end <= |token|
      && start < |token|
      && 0 < end
      && token[start..end] == m.group1
      && (m.group1 == token ==> lexers.rank(lexers.handler(m.lang, token)) < lexers.rank(id))
  }

  ghost predicate WellBehaved(lexers: Lexers) {
    && (forall id :: Tokenizes(lexers, id))
    && (forall id, token :: token != "" ==> Embeds(lexers, id, token))
  }

  ghost function StyleInTokens(lexers: Lexers, id: LexerId, tokens: seq<string>, k: nat): string
    requires WellBehaved(lexers) && k < |Join(tokens)|
    requires forall i :: 0 <= i < |tokens| ==> tokens[i] != ""
    decreases |Join(tokens)|, lexers.rank(id), 1, |tokens|
  {
    if k < |tokens[0]| then StyleInToken(lexers, id, tokens[0], k)
    else StyleInTokens(lexers, id, tokens[1..], k - |tokens[0]|)
  }

  /** The reference: the style of position `k` of a text.  It is that of the token it is in, or, in
      a token that embeds a text, what the position has in the part it is in. */
  ghost function StyleOf(lexers: Lexers, id: LexerId, source: string, k: nat): string
    requires WellBehaved(lexers) && k < |source|
    decreases |source|, lexers.rank(id), 2, 0
  {
    assert Tokenizes(lexers, id);
    StyleInTokens(lexers, id, lexers.tokenize(id, source), k)
  }

  ghost function StyleInToken(lexers: Lexers, id: LexerId, token: string, k: nat): string
    requires WellBehaved(lexers) && k < |token|
    decreases |token|, lexers.rank(id), 0, 0
  {
    assert Embeds(lexers, id, token);
    match lexers.classify(id, token)
    case Plain(style) => style
    case Embedded(lang, group1, _) =>
      var (start, end) := Span(token, lexers.classify(id, token));
      if k < start then StyleOf(lexers, id, token[..start], k)
      else if k < end then StyleOf(lexers, lexers.handler(lang, group1), group1, k - start)
      else StyleOf(lexers, id, token[end..], k - end)
  }

  /** Decorations of a stretch of `len` positions from `at` on: in order, inside the stretch, and
      starting where it starts. */
  predicate Tiles(decorations: seq<Mark>, at: nat, len: nat) {
    && (forall i, j :: 0 <= i < j < |decorations| ==> decorations[i].pos <= decorations[j].pos)
    && (forall i :: 0 <= i < |decorations| ==> at <= decorations[i].pos < at + len)
    && (0 < len ==> decorations != [] && decorations[0].pos == at)
  }

  /** The decorations give every position of the source, which stands at `at`, its style. */
  ghost predicate Paints(lexers: Lexers, id: LexerId, source: string, decorations: seq<Mark>, at: nat)
    requires WellBehaved(lexers)
  {
    forall p: nat :: at <= p < at + |source| ==> StyleAt(decorations, p) == StyleOf(lexers, id, source, p - at)
  }

  lemma {:induction false} StyleOfLater(a: seq<Mark>, b: seq<Mark>, k: nat)
    requires b != [] && b[0].pos <= k
    ensures StyleAt(a + b, k) == StyleAt(b, k)
  {
    assert (a + b)[..|a + b| - 1] == a + b[..|b| - 1];
    if |b| == 1 {
    } else {
      StyleOfLater(a, b[..|b| - 1], k);
    }
  }

  lemma {:induction false} StyleOfEarlier(a: seq<Mark>, b: seq<Mark>, k: nat)
    requires forall i :: 0 <= i < |b| ==> k < b[i].pos
    ensures StyleAt(a + b, k) == StyleAt(a, k)
  {
    if b == [] {
      assert a + b == a;
    } else {
      assert (a + b)[..|a + b| - 1] == a + b[..|b| - 1];
      StyleOfEarlier(a, b[..|b| - 1], k);
    }
  }

  /** Two adjacent stretches, and the style of each position in them. */
  lemma TilesConcat(a: seq<Mark>, b: seq<Mark>, at: nat, m: nat, n: nat)
    requires Tiles(a, at, m) && Tiles(b, at + m, n)
    ensures Tiles(a + b, at, m + n)
    ensures forall k :: at <= k < at + m ==> StyleAt(a + b, k) == StyleAt(a, k)
    ensures forall k :: at + m <= k < at + m + n ==> StyleAt(a + b, k) == StyleAt(b, k)
  {
    forall k | at <= k < at + m
      ensures StyleAt(a + b, k) == StyleAt(a, k)
    {
      StyleOfEarlier(a, b, k);
    }
    forall k | at + m <= k < at + m + n
      ensures StyleAt(a + b, k) == StyleAt(b, k)
    {
      StyleOfLater(a, b, k);
    }
  }

  /** The decorations of the three parts of a token. */
  lemma TilesConcat3(left: seq<Mark>, middle: seq<Mark>, right: seq<Mark>, at: nat, start: nat, end: nat, len: nat)
    requires start <= end <= len
    requires Tiles(left, at, start) && Tiles(middle, at + start, end - start) && Tiles(right, at + end, len - end)
    ensures Tiles(left + middle + right, at, len)
    ensures forall k :: at <= k < at + start ==> StyleAt(left + middle + right, k) == StyleAt(left, k)
    ensures forall k :: at + start <= k < at + end ==> StyleAt(left + middle + right, k) == StyleAt(middle, k)
    ensures forall k :: at + end <= k < at + len ==> StyleAt(left + middle + right, k) == StyleAt(right, k)
  {
    TilesConcat(left, middle, at, start, end - start);
    TilesConcat(left + middle, right, at, end, len - end);
  }

  /** The decorations give every position of the token, which stands at `at`, its style. */
  ghost predicate PaintsToken(lexers: Lexers, id: LexerId, token: string, decorations: seq<Mark>, at: nat)
    requires WellBehaved(lexers)
  {
    forall p: nat :: at <= p < at + |token| ==> StyleAt(decorations, p) == StyleInToken(lexers, id, token, p - at)
  }

  /** What the three parts of a token that embeds a text give a position is its style. */
  ghost predicate PaintsParts(lexers: Lexers, id: LexerId, token: string, m: Class, start: nat, end: nat,
                              left: seq<Mark>, middle: seq<Mark>, right: seq<Mark>, at: nat)
    requires WellBehaved(lexers) && m.Embedded? && start <= end <= |token| && |m.group1| == end - start
  {
    && Tiles(left, at, start) && Paints(lexers, id, token[..start], left, at)
    && Tiles(middle, at + start, end - start)
    && Paints(lexers, lexers.handler(m.lang, m.group1), m.group1, middle, at + start)
    && Tiles(right, at + end, |token| - end) && Paints(lexers, id, token[end..], right, at + end)
  }

  lemma PaintsPosition(lexers: Lexers, id: LexerId, token: string, m: Class, start: nat, end: nat,
                       left: seq<Mark>, middle: seq<Mark>, right: seq<Mark>, at: nat, p: nat)
    requires WellBehaved(lexers) && token != "" && Embeds(lexers, id, token) && at <= p < at + |token|
    requires m == lexers.classify(id, token) && m.Embedded? && Span(token, m) == (start, end)
    requires PaintsParts(lexers, id, token, m, start, end, left, middle, right, at)
    ensures (if p < at + start then StyleAt(left, p)
             else if p < at + end then StyleAt(middle, p) else StyleAt(right, p))
         == StyleInToken(lexers, id, token, p - at)
  {
    if p < at + start {
      assert StyleAt(left, p) == StyleOf(lexers, id, token[..start], p - at);
    } else if p < at + end {
      assert StyleAt(middle, p) == StyleOf(lexers, lexers.handler(m.lang, m.group1), m.group1, p - (at + start));
    } else {
      assert StyleAt(right, p) == StyleOf(lexers, id, token[end..], p - (at + end));
    }
  }

  lemma PaintsEmbedded(lexers: Lexers, id: LexerId, token: string, m: Class, start: nat, end: nat,
                       left: seq<Mark>, middle: seq<Mark>, right: seq<Mark>, at: nat)
    requires WellBehaved(lexers) && token != "" && Embeds(lexers, id, token)
    requires m == lexers.classify(id, token) && m.Embedded? && Span(token, m) == (start, end)
    requires PaintsParts(lexers, id, token, m, start, end, left, middle, right, at)
    ensures Tiles(left + middle + right, at, |token|)
    ensures PaintsToken(lexers, id, token, left + middle + right, at)
  {
    TilesConcat3(left, middle, right, at, start, end, |token|);
    forall p: nat | at <= p < at + |token|
      ensures StyleAt(left + middle + right, p) == StyleInToken(lexers, id, token, p - at)
    {
      PaintsPosition(lexers, id, token, m, start, end, left, middle, right, at, p);
    }
  }

  /** A part that is as long as its token is the token. */
  lemma WholeToken(token: string, part: string, start: nat, end: nat)
    requires start <= end <= |token| && token[start..end] == part
    ensures |part| <= |token| && (|part| == |token| ==> part == token)
  {
  }

  /** One round of the loop of decorate: the decorations of one token that stands at `at`. */
  method DecorateToken(lexers: Lexers, id: LexerId, token: string, at: nat) returns (decorations: seq<Mark>)
    requires WellBehaved(lexers) && token != ""
    ensures Tiles(decorations, at, |token|)
    ensures PaintsToken(lexers, id, token, decorations, at)
    decreases |token|, lexers.rank(id), 0
  {
    assert Embeds(lexers, id, token);
    var m := lexers.classify(id, token);
    if m.Plain? {
      decorations := [Mark(at, m.style)];
    } else {
      var (start, end) := Span(token, m);
      WholeToken(token, m.group1, start, end);
      var left := AppendDecorations(lexers, id, token[..start], at);
      var middle := AppendDecorations(lexers, lexers.handler(m.lang, m.group1), m.group1, at + start);
      var right := AppendDecorations(lexers, id, token[end..], at + end);
      PaintsEmbedded(lexers, id, token, m, start, end, left, middle, right, at);
      decorations := left + middle + right;
    }
  }

  lemma {:induction false} JoinAt(tokens: seq<string>, i: nat)
    requires i < |tokens|
    ensures Join(tokens[..i + 1]) == Join(tokens[..i]) + tokens[i]
    ensures Join(tokens[i..]) == tokens[i] + Join(tokens[i + 1..])
  {
    if 0 < i {
      JoinAt(tokens[1..], i - 1);
      assert tokens[1..][..i - 1] == tokens[..i][1..] && tokens[1..][..i] == tokens[..i + 1][1..];
    } else {
      assert tokens[..1][1..] == [];
    }
    assert tokens[i..][1..] == tokens[i + 1..];
  }

  /** The first `len` positions of the source, which stands at `at`, have their styles. */
  ghost predicate PaintsFirst(lexers: Lexers, id: LexerId, source: string, tiles: seq<Mark>, at: nat, len: nat)
    requires WellBehaved(lexers) && len <= |source|
  {
    forall p: nat :: at <= p < at + len ==> StyleAt(tiles, p) == StyleOf(lexers, id, source, p - at)
  }

  lemma {:induction false} StyleInTokenAt(lexers: Lexers, id: LexerId, tokens: seq<string>, i: nat, k: nat)
    requires WellBehaved(lexers) && i < |tokens| && forall i :: 0 <= i < |tokens| ==> tokens[i] != ""
    requires |Join(tokens[..i])| <= k < |Join(tokens[..i])| + |tokens[i]| && k < |Join(tokens)|
    ensures StyleInTokens(lexers, id, tokens, k) == StyleInToken(lexers, id, tokens[i], k - |Join(tokens[..i])|)
  {
    if i == 0 {
    } else {
      assert tokens[1..][..i - 1] == tokens[..i][1..];
      StyleInTokenAt(lexers, id, tokens[1..], i - 1, k - |tokens[0]|);
    }
  }

  lemma PaintsMore(lexers: Lexers, id: LexerId, source: string, tiles: seq<Mark>, added: seq<Mark>,
                   at: nat, i: nat, pos: nat)
    requires WellBehaved(lexers) && Tokenizes(lexers, id)
    requires i < |lexers.tokenize(id, source)| && pos == |Join(lexers.tokenize(id, source)[..i])|
    requires var token := lexers.tokenize(id, source)[i];
             && pos + |token| <= |source| && token != ""
             && Tiles(tiles, at, pos) && PaintsFirst(lexers, id, source, tiles, at, pos)
             && Tiles(added, at + pos, |token|) && PaintsToken(lexers, id, token, added, at + pos)
    ensures var len := pos + |lexers.tokenize(id, source)[i]|;
            Tiles(tiles + added, at, len) && PaintsFirst(lexers, id, source, tiles + added, at, len)
  {
    var tokens := lexers.tokenize(id, source);
    TilesConcat(tiles, added, at, pos, |tokens[i]|);
    forall p: nat | at <= p < at + pos + |tokens[i]|
      ensures StyleAt(tiles + added, p) == StyleOf(lexers, id, source, p - at)
    {
      if at + pos <= p {
        StyleInTokenAt(lexers, id, tokens, i, p - at);
      }
    }
  }

  /** Decorates a text that stands at `basePos`.  The decorations are in order, inside the text, and
      give every position the style that the reference gives it. */
  method Decorate(lexers: Lexers, id: LexerId, source: string, basePos: nat) returns (decorations: seq<Mark>)
    requires WellBehaved(lexers)
    ensures source == "" ==> decorations == [Mark(basePos, "pln")]
    ensures source != "" ==> Tiles(decorations, basePos, |source|)
    ensures Paints(lexers, id, source, decorations, basePos)
    decreases |source|, lexers.rank(id), 1
  {
    assert Tokenizes(lexers, id);
    var tokens := lexers.tokenize(id, source);
    ghost var tiles: seq<Mark> := [];
    decorations := [Mark(basePos, PR_PLAIN)];
    var pos := 0;
    for ti := 0 to |tokens|
      invariant pos == |Join(tokens[..ti])| && pos + |Join(tokens[ti..])| == |source|
      invariant ti == 0 ==> tiles == []
      invariant decorations == [Mark(basePos, PR_PLAIN)] + tiles && Tiles(tiles, basePos, pos)
      invariant PaintsFirst(lexers, id, source, tiles, basePos, pos)
    {
      var token := tokens[ti];
      var added := DecorateToken(lexers, id, token, basePos + pos);
      JoinAt(tokens, ti);
      PaintsMore(lexers, id, source, tiles, added, basePos, ti, pos);
      decorations := decorations + added;
      tiles := tiles + added;
      pos := pos + |token|;
    }
    assert tokens[..|tokens|] == tokens && tokens[|tokens|..] == [];
    assert source == "" ==> tokens == [];
    forall p: nat | basePos <= p < basePos + |source|
      ensures StyleAt(decorations, p) == StyleAt(tiles, p)
    {
      StyleOfLater([Mark(basePos, PR_PLAIN)], tiles, p);
    }
  }

  /** The decorations added for a part of a token; none if the part is empty. */
  method AppendDecorations(lexers: Lexers, id: LexerId, sourceCode: string, basePos: nat) returns (added: seq<Mark>)
    requires WellBehaved(lexers)
    ensures Tiles(added, basePos, |sourceCode|)
    ensures Paints(lexers, id, sourceCode, added, basePos)
    decreases |sourceCode|, lexers.rank(id), 2
  {
    if sourceCode == "" {
      return [];
    }
    added := Decorate(lexers, id, sourceCode, basePos);
  }

  /** What the lexer hands to the printer is what the printer expects. */
  lemma DecorationsAreOrdered(decorations: seq<Mark>, source: string)
    requires if source == "" then decorations == [Mark(0, PR_PLAIN)] else Tiles(decorations, 0, |source|)
    ensures Ordered(decorations, |source|)
  {
  }
}
