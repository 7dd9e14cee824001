/** Escaping text to HTML and back (GooglePrettify.js, textToHtml, attribToHtml, htmlToText).
    The entities are those of section 4.6 of XML 1.0, plus the no-break space. */
module HtmlEscape {
  import opened Options

  /** A global string replacement: scans left to right and does not rescan what it inserted. */
  function ReplaceAll(s: string, pattern: string, replacement: string): string
    requires pattern != ""
    decreases |s|
  {
    if s == "" then ""
    else if pattern <= s then replacement + ReplaceAll(s[|pattern|..], pattern, replacement)
    else [s[0]] + ReplaceAll(s[1..], pattern, replacement)
  }

  function TextToHtml(s: string): string {
    ReplaceAll(ReplaceAll(ReplaceAll(s, "&", "&amp;"), "<", "&lt;"), ">", "&gt;")
  }

  function AttribToHtml(s: string): string {
    ReplaceAll(ReplaceAll(ReplaceAll(ReplaceAll(s, "&", "&amp;"), "<", "&lt;"), ">", "&gt;"), "\"", "&quot;")
  }

  function UnescapeEntities(html: string): string {
    ReplaceAll(ReplaceAll(ReplaceAll(ReplaceAll(ReplaceAll(ReplaceAll(html,
      "&lt;", "<"), "&gt;", ">"), "&apos;", "'"), "&quot;", "\""), "&nbsp;", " "), "&amp;", "&")
  }

  /** `pattern` occurs in `s` at position `i`. */
  predicate At(s: string, i: int, pattern: string) {
    0 <= i <= |s| - |pattern| && s[i..i + |pattern|] == pattern
  }

  /** The first position at or after `from` where `pattern` occurs, or -1. */
  function IndexOf(s: string, pattern: string, from: nat): (i: int)
    ensures i == -1 || from <= i <= |s| - |pattern|
    ensures i != -1 ==> At(s, i, pattern)
    ensures forall j :: from <= j && (i == -1 || j < i) ==> !At(s, j, pattern)
    decreases |s| - from
  {
    if |s| < from then -1
    else if At(s, from, pattern) then from
    else IndexOf(s, pattern, from + 1)
  }

  lemma AtReference(s: string, i: int)
    ensures At(s, i, "&#") <==> 0 <= i <= |s| - 2 && s[i] == '&' && s[i + 1] == '#'
  {
    if 0 <= i <= |s| - 2 {
      assert s[i..i + 2] == [s[i], s[i + 1]];
    }
  }

  function Clamp(a: nat, limit: nat): nat { if a < limit then a else limit }

  /** JavaScript's substring: arguments are clamped to the string, and swapped if out of order. */
  function Substring(s: string, a: nat, b: nat): string {
    var lo, hi := Clamp(a, |s|), Clamp(b, |s|);
    if lo <= hi then s[lo..hi] else s[hi..lo]
  }

  /** The engine's parseInt, which may fail, and String.fromCharCode. */
  datatype NumberReader = NumberReader(parseInt: (string, nat) -> Option<int>, fromCharCode: int -> char)

  /** The code point that is read from a numeric reference that starts at `pos` and ends at `end`. */
  function CodeAt(html: string, pos: nat, end: nat, reader: NumberReader): Option<int> {
    var num := Substring(html, pos + 3, end);
    if num != "" && num[0] == 'x' then reader.parseInt(num[1..], 16) else reader.parseInt(num, 10)
  }

  lemma SemicolonAfter(html: string, pos: nat, end: nat)
    requires pos <= end && At(html, pos, "&#") && At(html, end, ";")
    ensures pos + 1 < end
  {
    AtReference(html, pos);
    assert html[end..end + 1][0] == html[end];
  }

  /** `html` after the reference that starts at `pos` was looked at; one that does not parse stays. */
  function ResolveAt(html: string, pos: nat, reader: NumberReader): (html': string)
    requires At(html, pos, "&#")
    ensures pos < |html'| <= |html|
  {
    var end := IndexOf(html, ";", pos);
    if end < 0 then html
    else
      SemicolonAfter(html, pos, end);
      match CodeAt(html, pos, end, reader)
      case Some(code) => html[..pos] + [reader.fromCharCode(code)] + html[end + 1..]
      case None => html
  }

  /** Replaces the numeric references from `from` on, one after the other. */
  function ResolveNumeric(html: string, from: nat, reader: NumberReader): string
    requires from <= |html|
    decreases |html| - from
  {
    var pos := IndexOf(html, "&#", from);
    if pos < 0 then html else ResolveNumeric(ResolveAt(html, pos, reader), pos + 1, reader)
  }

  /** A text without the pattern's first character is copied. */
  lemma {:induction false} ReplaceNothing(s: string, pattern: string, replacement: string)
    requires pattern != "" && pattern[0] !in s
    ensures ReplaceAll(s, pattern, replacement) == s
  {
    if s == "" {
    } else {
      ReplaceNothing(s[1..], pattern, replacement);
    }
  }

  lemma UnescapePlain(s: string)
    requires '&' !in s
    ensures UnescapeEntities(s) == s
  {
    ReplaceNothing(s, "&lt;", "<");
    ReplaceNothing(s, "&gt;", ">");
    ReplaceNothing(s, "&apos;", "'");
    ReplaceNothing(s, "&quot;", "\"");
    ReplaceNothing(s, "&nbsp;", " ");
    ReplaceNothing(s, "&amp;", "&");
  }

  lemma NoReferenceWithout(html: string)
    requires '&' !in html
    ensures IndexOf(html, "&#", 0) < 0
  {
    AtReference(html, IndexOf(html, "&#", 0));
  }

  lemma NoAmpersand(html: string, reader: NumberReader)
    requires IndexOf(html, "&", 0) < 0
    ensures UnescapeEntities(ResolveNumeric(html, 0, reader)) == html
  {
    forall i | 0 <= i < |html|
      ensures html[i] != '&'
    {
      assert html[i..i + 1] == [html[i]];
      assert !At(html, i, "&");
    }
    NoReferenceWithout(html);
    UnescapePlain(html);
  }

  lemma {:induction false} IndexSkips(s: string, pattern: string, from: nat, to: nat)
    requires from <= to <= |s| && forall j :: from <= j < to ==> !At(s, j, pattern)
    ensures IndexOf(s, pattern, from) == IndexOf(s, pattern, to)
    decreases |s| - from
  {
    if from == to {
    } else {
      IndexSkips(s, pattern, from + 1, to);
    }
  }

  lemma NoEarlierReference(html: string, first: nat, j: nat)
    requires IndexOf(html, "&", 0) == first && j < first
    ensures !At(html, j, "&#")
  {
    assert !At(html, j, "&");
    assert html[j..j + 1] == [html[j]];
    AtReference(html, j);
  }

  lemma ResolveFrom(html: string, a: nat, b: nat, reader: NumberReader)
    requires a <= |html| && b <= |html| && IndexOf(html, "&#", a) == IndexOf(html, "&#", b)
    ensures ResolveNumeric(html, a, reader) == ResolveNumeric(html, b, reader)
  {
  }

  lemma StartAtFirst(html: string, first: nat, reader: NumberReader)
    requires IndexOf(html, "&", 0) == first
    ensures first <= |html| && ResolveNumeric(html, 0, reader) == ResolveNumeric(html, first, reader)
  {
    forall j | 0 <= j < first
      ensures !At(html, j, "&#")
    {
      NoEarlierReference(html, first, j);
    }
    IndexSkips(html, "&#", 0, first);
    ResolveFrom(html, 0, first, reader);
  }

  method HtmlToText(html: string, reader: NumberReader) returns (text: string)
    ensures text == UnescapeEntities(ResolveNumeric(html, 0, reader))
  {
    var pos := IndexOf(html, "&", 0);
    if pos < 0 {
      NoAmpersand(html, reader);
      return html;
    }
    text := html;
    StartAtFirst(html, pos, reader);
    pos := pos - 1;
    while true
      invariant 0 <= pos + 1 <= |text|
      invariant ResolveNumeric(html, 0, reader) == ResolveNumeric(text, pos + 1, reader)
      decreases |text| - pos
    {
      pos := IndexOf(text, "&#", pos + 1);
      if pos < 0 {
        break;
      }
      text := ResolveAt(text, pos, reader);
    }
    text := UnescapeEntities(text);
  }

  function Entity(c: char): string {
    match c
    case '&' => "&amp;"
    case '<' => "&lt;"
    case '>' => "&gt;"
    case '"' => "&quot;"
    case '\'' => "&apos;"
    case ' ' => "&nbsp;"
    case _ => [c]
  }

  /** What stands for `x` in a text that escapes the characters of `escaped`. */
  function Token(escaped: set<char>, x: char): string {
    if x in escaped then Entity(x) else [x]
  }

  /** The text in which exactly the characters of `escaped` are written as entities. */
  function Encode(escaped: set<char>, s: string): string {
    if s == "" then "" else Token(escaped, s[0]) + Encode(escaped, s[1..])
  }

  const SPECIALS := {'&', '<', '>', '"'}

  /** The characters whose entities are resolved. */
  const UNESCAPED := SPECIALS + {'\'', ' '}

  lemma {:induction false} EncodeNothing(s: string)
    ensures Encode({}, s) == s
  {
    if s == "" {
    } else {
      EncodeNothing(s[1..]);
    }
  }

  /** A token that nowhere starts the pattern is copied. */
  lemma {:induction false} CopyToken(token: string, rest: string, pattern: string, replacement: string)
    requires pattern != "" && forall i :: 0 <= i < |token| ==> !(pattern <= token[i..] + rest)
    ensures ReplaceAll(token + rest, pattern, replacement) == token + ReplaceAll(rest, pattern, replacement)
  {
    if token == "" {
      assert token + rest == rest;
    } else {
      assert token[0..] + rest == token + rest;
      assert (token + rest)[1..] == token[1..] + rest;
      forall i | 0 <= i < |token[1..]|
        ensures !(pattern <= token[1..][i..] + rest)
      {
        assert token[1..][i..] == token[i + 1..];
      }
      CopyToken(token[1..], rest, pattern, replacement);
    }
  }

  lemma FirstDiffers(token: string, i: nat, rest: string, pattern: string)
    requires i < |token| && pattern != "" && token[i] != pattern[0]
    ensures !(pattern <= token[i..] + rest)
  {
    assert (token[i..] + rest)[0] == token[i];
  }

  lemma NotInToken(escaped: set<char>, x: char, c: char)
    requires c in SPECIALS && c !in escaped && escaped <= SPECIALS && (c == '&' ==> escaped == {}) && x != c
    ensures c !in Token(escaped, x)
  {
    if x in escaped {
      assert x in SPECIALS;
    }
  }

  /** Replacing a special character by its entity escapes it. */
  lemma {:induction false} EscapeStage(escaped: set<char>, s: string, c: char)
    requires c in SPECIALS && c !in escaped && escaped <= SPECIALS && (c == '&' ==> escaped == {})
    ensures ReplaceAll(Encode(escaped, s), [c], Entity(c)) == Encode(escaped + {c}, s)
  {
    if s == "" {
    } else {
      var token := Token(escaped, s[0]);
      var rest := Encode(escaped, s[1..]);
      EscapeStage(escaped, s[1..], c);
      if s[0] == c {
        assert (token + rest)[1..] == rest;
      } else {
        forall i | 0 <= i < |token|
          ensures !([c] <= token[i..] + rest)
        {
          NotInToken(escaped, s[0], c);
          FirstDiffers(token, i, rest, [c]);
        }
        CopyToken(token, rest, [c], Entity(c));
      }
    }
  }

  lemma TokensDiffer(x: char, escaped: set<char>, c: char, i: nat, rest: string)
    requires '&' in escaped && escaped <= UNESCAPED && c in UNESCAPED
    requires var token := Token(escaped, x); token != Entity(c) && i < |token|
    ensures var token := Token(escaped, x); !(Entity(c) <= token[i..] + rest)
  {
    var token := Token(escaped, x);
    if i != 0 || token[0] != '&' {
      FirstDiffers(token, i, rest, Entity(c));
    } else {
      assert token[0..] == token;
      assert (token + rest)[1] == token[1] && (token + rest)[2] == token[2];
      assert Entity(c)[1] != token[1] || Entity(c)[2] != token[2];
    }
  }

  lemma UnescapeToken(escaped: set<char>, x: char, c: char, rest: string)
    requires '&' in escaped && escaped <= UNESCAPED && c in UNESCAPED
    ensures ReplaceAll(Token(escaped, x) + rest, Entity(c), [c])
         == Token(escaped - {c}, x) + ReplaceAll(rest, Entity(c), [c])
  {
    var token := Token(escaped, x);
    if token == Entity(c) {
      assert (token + rest)[|Entity(c)|..] == rest;
      assert x == c;
    } else {
      forall i | 0 <= i < |token|
        ensures !(Entity(c) <= token[i..] + rest)
      {
        TokensDiffer(x, escaped, c, i, rest);
      }
      CopyToken(token, rest, Entity(c), [c]);
    }
  }

  /** Replacing an entity by its character unescapes it, and does nothing else, as long as
      ampersands are escaped. */
  lemma {:induction false} UnescapeStage(escaped: set<char>, s: string, c: char)
    requires '&' in escaped && escaped <= UNESCAPED && c in UNESCAPED
    ensures ReplaceAll(Encode(escaped, s), Entity(c), [c]) == Encode(escaped - {c}, s)
  {
    if s == "" {
    } else {
      UnescapeToken(escaped, s[0], c, Encode(escaped, s[1..]));
      UnescapeStage(escaped, s[1..], c);
    }
  }

  lemma EncodedText(s: string)
    ensures TextToHtml(s) == Encode({'&', '<', '>'}, s)
    ensures AttribToHtml(s) == Encode({'&', '<', '>', '"'}, s)
  {
    EncodeNothing(s);
    EscapeStage({}, s, '&');
    assert {} + {'&'} == {'&'};
    EscapeStage({'&'}, s, '<');
    assert {'&'} + {'<'} == {'&', '<'};
    EscapeStage({'&', '<'}, s, '>');
    assert {'&', '<'} + {'>'} == {'&', '<', '>'};
    EscapeStage({'&', '<', '>'}, s, '"');
    assert {'&', '<', '>'} + {'"'} == {'&', '<', '>', '"'};
  }

  lemma UnescapeAngles(escaped: set<char>, s: string)
    requires '&' in escaped && escaped <= UNESCAPED
    ensures ReplaceAll(ReplaceAll(Encode(escaped, s), "&lt;", "<"), "&gt;", ">") == Encode(escaped - {'<', '>'}, s)
  {
    UnescapeStage(escaped, s, '<');
    UnescapeStage(escaped - {'<'}, s, '>');
    assert escaped - {'<'} - {'>'} == escaped - {'<', '>'};
  }

  lemma UnescapeQuotes(escaped: set<char>, s: string)
    requires '&' in escaped && escaped <= UNESCAPED
    ensures ReplaceAll(ReplaceAll(Encode(escaped, s), "&apos;", "'"), "&quot;", "\"")
         == Encode(escaped - {'\'', '"'}, s)
  {
    UnescapeStage(escaped, s, '\'');
    UnescapeStage(escaped - {'\''}, s, '"');
    assert escaped - {'\''} - {'"'} == escaped - {'\'', '"'};
  }

  lemma UnescapeAmpersands(escaped: set<char>, s: string)
    requires '&' in escaped && escaped <= {'&', ' '}
    ensures ReplaceAll(ReplaceAll(Encode(escaped, s), "&nbsp;", " "), "&amp;", "&") == s
  {
    UnescapeStage(escaped, s, ' ');
    UnescapeStage(escaped - {' '}, s, '&');
    assert escaped - {' '} - {'&'} == {};
    EncodeNothing(s);
  }

  /** Every text comes back from its entities, whichever of them it uses, as long as it escapes ampersands. */
  lemma DecodedText(escaped: set<char>, s: string)
    requires '&' in escaped && escaped <= UNESCAPED
    ensures UnescapeEntities(Encode(escaped, s)) == s
  {
    UnescapeAngles(escaped, s);
    UnescapeQuotes(escaped - {'<', '>'}, s);
    assert escaped - {'<', '>'} - {'\'', '"'} <= {'&', ' '};
    UnescapeAmpersands(escaped - {'<', '>'} - {'\'', '"'}, s);
  }

  /** Escaped text has no numeric reference, even if the text looks like one. */
  lemma {:induction false} NoReference(escaped: set<char>, s: string, i: nat)
    requires '&' in escaped && escaped <= UNESCAPED
    requires i + 1 < |Encode(escaped, s)| && Encode(escaped, s)[i] == '&'
    ensures Encode(escaped, s)[i + 1] != '#'
  {
    var token := Token(escaped, s[0]);
    if |token| <= i {
      NoReference(escaped, s[1..], i - |token|);
    } else {
      assert token[i] == '&' && i == 0;
    }
  }

  lemma Decoded(escaped: set<char>, s: string, reader: NumberReader)
    requires '&' in escaped && escaped <= UNESCAPED
    ensures UnescapeEntities(ResolveNumeric(Encode(escaped, s), 0, reader)) == s
  {
    var pos := IndexOf(Encode(escaped, s), "&#", 0);
    AtReference(Encode(escaped, s), pos);
    if 0 <= pos {
      NoReference(escaped, s, pos);
    }
    DecodedText(escaped, s);
  }

  /** Unescaping undoes escaping, for every text. */
  lemma RoundTrip(s: string, reader: NumberReader)
    ensures UnescapeEntities(ResolveNumeric(TextToHtml(s), 0, reader)) == s
    ensures UnescapeEntities(ResolveNumeric(AttribToHtml(s), 0, reader)) == s
  {
    EncodedText(s);
    Decoded({'&', '<', '>'}, s, reader);
    Decoded({'&', '<', '>', '"'}, s, reader);
  }

  lemma ReferenceSpan(first: char, digits: string)
    requires first != ';' && ';' !in digits
    ensures var html := "&#" + [first] + digits + ";";
            IndexOf(html, "&#", 0) == 0 && IndexOf(html, ";", 0) == |html| - 1
  {
    var html := "&#" + [first] + digits + ";";
    assert html[0..2] == "&#" && html[|html| - 1..|html|] == ";";
    forall j | 0 <= j < |html| - 1
      ensures !At(html, j, ";")
    {
      assert html[j..j + 1] == [html[j]];
    }
    IndexSkips(html, ";", 0, |html| - 1);
  }

  lemma UnescapeOne(c: char)
    ensures UnescapeEntities([c]) == [c]
  {
    if c == '&' {
      EncodeNothing([c]);
      forall pattern: string, r | 2 < |pattern|
        ensures ReplaceAll([c], pattern, r) == [c]
      {
        assert ReplaceAll([c][1..], pattern, r) == "";
      }
    } else {
      UnescapePlain([c]);
    }
  }

  /** The code reads a numeric reference from its fourth character on.  The first character of the
      number, a decimal digit or the `x` of a hexadecimal one, is never looked at. */
  lemma FirstDigitIsLost(first: char, digits: string, reader: NumberReader)
    requires first != ';' && digits != "" && digits[0] != 'x' && ';' !in digits
    requires reader.parseInt(digits, 10).Some?
    ensures UnescapeEntities(ResolveNumeric("&#" + [first] + digits + ";", 0, reader))
         == [reader.fromCharCode(reader.parseInt(digits, 10).value)]
  {
    var html := "&#" + [first] + digits + ";";
    var end := |html| - 1;
    var c := reader.fromCharCode(reader.parseInt(digits, 10).value);
    ReferenceSpan(first, digits);
    assert Substring(html, 3, end) == digits;
    assert html[..0] + [c] + html[end + 1..] == [c];
    assert ResolveAt(html, 0, reader) == [c];
    assert ResolveNumeric([c], 1, reader) == [c];
    UnescapeOne(c);
  }

  // ---- the characters and their entities

  lemma {:induction false} EncodeConcat(escaped: set<char>, a: string, b: string)
    ensures Encode(escaped, a + b) == Encode(escaped, a) + Encode(escaped, b)
  {
    if a == "" {
      assert a + b == b;
    } else {
      assert (a + b)[1..] == a[1..] + b;
      EncodeConcat(escaped, a[1..], b);
    }
  }

  /** Characters are escaped one by one. */
  lemma EscapedConcat(a: string, b: string)
    ensures TextToHtml(a + b) == TextToHtml(a) + TextToHtml(b)
    ensures AttribToHtml(a + b) == AttribToHtml(a) + AttribToHtml(b)
  {
    EncodedText(a);
    EncodedText(b);
    EncodedText(a + b);
    EncodeConcat({'&', '<', '>'}, a, b);
    EncodeConcat({'&', '<', '>', '"'}, a, b);
  }

  lemma EncodeOne(escaped: set<char>, c: char)
    ensures Encode(escaped, [c]) == if c in escaped then Entity(c) else [c]
  {
    assert [c][1..] == "";
  }

  /** What each character becomes. */
  lemma EscapedCharacter(c: char)
    ensures TextToHtml([c])
         == if c == '&' then "&amp;" else if c == '<' then "&lt;" else if c == '>' then "&gt;" else [c]
    ensures AttribToHtml([c]) == if c == '"' then "&quot;" else TextToHtml([c])
  {
    EncodedText([c]);
    EncodeOne({'&', '<', '>'}, c);
    EncodeOne({'&', '<', '>', '"'}, c);
  }

  predicate IsEntity(entity: string, c: char) {
    || (entity == "&lt;" && c == '<') || (entity == "&gt;" && c == '>') || (entity == "&amp;" && c == '&')
    || (entity == "&apos;" && c == '\'') || (entity == "&quot;" && c == '"') || (entity == "&nbsp;" && c == ' ')
  }

  /** What each of the six entities becomes. */
  lemma EntityResolved(entity: string, c: char)
    requires IsEntity(entity, c)
    ensures UnescapeEntities(entity) == [c]
  {
    EncodeOne({c, '&'}, c);
    DecodedText({c, '&'}, [c]);
  }
}
