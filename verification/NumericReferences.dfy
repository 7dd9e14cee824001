/** What htmlToText makes of numeric character references (GooglePrettify.js, htmlToText), compared with
    what section 4.1 of XML 1.0 says they stand for. */
module NumericReferences {
  import opened Options
  import opened HtmlEscape

  function Digit(c: char): (d: int)
    ensures -1 <= d < 16
  {
    if '0' <= c <= '9' then c as int - '0' as int
    else if 'a' <= c <= 'f' then c as int - 'a' as int + 10
    else if 'A' <= c <= 'F' then c as int - 'A' as int + 10
    else -1
  }

  /** The two radixes that htmlToText asks for. */
  type Radix = r: nat | r == 10 || r == 16 witness 10

  predicate IsDigit(c: char, radix: Radix) { 0 <= Digit(c) < radix }

  predicate AllDigits(s: string, radix: Radix) {
    forall i :: 0 <= i < |s| ==> IsDigit(s[i], radix)
  }

  /** The number that the digits stand for. */
  function Value(s: string, radix: Radix): nat
    requires AllDigits(s, radix)
  {
    if s == "" then 0
    else
      var front := Value(s[..|s| - 1], radix);
      (if radix == 10 then 10 * front else 16 * front) + Digit(s[|s| - 1])
  }

  /** How many digits the string starts with. */
  function DigitPrefix(s: string, radix: Radix): (k: nat)
    ensures k <= |s| && AllDigits(s[..k], radix)
    ensures k < |s| ==> !IsDigit(s[k], radix)
  {
    if s == "" || !IsDigit(s[0], radix) then 0
    else
      var k := DigitPrefix(s[1..], radix);
      assert forall i :: 0 < i <= k ==> s[i] == s[1..][..k][i - 1];
      k + 1
  }

  /** What parseInt reads: the digits that the string starts with, or nothing if it starts with none. */
  function Read(s: string, radix: Radix): Option<int> {
    var k := DigitPrefix(s, radix);
    if k == 0 then None else Some(Value(s[..k], radix))
  }

  /** The engine's parseInt on strings of hexadecimal digits, with either radix. */
  ghost predicate ReadsNumbers(reader: NumberReader) {
    forall s: string, radix: Radix {:trigger reader.parseInt(s, radix)} ::
      AllDigits(s, 16) ==> reader.parseInt(s, radix) == Read(s, radix)
  }

  lemma {:induction false} AllDigitsAreRead(s: string, radix: Radix)
    requires AllDigits(s, radix)
    ensures DigitPrefix(s, radix) == |s|
  {
    if s == "" {
    } else {
      AllDigitsAreRead(s[1..], radix);
    }
  }

  /** Only zeros have the value 0. */
  lemma {:induction false} ZeroValue(s: string, radix: Radix)
    requires AllDigits(s, radix)
    ensures Value(s, radix) == 0 <==> forall i :: 0 <= i < |s| ==> s[i] == '0'
  {
    if s == "" {
    } else {
      var front, last := s[..|s| - 1], s[|s| - 1];
      ZeroValue(front, radix);
      assert Digit(last) == 0 <==> last == '0';
      assert forall i :: 0 <= i < |front| ==> s[i] == front[i];
    }
  }

  /** A first digit counts, unless it is 0. */
  lemma {:induction false} WithoutFirst(s: string, radix: Radix)
    requires s != "" && AllDigits(s, radix)
    ensures Value(s[1..], radix) <= Value(s, radix)
    ensures Value(s[1..], radix) == Value(s, radix) <==> s[0] == '0'
  {
    if |s| == 1 {
      assert s[1..] == "" && s[..0] == "";
      assert Value(s, radix) == Digit(s[0]);
    } else {
      var front := s[..|s| - 1];
      WithoutFirst(front, radix);
      assert s[1..][..|s| - 2] == front[1..];
    }
  }

  /** Decimal digits read as hexadecimal ones give no less, and the same only for one digit behind zeros. */
  lemma {:induction false} DecimalAsHexadecimal(s: string)
    requires AllDigits(s, 10) && s != ""
    ensures AllDigits(s, 16) && Value(s, 10) <= Value(s, 16)
    ensures Value(s, 10) == Value(s, 16) <==> forall i :: 0 <= i < |s| - 1 ==> s[i] == '0'
  {
    var front := s[..|s| - 1];
    if front == "" {
    } else {
      DecimalAsHexadecimal(front);
      ZeroValue(front, 10);
      ZeroValue(front, 16);
      assert forall i :: 0 <= i < |front| ==> s[i] == front[i];
    }
  }

  /** A prefix has at most the value of the whole. */
  lemma {:induction false} PrefixValue(s: string, k: nat, radix: Radix)
    requires AllDigits(s, radix) && k <= |s|
    ensures Value(s[..k], radix) <= Value(s, radix)
    decreases |s| - k
  {
    if k == |s| {
      assert s[..k] == s;
    } else {
      PrefixValue(s, k + 1, radix);
      assert s[..k + 1][..k] == s[..k];
    }
  }

  /** With a letter in it, a hexadecimal number is never what its decimal prefix says. */
  lemma LetterChangesValue(s: string)
    requires AllDigits(s, 16) && 0 < DigitPrefix(s, 10) < |s|
    ensures Value(s[..DigitPrefix(s, 10)], 10) != Value(s, 16)
  {
    var k := DigitPrefix(s, 10);
    DecimalAsHexadecimal(s[..k]);
    PrefixValue(s, k + 1, 16);
    assert s[..k + 1][..k] == s[..k];
    assert 10 <= Digit(s[k]);
  }

  /** A reference, with `number` between the number sign and the semicolon. */
  predicate IsReference(html: string, pos: nat, end: nat, number: string) {
    && number != "" && ';' !in number
    && |html| > end == pos + 2 + |number|
    && html[pos..pos + 2] == "&#" && html[pos + 2..end] == number && html[end] == ';'
  }

  lemma ReferenceNumber(html: string, pos: nat, end: nat, number: string)
    requires IsReference(html, pos, end, number)
    ensures At(html, pos, "&#") && IndexOf(html, ";", pos) == end
    ensures Substring(html, pos + 3, end) == number[1..]
  {
    assert html[end..end + 1] == ";";
    forall j | pos <= j < end ensures !At(html, j, ";") {
      assert html[j..j + 1] == [html[j]];
      if j < pos + 2 {
        assert html[j] == html[pos..pos + 2][j - pos];
      } else {
        assert html[j] == number[j - pos - 2];
      }
    }
    IndexSkips(html, ";", pos, end);
    assert html[pos + 3..end] == html[pos + 2..end][1..];
  }

  /** A decimal reference, anywhere in a text: its first digit is not read.  It is read as the number it
      stands for exactly if it has more than one digit and the first is 0; one digit alone is not read. */
  lemma DecimalReference(html: string, pos: nat, end: nat, number: string, reader: NumberReader)
    requires IsReference(html, pos, end, number) && AllDigits(number, 10) && ReadsNumbers(reader)
    ensures CodeAt(html, pos, end, reader) == if |number| == 1 then None else Some(Value(number[1..], 10))
    ensures CodeAt(html, pos, end, reader) == Some(Value(number, 10)) <==> 1 < |number| && number[0] == '0'
  {
    ReferenceNumber(html, pos, end, number);
    var read := number[1..];
    assert AllDigits(read, 16);
    assert read != "" ==> read[0] != 'x';
    AllDigitsAreRead(read, 10);
    assert read[..|read|] == read;
    WithoutFirst(number, 10);
  }

  /** A hexadecimal reference, anywhere in a text: the `x` is not read, and what follows is read as decimal.
      It is read as the number it stands for exactly if it is one decimal digit behind zeros. */
  lemma HexadecimalReference(html: string, pos: nat, end: nat, hex: string, reader: NumberReader)
    requires IsReference(html, pos, end, "x" + hex) && hex != "" && AllDigits(hex, 16) && ReadsNumbers(reader)
    ensures CodeAt(html, pos, end, reader) == Read(hex, 10)
    ensures CodeAt(html, pos, end, reader) == Some(Value(hex, 16)) <==>
              IsDigit(hex[|hex| - 1], 10) && forall i :: 0 <= i < |hex| - 1 ==> hex[i] == '0'
  {
    ReferenceNumber(html, pos, end, "x" + hex);
    assert ("x" + hex)[1..] == hex;
    assert hex[0] != 'x';
    var k := DigitPrefix(hex, 10);
    if k == |hex| {
      assert hex[..k] == hex;
      DecimalAsHexadecimal(hex);
    } else {
      if k != 0 {
        LetterChangesValue(hex);
      }
      assert !IsDigit(hex[k], 10);
      assert k < |hex| - 1 ==> hex[k] != '0';
    }
  }

  lemma NoEntity(html: string, entity: string, c: string)
    requires 2 <= |html| && html[..2] == "&#" && '&' !in html[1..]
    requires 2 <= |entity| && entity[0] == '&' && entity[1] != '#'
    ensures ReplaceAll(html, entity, c) == html
  {
    ReplaceNothing(html[1..], entity, c);
    assert html[1] == html[..2][1] == '#';
  }

  /** The text of a lone reference that nothing is read from stays as it is. */
  lemma UnreadReferenceStays(number: string, reader: NumberReader)
    requires number != "" && ';' !in number && '&' !in number
    requires CodeAt("&#" + number + ";", 0, |number| + 2, reader).None?
    ensures UnescapeEntities(ResolveNumeric("&#" + number + ";", 0, reader)) == "&#" + number + ";"
  {
    var html := "&#" + number + ";";
    assert html[0..2] == "&#" && html[2..|number| + 2] == number;
    ReferenceNumber(html, 0, |number| + 2, number);
    assert ResolveAt(html, 0, reader) == html;
    forall j | 1 <= j < |html| ensures !At(html, j, "&#") {
      AtReference(html, j);
    }
    assert IndexOf(html, "&#", 1) == -1;
    assert IndexOf(html, "&#", 0) == 0;
    NoEntity(html, "&lt;", "<");
    NoEntity(html, "&gt;", ">");
    NoEntity(html, "&apos;", "'");
    NoEntity(html, "&quot;", "\"");
    NoEntity(html, "&nbsp;", " ");
    NoEntity(html, "&amp;", "&");
  }

  /** What htmlToText makes of a lone reference: the character of the code read, or the reference itself. */
  lemma LoneReference(first: char, digits: string, reader: NumberReader)
    requires first !in ";&" && ';' !in digits && '&' !in digits && (digits != "" ==> digits[0] != 'x')
    requires digits == "" ==> reader.parseInt("", 10).None?
    ensures var html, code := "&#" + [first] + digits + ";", reader.parseInt(digits, 10);
            UnescapeEntities(ResolveNumeric(html, 0, reader))
            == if code.Some? then [reader.fromCharCode(code.value)] else html
  {
    var number := [first] + digits;
    var html := "&#" + number + ";";
    assert html == "&#" + [first] + digits + ";";
    assert html[0..2] == "&#" && html[2..|number| + 2] == number;
    ReferenceNumber(html, 0, |number| + 2, number);
    assert number[1..] == digits;
    if reader.parseInt(digits, 10).Some? {
      FirstDigitIsLost(first, digits, reader);
    } else {
      UnreadReferenceStays(number, reader);
    }
  }

  lemma TwoDigits(a: char, b: char, radix: Radix)
    requires IsDigit(a, radix) && IsDigit(b, radix)
    ensures AllDigits([a, b], radix) && Value([a, b], radix) == radix * Digit(a) + Digit(b)
  {
    assert [a, b][..1] == [a] && [a][..0] == "";
    assert Value([a], radix) == Digit(a);
  }

  lemma OneDigit(c: char)
    requires IsDigit(c, 10)
    ensures AllDigits([c], 16) && Read([c], 10) == Some(Digit(c))
  {
    AllDigitsAreRead([c], 10);
    assert [c][..1] == [c] && [c][..0] == "";
    assert Value([c], 10) == Digit(c);
  }

  /** Both &#65; and &#x41; stand for `A`, whose code is 65. */
  lemma CodeOfA()
    ensures AllDigits("65", 10) && Value("65", 10) == 65
    ensures AllDigits("41", 16) && Value("41", 16) == 65
  {
    TwoDigits('6', '5', 10);
    TwoDigits('4', '1', 16);
  }

  /** &#65; is read as the code 5. */
  lemma WrongDecimal(reader: NumberReader)
    requires ReadsNumbers(reader)
    ensures AllDigits("65", 10) && Value("65", 10) == 65
    ensures UnescapeEntities(ResolveNumeric("&#65;", 0, reader)) == [reader.fromCharCode(5)]
  {
    CodeOfA();
    OneDigit('5');
    assert reader.parseInt("5", 10) == Some(5);
    LoneReference('6', "5", reader);
    assert "&#" + ['6'] + "5" + ";" == "&#65;";
  }

  /** And &#x41; is read as the code 41. */
  lemma WrongHexadecimal(reader: NumberReader)
    requires ReadsNumbers(reader)
    ensures AllDigits("41", 16) && Value("41", 16) == 65
    ensures UnescapeEntities(ResolveNumeric("&#x41;", 0, reader)) == [reader.fromCharCode(41)]
  {
    CodeOfA();
    TwoDigits('4', '1', 10);
    AllDigitsAreRead("41", 10);
    assert "41"[..2] == "41";
    assert AllDigits("41", 16);
    assert reader.parseInt("41", 10) == Some(41);
    LoneReference('x', "41", reader);
    assert "&#" + ['x'] + "41" + ";" == "&#x41;";
  }

  /** A reference of one digit is not resolved at all. */
  lemma OneDigitStays(digit: char, reader: NumberReader)
    requires IsDigit(digit, 10) && ReadsNumbers(reader)
    ensures UnescapeEntities(ResolveNumeric("&#" + [digit] + ";", 0, reader)) == "&#" + [digit] + ";"
  {
    assert reader.parseInt("", 10) == None;
    LoneReference(digit, "", reader);
    assert "&#" + [digit] + "" + ";" == "&#" + [digit] + ";";
  }
}
