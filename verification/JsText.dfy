/**
 The lexical level of the browser client's RDF code: reading quoted and bracketed text with
 escapes, and the two printers of quoted text. A text is given as what remains to be read.
 */
module JsText {
  import opened Options
  import opened Scanner

  /**
   The built-ins the code calls: the text of a hexadecimal code point (None where it raises), the
   resolution of a relative IRI against a base, and the characters trimmed from a string's ends.
   */
  datatype Js = Js(fromHex: string -> Option<string>, url: (string, string) -> string, space: char -> bool)

  /** What a reader returns: it raised, or a value and the text after it. */
  datatype Read<+T> = Threw | Got(value: T, rest: string)

  function Drop(s: string, n: nat): string {
    if n >= |s| then "" else s[n..]
  }

  /** Up to n characters from i on. */
  function Sub(s: string, i: nat, n: nat): string {
    Drop(s, i)[..if n < |Drop(s, i)| then n else |Drop(s, i)|]
  }

  predicate IsWs(c: char) {
    c == ' ' || c == '\t' || c == '\r' || c == '\n'
  }

  predicate HeadIs(s: string, c: char) {
    |s| > 0 && s[0] == c
  }

  // ------------------------------------------------------------------------- escapes

  function Unescape(e: char): char {
    match e
    case 'n' => '\n'
    case 't' => '\t'
    case 'r' => '\r'
    case 'b' => '\U{0008}'
    case 'f' => '\U{000C}'
    case _ => e
  }

  function Same(e: char): char {
    e
  }

  /** The text an escape stands for and what follows it; a lone final backslash reads as "undefined". */
  function ReadEscape(js: Js, simple: char -> char, s: string): (r: Read<string>)
    requires HeadIs(s, '\\')
    ensures r.Got? ==> |r.rest| < |s|
  {
    if |s| == 1 then Got("undefined", "")
    else if s[1] == 'u' || s[1] == 'U' then
      var digits := if s[1] == 'u' then 4 else 8;
      match js.fromHex(Sub(s, 2, digits))
      case None => Threw
      case Some(text) => Got(text, Drop(s, 2 + digits))
    else Got([simple(s[1])], s[2..])
  }

  function Prepend(text: string, r: Read<string>): Read<string> {
    match r
    case Threw => Threw
    case Got(value, rest) => Got(text + value, rest)
  }

  /** The text up to the closing mark, escapes replaced; an unclosed text reads to the end. */
  function ReadBody(js: Js, simple: char -> char, close: string, s: string): (r: Read<string>)
    requires |close| > 0
    ensures r.Got? ==> |r.rest| <= |s|
    decreases |s|
  {
    if s == "" then Got("", "")
    else if s[0] == '\\' then
      match ReadEscape(js, simple, s)
      case Threw => Threw
      case Got(text, rest) => Prepend(text, ReadBody(js, simple, close, rest))
    else if close <= s then Got("", s[|close|..])
    else Prepend([s[0]], ReadBody(js, simple, close, s[1..]))
  }

  /** An IRI reference from its '<' on. */
  function ReadIri(js: Js, s: string): (r: Read<string>)
    ensures r.Got? && |s| > 0 ==> |r.rest| < |s|
  {
    ReadBody(js, Same, ">", Drop(s, 1))
  }

  const LONG := "\"\"\""

  /** A quoted string from its opening quote on: three quotes open a long one. */
  function ReadString(js: Js, s: string): (r: Read<string>)
    requires |s| > 0
    ensures r.Got? ==> |r.rest| < |s|
  {
    var q := s[0];
    if |s| >= 3 && s[1] == q && s[2] == q then ReadBody(js, Unescape, [q, q, q], s[3..])
    else ReadBody(js, Unescape, [q], s[1..])
  }

  predicate LangChar(c: char) {
    AsciiAlnum(c) || c == '-'
  }

  function TakeWhile(p: char -> bool, s: string): (r: string)
    ensures r <= s && (forall c :: c in r ==> p(c))
    ensures |r| < |s| ==> !p(s[|r|])
  {
    if s == "" || !p(s[0]) then "" else [s[0]] + TakeWhile(p, s[1..])
  }

  lemma {:induction false} TakesWhile(p: char -> bool, a: string, tail: string)
    requires forall c :: c in a ==> p(c)
    requires |tail| > 0 ==> !p(tail[0])
    ensures TakeWhile(p, a + tail) == a
  {
    if a == "" {
      assert a + tail == tail;
    } else {
      assert (a + tail)[1..] == a[1..] + tail;
      TakesWhile(p, a[1..], tail);
    }
  }

  // -------------------------------------------------------------------------- printers

  /** Every c replaced by a text. */
  function ReplaceAll(s: string, c: char, put: string): string {
    if s == "" then "" else (if s[0] == c then put else [s[0]]) + ReplaceAll(s[1..], c, put)
  }

  function StrBody(s: string): string {
    ReplaceAll(ReplaceAll(ReplaceAll(ReplaceAll(ReplaceAll(s,
      '\\', "\\\\"), '"', "\\\""), '\n', "\\n"), '\r', "\\r"), '\t', "\\t")
  }

  /** A single-line quoted literal. */
  function Str(s: string): string {
    "\"" + StrBody(s) + "\""
  }

  function LongBody(s: string): string {
    ReplaceAll(ReplaceAll(s, '\\', "\\\\"), '"', "\\\"")
  }

  /** A triple-quoted literal. */
  function Long(s: string): string {
    LONG + LongBody(s) + LONG
  }

  // ------------------------------------------------------------------- printing, then reading

  lemma {:induction false} ReplaceAllConcat(a: string, b: string, c: char, put: string)
    ensures ReplaceAll(a + b, c, put) == ReplaceAll(a, c, put) + ReplaceAll(b, c, put)
  {
    if a == "" {
      assert a + b == b;
    } else {
      assert (a + b)[1..] == a[1..] + b;
      ReplaceAllConcat(a[1..], b, c, put);
    }
  }

  function StrChar(c: char): string {
    match c
    case '\\' => "\\\\"
    case '"' => "\\\""
    case '\n' => "\\n"
    case '\r' => "\\r"
    case '\t' => "\\t"
    case _ => [c]
  }

  function LongChar(c: char): string {
    match c
    case '\\' => "\\\\"
    case '"' => "\\\""
    case _ => [c]
  }

  lemma ReplaceOne(d: char, c: char, put: string)
    ensures ReplaceAll([d], c, put) == if d == c then put else [d]
  {
    assert [d][1..] == "";
  }

  lemma ReplaceTwo(d: char, e: char, c: char, put: string)
    requires d != c && e != c
    ensures ReplaceAll([d, e], c, put) == [d, e]
  {
    assert [d, e][1..] == [e];
    ReplaceOne(e, c, put);
  }

  lemma LongBodyStep(s: string)
    requires s != ""
    ensures LongBody(s) == LongChar(s[0]) + LongBody(s[1..])
  {
    var c, rest := s[0], s[1..];
    assert s == [c] + rest;
    var a := ReplaceAll(s, '\\', "\\\\");
    ReplaceAllConcat([c], rest, '\\', "\\\\");
    ReplaceOne(c, '\\', "\\\\");
    var first := if c == '\\' then "\\\\" else [c];
    ReplaceAllConcat(first, ReplaceAll(rest, '\\', "\\\\"), '"', "\\\"");
    if c == '\\' {
      ReplaceTwo('\\', '\\', '"', "\\\"");
    } else {
      ReplaceOne(c, '"', "\\\"");
    }
  }

  function StrTail(s: string): string {
    ReplaceAll(ReplaceAll(ReplaceAll(s, '\n', "\\n"), '\r', "\\r"), '\t', "\\t")
  }

  lemma StrTailConcat(a: string, b: string)
    ensures StrTail(a + b) == StrTail(a) + StrTail(b)
  {
    ReplaceAllConcat(a, b, '\n', "\\n");
    var a1, b1 := ReplaceAll(a, '\n', "\\n"), ReplaceAll(b, '\n', "\\n");
    ReplaceAllConcat(a1, b1, '\r', "\\r");
    ReplaceAllConcat(ReplaceAll(a1, '\r', "\\r"), ReplaceAll(b1, '\r', "\\r"), '\t', "\\t");
  }

  lemma StrTailOfChar(c: char)
    ensures StrTail(LongChar(c)) == StrChar(c)
  {
    if c == '\\' || c == '"' {
      ReplaceTwo('\\', c, '\n', "\\n");
      ReplaceTwo('\\', c, '\r', "\\r");
      ReplaceTwo('\\', c, '\t', "\\t");
    } else {
      ReplaceOne(c, '\n', "\\n");
      ReplaceOne(c, '\r', "\\r");
      ReplaceOne(c, '\t', "\\t");
      ReplaceTwo('\\', 'n', '\r', "\\r");
      ReplaceTwo('\\', 'n', '\t', "\\t");
      ReplaceTwo('\\', 'r', '\t', "\\t");
    }
  }

  lemma StrBodyStep(s: string)
    requires s != ""
    ensures StrBody(s) == StrChar(s[0]) + StrBody(s[1..])
  {
    LongBodyStep(s);
    StrTailConcat(LongChar(s[0]), LongBody(s[1..]));
    StrTailOfChar(s[0]);
  }

  /** A printed character is itself, or a backslash and its escape. */
  predicate Printed(c: char, text: string) {
    || (text == [c] && c != '"' && c != '\\')
    || (|text| == 2 && text[0] == '\\' && text[1] != 'u' && text[1] != 'U' && Unescape(text[1]) == c)
  }

  lemma PrintedChar(c: char)
    ensures Printed(c, StrChar(c)) && Printed(c, LongChar(c))
  {
  }

  /** One printed character is read back, whatever follows. */
  lemma ReadsChar(js: Js, close: string, c: char, printed: string, tail: string)
    requires |close| > 0 && close[0] == '"' && Printed(c, printed)
    ensures ReadBody(js, Unescape, close, printed + tail) == Prepend([c], ReadBody(js, Unescape, close, tail))
  {
    var s := printed + tail;
    if |printed| == 2 {
      assert s[2..] == tail;
      assert ReadEscape(js, Unescape, s) == Got([c], tail);
    } else {
      assert s[1..] == tail;
      assert !(close <= s);
    }
  }

  lemma ReadsClose(js: Js, close: string, tail: string)
    requires |close| > 0 && close[0] == '"'
    ensures ReadBody(js, Unescape, close, close + tail) == Got("", tail)
  {
    var s := close + tail;
    assert s[..|close|] == close && s[|close|..] == tail;
  }

  lemma ReadsStep(js: Js, close: string, c: char, printed: string, body: string, tail: string, rest: string)
    requires |close| > 0 && close[0] == '"' && Printed(c, printed)
    requires ReadBody(js, Unescape, close, body + close + tail) == Got(rest, tail)
    ensures ReadBody(js, Unescape, close, (printed + body) + close + tail) == Got([c] + rest, tail)
  {
    ReadsChar(js, close, c, printed, body + close + tail);
    assert (printed + body) + close + tail == printed + (body + close + tail);
  }

  /** Reading a printed single-line literal's body up to its quote gives the string back. */
  lemma {:induction false} ReadsStrBody(js: Js, x: string, tail: string)
    ensures ReadBody(js, Unescape, "\"", StrBody(x) + "\"" + tail) == Got(x, tail)
  {
    if x == "" {
      ReadsClose(js, "\"", tail);
      assert StrBody(x) + "\"" + tail == "\"" + tail;
    } else {
      ReadsStrBody(js, x[1..], tail);
      StrBodyStep(x);
      PrintedChar(x[0]);
      ReadsStep(js, "\"", x[0], StrChar(x[0]), StrBody(x[1..]), tail, x[1..]);
      assert [x[0]] + x[1..] == x;
    }
  }

  lemma {:induction false} ReadsLongBody(js: Js, x: string, tail: string)
    ensures ReadBody(js, Unescape, LONG, LongBody(x) + LONG + tail) == Got(x, tail)
  {
    if x == "" {
      ReadsClose(js, LONG, tail);
      assert LongBody(x) + LONG + tail == LONG + tail;
    } else {
      ReadsLongBody(js, x[1..], tail);
      LongBodyStep(x);
      PrintedChar(x[0]);
      ReadsStep(js, LONG, x[0], LongChar(x[0]), LongBody(x[1..]), tail, x[1..]);
      assert [x[0]] + x[1..] == x;
    }
  }

  /** str is inverted by the reader, for every string, before anything but another quote. */
  lemma StrIsRead(js: Js, x: string, tail: string)
    requires !HeadIs(tail, '"')
    ensures ReadString(js, Str(x) + tail) == Got(x, tail)
  {
    var s := Str(x) + tail;
    ReadsStrBody(js, x, tail);
    assert s[1..] == StrBody(x) + "\"" + tail;
    if x != "" {
      StrBodyStep(x);
      assert s[1] == StrChar(x[0])[0] != '"';
    } else {
      assert s == "\"" + "\"" + tail;
      assert |s| >= 3 ==> s[2] == tail[0];
    }
    assert [s[0]] == "\"";
  }

  /** long is inverted by the reader, for every string, whatever follows. */
  lemma LongIsRead(js: Js, x: string, tail: string)
    ensures ReadString(js, Long(x) + tail) == Got(x, tail)
  {
    var s := Long(x) + tail;
    ReadsLongBody(js, x, tail);
    assert s[3..] == LongBody(x) + LONG + tail;
    assert [s[0], s[0], s[0]] == LONG;
  }
}
