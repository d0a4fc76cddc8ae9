/**
 Query strings: percent-encoding with only the unreserved characters kept (sections 2.1 and 2.3 of
 RFC 3986), pairs joined by '&' and '=', and the form decoding the web framework applies to them.
 */
module UrlQuery {
  import opened Options
  import opened Scanner

  type Byte = x: int | 0 <= x < 256

  type Pair = (string, string)

  /** The text encoding of URLs, UTF-8. */
  datatype Codec = Codec(encode: string -> seq<Byte>, decode: seq<Byte> -> string)

  /**
   What is used of UTF-8: decoding inverts encoding, ASCII is one byte, texts are encoded character
   by character, and decoding, which replaces what is malformed, yields no character from nothing.
   */
  ghost predicate Faithful(k: Codec) {
    && (forall s: string :: k.decode(k.encode(s)) == s)
    && (forall c: char :: c < 128 as char ==> k.encode([c]) == [c as int])
    && (forall a: string, b: string :: k.encode(a + b) == k.encode(a) + k.encode(b))
    && (forall a: seq<Byte>, b: seq<Byte> :: |k.decode(a + b)| <= |k.decode(a)| + |k.decode(b)|)
    && (forall x: Byte :: |k.decode([x])| <= 1)
  }

  // ------------------------------------------------------------------ percent-encoding

  predicate Unreserved(c: char) {
    'a' <= c <= 'z' || 'A' <= c <= 'Z' || '0' <= c <= '9' || c in "_.-~"
  }

  const HEX := "0123456789ABCDEF"

  function HexValue(c: char): (r: Option<int>)
    ensures r.Some? ==> 0 <= r.value < 16
  {
    if '0' <= c <= '9' then Some(c as int - '0' as int)
    else if 'A' <= c <= 'F' then Some(c as int - 'A' as int + 10)
    else if 'a' <= c <= 'f' then Some(c as int - 'a' as int + 10)
    else None
  }

  function QuoteByte(b: Byte): string {
    if b < 128 && Unreserved(b as char) then [b as char] else ['%', HEX[b / 16], HEX[b % 16]]
  }

  function QuoteBytes(bytes: seq<Byte>): string {
    if bytes == [] then "" else QuoteByte(bytes[0]) + QuoteBytes(bytes[1..])
  }

  function Quote(k: Codec, s: string): string {
    QuoteBytes(k.encode(s))
  }

  /** Two hexadecimal digits after '%' are a byte; any other character stands for itself. */
  function UnquoteBytes(k: Codec, s: string): seq<Byte> {
    if s == "" then []
    else if s[0] == '%' && |s| >= 3 && HexValue(s[1]).Some? && HexValue(s[2]).Some? then
      [16 * HexValue(s[1]).value + HexValue(s[2]).value] + UnquoteBytes(k, s[3..])
    else k.encode([s[0]]) + UnquoteBytes(k, s[1..])
  }

  function PlusToSpace(s: string): (r: string)
    ensures |r| == |s| && forall i :: 0 <= i < |s| ==> r[i] == if s[i] == '+' then ' ' else s[i]
  {
    seq(|s|, i requires 0 <= i < |s| => if s[i] == '+' then ' ' else s[i])
  }

  function UnquotePlus(k: Codec, s: string): string {
    k.decode(UnquoteBytes(k, PlusToSpace(s)))
  }

  // -------------------------------------------------------------------- escapes, spelled out

  /** A percent sign that percent-decoding would take for an escape. */
  predicate HasEscape(s: string) {
    exists i :: 0 <= i < |s| - 2 && EscapeAt(s, i)
  }

  predicate EscapeAt(s: string, i: nat)
    requires i + 2 < |s|
  {
    s[i] == '%' && HexValue(s[i + 1]).Some? && HexValue(s[i + 2]).Some?
  }

  lemma EmptyEncodes(k: Codec)
    requires Faithful(k)
    ensures k.encode("") == [] && k.decode([]) == ""
  {
    assert k.encode("" + "") == k.encode("") + k.encode("");
    assert "" + "" == "";
    assert |k.encode("")| == 0;
  }

  lemma {:induction false} UnquotesPlain(k: Codec, s: string)
    requires Faithful(k) && !HasEscape(s)
    ensures UnquoteBytes(k, s) == k.encode(s)
  {
    if s == "" {
      EmptyEncodes(k);
    } else {
      var rest := s[1..];
      assert !HasEscape(rest) by {
        if HasEscape(rest) {
          var i :| 0 <= i < |rest| - 2 && EscapeAt(rest, i);
          assert EscapeAt(s, i + 1);
        }
      }
      UnquotesPlain(k, rest);
      assert s == [s[0]] + rest;
      assert |s| >= 3 ==> !EscapeAt(s, 0);
    }
  }

  /** Letters, digits, '_', '.', '-' and '~' stand for themselves. */
  lemma {:induction false} QuoteKeeps(k: Codec, s: string)
    requires Faithful(k)
    requires forall c :: c in s ==> 'a' <= c <= 'z' || 'A' <= c <= 'Z' || '0' <= c <= '9' || c in {'_', '.', '-', '~'}
    ensures Quote(k, s) == s
  {
    if s == "" {
      EmptyEncodes(k);
    } else {
      assert s == [s[0]] + s[1..] && s[0] in s;
      assert k.encode([s[0]] + s[1..]) == [s[0] as int] + k.encode(s[1..]);
      assert forall c :: c in s[1..] ==> c in s;
      QuoteKeeps(k, s[1..]);
      assert (s[0] as int) as char == s[0];
    }
  }

  /** Any other byte is written as '%' and its two upper-case hexadecimal digits. */
  lemma QuoteEscapes(b: Byte)
    requires b >= 128 || !('a' <= b as char <= 'z' || 'A' <= b as char <= 'Z' || '0' <= b as char <= '9'
                           || b as char in {'_', '.', '-', '~'})
    ensures QuoteByte(b) == "%" + ["0123456789ABCDEF"[b / 16], "0123456789ABCDEF"[b % 16]]
  {
  }

  /** An escape is read in either case. */
  lemma EscapeIsRead(k: Codec, h: nat, l: nat, upper: bool, rest: string)
    requires h < 16 && l < 16
    ensures var digits := if upper then "0123456789ABCDEF" else "0123456789abcdef";
            UnquoteBytes(k, "%" + [digits[h], digits[l]] + rest) == [16 * h + l] + UnquoteBytes(k, rest)
  {
    hide HexValue;
    var digits := if upper then "0123456789ABCDEF" else "0123456789abcdef";
    DigitValue(digits, h, upper);
    DigitValue(digits, l, upper);
    ReadsEscape(k, digits[h], digits[l], rest);
  }

  lemma ReadsEscape(k: Codec, a: char, b: char, rest: string)
    requires HexValue(a).Some? && HexValue(b).Some?
    ensures UnquoteBytes(k, "%" + [a, b] + rest) == [16 * HexValue(a).value + HexValue(b).value] + UnquoteBytes(k, rest)
  {
    hide HexValue;
    var s := "%" + [a, b] + rest;
    assert s[0] == '%' && s[1] == a && s[2] == b && s[3..] == rest;
  }

  lemma DigitValue(digits: string, n: nat, upper: bool)
    requires n < 16 && digits == if upper then "0123456789ABCDEF" else "0123456789abcdef"
    ensures HexValue(digits[n]) == Some(n)
  {
    assert digits[n] == if n < 10 then '0' + n as char else (if upper then 'A' else 'a') + (n - 10) as char;
  }

  /** Without a percent sign every plus is a space, and all else stands for itself. */
  lemma PlusIsSpace(k: Codec, s: string, t: string)
    requires Faithful(k) && '%' !in s
    requires |t| == |s| && forall i :: 0 <= i < |s| ==> t[i] == if s[i] == '+' then ' ' else s[i]
    ensures UnquotePlus(k, s) == t
  {
    assert PlusToSpace(s) == t;
    forall i | 0 <= i < |t| ensures t[i] != '%' {
      assert s[i] in s;
    }
    UnquotesPlain(k, t);
  }

  // ------------------------------------------------------------------------ query strings

  function PairText(k: Codec, p: Pair): string {
    Quote(k, p.0) + "=" + Quote(k, p.1)
  }

  function QueryString(k: Codec, pairs: seq<Pair>): string {
    if pairs == [] then ""
    else if |pairs| == 1 then PairText(k, pairs[0])
    else PairText(k, pairs[0]) + "&" + QueryString(k, pairs[1..])
  }

  /** A part without '=' is a name with an empty value; a part of nothing is skipped. */
  function ParsePart(k: Codec, part: string): seq<Pair> {
    if part == "" then []
    else
      var eq := FindChar(part, '=', 0);
      var value := if eq == |part| then "" else part[eq + 1..];
      [(UnquotePlus(k, part[..eq]), UnquotePlus(k, value))]
  }

  function ParseQuery(k: Codec, s: string): seq<Pair>
    decreases |s|
  {
    var amp := FindChar(s, '&', 0);
    if amp == |s| then ParsePart(k, s)
    else ParsePart(k, s[..amp]) + ParseQuery(k, s[amp + 1..])
  }

  /** A repeated name keeps its last value. */
  function ToMap(pairs: seq<Pair>): map<string, string> {
    if pairs == [] then map[] else ToMap(pairs[..|pairs| - 1])[pairs[|pairs| - 1].0 := pairs[|pairs| - 1].1]
  }

  /** The value of a name is that of its last pair. */
  lemma {:induction false} LastValueWins(pairs: seq<Pair>, name: string)
    ensures name in ToMap(pairs) <==> exists i :: 0 <= i < |pairs| && pairs[i].0 == name
    ensures forall i :: 0 <= i < |pairs| && pairs[i].0 == name && (forall j :: i < j < |pairs| ==> pairs[j].0 != name) ==>
              name in ToMap(pairs) && ToMap(pairs)[name] == pairs[i].1
  {
    if pairs != [] {
      var n := |pairs| - 1;
      LastValueWins(pairs[..n], name);
      assert forall i :: 0 <= i < n ==> pairs[..n][i] == pairs[i];
    }
  }

  /** The first '=' of a part ends its name; a part without one is a name alone, and nothing is no part. */
  lemma PartIsRead(k: Codec, name: string, value: string)
    requires '=' !in name
    ensures ParsePart(k, name + "=" + value) == [(UnquotePlus(k, name), UnquotePlus(k, value))]
    ensures name != "" ==> ParsePart(k, name) == [(UnquotePlus(k, name), UnquotePlus(k, ""))]
    ensures ParsePart(k, "") == []
  {
    hide UnquotePlus;
    var part := name + "=" + value;
    assert part == name + ['='] + value;
    FindsAfter(name, '=', value, 0);
    FindsNone(name, '=', 0);
    assert part[..|name|] == name && part[|name| + 1..] == value && name[..|name|] == name;
  }

  // -------------------------------------------------------------------------- round trips

  predicate Plain(s: string) {
    forall c :: c in s ==> Unreserved(c) || c == '%'
  }

  lemma {:induction false} QuotedIsPlain(bytes: seq<Byte>)
    ensures Plain(QuoteBytes(bytes))
  {
    if bytes != [] {
      HexDigits(bytes[0]);
      QuotedIsPlain(bytes[1..]);
    }
  }

  lemma HexDigits(b: Byte)
    ensures Unreserved(HEX[b / 16]) && Unreserved(HEX[b % 16])
    ensures HexValue(HEX[b / 16]) == Some(b / 16) && HexValue(HEX[b % 16]) == Some(b % 16)
  {
    HexDigit(b / 16);
    HexDigit(b % 16);
  }

  lemma HexDigit(n: int)
    requires 0 <= n < 16
    ensures Unreserved(HEX[n]) && HexValue(HEX[n]) == Some(n)
  {
    assert HEX[n] == if n < 10 then '0' + n as char else 'A' + (n - 10) as char;
  }

  lemma UnquoteStep(k: Codec, b: Byte, tail: string)
    requires Faithful(k)
    ensures UnquoteBytes(k, QuoteByte(b) + tail) == [b] + UnquoteBytes(k, tail)
  {
    var q := QuoteByte(b) + tail;
    HexDigits(b);
    if b < 128 && Unreserved(b as char) {
      assert q[1..] == tail;
      assert k.encode([b as char]) == [(b as char) as int];
    } else {
      assert q[3..] == tail;
      assert q[0] == '%' && q[1] == HEX[b / 16] && q[2] == HEX[b % 16];
      assert 16 * (b / 16) + b % 16 == b;
    }
  }

  lemma {:induction false} UnquoteQuoteBytes(k: Codec, bytes: seq<Byte>)
    requires Faithful(k)
    ensures UnquoteBytes(k, QuoteBytes(bytes)) == bytes
  {
    if bytes != [] {
      UnquoteQuoteBytes(k, bytes[1..]);
      UnquoteStep(k, bytes[0], QuoteBytes(bytes[1..]));
    }
  }

  /** Decoding a quoted text gives the text back. */
  lemma UnquoteQuote(k: Codec, s: string)
    requires Faithful(k)
    ensures UnquotePlus(k, Quote(k, s)) == s
    ensures Plain(Quote(k, s))
  {
    QuotedIsPlain(k.encode(s));
    var q := Quote(k, s);
    assert forall i :: 0 <= i < |q| ==> q[i] in q;
    assert PlusToSpace(q) == q;
    UnquoteQuoteBytes(k, k.encode(s));
  }

  lemma {:induction false} FindsAfter(a: string, c: char, b: string, i: nat)
    requires i <= |a| && forall d :: d in a ==> d != c
    ensures FindChar(a + [c] + b, c, i) == |a|
    decreases |a| - i
  {
    if i < |a| {
      assert (a + [c] + b)[i] == a[i] && a[i] in a;
      FindsAfter(a, c, b, i + 1);
    }
  }

  lemma {:induction false} FindsNone(a: string, c: char, i: nat)
    requires i <= |a| && forall d :: d in a ==> d != c
    ensures FindChar(a, c, i) == |a|
    decreases |a| - i
  {
    if i < |a| {
      assert a[i] in a;
      FindsNone(a, c, i + 1);
    }
  }

  lemma PlainMarks(s: string)
    requires Plain(s)
    ensures forall c :: c in s ==> c != '&' && c != '=' && c != '#'
  {
  }

  lemma PairRoundTrip(k: Codec, p: Pair)
    requires Faithful(k)
    ensures ParsePart(k, PairText(k, p)) == [p]
    ensures forall c :: c in PairText(k, p) ==> c != '&'
  {
    hide Quote, UnquotePlus, Plain;
    var name, value := Quote(k, p.0), Quote(k, p.1);
    var text := PairText(k, p);
    UnquoteQuote(k, p.0);
    UnquoteQuote(k, p.1);
    PlainMarks(name);
    PlainMarks(value);
    assert text == name + ['='] + value;
    FindsAfter(name, '=', value, 0);
    assert text[..|name|] == name && text[|name| + 1..] == value;
  }

  lemma FirstPart(k: Codec, text: string, rest: string)
    requires forall c :: c in text ==> c != '&'
    ensures ParseQuery(k, text) == ParsePart(k, text)
    ensures ParseQuery(k, text + "&" + rest) == ParsePart(k, text) + ParseQuery(k, rest)
  {
    FindsNone(text, '&', 0);
    FindsAfter(text, '&', rest, 0);
    var s := text + "&" + rest;
    assert s == text + ['&'] + rest;
    assert s[..|text|] == text && s[|text| + 1..] == rest;
  }

  lemma QueryOne(k: Codec, p: Pair)
    requires Faithful(k)
    ensures ParseQuery(k, QueryString(k, [p])) == [p]
  {
    hide PairText, ParsePart, ParseQuery;
    PairRoundTrip(k, p);
    FirstPart(k, PairText(k, p), "");
  }

  lemma QueryStep(k: Codec, p: Pair, more: seq<Pair>)
    requires Faithful(k) && more != []
    ensures ParseQuery(k, QueryString(k, [p] + more)) == [p] + ParseQuery(k, QueryString(k, more))
  {
    hide PairText, ParsePart, ParseQuery;
    assert ([p] + more)[1..] == more;
    PairRoundTrip(k, p);
    FirstPart(k, PairText(k, p), QueryString(k, more));
  }

  /** Every list of pairs, empty names and values included, is decoded from its query string. */
  lemma {:induction false} QueryRoundTrip(k: Codec, pairs: seq<Pair>)
    requires Faithful(k)
    ensures ParseQuery(k, QueryString(k, pairs)) == pairs
  {
    if pairs == [] {
      assert FindChar("", '&', 0) == 0;
    } else {
      hide ParseQuery, QueryString, Faithful;
      var p, more := pairs[0], pairs[1..];
      assert pairs == [p] + more;
      if more == [] {
        QueryOne(k, p);
      } else {
        QueryStep(k, p, more);
        QueryRoundTrip(k, more);
      }
    }
  }

  lemma {:induction false} QueryStringChars(k: Codec, pairs: seq<Pair>)
    requires Faithful(k)
    ensures forall c :: c in QueryString(k, pairs) ==> Unreserved(c) || c in "%=&"
  {
    if pairs != [] {
      UnquoteQuote(k, pairs[0].0);
      UnquoteQuote(k, pairs[0].1);
      assert forall c :: c in PairText(k, pairs[0]) ==> c in Quote(k, pairs[0].0) || c == '=' || c in Quote(k, pairs[0].1);
      if |pairs| > 1 { QueryStringChars(k, pairs[1..]); }
    }
  }
}
