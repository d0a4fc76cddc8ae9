/**
 The loops that advance a cursor over a text, each against the function of the text that remains.
 */
module Cursor {
  import opened Options
  import opened Scanner
  import opened JsText
  import opened Turtle

  /** What remains of the text at a position, nothing past its end. */
  function At(text: string, i: nat): string {
    Drop(text, i)
  }

  lemma AtDrop(text: string, i: nat, k: nat)
    ensures At(text, i + k) == Drop(At(text, i), k)
    ensures k <= |At(text, i)| ==> At(text, i + k) == At(text, i)[k..]
  {
  }

  lemma PrependTwice(a: string, b: string, r: Read<string>)
    ensures Prepend(a, Prepend(b, r)) == Prepend(a + b, r)
  {
    if r.Got? {
      assert a + (b + r.value) == (a + b) + r.value;
    }
  }

  lemma PrependNothing(r: Read<string>)
    ensures Prepend("", r) == r
  {
    if r.Got? {
      assert "" + r.value == r.value;
    }
  }

  method SkipWsAt(text: string, start: nat) returns (i: nat)
    ensures At(text, i) == SkipWs(At(text, start))
  {
    i := start;
    while i < |text| && IsWs(text[i])
      invariant SkipWs(At(text, i)) == SkipWs(At(text, start))
      decreases if i < |text| then |text| - i else 0
    {
      AtDrop(text, i, 1);
      i := i + 1;
    }
  }

  method SkipLineAt(text: string, start: nat) returns (i: nat)
    ensures At(text, i) == SkipLine(At(text, start))
  {
    i := start;
    while i < |text| && text[i] != '\n'
      invariant SkipLine(At(text, i)) == SkipLine(At(text, start))
      decreases if i < |text| then |text| - i else 0
    {
      AtDrop(text, i, 1);
      i := i + 1;
    }
  }

  lemma {:induction false} SkipPastWs(s: string)
    ensures Skip(SkipWs(s)) == Skip(s)
  {
    if s != "" && IsWs(s[0]) { SkipPastWs(s[1..]); }
  }

  method SkipAt(text: string, start: nat) returns (i: nat)
    ensures At(text, i) == Skip(At(text, start))
  {
    i := start;
    while true
      invariant Skip(At(text, i)) == Skip(At(text, start))
      decreases |At(text, i)|
    {
      SkipPastWs(At(text, i));
      i := SkipWsAt(text, i);
      if i < |text| && text[i] == '#' {
        AtDrop(text, i, 1);
        i := SkipLineAt(text, i + 1);
      } else {
        break;
      }
    }
  }

  lemma Regrouped(a: string, c: char, b: string)
    ensures a + ([c] + b) == (a + [c]) + b
  {
  }

  lemma TakesOne(p: char -> bool, text: string, i: nat)
    ensures i < |text| && p(text[i]) ==> TakeWhile(p, At(text, i)) == [text[i]] + TakeWhile(p, At(text, i + 1))
    ensures i >= |text| || !p(text[i]) ==> TakeWhile(p, At(text, i)) == ""
  {
    AtDrop(text, i, 1);
  }

  method TakeWhileAt(p: char -> bool, text: string, start: nat) returns (s: string, i: nat)
    ensures s == TakeWhile(p, At(text, start)) && i == start + |s| && At(text, i) == At(text, start)[|s|..]
  {
    hide TakeWhile, At;
    s, i := "", start;
    ghost var whole := TakeWhile(p, At(text, start));
    while i < |text| && p(text[i])
      invariant i == start + |s|
      invariant whole == s + TakeWhile(p, At(text, i))
      decreases if i < |text| then |text| - i else 0
    {
      TakesOne(p, text, i);
      Regrouped(s, text[i], TakeWhile(p, At(text, i + 1)));
      s, i := s + [text[i]], i + 1;
    }
    TakesOne(p, text, i);
    AtDrop(text, start, |s|);
  }

  method ReadEscapeAt(js: Js, simple: char -> char, text: string, start: nat) returns (r: Option<string>, i: nat)
    requires HeadIs(At(text, start), '\\')
    ensures match ReadEscape(js, simple, At(text, start))
            case Threw => r.None?
            case Got(value, rest) => r == Some(value) && At(text, i) == rest
  {
    var s := At(text, start);
    if start + 1 == |text| {
      AtDrop(text, start, 2);
      return Some("undefined"), start + 2;
    }
    var e := text[start + 1];
    assert e == s[1];
    if e == 'u' || e == 'U' {
      var digits := if e == 'u' then 4 else 8;
      r, i := js.fromHex(Sub(text, start + 2, digits)), start + 2 + digits;
      AtDrop(text, start, 2);
      AtDrop(text, start, 2 + digits);
      assert Sub(text, start + 2, digits) == Sub(s, 2, digits);
    } else {
      AtDrop(text, start, 2);
      r, i := Some([simple(e)]), start + 2;
    }
  }

  method ReadBodyAt(js: Js, simple: char -> char, close: string, text: string, start: nat)
    returns (r: Option<string>, i: nat)
    requires |close| > 0
    ensures match ReadBody(js, simple, close, At(text, start))
            case Threw => r.None?
            case Got(value, rest) => r == Some(value) && At(text, i) == rest
  {
    var s := "";
    i := start;
    PrependNothing(ReadBody(js, simple, close, At(text, start)));
    ghost var whole := ReadBody(js, simple, close, At(text, start));
    while i < |text|
      invariant whole == Prepend(s, ReadBody(js, simple, close, At(text, i)))
      decreases if i < |text| then |text| - i else 0
    {
      ghost var rest := At(text, i);
      if text[i] == '\\' {
        ghost var before := i;
        var value, next := ReadEscapeAt(js, simple, text, i);
        if value.None? {
          return None, i;
        }
        PrependTwice(s, value.value, ReadBody(js, simple, close, At(text, next)));
        assert |At(text, next)| < |rest|;
        s, i := s + value.value, next;
      } else if close <= At(text, i) {
        AtDrop(text, i, |close|);
        assert s + "" == s;
        return Some(s), i + |close|;
      } else {
        AtDrop(text, i, 1);
        PrependTwice(s, [text[i]], ReadBody(js, simple, close, At(text, i + 1)));
        s, i := s + [text[i]], i + 1;
      }
    }
    assert s + "" == s;
    r := Some(s);
  }

  method ReadIriAt(js: Js, text: string, start: nat) returns (r: Option<string>, i: nat)
    ensures match ReadIri(js, At(text, start))
            case Threw => r.None?
            case Got(value, rest) => r == Some(value) && At(text, i) == rest
  {
    AtDrop(text, start, 1);
    r, i := ReadBodyAt(js, Same, ">", text, start + 1);
  }

  method ReadStringAt(js: Js, text: string, start: nat) returns (r: Option<string>, i: nat)
    requires start < |text|
    ensures match ReadString(js, At(text, start))
            case Threw => r.None?
            case Got(value, rest) => r == Some(value) && At(text, i) == rest
  {
    var q := text[start];
    if start + 3 <= |text| && text[start + 1] == q && text[start + 2] == q {
      AtDrop(text, start, 3);
      r, i := ReadBodyAt(js, Unescape, [q, q, q], text, start + 3);
    } else {
      AtDrop(text, start, 1);
      r, i := ReadBodyAt(js, Unescape, [q], text, start + 1);
    }
  }

  method ReadDigitsOf(s: string) returns (n: Number)
    requires |s| > 0
    ensures n == ReadDigits(s, Number(if s[0] == '+' || s[0] == '-' then 1 else 0, false, false))
  {
    var i := if s[0] == '+' || s[0] == '-' then 1 else 0;
    var dot, exp := false, false;
    ghost var whole := ReadDigits(s, Number(i, false, false));
    while i < |s|
      invariant i <= |s| && whole == ReadDigits(s, Number(i, dot, exp))
    {
      var c := s[i];
      if Digit(c) {
        i := i + 1;
      } else if c == '.' && !dot && i + 1 < |s| && Digit(s[i + 1]) {
        dot, i := true, i + 1;
      } else if (c == 'e' || c == 'E') && !exp {
        exp, i := true, i + 1;
        if i < |s| && (s[i] == '+' || s[i] == '-') { i := i + 1; }
      } else {
        break;
      }
    }
    n := Number(i, dot, exp);
  }

  method ReadNumericAt(text: string, start: nat) returns (literal: Node, i: nat)
    requires start < |text|
    ensures ReadNumeric(At(text, start)) == Got(literal, At(text, i))
  {
    var s := At(text, start);
    var n := ReadDigitsOf(s);
    AtDrop(text, start, n.length);
    var kind := XSD + if n.exp then "double" else if n.dot then "decimal" else "integer";
    literal, i := Literal(s[..n.length], Some(kind), None), start + n.length;
  }
}
