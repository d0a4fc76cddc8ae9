/**
 The Turtle reader against the grammar of terms (section 6.5 of RDF 1.1 Turtle), written out character
 by character: numbers and booleans with their datatypes, prefixed names, the keyword "a", relative
 IRIs, escapes, directives, and lists of objects and of predicates.
 */
module TurtleTerms {
  import opened Options
  import opened Scanner
  import opened JsText
  import opened Turtle

  // -------------------------------------------------------------------------- numbers

  predicate AllDigits(s: string) {
    forall i :: 0 <= i < |s| ==> '0' <= s[i] <= '9'
  }

  predicate Signed(sign: string) {
    sign == "" || sign == "+" || sign == "-"
  }

  /** The productions INTEGER, DECIMAL and DOUBLE; a double has a point or not, and always an exponent. */
  datatype Numeral =
    | IntegerForm(sign: string, digits: string)
    | DecimalForm(sign: string, whole: string, fraction: string)
    | DoubleForm(sign: string, whole: string, point: string, fraction: string, mark: char, expSign: string, expDigits: string)
  {
    predicate Valid() {
      match this
      case IntegerForm(sign, digits) => Signed(sign) && AllDigits(digits) && digits != ""
      case DecimalForm(sign, whole, fraction) => Signed(sign) && AllDigits(whole) && AllDigits(fraction) && fraction != ""
      case DoubleForm(sign, whole, point, fraction, mark, expSign, expDigits) =>
        && Signed(sign) && AllDigits(whole) && AllDigits(fraction) && Signed(expSign) && AllDigits(expDigits)
        && (mark == 'e' || mark == 'E') && expDigits != ""
        && (point == "" || point == ".") && (point == "" ==> fraction == "") && (whole != "" || fraction != "")
    }

    function Text(): string {
      match this
      case IntegerForm(sign, digits) => sign + digits
      case DecimalForm(sign, whole, fraction) => sign + (whole + ("." + fraction))
      case DoubleForm(sign, whole, point, fraction, mark, expSign, expDigits) =>
        sign + (whole + (point + (fraction + ([mark] + (expSign + expDigits)))))
    }

    function Datatype(): string {
      "http://www.w3.org/2001/XMLSchema#" + match this
      case IntegerForm(_, _) => "integer"
      case DecimalForm(_, _, _) => "decimal"
      case DoubleForm(_, _, _, _, _, _, _) => "double"
    }
  }

  /** What follows continues no number: no digit, no exponent mark, and no point before a digit. */
  predicate EndsNumber(next: string) {
    && (next != "" ==> !('0' <= next[0] <= '9') && next[0] != 'e' && next[0] != 'E')
    && (|next| >= 2 && next[0] == '.' ==> !('0' <= next[1] <= '9'))
  }

  function After(n: Number, more: nat): Number {
    n.(length := more + n.length)
  }

  /** What is read depends on the text that remains alone. */
  lemma {:induction false} FromHere(pre: string, t: string, i: nat, dot: bool, exp: bool)
    requires i <= |t|
    ensures ReadDigits(pre + t, Number(|pre| + i, dot, exp)) == After(ReadDigits(t, Number(i, dot, exp)), |pre|)
    decreases |t| - i
  {
    if i < |t| {
      assert (pre + t)[|pre| + i] == t[i];
      assert i + 1 < |t| ==> (pre + t)[|pre| + (i + 1)] == t[i + 1];
      if Digit(t[i]) {
        FromHere(pre, t, i + 1, dot, exp);
      } else if t[i] == '.' && !dot && i + 1 < |t| && Digit(t[i + 1]) {
        FromHere(pre, t, i + 1, true, exp);
      } else if (t[i] == 'e' || t[i] == 'E') && !exp {
        FromHere(pre, t, if i + 1 < |t| && (t[i + 1] == '+' || t[i + 1] == '-') then i + 2 else i + 1, dot, true);
      }
    }
  }

  lemma {:induction false} RunOfDigits(digits: string, t: string, dot: bool, exp: bool)
    requires AllDigits(digits)
    ensures ReadDigits(digits + t, Number(0, dot, exp)) == After(ReadDigits(t, Number(0, dot, exp)), |digits|)
  {
    if digits == "" {
      assert digits + t == t;
    } else {
      var rest := digits[1..] + t;
      assert digits + t == digits[..1] + rest;
      assert (digits[..1] + rest)[0] == digits[0];
      RunOfDigits(digits[1..], t, dot, exp);
      FromHere(digits[..1], rest, 0, dot, exp);
    }
  }

  lemma Stops(t: string, dot: bool, exp: bool)
    requires EndsNumber(t)
    ensures ReadDigits(t, Number(0, dot, exp)) == Number(0, dot, exp)
  {
  }

  /** The point before a fraction, once. */
  lemma FractionIsRead(fraction: string, t: string, exp: bool)
    requires AllDigits(fraction) && fraction != ""
    ensures ReadDigits("." + (fraction + t), Number(0, false, exp)) ==
            After(ReadDigits(t, Number(0, true, exp)), 1 + |fraction|)
  {
    var s := "." + (fraction + t);
    assert s[0] == '.' && s[1] == fraction[0];
    FromHere(".", fraction + t, 0, true, exp);
    RunOfDigits(fraction, t, true, exp);
  }

  /** The exponent's mark, once, with its sign. */
  lemma MarkIsRead(mark: char, sign: string, t: string, dot: bool)
    requires (mark == 'e' || mark == 'E') && Signed(sign) && t != "" && Digit(t[0])
    ensures ReadDigits([mark] + (sign + t), Number(0, dot, false)) ==
            After(ReadDigits(t, Number(0, dot, true)), 1 + |sign|)
  {
    var s := [mark] + (sign + t);
    assert s == ([mark] + sign) + t;
    assert s[1] == if sign == "" then t[0] else sign[0];
    FromHere([mark] + sign, t, 0, dot, true);
  }

  lemma ExponentIsRead(mark: char, sign: string, digits: string, t: string, dot: bool)
    requires (mark == 'e' || mark == 'E') && Signed(sign) && AllDigits(digits) && digits != ""
    ensures ReadDigits([mark] + (sign + (digits + t)), Number(0, dot, false)) ==
            After(ReadDigits(t, Number(0, dot, true)), 1 + |sign| + |digits|)
  {
    hide ReadDigits;
    assert (digits + t)[0] == digits[0];
    MarkIsRead(mark, sign, digits + t, dot);
    RunOfDigits(digits, t, dot, true);
  }

  /** The sign, and how the kind of number follows from its parts. */
  lemma SignIsRead(sign: string, t: string, text: string, next: string, n: Number)
    requires Signed(sign) && t != "" && t[0] != '+' && t[0] != '-'
    requires After(ReadDigits(t, Number(0, false, false)), |sign|) == n
    requires sign + t == text + next && n.length == |text|
    ensures ReadNumeric(text + next) ==
            Got(Literal(text, Some("http://www.w3.org/2001/XMLSchema#" +
                                   if n.exp then "double" else if n.dot then "decimal" else "integer"), None), next)
  {
    hide ReadDigits;
    var s := sign + t;
    assert s[0] == if sign == "" then t[0] else sign[0];
    FromHere(sign, t, 0, false, false);
    assert (text + next)[..|text|] == text && (text + next)[|text|..] == next;
  }

  lemma IntegerIsRead(sign: string, digits: string, next: string)
    requires IntegerForm(sign, digits).Valid() && EndsNumber(next)
    ensures ReadNumeric(sign + digits + next) ==
            Got(Literal(sign + digits, Some("http://www.w3.org/2001/XMLSchema#" + "integer"), None), next)
  {
    hide ReadNumeric, ReadDigits, EndsNumber;
    RunOfDigits(digits, next, false, false);
    Stops(next, false, false);
    assert (digits + next)[0] == digits[0];
    assert sign + (digits + next) == (sign + digits) + next;
    SignIsRead(sign, digits + next, sign + digits, next, Number(|sign + digits|, false, false));
  }

  lemma DecimalIsRead(sign: string, whole: string, fraction: string, next: string)
    requires DecimalForm(sign, whole, fraction).Valid() && EndsNumber(next)
    ensures var text := DecimalForm(sign, whole, fraction).Text();
            ReadNumeric(text + next) ==
            Got(Literal(text, Some("http://www.w3.org/2001/XMLSchema#" + "decimal"), None), next)
  {
    hide ReadNumeric, ReadDigits, EndsNumber;
    var f := "." + (fraction + next);
    FractionIsRead(fraction, next, false);
    Stops(next, true, false);
    RunOfDigits(whole, f, false, false);
    assert (whole + f)[0] == if whole == "" then '.' else whole[0];
    var text := DecimalForm(sign, whole, fraction).Text();
    assert sign + (whole + f) == text + next by { Regroup(sign, whole, ".", fraction, next); }
    SignIsRead(sign, whole + f, text, next, Number(|text|, true, false));
  }

  lemma Concat(a: string, b: string, next: string)
    ensures a + (b + next) == (a + b) + next
  {
  }

  lemma Regrouped(mark: char, sign: string, digits: string, next: string)
    ensures [mark] + (sign + (digits + next)) == ([mark] + (sign + digits)) + next
  {
    assert sign + (digits + next) == (sign + digits) + next;
  }

  lemma Regroup(a: string, b: string, c: string, d: string, e: string)
    ensures a + (b + (c + (d + e))) == (a + (b + (c + d))) + e
  {
    assert c + (d + e) == (c + d) + e;
    assert b + ((c + d) + e) == (b + (c + d)) + e;
  }

  /** A double reads as one if no exponent follows its point at once. */
  lemma DoubleIsRead(n: Numeral, next: string)
    requires n.DoubleForm? && n.Valid() && EndsNumber(next) && (n.point == "." ==> n.fraction != "")
    ensures ReadNumeric(n.Text() + next) ==
            Got(Literal(n.Text(), Some("http://www.w3.org/2001/XMLSchema#" + "double"), None), next)
  {
    hide ReadNumeric, ReadDigits, EndsNumber;
    var dot := n.point == ".";
    var e := [n.mark] + (n.expSign + (n.expDigits + next));
    var f := if dot then "." + (n.fraction + e) else e;
    ExponentIsRead(n.mark, n.expSign, n.expDigits, next, dot);
    Stops(next, dot, true);
    if dot {
      FractionIsRead(n.fraction, e, false);
    }
    RunOfDigits(n.whole, f, false, false);
    assert (n.whole + f)[0] == if n.whole == "" then f[0] else n.whole[0];
    assert n.sign + (n.whole + f) == n.Text() + next by { DoubleText(n, next, e, f); }
    SignIsRead(n.sign, n.whole + f, n.Text(), next, Number(|n.Text()|, dot, true));
  }

  lemma DoubleText(n: Numeral, next: string, e: string, f: string)
    requires n.DoubleForm? && n.Valid()
    requires e == [n.mark] + (n.expSign + (n.expDigits + next))
    requires f == if n.point == "." then "." + (n.fraction + e) else e
    ensures n.sign + (n.whole + f) == n.Text() + next
  {
    Regrouped(n.mark, n.expSign, n.expDigits, next);
    var exponent := [n.mark] + (n.expSign + n.expDigits);
    assert f == n.point + (n.fraction + (exponent + next));
    Regroup(n.whole, n.point, n.fraction, exponent, next);
    Concat(n.sign, n.whole + (n.point + (n.fraction + exponent)), next);
  }

  /** Otherwise the number read ends before the point, an integer. */
  lemma PointThenExponent(n: Numeral, next: string)
    requires n.DoubleForm? && n.Valid() && n.point == "." && n.fraction == ""
    ensures ReadNumeric(n.Text() + next) ==
            Got(Literal(n.sign + n.whole, Some("http://www.w3.org/2001/XMLSchema#" + "integer"), None),
                "." + ([n.mark] + n.expSign + n.expDigits) + next)
  {
    var after := "." + ([n.mark] + n.expSign + n.expDigits) + next;
    assert n.Text() + next == n.sign + n.whole + after;
    IntegerIsRead(n.sign, n.whole, after);
  }

  /**
   Every number of the Turtle grammar, before what continues none, is read to the literal of that lexical
   form with the datatype of its production, except a double whose exponent follows the point at once.
   */
  lemma NumeralIsReadIff(n: Numeral, next: string)
    requires n.Valid() && EndsNumber(next)
    ensures ReadNumeric(n.Text() + next) == Got(Literal(n.Text(), Some(n.Datatype()), None), next) <==>
            !(n.DoubleForm? && n.point == "." && n.fraction == "")
  {
    hide ReadNumeric;
    match n
    case IntegerForm(sign, digits) => IntegerIsRead(sign, digits, next);
    case DecimalForm(sign, whole, fraction) => DecimalIsRead(sign, whole, fraction, next);
    case DoubleForm(_, _, _, _, _, _, _) =>
      if n.point == "." && n.fraction == "" {
        PointThenExponent(n, next);
        assert |n.sign + n.whole| < |n.Text()|;
      } else {
        DoubleIsRead(n, next);
      }
  }

  // -------------------------------------------------------------------- marks and blanks

  predicate White(c: char) {
    c in {' ', '\t', '\r', '\n'}
  }

  /** White space, and comments to the end of their lines. */
  ghost predicate Blank(s: string)
    decreases |s|, 1
  {
    || s == ""
    || (White(s[0]) && Blank(s[1..]))
    || (s[0] == '#' && exists k: nat :: CommentEnds(s, k))
  }

  ghost predicate CommentEnds(s: string, k: nat)
    decreases |s|, 0
  {
    1 <= k < |s| && s[k] == '\n' && (forall i :: 1 <= i < k ==> s[i] != '\n') && Blank(s[k + 1..])
  }

  predicate Solid(s: string) {
    s != "" ==> !White(s[0]) && s[0] != '#'
  }

  lemma {:induction false} SkipsLine(line: string, t: string)
    requires '\n' !in line
    ensures SkipLine(line + "\n" + t) == "\n" + t
  {
    if line == "" {
      assert line + "\n" + t == "\n" + t;
    } else {
      assert line[0] in line && (line + "\n" + t)[1..] == line[1..] + "\n" + t;
      SkipsLine(line[1..], t);
    }
  }

  /** Blanks are skipped, comments among them. */
  lemma {:induction false} SkipsBlank(gap: string, t: string)
    requires Blank(gap) && Solid(t)
    ensures Skip(gap + t) == t
    decreases |gap|
  {
    if gap == "" {
      assert gap + t == t;
    } else if White(gap[0]) {
      assert (gap + t)[1..] == gap[1..] + t;
      SkipsBlank(gap[1..], t);
    } else {
      var k: nat :| CommentEnds(gap, k);
      var line, rest := gap[1..k], gap[k + 1..];
      assert (gap + t)[1..] == line + "\n" + (rest + t);
      SkipsLine(line, rest + t);
      assert ("\n" + (rest + t))[1..] == rest + t;
      SkipsBlank(rest, t);
    }
  }

  /** What follows a term: the end, white space, a separator, or a point that starts no fraction. */
  predicate TermEnds(next: string) {
    || next == ""
    || White(next[0]) || next[0] in {';', ',', ']', ')'}
    || (next[0] == '.' && (|next| >= 2 ==> !('0' <= next[1] <= '9')))
  }

  /** The marks no name goes past. */
  predicate EndsName(c: char) {
    White(c) || c in {';', ',', '.', '(', ')', '[', ']', '{', '}', '"', '\''}
  }

  lemma EndsNameIff(c: char)
    ensures EndsName(c) <==> Ends(c)
  {
  }

  // ----------------------------------------------------------------------------- IRIs

  /** A letter, then letters, digits, '+', '.' and '-' up to a colon. */
  ghost predicate HasScheme(iri: string) {
    exists k :: 0 < k < |iri| && iri[k] == ':' && SchemeUpTo(iri, k)
  }

  predicate SchemeUpTo(iri: string, k: int)
    requires 0 < k <= |iri|
  {
    && ('a' <= iri[0] <= 'z' || 'A' <= iri[0] <= 'Z')
    && forall i :: 0 <= i < k ==>
         'a' <= iri[i] <= 'z' || 'A' <= iri[i] <= 'Z' || '0' <= iri[i] <= '9' || iri[i] in {'+', '.', '-'}
  }

  lemma HasSchemeIff(iri: string)
    ensures Absolute(iri) <==> HasScheme(iri)
  {
    if HasScheme(iri) {
      SchemeIsAbsolute(iri);
    }
    if Absolute(iri) {
      AbsoluteHasScheme(iri);
    }
  }

  lemma SchemeIsAbsolute(iri: string)
    requires HasScheme(iri)
    ensures Absolute(iri)
  {
    var j :| 0 < j < |iri| && iri[j] == ':' && SchemeUpTo(iri, j);
    var scheme, rest := iri[..j], iri[j..];
    assert iri == scheme + rest && rest[0] == ':';
    forall c | c in scheme ensures SchemeChar(c) {
      var i :| 0 <= i < j && scheme[i] == c;
      assert iri[i] == c;
    }
    TakesWhile(SchemeChar, scheme, rest);
  }

  lemma AbsoluteHasScheme(iri: string)
    requires Absolute(iri)
    ensures HasScheme(iri)
  {
    var run := TakeWhile(SchemeChar, iri);
    var k := |run|;
    assert forall i :: 0 <= i < k ==> run[i] in run && iri[i] == run[i];
    assert iri[k..][0] == iri[k];
    assert SchemeUpTo(iri, k);
  }

  /** A relative IRI is resolved against the base, if there is one. */
  ghost function IriMeant(env: Env, iri: string): string {
    if HasScheme(iri) || env.base == "" then iri else env.js.url(iri, env.base)
  }

  predicate PlainIri(iri: string) {
    forall i :: 0 <= i < |iri| ==> iri[i] != '>' && iri[i] != '\\'
  }

  /** Text without escapes is read up to the closing mark, if that stands nowhere earlier. */
  predicate ClosesOnly(body: string, close: string) {
    forall i :: 0 <= i < |body| ==> body[i] != '\\' && !(close <= body[i..] + close)
  }

  lemma {:induction false} ReadsRaw(js: Js, simple: char -> char, close: string, body: string, next: string)
    requires close != "" && close[0] != '\\' && ClosesOnly(body, close)
    ensures ReadBody(js, simple, close, body + (close + next)) == Got(body, next)
    decreases |body|
  {
    var s := body + (close + next);
    if body == "" {
      assert s == close + next;
      assert s[0] == close[0] && s[..|close|] == close && s[|close|..] == next;
    } else {
      assert s[0] == body[0] && s[1..] == body[1..] + (close + next);
      assert !(close <= s) by {
        assert body[0..] == body;
        assert s == (body + close) + next;
        assert (body + close)[..|close|] == s[..|close|];
      }
      forall i | 0 <= i < |body[1..]| ensures body[1..][i] != '\\' && !(close <= body[1..][i..] + close) {
        assert body[1..][i] == body[i + 1] && body[1..][i..] == body[i + 1..];
      }
      ReadsRaw(js, simple, close, body[1..], next);
      assert body == [body[0]] + body[1..];
    }
  }

  lemma IriIsRead(env: Env, iri: string, next: string)
    requires PlainIri(iri)
    ensures ReadIriRef(env, "<" + (iri + (">" + next))) == Got(IriMeant(env, iri), next)
  {
    HasSchemeIff(iri);
    hide Absolute, HasScheme;
    var s := "<" + (iri + (">" + next));
    assert Drop(s, 1) == iri + (">" + next);
    forall i | 0 <= i < |iri| ensures !(">" <= iri[i..] + ">") {
      assert (iri[i..] + ">")[0] == iri[i];
    }
    ReadsRaw(env.js, Same, ">", iri, next);
  }

  // -------------------------------------------------------------------- prefixed names

  /** A character of a local name, or one a backslash lets stand in it. */
  datatype Unit = Plain(c: char) | Escaped(c: char)
  {
    predicate Valid() {
      match this
      case Plain(c) => c != '\\'
      case Escaped(c) =>
        c in {'_', '~', '.', '-', '!', '$', '&', '\'', '(', ')', '*', '+', ',', ';', '=', '/', '?', '#', '@', '%'}
    }

    function Text(): string {
      if Plain? then [c] else ['\\', c]
    }
  }

  predicate ValidUnits(us: seq<Unit>) {
    forall u :: u in us ==> u.Valid()
  }

  function UnitsText(us: seq<Unit>): string {
    if us == [] then "" else us[0].Text() + UnitsText(us[1..])
  }

  function UnitsValue(us: seq<Unit>): string {
    if us == [] then "" else [us[0].c] + UnitsValue(us[1..])
  }

  predicate NoMarks(s: string) {
    forall i :: 0 <= i < |s| ==> !EndsName(s[i])
  }

  predicate PlainPrefix(prefix: string) {
    NoMarks(prefix) && ':' !in prefix
  }

  lemma TakesName(a: string, next: string)
    requires NoMarks(a) && (next != "" ==> EndsName(next[0]))
    ensures TakeWhile(NameChar, a + next) == a
  {
    forall c | c in a ensures NameChar(c) {
      EndsNameIff(c);
    }
    if next != "" {
      EndsNameIff(next[0]);
    }
    TakesWhile(NameChar, a, next);
  }

  lemma NoMarksIn(prefix: string, local: string)
    requires NoMarks(prefix) && NoMarks(local)
    ensures NoMarks(prefix + ":" + local)
  {
    var name := prefix + ":" + local;
    forall i | 0 <= i < |name| ensures !EndsName(name[i]) {
      assert i < |prefix| ==> name[i] == prefix[i];
      assert i > |prefix| ==> name[i] == local[i - |prefix| - 1];
    }
  }

  lemma PrefixedName(env: Env, prefix: string, local: string, next: string)
    requires PlainPrefix(prefix) && prefix in env.prefixes && NoMarks(local) && (next != "" ==> EndsName(next[0]))
    ensures ReadPName(env, prefix + (":" + (local + next))) == Got(env.prefixes[prefix] + UnescapeLocal(local), next)
  {
    hide EndsName, NoMarks, TakeWhile, FindChar, UnescapeLocal;
    var name := prefix + ":" + local;
    assert prefix + (":" + (local + next)) == name + next;
    NoMarksIn(prefix, local);
    TakesName(name, next);
    FindsColon(prefix, local);
    assert name[..|prefix|] == prefix && name[|prefix| + 1..] == local;
    assert (name + next)[|name|..] == next;
  }

  lemma FindsColon(prefix: string, local: string)
    requires ':' !in prefix
    ensures FindChar(prefix + ":" + local, ':', 0) == |prefix|
  {
    var name := prefix + ":" + local;
    var i := FindChar(name, ':', 0);
    assert name[|prefix|] == ':';
    assert forall k :: 0 <= k < |prefix| ==> name[k] == prefix[k] && prefix[k] in prefix;
  }

  /**
   A prefixed name is read to its namespace and local name, escapes undone, exactly when its local part
   holds none of the marks that end names, as a point or an escaped comma inside it would.
   */
  lemma NameIsReadIff(env: Env, prefix: string, us: seq<Unit>, next: string)
    requires PlainPrefix(prefix) && prefix in env.prefixes && (next != "" ==> EndsName(next[0]))
    requires ValidUnits(us)
    ensures ReadPName(env, prefix + (":" + (UnitsText(us) + next))) == Got(env.prefixes[prefix] + UnitsValue(us), next) <==>
            NoMarks(UnitsText(us))
  {
    var local := UnitsText(us);
    if NoMarks(local) {
      PrefixedName(env, prefix, local, next);
      UnitsUnescape(us);
    } else {
      var s := prefix + (":" + (local + next));
      var name := TakeWhile(NameChar, s);
      var i :| 0 <= i < |local| && EndsName(local[i]);
      var at := |prefix| + 1 + i;
      assert s[at] == local[i];
      EndsNameIff(s[at]);
      assert forall j :: 0 <= j < |name| ==> name[j] in name && s[j] == name[j];
      assert |name| <= at;
      assert |s[|name|..]| > |next|;
    }
  }

  lemma {:induction false} UnitsUnescape(us: seq<Unit>)
    requires ValidUnits(us)
    ensures UnescapeLocal(UnitsText(us)) == UnitsValue(us)
  {
    if us != [] {
      var text, rest := UnitsText(us), UnitsText(us[1..]);
      assert us[0].Valid();
      if us[0].Plain? {
        assert text[0] == us[0].c && text[1..] == rest;
      } else {
        assert text[0] == '\\' && text[1] == us[0].c && text[2..] == rest;
      }
      UnitsUnescape(us[1..]);
    }
  }

  // --------------------------------------------------------------------------- escapes

  /** The character an escape in a string stands for: line feed, tab, return, backspace, form feed, or itself. */
  lemma EscapeIsRead(js: Js, e: char, next: string)
    requires e != 'u' && e != 'U'
    ensures ReadEscape(js, Unescape, ['\\', e] + next) ==
            Got([if e == 'n' then 10 as char else if e == 't' then 9 as char else if e == 'r' then 13 as char
                 else if e == 'b' then 8 as char else if e == 'f' then 12 as char else e], next)
  {
    var s := ['\\', e] + next;
    assert s[2..] == next;
  }

  /** A code point by four or by eight hexadecimal digits. */
  lemma CodePointIsRead(js: Js, digits: string, long: bool, next: string)
    requires |digits| == if long then 8 else 4
    ensures ReadEscape(js, Unescape, ['\\', if long then 'U' else 'u'] + (digits + next)) ==
            match js.fromHex(digits)
            case None => Threw
            case Some(text) => Got(text, next)
  {
    var s := ['\\', if long then 'U' else 'u'] + (digits + next);
    assert Drop(s, 2) == digits + next;
    assert (digits + next)[..|digits|] == digits;
    assert Drop(s, 2 + |digits|) == next;
  }
}
