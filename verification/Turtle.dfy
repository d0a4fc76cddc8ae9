/**
 The browser client's two parsers as functions of the text that remains: the line-oriented
 N-Triples reader, and the Turtle reader with directives, prefixed names, blank-node property
 lists and every kind of literal. Collections are not part of this model.
 */
module Turtle {
  import opened Options
  import opened Scanner
  import opened JsText
  import Vocabulary

  datatype Node =
    | IriNode(value: string)
    | BlankNode(value: string)
    | Literal(value: string, datatypeIri: Option<string>, lang: Option<string>)

  /** What the Turtle reader pushes: the predicate is a bare value. */
  datatype Statement = Statement(s: Node, p: string, o: Node)

  /** What the N-Triples reader pushes: the predicate is a term with its type tag. */
  datatype Line = Line(s: Node, p: Node, o: Node)

  const XSD := "http://www.w3.org/2001/XMLSchema#"
  const RDF_TYPE := Vocabulary.RDF_TYPE_IRI

  // ------------------------------------------------------------------------ skipping

  function SkipWs(s: string): (r: string)
    ensures |r| <= |s|
    ensures |r| > 0 ==> !IsWs(r[0])
  {
    if s != "" && IsWs(s[0]) then SkipWs(s[1..]) else s
  }

  /** To the end of the line. */
  function SkipLine(s: string): (r: string)
    ensures |r| <= |s|
    ensures |r| > 0 ==> r[0] == '\n'
  {
    if s == "" || s[0] == '\n' then s else SkipLine(s[1..])
  }

  /** White space and comments. */
  function Skip(s: string): (r: string)
    ensures |r| <= |s|
    ensures |r| > 0 ==> !IsWs(r[0]) && r[0] != '#'
    decreases |s|
  {
    if s == "" then s
    else if IsWs(s[0]) then Skip(s[1..])
    else if s[0] == '#' then Skip(SkipLine(s[1..]))
    else s
  }

  predicate AllWs(s: string) {
    forall i :: 0 <= i < |s| ==> IsWs(s[i])
  }

  lemma {:induction false} SkipTwice(s: string)
    ensures Skip(Skip(s)) == Skip(s)
  {
  }

  // ----------------------------------------------------------------------- N-Triples

  predicate NotBlankEnd(c: char) {
    !IsWs(c) && c != '.'
  }

  /** The datatype or language tag after a literal's text; none when nothing fits. */
  function ReadLineSuffix(js: Js, value: string, rest: string): (r: Read<Node>)
    ensures r.Got? ==> |r.rest| <= |rest|
  {
    if "^^" <= rest then
      var after := SkipWs(rest[2..]);
      if !HeadIs(after, '<') then Got(Literal(value, None, None), after)
      else
        match ReadIri(js, after)
        case Threw => Threw
        case Got(iri, end) => Got(Literal(value, Some(iri), None), end)
    else if HeadIs(rest, '@') then
      var lang := TakeWhile(LangChar, rest[1..]);
      Got(Literal(value, None, Some(lang)), rest[1 + |lang|..])
    else Got(Literal(value, None, None), rest)
  }

  function ReadLineLiteral(js: Js, s: string): (r: Read<Node>)
    requires |s| > 0
    ensures r.Got? ==> |r.rest| < |s|
  {
    match ReadBody(js, Unescape, "\"", s[1..])
    case Threw => Threw
    case Got(value, rest) => ReadLineSuffix(js, value, rest)
  }

  /** A term, or None with nothing but white space consumed. */
  function ReadTerm(js: Js, s: string): (r: Read<Option<Node>>)
    ensures r.Got? ==> |r.rest| <= |s|
    ensures r.Got? && r.value.Some? ==> |r.rest| < |s|
    ensures r.Got? && r.value.None? ==> r.rest == SkipWs(s)
  {
    var t := SkipWs(s);
    if HeadIs(t, '<') then
      match ReadIri(js, t)
      case Threw => Threw
      case Got(iri, rest) => Got(Some(IriNode(iri)), rest)
    else if HeadIs(t, '_') then
      var name := TakeWhile(NotBlankEnd, t);
      Got(Some(BlankNode(name)), t[|name|..])
    else if HeadIs(t, '"') then
      match ReadLineLiteral(js, t)
      case Threw => Threw
      case Got(literal, rest) => Got(Some(literal), rest)
    else Got(None, t)
  }

  function Pushed(out: seq<Line>, s: Option<Node>, p: Option<Node>, o: Option<Node>): seq<Line> {
    if s.Some? && p.Some? && o.Some? then out + [Line(s.value, p.value, o.value)] else out
  }

  /** A final dot, if it is there. */
  function AfterDot(s: string): (r: string)
    ensures |r| <= |s|
  {
    if HeadIs(s, '.') then s[1..] else s
  }

  /** One comment or statement: what is left after it, and the triples with what it pushed. */
  function ParseLine(js: Js, t: string, out: seq<Line>): (r: Option<(string, seq<Line>)>)
    requires t != "" && !IsWs(t[0])
    ensures r.Some? ==> |r.value.0| < |t|
  {
    if t[0] == '#' then Some((SkipLine(t[1..]), out))
    else
      match ReadTerm(js, t)
      case Threw => None
      case Got(s, r1) =>
        if s.None? then Some((SkipLine(t[1..]), out))
        else
          match ReadTerm(js, r1)
          case Threw => None
          case Got(p, r2) =>
            match ReadTerm(js, r2)
            case Threw => None
            case Got(o, r3) => Some((AfterDot(SkipWs(r3)), Pushed(out, s, p, o)))
  }

  function ParseLines(js: Js, text: string, out: seq<Line>): Option<seq<Line>>
    decreases |text|
  {
    var t := SkipWs(text);
    if t == "" then Some(out)
    else
      match ParseLine(js, t, out)
      case None => None
      case Some((rest, pushed)) => ParseLines(js, rest, pushed)
  }

  function ParseNTriples(js: Js, text: string): Option<seq<Line>> {
    ParseLines(js, text, [])
  }

  // ------------------------------------------------------------------- Turtle: names and IRIs

  /** What the Turtle reader has been told: prefixes and the base. */
  datatype Env = Env(js: Js, prefixes: map<string, string>, base: string)

  predicate SchemeChar(c: char) {
    AsciiAlnum(c) || c == '+' || c == '.' || c == '-'
  }

  predicate Absolute(iri: string) {
    |iri| > 0 && AsciiLetter(iri[0]) && HeadIs(iri[|TakeWhile(SchemeChar, iri)|..], ':')
  }

  function Resolve(env: Env, iri: string): string {
    if Absolute(iri) || env.base == "" then iri else env.js.url(iri, env.base)
  }

  function ReadIriRef(env: Env, s: string): (r: Read<string>)
    ensures r.Got? && |s| > 0 ==> |r.rest| < |s|
    ensures r.Got? ==> |r.rest| <= |s|
  {
    match ReadIri(env.js, s)
    case Threw => Threw
    case Got(iri, rest) => Got(Resolve(env, iri), rest)
  }

  predicate Ends(c: char) {
    IsWs(c) || c in ";,.()[]{}\"'"
  }

  predicate NameChar(c: char) {
    !Ends(c)
  }

  predicate Boundary(s: string) {
    s == "" || Ends(s[0])
  }

  predicate EscapableInName(c: char) {
    c in "_~.!$&'()*+,;=/?#@%-"
  }

  /** Backslashes before the characters a local name may escape are dropped. */
  function UnescapeLocal(s: string): string
    decreases |s|
  {
    if s == "" then ""
    else if s[0] == '\\' && |s| > 1 && EscapableInName(s[1]) then [s[1]] + UnescapeLocal(s[2..])
    else [s[0]] + UnescapeLocal(s[1..])
  }

  function ReadPName(env: Env, s: string): (r: Read<string>)
    ensures r.Got? ==> |r.rest| < |s|
  {
    var name := TakeWhile(NameChar, s);
    var colon := FindChar(name, ':', 0);
    if colon == |name| || name[..colon] !in env.prefixes then Threw
    else Got(env.prefixes[name[..colon]] + UnescapeLocal(name[colon + 1..]), s[|name|..])
  }

  // ------------------------------------------------------------------------ Turtle: literals

  function ReadSuffix(env: Env, value: string, rest: string): (r: Read<Node>)
    ensures r.Got? ==> |r.rest| <= |rest|
  {
    if "^^" <= rest then
      match (if HeadIs(rest[2..], '<') then ReadIriRef(env, rest[2..]) else ReadPName(env, rest[2..]))
      case Threw => Threw
      case Got(iri, end) => Got(Literal(value, Some(iri), None), end)
    else if HeadIs(rest, '@') then
      var lang := TakeWhile(LangChar, rest[1..]);
      Got(Literal(value, None, Some(lang)), rest[1 + |lang|..])
    else Got(Literal(value, None, None), rest)
  }

  function ReadQuoted(env: Env, s: string): (r: Read<Node>)
    requires |s| > 0
    ensures r.Got? ==> |r.rest| < |s|
  {
    match ReadString(env.js, s)
    case Threw => Threw
    case Got(value, rest) => ReadSuffix(env, value, rest)
  }

  predicate Digit(c: char) {
    '0' <= c <= '9'
  }

  /** How far a number goes, and whether it has a fraction and an exponent. */
  datatype Number = Number(length: nat, dot: bool, exp: bool)

  function ReadDigits(s: string, n: Number): (r: Number)
    requires n.length <= |s|
    ensures n.length <= r.length <= |s|
    decreases |s| - n.length
  {
    var i := n.length;
    if i == |s| then n
    else if Digit(s[i]) then ReadDigits(s, n.(length := i + 1))
    else if s[i] == '.' && !n.dot && i + 1 < |s| && Digit(s[i + 1]) then ReadDigits(s, n.(length := i + 1, dot := true))
    else if (s[i] == 'e' || s[i] == 'E') && !n.exp then
      var signed := i + 1 < |s| && (s[i + 1] == '+' || s[i + 1] == '-');
      ReadDigits(s, n.(length := if signed then i + 2 else i + 1, exp := true))
    else n
  }

  predicate NumberStart(c: char) {
    Digit(c) || c == '+' || c == '.' || c == '-'
  }

  function ReadNumeric(s: string): (r: Read<Node>)
    requires |s| > 0
    ensures r.Got? && |r.rest| <= |s|
  {
    var n := ReadDigits(s, Number(if s[0] == '+' || s[0] == '-' then 1 else 0, false, false));
    var kind := XSD + if n.exp then "double" else if n.dot then "decimal" else "integer";
    Got(Literal(s[..n.length], Some(kind), None), s[n.length..])
  }

  // -------------------------------------------------------------- Turtle: statements

  /** The text that remains, how many blank nodes were minted, and the triples pushed. */
  datatype State = State(rest: string, bnode: nat, out: seq<Statement>)

  datatype Run<+T> = Raised | Done(value: T, state: State)

  function Decimal(n: nat): string {
    (if n < 10 then "" else Decimal(n / 10)) + [(n % 10) as char + '0']
  }

  function Minted(n: nat): Node {
    BlankNode("_:g" + Decimal(n))
  }

  function Lift<T>(r: Read<T>, st: State): (run: Run<T>)
  {
    match r
    case Threw => Raised
    case Got(value, rest) => Done(value, st.(rest := rest))
  }

  function LiftIri(r: Read<string>, st: State): Run<Node> {
    match r
    case Threw => Raised
    case Got(value, rest) => Done(IriNode(value), st.(rest := rest))
  }

  /** A blank-node label after "_:". */
  function ReadLabel(s: string): (r: Read<Node>)
    requires "_:" <= s
    ensures r.Got? && |r.rest| < |s|
  {
    var name := TakeWhile(NameChar, s[2..]);
    Got(BlankNode("_:" + name), s[2 + |name|..])
  }

  function ReadVerb(env: Env, s: string): (r: Read<string>)
    ensures r.Got? ==> |r.rest| < |s|
  {
    var t := Skip(s);
    if HeadIs(t, 'a') && Boundary(t[1..]) then Got(RDF_TYPE, t[1..])
    else if HeadIs(t, '<') then ReadIriRef(env, t)
    else ReadPName(env, t)
  }

  function BooleanLiteral(word: string): Node {
    Literal(word, Some(XSD + "boolean"), None)
  }

  function ReadObject(env: Env, st: State): (r: Run<Node>)
    ensures r.Done? ==> |r.state.rest| <= |st.rest|
    decreases |st.rest|, 1
  {
    var s := Skip(st.rest);
    if HeadIs(s, '<') then LiftIri(ReadIriRef(env, s), st)
    else if "_:" <= s then Lift(ReadLabel(s), st)
    else if HeadIs(s, '[') then ReadBlankPropertyList(env, st.(rest := s))
    else if HeadIs(s, '(') then Raised
    else if HeadIs(s, '"') || HeadIs(s, '\'') then Lift(ReadQuoted(env, s), st)
    else if s != "" && NumberStart(s[0]) then Lift(ReadNumeric(s), st)
    else if "true" <= s && Boundary(s[4..]) then Done(BooleanLiteral("true"), st.(rest := s[4..]))
    else if "false" <= s && Boundary(s[5..]) then Done(BooleanLiteral("false"), st.(rest := s[5..]))
    else LiftIri(ReadPName(env, s), st)
  }

  function ReadBlankPropertyList(env: Env, st: State): (r: Run<Node>)
    requires HeadIs(st.rest, '[')
    ensures r.Done? ==> |r.state.rest| < |st.rest|
    decreases |st.rest|, 0
  {
    var b := Minted(st.bnode);
    var inner := Skip(st.rest[1..]);
    if HeadIs(inner, ']') then Done(b, State(inner[1..], st.bnode + 1, st.out))
    else
      match ReadPredObjList(env, State(inner, st.bnode + 1, st.out), b)
      case Raised => Raised
      case Done(_, after) =>
        var close := Skip(after.rest);
        if HeadIs(close, ']') then Done(b, after.(rest := close[1..])) else Raised
  }

  function ReadObjList(env: Env, st: State, subj: Node, verb: string): (r: Run<()>)
    ensures r.Done? ==> |r.state.rest| <= |st.rest|
    decreases |st.rest|, 2
  {
    match ReadObject(env, st)
    case Raised => Raised
    case Done(o, after) =>
      var s := Skip(after.rest);
      var out := after.out + [Statement(subj, verb, o)];
      if HeadIs(s, ',') then ReadObjList(env, State(s[1..], after.bnode, out), subj, verb)
      else Done((), State(s, after.bnode, out))
  }

  function ReadPredObjList(env: Env, st: State, subj: Node): (r: Run<()>)
    ensures r.Done? ==> |r.state.rest| <= |st.rest|
    decreases |st.rest|, 3
  {
    var s := Skip(st.rest);
    if s == "" || s[0] == ']' || s[0] == '.' then Done((), st.(rest := s))
    else
      match ReadVerb(env, s)
      case Threw => Raised
      case Got(verb, rest) =>
        match ReadObjList(env, st.(rest := rest), subj, verb)
        case Raised => Raised
        case Done(_, after) =>
          var t := Skip(after.rest);
          if HeadIs(t, ';') then ReadPredObjList(env, after.(rest := t[1..]), subj)
          else Done((), after.(rest := t))
  }

  // ------------------------------------------------------------------- Turtle: directives

  function LowerCase(s: string): (r: string)
    ensures |r| == |s|
  {
    seq(|s|, i requires 0 <= i < |s| => Lower(s[i]))
  }

  /** s starts with the word in any letter case. */
  predicate StartsWithWord(s: string, word: string) {
    |word| <= |s| && LowerCase(s[..|word|]) == word
  }

  predicate WordEnds(s: string, n: nat) {
    n >= |s| || !(AsciiAlnum(s[n]) || s[n] == '_')
  }

  predicate IsDirective(s: string) {
    || HeadIs(s, '@')
    || (StartsWithWord(s, "prefix") && WordEnds(s, 6))
    || (StartsWithWord(s, "base") && WordEnds(s, 4))
  }

  /** No directive starts with a bracket or an underscore. */
  lemma NotDirective(s: string)
    requires |s| > 0 && s[0] in "[<_"
    ensures !IsDirective(s)
  {
    assert |s| >= 6 ==> LowerCase(s[..6])[0] == s[0];
    assert |s| >= 4 ==> LowerCase(s[..4])[0] == s[0];
  }

  function TrimStart(js: Js, s: string): string {
    if s != "" && js.space(s[0]) then TrimStart(js, s[1..]) else s
  }

  function TrimEnd(js: Js, s: string): string {
    if s != "" && js.space(s[|s| - 1]) then TrimEnd(js, s[..|s| - 1]) else s
  }

  predicate NotColon(c: char) {
    c != ':'
  }

  /** The prefix up to the colon, and its namespace. */
  function ReadPrefix(env: Env, s: string): (r: Option<(Env, string)>)
    ensures r.Some? ==> |r.value.1| <= |s|
  {
    var name := TakeWhile(NotColon, s);
    match ReadIriRef(env, Skip(Drop(s, |name| + 1)))
    case Threw => None
    case Got(iri, rest) =>
      Some((env.(prefixes := env.prefixes[TrimEnd(env.js, TrimStart(env.js, name)) := iri]), AfterDot(Skip(rest))))
  }

  function ReadBase(env: Env, s: string): (r: Option<(Env, string)>)
    ensures r.Some? ==> |r.value.1| <= |s|
  {
    match ReadIriRef(env, s)
    case Threw => None
    case Got(iri, rest) => Some((env.(base := iri), Skip(rest)))
  }

  function ReadDirective(env: Env, s: string): (r: Option<(Env, string)>)
    ensures r.Some? ==> |r.value.1| < |s|
  {
    if "@prefix" <= s then ReadPrefix(env, Skip(s[7..]))
    else if StartsWithWord(s, "prefix") then ReadPrefix(env, Skip(s[6..]))
    else if "@base" <= s then
      match ReadBase(env, Skip(s[5..]))
      case None => None
      case Some((after, rest)) => Some((after, AfterDot(rest)))
    else if StartsWithWord(s, "base") then ReadBase(env, Skip(s[4..]))
    else None
  }

  // --------------------------------------------------------------------- Turtle: documents

  function ReadSubject(env: Env, st: State): (r: Run<Node>)
    ensures r.Done? ==> |r.state.rest| < |st.rest|
  {
    var s := st.rest;
    if HeadIs(s, '[') then ReadBlankPropertyList(env, st)
    else if HeadIs(s, '<') then LiftIri(ReadIriRef(env, s), st)
    else if "_:" <= s then Lift(ReadLabel(s), st)
    else if HeadIs(s, '(') then Raised
    else LiftIri(ReadPName(env, s), st)
  }

  function ParseStatements(env: Env, st: State): Option<seq<Statement>>
    decreases |st.rest|
  {
    var s := Skip(st.rest);
    if s == "" then Some(st.out)
    else if IsDirective(s) then
      match ReadDirective(env, s)
      case None => None
      case Some((after, rest)) => ParseStatements(after, st.(rest := rest))
    else
      match ReadSubject(env, st.(rest := s))
      case Raised => None
      case Done(subj, after) =>
        if HeadIs(s, '[') && HeadIs(Skip(after.rest), '.') then
          ParseStatements(env, after.(rest := Skip(after.rest)[1..]))
        else
          match ReadPredObjList(env, after, subj)
          case Raised => None
          case Done(_, end) => ParseStatements(env, end.(rest := AfterDot(Skip(end.rest))))
  }

  function ParseTurtle(js: Js, text: string, base: string): Option<seq<Statement>> {
    ParseStatements(Env(js, map[], base), State(text, 0, []))
  }
}
