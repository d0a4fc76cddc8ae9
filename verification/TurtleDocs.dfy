/**
 Turtle documents by their grammar (section 6.5 of RDF 1.1 Turtle): directives in all four forms, and
 triples with lists of predicates and of objects, between blanks that may hold comments.  What such a
 document means is said without the parser, and the parser returns it.
 */
module TurtleDocs {
  import opened Options
  import opened Scanner
  import opened JsText
  import opened Turtle
  import opened TurtleTerms

  // ---------------------------------------------------------------------------- objects

  datatype Suffix = Bare | Tagged(tag: string) | TypedBy(iri: string) | TypedName(prefix: string, local: seq<Unit>)

  datatype Obj =
    | NumberObj(n: Numeral)
    | BoolObj(b: bool)
    | IriObj(iri: string)
    | NameObj(prefix: string, local: seq<Unit>)
    | LabelObj(name: string)
    | QuotedObj(quote: string, body: string, suffix: Suffix)

  function NameText(prefix: string, local: seq<Unit>): string {
    prefix + (":" + UnitsText(local))
  }

  /** A name whose prefix is known; the prefix is empty or starts with a letter. */
  predicate KnownName(env: Env, prefix: string, local: seq<Unit>) {
    && PlainPrefix(prefix) && prefix in env.prefixes && ValidUnits(local) && NoMarks(UnitsText(local))
    && (prefix != "" ==> 'a' <= prefix[0] <= 'z' || 'A' <= prefix[0] <= 'Z')
  }

  function SuffixText(s: Suffix): string {
    match s
    case Bare => ""
    case Tagged(tag) => "@" + tag
    case TypedBy(iri) => "^^" + ("<" + (iri + ">"))
    case TypedName(prefix, local) => "^^" + NameText(prefix, local)
  }

  predicate ValidSuffix(env: Env, s: Suffix) {
    match s
    case Bare => true
    case Tagged(tag) =>
      forall c :: c in tag ==> 'a' <= c <= 'z' || 'A' <= c <= 'Z' || '0' <= c <= '9' || c == '-'
    case TypedBy(iri) => PlainIri(iri)
    case TypedName(prefix, local) => KnownName(env, prefix, local)
  }

  function ObjText(o: Obj): string {
    match o
    case NumberObj(n) => n.Text()
    case BoolObj(b) => if b then "true" else "false"
    case IriObj(iri) => "<" + (iri + ">")
    case NameObj(prefix, local) => NameText(prefix, local)
    case LabelObj(name) => "_:" + name
    case QuotedObj(quote, body, suffix) => quote + (body + (quote + SuffixText(suffix)))
  }

  /** Either quote, once or three times. */
  predicate Quotes(quote: string) {
    quote in {"\"", "'", "\"\"\"", "'''"}
  }

  predicate ValidObj(env: Env, o: Obj) {
    match o
    case NumberObj(n) => n.Valid() && !(n.DoubleForm? && n.point == "." && n.fraction == "")
    case BoolObj(_) => true
    case IriObj(iri) => PlainIri(iri)
    case NameObj(prefix, local) => KnownName(env, prefix, local)
    case LabelObj(name) => NoMarks(name)
    case QuotedObj(quote, body, suffix) => Quotes(quote) && ClosesOnly(body, quote) && ValidSuffix(env, suffix)
  }

  ghost function NameMeant(env: Env, prefix: string, local: seq<Unit>): string
    requires prefix in env.prefixes
  {
    env.prefixes[prefix] + UnitsValue(local)
  }

  ghost function LiteralMeant(env: Env, body: string, s: Suffix): Node
    requires ValidSuffix(env, s)
  {
    match s
    case Bare => Literal(body, None, None)
    case Tagged(tag) => Literal(body, None, Some(tag))
    case TypedBy(iri) => Literal(body, Some(IriMeant(env, iri)), None)
    case TypedName(prefix, local) => Literal(body, Some(NameMeant(env, prefix, local)), None)
  }

  ghost function ObjMeant(env: Env, o: Obj): Node
    requires ValidObj(env, o)
  {
    match o
    case NumberObj(n) => Literal(n.Text(), Some(n.Datatype()), None)
    case BoolObj(b) =>
      Literal(if b then "true" else "false", Some("http://www.w3.org/2001/XMLSchema#" + "boolean"), None)
    case IriObj(iri) => IriNode(IriMeant(env, iri))
    case NameObj(prefix, local) => IriNode(NameMeant(env, prefix, local))
    case LabelObj(name) => BlankNode("_:" + name)
    case QuotedObj(_, body, suffix) => LiteralMeant(env, body, suffix)
  }

  // ------------------------------------------------------------------------ reading objects

  lemma KnownNameIsRead(env: Env, prefix: string, local: seq<Unit>, next: string)
    requires KnownName(env, prefix, local) && (next != "" ==> EndsName(next[0]))
    ensures ReadPName(env, NameText(prefix, local) + next) == Got(NameMeant(env, prefix, local), next)
  {
    hide ReadPName;
    NameIsReadIff(env, prefix, local, next);
    var text := UnitsText(local);
    assert NameText(prefix, local) + next == prefix + (":" + (text + next)) by {
      assert ":" + (text + next) == (":" + text) + next;
    }
  }

  lemma IriTextIsRead(env: Env, iri: string, next: string)
    requires PlainIri(iri)
    ensures ReadIriRef(env, ("<" + (iri + ">")) + next) == Got(IriMeant(env, iri), next)
  {
    hide ReadIriRef, IriMeant;
    IriIsRead(env, iri, next);
    assert ("<" + (iri + ">")) + next == "<" + (iri + (">" + next));
  }

  lemma TaggedIsRead(env: Env, value: string, tag: string, next: string)
    requires forall c :: c in tag ==> LangChar(c)
    requires TermEnds(next)
    ensures ReadSuffix(env, value, ("@" + tag) + next) == Got(Literal(value, None, Some(tag)), next)
  {
    var rest := ("@" + tag) + next;
    TakesWhile(LangChar, tag, next);
    assert rest[0] == '@' && rest[1..] == tag + next && rest[1 + |tag|..] == next;
  }

  lemma AfterCarets(x: string, next: string)
    ensures var rest := ("^^" + x) + next; "^^" <= rest && rest[2..] == x + next
  {
  }

  lemma TypedByIsRead(env: Env, value: string, iri: string, next: string)
    requires PlainIri(iri)
    ensures ReadSuffix(env, value, ("^^" + ("<" + (iri + ">"))) + next) ==
            Got(Literal(value, Some(IriMeant(env, iri)), None), next)
  {
    hide ReadIriRef, ReadPName, IriMeant;
    var x := "<" + (iri + ">");
    AfterCarets(x, next);
    assert (x + next)[0] == '<';
    IriTextIsRead(env, iri, next);
  }

  lemma TypedNameIsRead(env: Env, value: string, prefix: string, local: seq<Unit>, next: string)
    requires KnownName(env, prefix, local) && TermEnds(next)
    ensures ReadSuffix(env, value, ("^^" + NameText(prefix, local)) + next) ==
            Got(Literal(value, Some(NameMeant(env, prefix, local)), None), next)
  {
    NameStart(env, prefix, local, next);
    EndsNameOrNothing(next);
    hide ReadIriRef, ReadPName, NameMeant, KnownName, TermEnds, NameText, EndsName;
    var x := NameText(prefix, local);
    AfterCarets(x, next);
    KnownNameIsRead(env, prefix, local, next);
  }

  lemma BareIsRead(env: Env, value: string, next: string)
    requires TermEnds(next)
    ensures ReadSuffix(env, value, "" + next) == Got(Literal(value, None, None), next)
  {
    assert "" + next == next;
  }

  lemma SuffixIsRead(env: Env, value: string, s: Suffix, next: string)
    requires ValidSuffix(env, s) && TermEnds(next)
    ensures ReadSuffix(env, value, SuffixText(s) + next) == Got(LiteralMeant(env, value, s), next)
  {
    hide ReadSuffix, IriMeant, NameMeant, KnownName, TermEnds, PlainIri;
    match s
    case Bare => BareIsRead(env, value, next);
    case Tagged(tag) => TaggedIsRead(env, value, tag, next);
    case TypedBy(iri) => TypedByIsRead(env, value, iri, next);
    case TypedName(prefix, local) => TypedNameIsRead(env, value, prefix, local, next);
  }

  /** What a name starts with. */
  lemma NameStart(env: Env, prefix: string, local: seq<Unit>, next: string)
    requires KnownName(env, prefix, local)
    ensures var t := NameText(prefix, local) + next;
            && t != "" && (t[0] == ':' || 'a' <= t[0] <= 'z' || 'A' <= t[0] <= 'Z')
            && |prefix| < |t| && t[|prefix|] == ':' && t[..|prefix|] == prefix
  {
    var t := NameText(prefix, local) + next;
    assert t[..|prefix|] == prefix;
    assert prefix != "" ==> t[0] == prefix[0];
  }

  lemma StringIsRead(js: Js, quote: string, body: string, next: string)
    requires Quotes(quote) && ClosesOnly(body, quote) && (next != "" ==> next[0] != quote[0])
    ensures ReadString(js, quote + (body + (quote + next))) == Got(body, next)
  {
    ReadsRaw(js, Unescape, quote, body, next);
    if |quote| == 1 {
      OpensShort(quote[0], body, next);
    } else {
      OpensLong(js, quote[0], body + (quote + next));
    }
    hide ReadBody, ClosesOnly;
    assert (quote + (body + (quote + next)))[|quote|..] == body + (quote + next);
  }

  lemma OpensLong(js: Js, q: char, tail: string)
    ensures ReadString(js, [q, q, q] + tail) == ReadBody(js, Unescape, [q, q, q], tail)
  {
    assert ([q, q, q] + tail)[3..] == tail;
  }

  lemma OpensShort(q: char, body: string, next: string)
    requires ClosesOnly(body, [q]) && (next != "" ==> next[0] != q)
    ensures var s := [q] + (body + ([q] + next)); |s| >= 3 ==> !(s[1] == q && s[2] == q)
  {
    var s := [q] + (body + ([q] + next));
    if body != "" {
      assert s[1] == body[0];
      assert (body[0..] + [q])[..1] == [body[0]];
    } else {
      assert s == [q, q] + next;
    }
  }

  lemma QuotedIsRead(env: Env, quote: string, body: string, suffix: Suffix, next: string)
    requires ValidObj(env, QuotedObj(quote, body, suffix)) && TermEnds(next)
    ensures ReadQuoted(env, ObjText(QuotedObj(quote, body, suffix)) + next) == Got(LiteralMeant(env, body, suffix), next)
  {
    SuffixStart(env, suffix, next);
    hide ReadString, ReadSuffix, LiteralMeant, ValidSuffix, SuffixText, TermEnds, ClosesOnly;
    var text, rest := SuffixText(suffix), SuffixText(suffix) + next;
    Concat(quote, text, next);
    Concat(body, quote + text, next);
    Concat(quote, body + (quote + text), next);
    StringIsRead(env.js, quote, body, rest);
    SuffixIsRead(env, body, suffix, next);
  }

  lemma SuffixStart(env: Env, suffix: Suffix, next: string)
    requires ValidSuffix(env, suffix) && TermEnds(next)
    ensures var rest := SuffixText(suffix) + next; rest != "" ==> rest[0] != '"' && rest[0] != '\''
  {
    var text := SuffixText(suffix);
    assert text != "" ==> (text + next)[0] == text[0];
    assert text == "" ==> text + next == next;
  }

  lemma LabelIsRead(name: string, next: string)
    requires NoMarks(name) && TermEnds(next)
    ensures ReadLabel("_:" + name + next) == Got(BlankNode("_:" + name), next)
  {
    var s := "_:" + name + next;
    assert s[2..] == name + next;
    TakesName(name, next);
    assert s[2 + |name|..] == next;
  }

  /** Which reader an object's first characters lead to. */
  lemma ObjStart(env: Env, o: Obj, next: string)
    requires ValidObj(env, o) && TermEnds(next)
    ensures var s := ObjText(o) + next;
            && s != "" && Solid(s)
            && (s[0] == '<' <==> o.IriObj?)
            && ("_:" <= s <==> o.LabelObj?)
            && s[0] != '[' && s[0] != '('
            && (s[0] == '"' || s[0] == '\'' <==> o.QuotedObj?)
            && (NumberStart(s[0]) <==> o.NumberObj?)
            && (o.NameObj? ==> !("true" <= s && Boundary(s[4..])) && !("false" <= s && Boundary(s[5..])))
  {
    var s := ObjText(o) + next;
    match o
    case NumberObj(n) => NumeralStart(n, next);
    case BoolObj(b) =>
    case IriObj(iri) =>
    case NameObj(prefix, local) =>
      NameStart(env, prefix, local, next);
      NameIsNoKeyword(s, prefix);
    case LabelObj(name) =>
    case QuotedObj(quote, body, suffix) => assert s[0] == quote[0];
  }

  lemma NumeralStart(n: Numeral, next: string)
    requires n.Valid()
    ensures var s := n.Text() + next; s != "" && NumberStart(s[0])
  {
    var s := n.Text() + next;
    assert s[0] == n.Text()[0];
    if n.sign == "" {
      match n
      case IntegerForm(_, digits) => assert s[0] == digits[0];
      case DecimalForm(_, whole, _) => assert whole != "" ==> s[0] == whole[0];
      case DoubleForm(_, whole, point, _, _, _, _) => assert whole != "" ==> s[0] == whole[0];
    }
  }

  /** A colon comes before any mark, and no keyword holds one. */
  lemma NameIsNoKeyword(s: string, prefix: string)
    requires PlainPrefix(prefix) && |prefix| < |s| && s[|prefix|] == ':' && s[..|prefix|] == prefix
    ensures !("true" <= s && Boundary(s[4..])) && !("false" <= s && Boundary(s[5..]))
  {
    var k := |prefix|;
    assert forall i :: 0 <= i < k ==> s[i] == prefix[i] && !EndsName(prefix[i]);
    if "true" <= s {
      assert s[0] == 't' && s[1] == 'r' && s[2] == 'u' && s[3] == 'e';
      assert k >= 4;
      EndsNameIff(s[4]);
    }
    if "false" <= s {
      assert s[0] == 'f' && s[1] == 'a' && s[2] == 'l' && s[3] == 's' && s[4] == 'e';
      assert k >= 5;
      EndsNameIff(s[5]);
    }
  }

  lemma TermEndsNumber(next: string)
    requires TermEnds(next)
    ensures EndsNumber(next) && Boundary(next)
  {
    if next != "" {
      EndsNameIff(next[0]);
    }
  }

  lemma BoolIsRead(env: Env, b: bool, rest: string, next: string, bnode: nat, out: seq<Statement>)
    requires Skip(rest) == ObjText(BoolObj(b)) + next && TermEnds(next)
    ensures ReadObject(env, State(rest, bnode, out)) == Done(ObjMeant(env, BoolObj(b)), State(next, bnode, out))
  {
    var s := Skip(rest);
    TermEndsNumber(next);
    ObjStart(env, BoolObj(b), next);
    hide Boundary, TermEnds, Skip, NumberStart, Solid, ReadQuoted, ReadIriRef, ReadLabel, ReadBlankPropertyList, ReadNumeric;
    if b {
      assert s[..4] == "true" && s[4..] == next && s[0] == 't';
    } else {
      assert s[..5] == "false" && s[5..] == next && s[0] == 'f';
      assert !("true" <= s);
    }
  }

  /** Every object of the grammar, before what ends a term, is read to what it means. */
  lemma ObjIsRead(env: Env, o: Obj, rest: string, next: string, bnode: nat, out: seq<Statement>)
    requires ValidObj(env, o) && Skip(rest) == ObjText(o) + next && TermEnds(next)
    ensures ReadObject(env, State(rest, bnode, out)) == Done(ObjMeant(env, o), State(next, bnode, out))
  {
    hide ReadNumeric, ReadQuoted, ReadLabel, ReadIriRef, ReadPName, Skip, TermEnds, KnownName, NameMeant, IriMeant, LiteralMeant,
         Boundary, NumberStart, ReadBlankPropertyList, Quotes, ClosesOnly, ValidSuffix, EndsNumber, PlainIri, NoMarks;
    ObjStart(env, o, next);
    TermEndsNumber(next);
    match o
    case NumberObj(n) => NumeralIsReadIff(n, next);
    case BoolObj(b) => BoolIsRead(env, b, rest, next, bnode, out);
    case IriObj(iri) => IriTextIsRead(env, iri, next);
    case NameObj(prefix, local) =>
      EndsNameOrNothing(next);
      KnownNameIsRead(env, prefix, local, next);
    case LabelObj(name) => LabelIsRead(name, next);
    case QuotedObj(quote, body, suffix) => QuotedIsRead(env, quote, body, suffix, next);
  }

  lemma EndsNameOrNothing(next: string)
    requires TermEnds(next)
    ensures next != "" ==> EndsName(next[0])
  {
  }

  // ------------------------------------------------------------------- predicates and lists

  datatype Verb = VerbA | VerbIri(iri: string) | VerbName(prefix: string, local: seq<Unit>)

  datatype Pred = Pred(verb: Verb, objs: seq<Obj>)

  /** What stands between two tokens: white space, and then perhaps more of it and comments. */
  ghost predicate Gap(g: string) {
    g != "" && White(g[0]) && Blank(g)
  }

  function VerbText(v: Verb): string {
    match v
    case VerbA => "a"
    case VerbIri(iri) => "<" + (iri + ">")
    case VerbName(prefix, local) => NameText(prefix, local)
  }

  function ObjsText(g: string, objs: seq<Obj>): string {
    if objs == [] then ""
    else ObjText(objs[0]) + (if |objs| == 1 then "" else g + ("," + (g + ObjsText(g, objs[1..]))))
  }

  function PredText(g: string, p: Pred): string {
    VerbText(p.verb) + (g + ObjsText(g, p.objs))
  }

  function PredsText(g: string, ps: seq<Pred>): string {
    if ps == [] then ""
    else PredText(g, ps[0]) + (if |ps| == 1 then "" else g + (";" + (g + PredsText(g, ps[1..]))))
  }

  predicate ValidVerb(env: Env, v: Verb) {
    match v
    case VerbA => true
    case VerbIri(iri) => PlainIri(iri)
    case VerbName(prefix, local) => KnownName(env, prefix, local)
  }

  predicate ValidObjs(env: Env, objs: seq<Obj>) {
    objs != [] && forall i :: 0 <= i < |objs| ==> ValidObj(env, objs[i])
  }

  predicate ValidPred(env: Env, p: Pred) {
    ValidVerb(env, p.verb) && ValidObjs(env, p.objs)
  }

  predicate ValidPreds(env: Env, ps: seq<Pred>) {
    ps != [] && forall i :: 0 <= i < |ps| ==> ValidPred(env, ps[i])
  }

  ghost function VerbMeant(env: Env, v: Verb): string
    requires ValidVerb(env, v)
  {
    match v
    case VerbA => "http://www.w3.org/1999/02/22-rdf-syntax-ns#type"
    case VerbIri(iri) => IriMeant(env, iri)
    case VerbName(prefix, local) => NameMeant(env, prefix, local)
  }

  /** One triple for each object, in order. */
  ghost function ObjsMeant(env: Env, subj: Node, verb: string, objs: seq<Obj>): seq<Statement>
    requires objs != [] ==> ValidObjs(env, objs)
  {
    if objs == [] then [] else [Statement(subj, verb, ObjMeant(env, objs[0]))] + ObjsMeant(env, subj, verb, objs[1..])
  }

  ghost function PredsMeant(env: Env, subj: Node, ps: seq<Pred>): seq<Statement>
    requires ps != [] ==> ValidPreds(env, ps)
  {
    if ps == [] then []
    else ObjsMeant(env, subj, VerbMeant(env, ps[0].verb), ps[0].objs) + PredsMeant(env, subj, ps[1..])
  }

  lemma SkipsGap(g: string, t: string)
    requires Gap(g) && Solid(t)
    ensures Skip(g + t) == t && Skip(t) == t && TermEnds(g + t) && g + t != "" && EndsName((g + t)[0])
  {
    SkipsBlank(g, t);
    SkipsBlank("", t);
    assert "" + t == t;
    assert (g + t)[0] == g[0];
  }

  lemma VerbIsRead(env: Env, v: Verb, next: string)
    requires ValidVerb(env, v) && next != "" && White(next[0])
    ensures Solid(VerbText(v) + next) && (VerbText(v) + next)[0] != ']' && (VerbText(v) + next)[0] != '.'
    ensures ReadVerb(env, VerbText(v) + next) == Got(VerbMeant(env, v), next)
  {
    hide ReadIriRef, ReadPName, NameMeant, IriMeant, Skip;
    var s := VerbText(v) + next;
    match v
    case VerbA =>
      SkipsBlank("", s);
      assert "" + s == s && s[1..] == next;
      EndsNameIff(next[0]);
    case VerbIri(iri) =>
      SkipsBlank("", s);
      assert "" + s == s && s[0] == '<';
      IriTextIsRead(env, iri, next);
    case VerbName(prefix, local) =>
      NameStart(env, prefix, local, next);
      SkipsBlank("", s);
      assert "" + s == s;
      KnownNameIsRead(env, prefix, local, next);
      NameIsNoA(s, prefix);
  }

  /** A name is not the keyword "a": a colon comes before any mark. */
  lemma NameIsNoA(s: string, prefix: string)
    requires PlainPrefix(prefix) && |prefix| < |s| && s[|prefix|] == ':' && s[..|prefix|] == prefix
    ensures !(HeadIs(s, 'a') && Boundary(s[1..]))
  {
    var k := |prefix|;
    assert forall i :: 0 <= i < k ==> s[i] == prefix[i] && !EndsName(prefix[i]);
    if s[0] == 'a' {
      assert s[1..][0] == s[1];
      EndsNameIff(s[1]);
    }
  }

  /** The objects' triples, in order, and the text up to what follows the list. */
  lemma {:induction false} ObjsAreRead(
      env: Env, g: string, objs: seq<Obj>, rest: string, next: string, bnode: nat, out: seq<Statement>, subj: Node, verb: string)
    requires Gap(g) && ValidObjs(env, objs) && Skip(rest) == ObjsText(g, objs) + (g + next) && Solid(next)
    requires next != "" && next[0] != ','
    ensures ReadObjList(env, State(rest, bnode, out), subj, verb) ==
            Done((), State(next, bnode, out + ObjsMeant(env, subj, verb, objs)))
    decreases |objs|
  {
    hide ReadObject, ObjMeant, ValidObj, Skip, Blank, TermEnds, ObjText;
    var o := objs[0];
    var pushed := out + [Statement(subj, verb, ObjMeant(env, o))];
    if |objs| == 1 {
      assert ObjsText(g, objs) == ObjText(o);
      SkipsGap(g, next);
      ObjIsRead(env, o, rest, g + next, bnode, out);
      assert ObjsMeant(env, subj, verb, objs) == [Statement(subj, verb, ObjMeant(env, o))];
    } else {
      var more := ObjsText(g, objs[1..]) + (g + next);
      ObjsSplit(g, objs, g + next);
      SkipsGap(g, next);
      SkipsGap(g, "," + (g + more));
      ObjIsRead(env, o, rest, g + ("," + (g + more)), bnode, out);
      ObjsStart(env, g, objs[1..], g + next);
      SkipsGap(g, more);
      assert ("," + (g + more))[1..] == g + more;
      ObjsAreRead(env, g, objs[1..], g + more, next, bnode, pushed, subj, verb);
      assert out + ObjsMeant(env, subj, verb, objs) == pushed + ObjsMeant(env, subj, verb, objs[1..]);
    }
  }

  lemma ObjsSplit(g: string, objs: seq<Obj>, next: string)
    requires |objs| > 1
    ensures ObjsText(g, objs) + next == ObjText(objs[0]) + (g + ("," + (g + (ObjsText(g, objs[1..]) + next))))
  {
    hide ObjText;
    var text := ObjsText(g, objs[1..]);
    Spread(ObjText(objs[0]), g, ",", g, text, next);
  }

  lemma Spread(a: string, b: string, c: string, d: string, e: string, next: string)
    ensures (a + (b + (c + (d + e)))) + next == a + (b + (c + (d + (e + next))))
  {
    Concat(d, e, next);
    Concat(c, d + e, next);
    Concat(b, c + (d + e), next);
    Concat(a, b + (c + (d + e)), next);
  }

  lemma ObjsStart(env: Env, g: string, objs: seq<Obj>, next: string)
    requires ValidObjs(env, objs) && Gap(g) && TermEnds(next)
    ensures Solid(ObjsText(g, objs) + next)
  {
    hide ObjText, ValidObj;
    if |objs| == 1 {
      ObjStart(env, objs[0], next);
    } else {
      var more := g + ("," + (g + (ObjsText(g, objs[1..]) + next)));
      ObjsSplit(g, objs, next);
      assert more[0] == g[0];
      ObjStart(env, objs[0], more);
    }
  }

  lemma PredSplit(g: string, p: Pred, next: string)
    ensures PredText(g, p) + next == VerbText(p.verb) + (g + (ObjsText(g, p.objs) + next))
  {
    hide VerbText, ObjsText;
    Concat(g, ObjsText(g, p.objs), next);
    Concat(VerbText(p.verb), g + ObjsText(g, p.objs), next);
  }

  /** One predicate with its objects. */
  lemma PredIsRead(
      env: Env, g: string, p: Pred, rest: string, next: string, bnode: nat, out: seq<Statement>, subj: Node)
    requires Gap(g) && ValidPred(env, p)
    requires Skip(rest) == PredText(g, p) + (g + next) && Solid(next) && next != "" && next[0] != ','
    ensures ReadPredObjList(env, State(rest, bnode, out), subj) ==
            var after := State(next, bnode, out + ObjsMeant(env, subj, VerbMeant(env, p.verb), p.objs));
            if next[0] == ';' then ReadPredObjList(env, after.(rest := next[1..]), subj) else Done((), after)
  {
    hide ReadVerb, ReadObjList, VerbMeant, ObjsMeant, ValidVerb, ValidObjs, VerbText, ObjsText, Blank, TermEnds;
    var objects := ObjsText(g, p.objs) + (g + next);
    PredSplit(g, p, g + next);
    assert (g + objects)[0] == g[0];
    VerbIsRead(env, p.verb, g + objects);
    SkipsGap(g, next);
    ObjsStart(env, g, p.objs, g + next);
    SkipsGap(g, objects);
    ObjsAreRead(env, g, p.objs, g + objects, next, bnode, out, subj, VerbMeant(env, p.verb));
  }

  lemma PredsSplit(g: string, ps: seq<Pred>, next: string)
    requires |ps| > 1
    ensures PredsText(g, ps) + next == PredText(g, ps[0]) + (g + (";" + (g + (PredsText(g, ps[1..]) + next))))
  {
    hide PredText;
    Spread(PredText(g, ps[0]), g, ";", g, PredsText(g, ps[1..]), next);
  }

  lemma PredsStart(env: Env, g: string, ps: seq<Pred>, next: string)
    requires Gap(g) && ValidPreds(env, ps)
    ensures Solid(PredsText(g, ps) + next)
  {
    hide VerbText, ObjsText, ValidVerb, ValidObjs;
    var p := ps[0];
    if |ps| == 1 {
      PredSplit(g, p, next);
      assert PredsText(g, ps) == PredText(g, p);
      var tail := g + (ObjsText(g, p.objs) + next);
      assert tail[0] == g[0];
      VerbIsRead(env, p.verb, tail);
    } else {
      var more := g + (";" + (g + (PredsText(g, ps[1..]) + next)));
      PredsSplit(g, ps, next);
      PredSplit(g, p, more);
      var tail := g + (ObjsText(g, p.objs) + more);
      assert tail[0] == g[0];
      VerbIsRead(env, p.verb, tail);
    }
  }

  /** The triples of a list of predicates, in order, up to the point that ends the statement. */
  lemma {:induction false} PredsAreRead(
      env: Env, g: string, ps: seq<Pred>, rest: string, next: string, bnode: nat, out: seq<Statement>, subj: Node)
    requires Gap(g) && ValidPreds(env, ps) && Skip(rest) == PredsText(g, ps) + (g + ("." + next))
    ensures ReadPredObjList(env, State(rest, bnode, out), subj) ==
            Done((), State("." + next, bnode, out + PredsMeant(env, subj, ps)))
    decreases |ps|
  {
    hide ReadPredObjList, VerbMeant, ObjsMeant, ValidVerb, ValidObjs, PredText, Blank, TermEnds;
    var p, end := ps[0], "." + next;
    if |ps| == 1 {
      assert PredsText(g, ps) == PredText(g, p);
      PredIsRead(env, g, p, rest, end, bnode, out, subj);
      assert PredsMeant(env, subj, ps) == ObjsMeant(env, subj, VerbMeant(env, p.verb), p.objs);
    } else {
      var more := PredsText(g, ps[1..]) + (g + end);
      var semi := ";" + (g + more);
      var after := out + ObjsMeant(env, subj, VerbMeant(env, p.verb), p.objs);
      PredsSplit(g, ps, g + end);
      PredIsRead(env, g, p, rest, semi, bnode, out, subj);
      assert semi[0] == ';' && semi[1..] == g + more;
      PredsStart(env, g, ps[1..], g + end);
      SkipsGap(g, more);
      PredsAreRead(env, g, ps[1..], g + more, next, bnode, after, subj);
      assert out + PredsMeant(env, subj, ps) == after + PredsMeant(env, subj, ps[1..]);
    }
  }

  // ------------------------------------------------------------------------- documents

  datatype Subj = SubjIri(iri: string) | SubjName(prefix: string, local: seq<Unit>) | SubjLabel(name: string)

  datatype Item =
    | Triples(subj: Subj, preds: seq<Pred>)
    | AtPrefix(name: string, iri: string)
    | SparqlPrefix(word: string, name: string, iri: string)
    | AtBase(iri: string)
    | SparqlBase(word: string, iri: string)

  function SubjText(s: Subj): string {
    match s
    case SubjIri(iri) => "<" + (iri + ">")
    case SubjName(prefix, local) => NameText(prefix, local)
    case SubjLabel(name) => "_:" + name
  }

  function Bracketed(iri: string): string {
    "<" + (iri + ">")
  }

  function ItemText(g: string, i: Item): string {
    match i
    case Triples(subj, preds) => SubjText(subj) + (g + (PredsText(g, preds) + (g + ".")))
    case AtPrefix(name, iri) => "@prefix" + (g + (name + (":" + (g + (Bracketed(iri) + (g + "."))))))
    case SparqlPrefix(word, name, iri) => word + (g + (name + (":" + (g + Bracketed(iri)))))
    case AtBase(iri) => "@base" + (g + (Bracketed(iri) + (g + ".")))
    case SparqlBase(word, iri) => word + (g + Bracketed(iri))
  }

  function DocText(g: string, d: seq<Item>): string {
    if d == [] then "" else ItemText(g, d[0]) + (g + DocText(g, d[1..]))
  }

  /** The word in some mix of letter cases. */
  predicate Spells(s: string, lower: string, upper: string) {
    && |s| == |lower| == |upper|
    && forall i :: 0 <= i < |s| ==> s[i] == lower[i] || s[i] == upper[i]
  }

  predicate WordChar(c: char) {
    'a' <= c <= 'z' || 'A' <= c <= 'Z' || '0' <= c <= '9' || c == '_'
  }

  /** The prefix is, or has as its first word, the keyword of a directive. */
  predicate ReadsAsDirective(prefix: string) {
    || (|prefix| >= 4 && Spells(prefix[..4], "base", "BASE") && (|prefix| > 4 ==> !WordChar(prefix[4])))
    || (|prefix| >= 6 && Spells(prefix[..6], "prefix", "PREFIX") && (|prefix| > 6 ==> !WordChar(prefix[6])))
  }

  /** A prefix to declare: empty, or from a letter on, without marks, colons, or what the trimming takes for space. */
  predicate NewPrefix(env: Env, name: string) {
    && PlainPrefix(name) && (name != "" ==> 'a' <= name[0] <= 'z' || 'A' <= name[0] <= 'Z')
    && forall i :: 0 <= i < |name| ==> !env.js.space(name[i])
  }

  predicate ValidSubj(env: Env, s: Subj) {
    match s
    case SubjIri(iri) => PlainIri(iri)
    case SubjName(prefix, local) => KnownName(env, prefix, local) && !ReadsAsDirective(prefix)
    case SubjLabel(name) => NoMarks(name)
  }

  predicate ValidItem(env: Env, i: Item) {
    match i
    case Triples(subj, preds) => ValidSubj(env, subj) && ValidPreds(env, preds)
    case AtPrefix(name, iri) => NewPrefix(env, name) && PlainIri(iri)
    case SparqlPrefix(word, name, iri) => Spells(word, "prefix", "PREFIX") && NewPrefix(env, name) && PlainIri(iri)
    case AtBase(iri) => PlainIri(iri)
    case SparqlBase(word, iri) => Spells(word, "base", "BASE") && PlainIri(iri)
  }

  /** What a directive tells: a prefix, or the base, each resolved against the base there was. */
  ghost function EnvAfter(env: Env, i: Item): Env {
    match i
    case Triples(_, _) => env
    case AtPrefix(name, iri) => env.(prefixes := env.prefixes[name := IriMeant(env, iri)])
    case SparqlPrefix(_, name, iri) => env.(prefixes := env.prefixes[name := IriMeant(env, iri)])
    case AtBase(iri) => env.(base := IriMeant(env, iri))
    case SparqlBase(_, iri) => env.(base := IriMeant(env, iri))
  }

  ghost predicate ValidDoc(env: Env, d: seq<Item>)
    decreases |d|
  {
    d == [] || (ValidItem(env, d[0]) && ValidDoc(EnvAfter(env, d[0]), d[1..]))
  }

  ghost function SubjMeant(env: Env, s: Subj): Node
    requires ValidSubj(env, s)
  {
    match s
    case SubjIri(iri) => IriNode(IriMeant(env, iri))
    case SubjName(prefix, local) => IriNode(NameMeant(env, prefix, local))
    case SubjLabel(name) => BlankNode("_:" + name)
  }

  ghost function ItemMeant(env: Env, i: Item): seq<Statement>
    requires ValidItem(env, i)
  {
    if i.Triples? then PredsMeant(env, SubjMeant(env, i.subj), i.preds) else []
  }

  /** The triples of a document, in order. */
  ghost function DocMeant(env: Env, d: seq<Item>): seq<Statement>
    requires ValidDoc(env, d)
    decreases |d|
  {
    if d == [] then [] else ItemMeant(env, d[0]) + DocMeant(EnvAfter(env, d[0]), d[1..])
  }

  // ------------------------------------------------------------------- reading documents

  /** Blanks before a document change nothing. */
  lemma SameSkipped(env: Env, rest: string, other: string, bnode: nat, out: seq<Statement>)
    requires Skip(rest) == Skip(other)
    ensures ParseStatements(env, State(rest, bnode, out)) == ParseStatements(env, State(other, bnode, out))
  {
    hide Skip, IsDirective, ReadDirective, ReadSubject, ReadPredObjList;
  }

  lemma SpelledWord(s: string, word: string, lower: string, upper: string, rest: string)
    requires Spells(word, lower, upper) && s == word + rest
    requires (lower == "prefix" && upper == "PREFIX") || (lower == "base" && upper == "BASE")
    ensures StartsWithWord(s, lower)
  {
    assert s[..|lower|] == word;
    assert LowerCase(word) == lower;
  }

  /** No keyword starts a text whose first characters spell none. */
  lemma NoWord(s: string, prefix: string)
    requires |prefix| < |s| && s[|prefix|] == ':' && s[..|prefix|] == prefix && !ReadsAsDirective(prefix)
    requires s[0] != '@'
    ensures !IsDirective(s)
  {
    var k := |prefix|;
    assert forall i :: 0 <= i < k ==> s[i] == prefix[i];
    if StartsWithWord(s, "prefix") && WordEnds(s, 6) {
      SpelledLower(s, "prefix", "PREFIX", prefix);
    }
    if StartsWithWord(s, "base") && WordEnds(s, 4) {
      SpelledLower(s, "base", "BASE", prefix);
    }
  }

  lemma SpelledLower(s: string, lower: string, upper: string, prefix: string)
    requires |prefix| < |s| && s[|prefix|] == ':' && s[..|prefix|] == prefix && StartsWithWord(s, lower)
    requires (lower == "prefix" && upper == "PREFIX") || (lower == "base" && upper == "BASE")
    ensures |lower| <= |prefix| && Spells(prefix[..|lower|], lower, upper)
  {
    var n := |lower|;
    assert forall i :: 0 <= i < n ==> Lower(s[i]) == LowerCase(s[..n])[i] == lower[i];
    assert Lower(':') == ':';
    assert forall i :: 0 <= i < n ==> s[i] != ':';
    assert forall i :: 0 <= i < n ==> prefix[..n][i] == s[i];
  }

  lemma SubjStart(env: Env, subj: Subj, next: string)
    requires ValidSubj(env, subj)
    ensures var s := SubjText(subj) + next;
            && s != "" && Solid(s) && s[0] != '[' && s[0] != '.' && !IsDirective(s)
            && (s[0] == '<' <==> subj.SubjIri?) && ("_:" <= s <==> subj.SubjLabel?) && s[0] != '('
  {
    var s := SubjText(subj) + next;
    match subj
    case SubjIri(iri) => NotDirective(s);
    case SubjName(prefix, local) =>
      NameStart(env, prefix, local, next);
      NoWord(s, prefix);
    case SubjLabel(name) => NotDirective(s);
  }

  lemma SubjIsRead(env: Env, subj: Subj, next: string, bnode: nat, out: seq<Statement>)
    requires ValidSubj(env, subj) && TermEnds(next)
    ensures ReadSubject(env, State(SubjText(subj) + next, bnode, out)) == Done(SubjMeant(env, subj), State(next, bnode, out))
  {
    SubjStart(env, subj, next);
    EndsNameOrNothing(next);
    hide ReadIriRef, ReadPName, ReadLabel, NameMeant, IriMeant, ReadBlankPropertyList, TermEnds, KnownName, NoMarks, PlainIri,
         IsDirective, Solid;
    match subj
    case SubjIri(iri) => IriTextIsRead(env, iri, next);
    case SubjName(prefix, local) => KnownNameIsRead(env, prefix, local, next);
    case SubjLabel(name) => LabelIsRead(name, next);
  }

  lemma TriplesAreRead(env: Env, g: string, subj: Subj, preds: seq<Pred>, next: string, bnode: nat, out: seq<Statement>)
    requires Gap(g) && ValidSubj(env, subj) && ValidPreds(env, preds)
    ensures ParseStatements(env, State(ItemText(g, Triples(subj, preds)) + next, bnode, out)) ==
            ParseStatements(env, State(next, bnode, out + PredsMeant(env, SubjMeant(env, subj), preds)))
  {
    var body := PredsText(g, preds) + (g + ("." + next));
    var s := SubjText(subj) + (g + body);
    SubjStart(env, subj, g + body);
    PredsStart(env, g, preds, g + ("." + next));
    SkipsGap(g, body);
    SkipsNothing(s);
    SkipsNothing("." + next);
    assert ("." + next)[1..] == next;
    hide ReadSubject, ReadPredObjList, SubjMeant, PredsMeant, ItemText, PredsText, SubjText, ValidSubj, ValidPreds, Skip, IsDirective,
         Gap, Solid, EndsName;
    TriplesText(g, subj, preds, next);
    SubjIsRead(env, subj, g + body, bnode, out);
    hide TermEnds;
    PredsAreRead(env, g, preds, g + body, next, bnode, out, SubjMeant(env, subj));
  }

  lemma TriplesText(g: string, subj: Subj, preds: seq<Pred>, next: string)
    ensures ItemText(g, Triples(subj, preds)) + next == SubjText(subj) + (g + (PredsText(g, preds) + (g + ("." + next))))
  {
    hide SubjText, PredsText;
    Spread(SubjText(subj), g, PredsText(g, preds), g, ".", next);
  }

  lemma SkipsNothing(s: string)
    requires Solid(s)
    ensures Skip(s) == s
  {
    SkipsBlank("", s);
    assert "" + s == s;
  }

  lemma {:induction false} TrimsNothing(js: Js, name: string)
    requires forall i :: 0 <= i < |name| ==> !js.space(name[i])
    ensures TrimEnd(js, TrimStart(js, name)) == name
  {
  }

  lemma BracketSolid(iri: string, after: string)
    ensures Solid(Bracketed(iri) + after)
  {
  }

  /** A prefix with its namespace, and a point that may follow. */
  lemma PrefixIsRead(env: Env, g: string, name: string, iri: string, after: string)
    requires Gap(g) && NewPrefix(env, name) && PlainIri(iri)
    ensures ReadPrefix(env, name + (":" + (g + (Bracketed(iri) + after)))) ==
            Some((env.(prefixes := env.prefixes[name := IriMeant(env, iri)]), AfterDot(Skip(after))))
  {
    var tail := g + (Bracketed(iri) + after);
    BracketSolid(iri, after);
    SkipsGap(g, Bracketed(iri) + after);
    TrimsNothing(env.js, name);
    UpToColon(name, tail);
    hide ReadIriRef, IriMeant, Skip, Gap, TermEnds, TrimStart, TrimEnd, TakeWhile, Drop, PlainPrefix, AfterDot, Solid;
    IriTextIsRead(env, iri, after);
  }

  lemma UpToColon(name: string, tail: string)
    requires ':' !in name
    ensures TakeWhile(NotColon, name + (":" + tail)) == name && Drop(name + (":" + tail), |name| + 1) == tail
  {
    hide TakeWhile;
    TakesWhile(NotColon, name, ":" + tail);
    DropsFront(name + ":", tail);
    assert name + (":" + tail) == (name + ":") + tail;
  }

  lemma DropsFront(front: string, tail: string)
    ensures Drop(front + tail, |front|) == tail
  {
  }

  lemma BaseIsRead(env: Env, iri: string, after: string)
    requires PlainIri(iri)
    ensures ReadBase(env, Bracketed(iri) + after) == Some((env.(base := IriMeant(env, iri)), Skip(after)))
  {
    hide ReadIriRef, IriMeant, Skip;
    IriTextIsRead(env, iri, after);
  }

  lemma NameSolid(env: Env, name: string, tail: string)
    requires NewPrefix(env, name) && tail != "" && tail[0] == ':'
    ensures Solid(name + tail)
  {
    assert (name + tail)[0] == if name == "" then ':' else name[0];
  }

  /** A directive is read, and what follows it in what it told. */
  lemma DirectiveStep(env: Env, s: string, env': Env, rest: string, bnode: nat, out: seq<Statement>)
    requires s != "" && Solid(s) && IsDirective(s) && ReadDirective(env, s) == Some((env', rest))
    ensures ParseStatements(env, State(s, bnode, out)) == ParseStatements(env', State(rest, bnode, out))
  {
    hide IsDirective, ReadDirective;
    SkipsBlank("", s);
    assert "" + s == s;
  }

  lemma AtPrefixDirective(env: Env, rest: string)
    ensures var s := "@prefix" + rest;
            s != "" && Solid(s) && IsDirective(s) && ReadDirective(env, s) == ReadPrefix(env, Skip(rest))
  {
    hide ReadPrefix, Skip;
    var s := "@prefix" + rest;
    assert s[..7] == "@prefix" && s[7..] == rest;
  }

  lemma SparqlPrefixDirective(env: Env, word: string, rest: string)
    requires Spells(word, "prefix", "PREFIX") && rest != "" && White(rest[0])
    ensures var s := word + rest;
            s != "" && Solid(s) && IsDirective(s) && ReadDirective(env, s) == ReadPrefix(env, Skip(rest))
  {
    var s := word + rest;
    SpelledWord(s, word, "prefix", "PREFIX", rest);
    hide ReadPrefix, Skip, StartsWithWord;
    assert s[0] == word[0] && s[6] == rest[0] && s[6..] == rest;
  }

  lemma AtBaseDirective(env: Env, rest: string)
    ensures var s := "@base" + rest;
            s != "" && Solid(s) && IsDirective(s) &&
            ReadDirective(env, s) == match ReadBase(env, Skip(rest))
                                     case None => None
                                     case Some((after, end)) => Some((after, AfterDot(end)))
  {
    var s := "@base" + rest;
    AtIsNoWord(s);
    hide ReadBase, Skip, StartsWithWord;
    assert s[..5] == "@base" && s[5..] == rest && s[1] == 'b';
    assert "@prefix"[1] == 'p';
  }

  lemma AtIsNoWord(s: string)
    requires s != "" && s[0] == '@'
    ensures !StartsWithWord(s, "prefix") && !StartsWithWord(s, "base")
  {
    assert |s| >= 6 ==> LowerCase(s[..6])[0] == '@';
    assert |s| >= 4 ==> LowerCase(s[..4])[0] == '@';
  }

  lemma SparqlBaseDirective(env: Env, word: string, rest: string)
    requires Spells(word, "base", "BASE") && rest != "" && White(rest[0])
    ensures var s := word + rest;
            s != "" && Solid(s) && IsDirective(s) && ReadDirective(env, s) == ReadBase(env, Skip(rest))
  {
    var s := word + rest;
    SpelledWord(s, word, "base", "BASE", rest);
    assert s[0] == word[0] && s[4] == rest[0] && s[4..] == rest;
    BaseIsNoPrefix(s);
    hide ReadBase, Skip, StartsWithWord;
  }

  lemma BaseIsNoPrefix(s: string)
    requires s != "" && (s[0] == 'b' || s[0] == 'B')
    ensures !StartsWithWord(s, "prefix")
  {
    assert |s| >= 6 ==> LowerCase(s[..6])[0] == 'b';
  }

  lemma AtPrefixText(g: string, name: string, iri: string, next: string)
    ensures ItemText(g, AtPrefix(name, iri)) + next ==
            "@prefix" + (g + (name + (":" + (g + (Bracketed(iri) + (g + ("." + next)))))))
  {
    hide Bracketed;
    var inner := Bracketed(iri) + (g + ".");
    Concat(g, ".", next);
    Concat(Bracketed(iri), g + ".", next);
    Spread(g, name, ":", g, inner, next);
    Concat("@prefix", g + (name + (":" + (g + inner))), next);
  }

  lemma AtPrefixIsRead(env: Env, g: string, name: string, iri: string, next: string, bnode: nat, out: seq<Statement>)
    requires Gap(g) && NewPrefix(env, name) && PlainIri(iri)
    ensures ParseStatements(env, State(ItemText(g, AtPrefix(name, iri)) + next, bnode, out)) ==
            ParseStatements(EnvAfter(env, AtPrefix(name, iri)), State(next, bnode, out))
  {
    var after := g + ("." + next);
    var tail := name + (":" + (g + (Bracketed(iri) + after)));
    NameSolid(env, name, ":" + (g + (Bracketed(iri) + after)));
    SkipsGap(g, tail);
    SkipsGap(g, "." + next);
    assert ("." + next)[1..] == next;
    hide ReadPrefix, ReadDirective, ParseStatements, IriMeant, Skip, ItemText, Gap, TermEnds, NewPrefix, PlainIri, Bracketed,
         IsDirective, Solid;
    AtPrefixText(g, name, iri, next);
    PrefixIsRead(env, g, name, iri, after);
    AtPrefixDirective(env, g + tail);
    DirectiveStep(env, "@prefix" + (g + tail), EnvAfter(env, AtPrefix(name, iri)), next, bnode, out);
  }

  lemma SparqlPrefixText(g: string, word: string, name: string, iri: string, next: string)
    ensures ItemText(g, SparqlPrefix(word, name, iri)) + next ==
            word + (g + (name + (":" + (g + (Bracketed(iri) + next)))))
  {
    hide Bracketed;
    Spread(g, name, ":", g, Bracketed(iri), next);
    Concat(word, g + (name + (":" + (g + Bracketed(iri)))), next);
  }

  lemma SparqlPrefixIsRead(
      env: Env, g: string, word: string, name: string, iri: string, next: string, bnode: nat, out: seq<Statement>)
    requires Gap(g) && Spells(word, "prefix", "PREFIX") && NewPrefix(env, name) && PlainIri(iri)
    requires Skip(next) == "" || Skip(next)[0] != '.'
    ensures ParseStatements(env, State(ItemText(g, SparqlPrefix(word, name, iri)) + next, bnode, out)) ==
            ParseStatements(EnvAfter(env, SparqlPrefix(word, name, iri)), State(next, bnode, out))
  {
    var tail := name + (":" + (g + (Bracketed(iri) + next)));
    NameSolid(env, name, ":" + (g + (Bracketed(iri) + next)));
    SkipsGap(g, tail);
    assert (g + tail)[0] == g[0];
    hide ReadPrefix, ReadDirective, ParseStatements, IriMeant, Skip, ItemText, Blank, TermEnds, NewPrefix, PlainIri, Bracketed,
         IsDirective, Solid, Spells;
    var env' := EnvAfter(env, SparqlPrefix(word, name, iri));
    SparqlPrefixText(g, word, name, iri, next);
    PrefixIsRead(env, g, name, iri, next);
    SparqlPrefixDirective(env, word, g + tail);
    DirectiveStep(env, word + (g + tail), env', Skip(next), bnode, out);
    SkipTwice(next);
    SameSkipped(env', Skip(next), next, bnode, out);
  }

  lemma AtBaseIsRead(env: Env, g: string, iri: string, next: string, bnode: nat, out: seq<Statement>)
    requires Gap(g) && PlainIri(iri)
    ensures ParseStatements(env, State(ItemText(g, AtBase(iri)) + next, bnode, out)) ==
            ParseStatements(EnvAfter(env, AtBase(iri)), State(next, bnode, out))
  {
    var after := g + ("." + next);
    var tail := Bracketed(iri) + after;
    assert ItemText(g, AtBase(iri)) + next == "@base" + (g + tail) by {
      Spread("@base", g, Bracketed(iri), g, ".", next);
    }
    BracketSolid(iri, after);
    SkipsGap(g, tail);
    SkipsGap(g, "." + next);
    assert ("." + next)[1..] == next;
    hide ReadBase, ReadDirective, ParseStatements, IriMeant, Skip, ItemText, Gap, TermEnds, PlainIri, Bracketed, IsDirective, Solid;
    BaseIsRead(env, iri, after);
    AtBaseDirective(env, g + tail);
    DirectiveStep(env, "@base" + (g + tail), EnvAfter(env, AtBase(iri)), next, bnode, out);
  }

  lemma SparqlBaseIsRead(env: Env, g: string, word: string, iri: string, next: string, bnode: nat, out: seq<Statement>)
    requires Gap(g) && Spells(word, "base", "BASE") && PlainIri(iri)
    ensures ParseStatements(env, State(ItemText(g, SparqlBase(word, iri)) + next, bnode, out)) ==
            ParseStatements(EnvAfter(env, SparqlBase(word, iri)), State(next, bnode, out))
  {
    var tail := Bracketed(iri) + next;
    assert ItemText(g, SparqlBase(word, iri)) + next == word + (g + tail) by {
      Concat(g, Bracketed(iri), next);
      Concat(word, g + Bracketed(iri), next);
    }
    BracketSolid(iri, next);
    SkipsGap(g, tail);
    assert (g + tail)[0] == g[0];
    hide ReadBase, ReadDirective, ParseStatements, IriMeant, Skip, ItemText, Blank, TermEnds, PlainIri, Bracketed, IsDirective,
         Solid, Spells;
    var env' := EnvAfter(env, SparqlBase(word, iri));
    BaseIsRead(env, iri, next);
    SparqlBaseDirective(env, word, g + tail);
    DirectiveStep(env, word + (g + tail), env', Skip(next), bnode, out);
    SkipTwice(next);
    SameSkipped(env', Skip(next), next, bnode, out);
  }

  /** What an item starts with is no blank and no point. */
  lemma ItemStart(env: Env, g: string, i: Item, next: string)
    requires Gap(g) && ValidItem(env, i)
    ensures var s := ItemText(g, i) + next; s != "" && Solid(s) && s[0] != '.'
  {
    var s := ItemText(g, i) + next;
    match i
    case Triples(subj, preds) =>
      var more := g + (PredsText(g, preds) + (g + "."));
      assert s == SubjText(subj) + (more + next) by { Concat(SubjText(subj), more, next); }
      SubjStart(env, subj, more + next);
    case AtPrefix(_, _) => assert s[0] == '@';
    case SparqlPrefix(word, _, _) => assert s[0] == word[0];
    case AtBase(_) => assert s[0] == '@';
    case SparqlBase(word, _) => assert s[0] == word[0];
  }

  /** An item is read to its triples, and what follows in what it told. */
  lemma ItemIsRead(env: Env, g: string, i: Item, next: string, bnode: nat, out: seq<Statement>)
    requires Gap(g) && ValidItem(env, i) && (Skip(next) == "" || Skip(next)[0] != '.')
    ensures ParseStatements(env, State(ItemText(g, i) + next, bnode, out)) ==
            ParseStatements(EnvAfter(env, i), State(next, bnode, out + ItemMeant(env, i)))
  {
    hide ParseStatements, ItemText, PredsMeant, SubjMeant, IriMeant, ValidSubj, ValidPreds, NewPrefix, PlainIri, Blank, Skip;
    assert out + [] == out;
    match i
    case Triples(subj, preds) => TriplesAreRead(env, g, subj, preds, next, bnode, out);
    case AtPrefix(name, iri) => AtPrefixIsRead(env, g, name, iri, next, bnode, out);
    case SparqlPrefix(word, name, iri) => SparqlPrefixIsRead(env, g, word, name, iri, next, bnode, out);
    case AtBase(iri) => AtBaseIsRead(env, g, iri, next, bnode, out);
    case SparqlBase(word, iri) => SparqlBaseIsRead(env, g, word, iri, next, bnode, out);
  }

  lemma {:induction false} ItemsAreRead(env: Env, g: string, d: seq<Item>, rest: string, bnode: nat, out: seq<Statement>)
    requires Gap(g) && ValidDoc(env, d) && Skip(rest) == Skip(DocText(g, d))
    ensures ParseStatements(env, State(rest, bnode, out)) == Some(out + DocMeant(env, d))
    decreases |d|
  {
    hide ItemText, ItemMeant, EnvAfter, ValidItem, Gap, ParseStatements, Skip;
    SameSkipped(env, rest, DocText(g, d), bnode, out);
    if d == [] {
      assert out + [] == out;
      NothingLeft(env, bnode, out);
    } else {
      var next := g + DocText(g, d[1..]);
      var more := out + ItemMeant(env, d[0]);
      DocStart(env, g, d);
      ItemIsRead(env, g, d[0], next, bnode, out);
      ItemsAreRead(EnvAfter(env, d[0]), g, d[1..], next, bnode, more);
      assert out + DocMeant(env, d) == more + DocMeant(EnvAfter(env, d[0]), d[1..]);
    }
  }

  lemma NothingLeft(env: Env, bnode: nat, out: seq<Statement>)
    ensures ParseStatements(env, State("", bnode, out)) == Some(out)
  {
  }

  /** Blanks before the rest of a document are skipped, and it starts with no point. */
  lemma DocStart(env: Env, g: string, d: seq<Item>)
    requires Gap(g) && ValidDoc(env, d) && d != []
    ensures var next := g + DocText(g, d[1..]);
            && Skip(next) == Skip(DocText(g, d[1..]))
            && (Skip(next) == "" || Skip(next)[0] != '.')
  {
    hide ItemText, EnvAfter, ValidItem, Blank;
    var more := d[1..];
    if more != [] {
      ItemStart(EnvAfter(env, d[0]), g, more[0], g + DocText(g, more[1..]));
    }
    SkipsGap(g, DocText(g, more));
  }

  /**
   The Turtle parser returns the triples of the document, in order: for every document of directives, and
   of triples with predicate and object lists, numbers, booleans, strings, names and labels in them.
   */
  lemma TurtleDocIsRead(js: Js, base: string, g: string, d: seq<Item>)
    requires Gap(g) && ValidDoc(Env(js, map[], base), d)
    ensures ParseTurtle(js, DocText(g, d), base) == Some(DocMeant(Env(js, map[], base), d))
  {
    hide ParseStatements, DocText, DocMeant, ValidDoc;
    ItemsAreRead(Env(js, map[], base), g, d, DocText(g, d), 0, []);
    assert [] + DocMeant(Env(js, map[], base), d) == DocMeant(Env(js, map[], base), d);
  }

  // ------------------------------------------------------------- what the parser takes otherwise

  /** A subject's name is taken for a directive exactly when its prefix starts with a directive's word. */
  lemma NameIsDirectiveIff(env: Env, prefix: string, local: seq<Unit>, next: string)
    requires KnownName(env, prefix, local)
    ensures IsDirective(NameText(prefix, local) + next) <==> ReadsAsDirective(prefix)
  {
    var s := NameText(prefix, local) + next;
    NameStart(env, prefix, local, next);
    if !ReadsAsDirective(prefix) {
      NoWord(s, prefix);
    } else if |prefix| >= 4 && Spells(prefix[..4], "base", "BASE") && (|prefix| > 4 ==> !WordChar(prefix[4])) {
      WordOf(s, prefix, "base", "BASE");
    } else {
      WordOf(s, prefix, "prefix", "PREFIX");
    }
  }

  lemma WordOf(s: string, prefix: string, lower: string, upper: string)
    requires |prefix| < |s| && s[|prefix|] == ':' && s[..|prefix|] == prefix
    requires (lower == "prefix" && upper == "PREFIX") || (lower == "base" && upper == "BASE")
    requires |prefix| >= |lower| && Spells(prefix[..|lower|], lower, upper)
    requires |prefix| > |lower| ==> !WordChar(prefix[|lower|])
    ensures StartsWithWord(s, lower) && WordEnds(s, |lower|)
  {
    var n := |lower|;
    assert prefix[..n] == s[..n] && s == s[..n] + s[n..];
    assert n < |prefix| ==> s[n] == prefix[n];
    SpelledWord(s, s[..n], lower, upper, s[n..]);
  }

  /** The triple of a subject named "base:..." is lost: its name and predicate are read as a new base. */
  lemma SubjectNamedBase(env: Env, local: string, p: string, o: string, bnode: nat, out: seq<Statement>)
    requires PlainIri(local) && PlainIri(p) && PlainIri(o)
    ensures ParseStatements(env, State("base:" + (local + (" <" + (p + ("> " + (Bracketed(o) + " ."))))), bnode, out)) == Some(out)
  {
    var iri, after := local + (" <" + p), " " + (Bracketed(o) + " .");
    var rest := ":" + (iri + (">" + after));
    var s := "base" + rest;
    assert s == "base:" + (local + (" <" + (p + ("> " + (Bracketed(o) + " ."))))) by {
      Concat(" <", p, ">" + after);
      Concat(local, " <" + p, ">" + after);
    }
    var env' := env.(base := IriMeant(env, iri));
    BaseWord(env, rest);
    SkipsNothing(rest);
    NotBracketed(env, iri, after);
    BracketSolid(o, " .");
    assert Gap(" ");
    SkipsGap(" ", Bracketed(o) + " .");
    hide ReadDirective, ReadBase, Skip, IsDirective, Gap, IriMeant, Bracketed, ParseStatements, Solid, TermEnds;
    DirectiveStep(env, s, env', Bracketed(o) + " .", bnode, out);
    LoneSubject(env', o, bnode, out);
  }

  lemma BaseWord(env: Env, rest: string)
    requires rest != "" && rest[0] == ':'
    ensures var s := "base" + rest;
            s != "" && Solid(s) && IsDirective(s) && ReadDirective(env, s) == ReadBase(env, Skip(rest))
  {
    var s := "base" + rest;
    SpelledWord(s, "base", "base", "BASE", rest);
    BaseIsNoPrefix(s);
    hide ReadBase, Skip, StartsWithWord;
    assert s[0] == 'b' && s[4] == ':' && s[4..] == rest;
  }

  /** What is read as an IRI starts after one character, whichever it is. */
  lemma NotBracketed(env: Env, iri: string, after: string)
    requires forall i :: 0 <= i < |iri| ==> iri[i] != '>' && iri[i] != '\\'
    ensures ReadBase(env, ":" + (iri + (">" + after))) == Some((env.(base := IriMeant(env, iri)), Skip(after)))
  {
    hide Skip;
    IriIsRead(env, iri, after);
    assert Drop(":" + (iri + (">" + after)), 1) == Drop("<" + (iri + (">" + after)), 1);
  }

  lemma LoneSubject(env: Env, iri: string, bnode: nat, out: seq<Statement>)
    requires PlainIri(iri)
    ensures ParseStatements(env, State(Bracketed(iri) + " .", bnode, out)) == Some(out)
  {
    var s := Bracketed(iri) + " .";
    BracketSolid(iri, " .");
    SkipsNothing(s);
    NotDirective(s);
    IriTextIsRead(env, iri, " .");
    assert Gap(" ");
    SkipsGap(" ", ".");
    assert " " + "." == " ." && "."[1..] == "";
    hide ReadIriRef, IriMeant, IsDirective, Gap, Solid, TermEnds;
    assert s[0] == '<';
    NothingLeft(env, bnode, out);
  }

  /** A second semicolon after one raises, though the grammar allows any number of them. */
  lemma SemicolonTwice(env: Env, g: string, next: string, bnode: nat, out: seq<Statement>, subj: Node)
    requires Blank(g)
    ensures ReadPredObjList(env, State(g + (";" + next), bnode, out), subj) == Raised
  {
    var s := ";" + next;
    SkipsBlank(g, s);
    SkipsNothing(s);
    hide Skip, Blank;
    assert s[0] == ';';
    EndsNameIff(';');
    assert TakeWhile(NameChar, s) == "";
  }
}
