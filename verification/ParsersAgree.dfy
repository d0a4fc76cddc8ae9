/**
 Both parsers read the meaning of every well-formed N-Triples document off its text, so they
 return the same triples apart from the predicate's type tag. Where white space the grammar makes
 optional is what they disagree on, that is shown.
 */
module ParsersAgree {
  import opened Options
  import opened Scanner
  import opened JsText
  import opened Turtle
  import opened NTriplesDocs

  // ------------------------------------------------------------------------- N-Triples

  lemma {:induction false} SkipsWs(ws: string, x: string)
    requires AllWs(ws) && (|x| > 0 ==> !IsWs(x[0]))
    ensures SkipWs(ws + x) == x
  {
    if ws == "" {
      assert ws + x == x;
    } else {
      assert (ws + x)[1..] == ws[1..] + x;
      SkipsWs(ws[1..], x);
    }
  }

  /** What may follow a term that does not end itself. */
  predicate Ended(t: Term, tail: string) {
    t.IriTerm? || EndsTerm(tail)
  }

  lemma ReadsTag(tag: string, tail: string)
    requires (forall i :: 0 <= i < |tag| ==> LangChar(tag[i])) && |tail| > 0 && !LangChar(tail[0])
    ensures TakeWhile(LangChar, tag + tail) == tag
    ensures (tag + tail)[|tag|..] == tail
  {
    forall c | c in tag ensures LangChar(c) {
      var i :| 0 <= i < |tag| && tag[i] == c;
    }
    TakesWhile(LangChar, tag, tail);
  }

  function SuffixNode(js: Js, value: string, suffix: Suffix): Node {
    Literal(value,
            if suffix.Typed? then Some(PiecesValue(js, suffix.iri)) else None,
            if suffix.Tagged? then Some(suffix.tag) else None)
  }

  predicate ValidSuffix(js: Js, suffix: Suffix) {
    && (suffix.Typed? ==> AllWs(suffix.gap) && ValidIri(js, suffix.iri))
    && (suffix.Tagged? ==> forall i :: 0 <= i < |suffix.tag| ==> LangChar(suffix.tag[i]))
  }

  predicate EndsTerm(tail: string) {
    |tail| > 0 && (IsWs(tail[0]) || tail[0] == '.')
  }

  lemma ReadsLineType(js: Js, value: string, gap: string, iri: seq<Piece>, tail: string)
    requires AllWs(gap) && ValidIri(js, iri)
    ensures ReadLineSuffix(js, value, "^^" + (gap + (IriText(iri) + tail))) ==
            Got(Literal(value, Some(PiecesValue(js, iri)), None), tail)
  {
    var rest := "^^" + (gap + (IriText(iri) + tail));
    assert rest[..2] == "^^" && rest[2..] == gap + (IriText(iri) + tail);
    ReadsIri(js, iri, tail);
    SkipsWs(gap, IriText(iri) + tail);
  }

  lemma ReadsLineTag(js: Js, value: string, tag: string, tail: string)
    requires (forall i :: 0 <= i < |tag| ==> LangChar(tag[i])) && EndsTerm(tail)
    ensures ReadLineSuffix(js, value, "@" + (tag + tail)) == Got(Literal(value, None, Some(tag)), tail)
  {
    var rest := "@" + (tag + tail);
    assert rest[1..] == tag + tail;
    ReadsTag(tag, tail);
    assert rest[1 + |tag|..] == (tag + tail)[|tag|..];
  }

  lemma ReadsLineSuffix(js: Js, value: string, suffix: Suffix, tail: string)
    requires ValidSuffix(js, suffix) && EndsTerm(tail)
    ensures ReadLineSuffix(js, value, SuffixText(suffix) + tail) == Got(SuffixNode(js, value, suffix), tail)
  {
    match suffix {
      case NoSuffix =>
        SuffixParts("", [], "", tail);
      case Typed(gap, iri) =>
        SuffixParts(gap, iri, "", tail);
        ReadsLineType(js, value, gap, iri, tail);
      case Tagged(tag) =>
        SuffixParts("", [], tag, tail);
        ReadsLineTag(js, value, tag, tail);
    }
  }

  lemma LiteralParts(body: seq<Piece>, suffix: Suffix, tail: string)
    ensures TermText(LiteralTerm(body, suffix)) + tail == "\"" + (PiecesText(body) + ("\"" + (SuffixText(suffix) + tail)))
  {
  }

  lemma ReadsLineLiteral(js: Js, body: seq<Piece>, suffix: Suffix, tail: string)
    requires ValidTerm(js, LiteralTerm(body, suffix)) && EndsTerm(tail)
    ensures ReadLineLiteral(js, TermText(LiteralTerm(body, suffix)) + tail) ==
            Got(TermNode(js, LiteralTerm(body, suffix)), tail)
  {
    var rest := SuffixText(suffix) + tail;
    LiteralParts(body, suffix, tail);
    var s := "\"" + (PiecesText(body) + ("\"" + rest));
    assert s[1..] == PiecesText(body) + ("\"" + rest);
    ReadsLiteralBody(js, body, rest);
    ReadsLineSuffix(js, PiecesValue(js, body), suffix, tail);
  }

  lemma ReadsLineLabel(js: Js, name: string, tail: string)
    requires NameText(name) && Ended(BlankTerm(name), tail)
    ensures ReadTerm(js, "_:" + name + tail) == Got(Some(BlankNode("_:" + name)), tail)
  {
    var full := "_:" + name;
    forall c | c in full ensures NotBlankEnd(c) {
      var i :| 0 <= i < |full| && full[i] == c;
      assert i >= 2 ==> full[i] == name[i - 2];
    }
    TakesWhile(NotBlankEnd, full, tail);
    assert (full + tail)[|full|..] == tail;
    assert SkipWs(full + tail) == full + tail;
  }

  /** A blank node's label is read as such exactly when white space, a dot or nothing follows it. */
  lemma LineLabelIff(js: Js, name: string, tail: string)
    requires NameText(name)
    ensures ReadTerm(js, "_:" + name + tail) == Got(Some(BlankNode("_:" + name)), tail) <==>
            (tail == "" || IsWs(tail[0]) || tail[0] == '.')
  {
    var full := "_:" + name;
    if tail == "" || IsWs(tail[0]) || tail[0] == '.' {
      forall c | c in full ensures NotBlankEnd(c) {
        var i :| 0 <= i < |full| && full[i] == c;
        assert i >= 2 ==> full[i] == name[i - 2];
      }
      TakesWhile(NotBlankEnd, full, tail);
      assert (full + tail)[|full|..] == tail;
    } else {
      assert SkipWs(full + tail) == full + tail;
      assert (full + tail)[|full|] == tail[0] && NotBlankEnd(tail[0]);
      assert |TakeWhile(NotBlankEnd, full + tail)| != |full|;
    }
  }

  lemma ReadsLineTerm(js: Js, ws: string, t: Term, tail: string)
    requires AllWs(ws) && ValidTerm(js, t) && Ended(t, tail)
    ensures ReadTerm(js, ws + (TermText(t) + tail)) == Got(Some(TermNode(js, t)), tail)
  {
    var s := TermText(t) + tail;
    match t {
      case IriTerm(iri) => ReadsIri(js, iri, tail);
      case BlankTerm(name) => ReadsLineLabel(js, name, tail);
      case LiteralTerm(body, suffix) => ReadsLineLiteral(js, body, suffix, tail);
    }
    SkipsWs(ws, s);
    assert SkipWs(s) == s;
  }

  /** Three terms and a dot are one line. */
  lemma LinePushed(js: Js, text: string, r1: string, r2: string, r3: string, rest: string,
                   s: Node, p: Node, o: Node, out: seq<Line>)
    requires |text| > 0 && !IsWs(text[0]) && text[0] != '#'
    requires ReadTerm(js, text) == Got(Some(s), r1) && ReadTerm(js, r1) == Got(Some(p), r2)
    requires ReadTerm(js, r2) == Got(Some(o), r3) && SkipWs(r3) == "." + rest
    ensures ParseLines(js, text, out) == ParseLines(js, rest, out + [Line(s, p, o)])
  {
    assert ("." + rest)[1..] == rest;
  }

  function Itself(i: Item, js: Js): Line
    requires i.TripleItem?
  {
    Line(TermNode(js, i.s), IriNode(PiecesValue(js, i.p)), TermNode(js, i.o))
  }

  lemma TripleParts(i: Item, rest: string)
    requires i.TripleItem?
    ensures ItemText(i) + rest ==
            TermText(i.s) + (i.ws1 + (IriText(i.p) + (i.ws2 + (TermText(i.o) + (i.ws3 + ("." + rest))))))
  {
  }

  lemma ParsesTripleLine(js: Js, i: Item, rest: string, out: seq<Line>)
    requires i.TripleItem? && ValidItem(js, i) && Spaced(i)
    ensures ParseLines(js, ItemText(i) + rest, out) == ParseLines(js, rest, out + [Itself(i, js)])
  {
    var r3 := i.ws3 + ("." + rest);
    var r2 := i.ws2 + (TermText(i.o) + r3);
    var r1 := i.ws1 + (IriText(i.p) + r2);
    var text := TermText(i.s) + r1;
    TripleParts(i, rest);
    assert "" + text == text;
    ReadsLineTerm(js, "", i.s, r1);
    ReadsLineTerm(js, i.ws1, IriTerm(i.p), r2);
    ReadsLineTerm(js, i.ws2, i.o, r3);
    SkipsWs(i.ws3, "." + rest);
    LinePushed(js, text, r1, r2, r3, rest, TermNode(js, i.s), IriNode(PiecesValue(js, i.p)), TermNode(js, i.o), out);
  }

  lemma {:induction false} SkipsLine(text: string, rest: string)
    requires '\n' !in text
    ensures SkipLine(text + ("\n" + rest)) == "\n" + rest
  {
    var s := text + ("\n" + rest);
    if text == "" {
      assert s == "\n" + rest;
    } else {
      assert s[1..] == text[1..] + ("\n" + rest);
      assert text[0] in text;
      SkipsLine(text[1..], rest);
    }
  }

  lemma SpaceLine(js: Js, c: char, rest: string, out: seq<Line>)
    requires IsWs(c)
    ensures ParseLines(js, [c] + rest, out) == ParseLines(js, rest, out)
  {
    assert ([c] + rest)[1..] == rest;
    assert SkipWs([c] + rest) == SkipWs(rest);
  }

  lemma CommentLine(js: Js, text: string, rest: string, out: seq<Line>)
    requires '\n' !in text
    ensures ParseLines(js, ItemText(Item.Comment(text)) + rest, out) == ParseLines(js, rest, out)
  {
    var s := ItemText(Item.Comment(text)) + rest;
    assert s == "#" + (text + ("\n" + rest));
    assert s[1..] == text + ("\n" + rest);
    SkipsLine(text, rest);
    assert SkipWs(s) == s;
    assert "\n" + rest == ['\n'] + rest;
    SpaceLine(js, '\n', rest, out);
  }

  function ItemLines(js: Js, i: Item): seq<Line> {
    if i.TripleItem? then [Itself(i, js)] else []
  }

  lemma ItemParsed(js: Js, i: Item, rest: string, out: seq<Line>)
    requires ValidItem(js, i) && Spaced(i)
    ensures ParseLines(js, ItemText(i) + rest, out) == ParseLines(js, rest, out + ItemLines(js, i))
  {
    match i {
      case Space(c) => SpaceLine(js, c, rest, out);
      case Comment(text) => CommentLine(js, text, rest, out);
      case TripleItem(_, _, _, _, _, _) => ParsesTripleLine(js, i, rest, out);
    }
    assert !i.TripleItem? ==> out + [] == out;
  }

  lemma LinesStep(js: Js, d: Doc, out: seq<Line>)
    requires d != []
    ensures out + DocLines(js, d) == (out + ItemLines(js, d[0])) + DocLines(js, d[1..])
  {
  }

  lemma {:induction false} LinesParsed(js: Js, d: Doc, out: seq<Line>)
    requires ValidDoc(js, d) && AllSpaced(d)
    ensures ParseLines(js, DocText(d), out) == Some(out + DocLines(js, d))
  {
    if d == [] {
      assert out + DocLines(js, d) == out;
    } else {
      ItemParsed(js, d[0], DocText(d[1..]), out);
      LinesParsed(js, d[1..], out + ItemLines(js, d[0]));
      LinesStep(js, d, out);
    }
  }

  /** The N-Triples parser reads a document's meaning off its text. */
  lemma NTriplesIsMeaning(js: Js, d: Doc)
    requires ValidDoc(js, d) && AllSpaced(d)
    ensures ParseNTriples(js, DocText(d)) == Some(DocLines(js, d))
  {
    LinesParsed(js, d, []);
    assert [] + DocLines(js, d) == DocLines(js, d);
  }

  // ---------------------------------------------------------------------------- Turtle

  /** An IRI the Turtle parser does not resolve against its base. */
  predicate Fixed(env: Env, iri: string) {
    Absolute(iri) || env.base == ""
  }

  predicate FixedTerm(env: Env, t: Term) {
    match t
    case IriTerm(iri) => Fixed(env, PiecesValue(env.js, iri))
    case BlankTerm(_) => true
    case LiteralTerm(_, suffix) =>
      suffix.Typed? ==> Fixed(env, PiecesValue(env.js, suffix.iri))
  }

  predicate GaplessTerm(t: Term) {
    t.LiteralTerm? && t.suffix.Typed? ==> t.suffix.gap == ""
  }

  /** Absolute IRIs, or no base. */
  predicate FixedItem(env: Env, i: Item) {
    i.TripleItem? ==> FixedTerm(env, i.s) && Fixed(env, PiecesValue(env.js, i.p)) && FixedTerm(env, i.o)
  }

  predicate FixedDoc(env: Env, d: Doc) {
    forall i :: 0 <= i < |d| ==> FixedItem(env, d[i])
  }

  lemma {:induction false} SkipsAll(ws: string, x: string)
    requires AllWs(ws)
    ensures Skip(ws + x) == Skip(x)
  {
    if ws == "" {
      assert ws + x == x;
    } else {
      assert (ws + x)[1..] == ws[1..] + x;
      SkipsAll(ws[1..], x);
    }
  }

  lemma ReadsFixedIri(env: Env, iri: seq<Piece>, tail: string)
    requires ValidIri(env.js, iri) && Fixed(env, PiecesValue(env.js, iri))
    ensures ReadIriRef(env, IriText(iri) + tail) == Got(PiecesValue(env.js, iri), tail)
    ensures HeadIs(IriText(iri) + tail, '<')
  {
    ReadsIri(env.js, iri, tail);
  }

  lemma ReadsTurtleLabel(name: string, tail: string)
    requires NameText(name) && (|tail| > 0 ==> Ends(tail[0]))
    ensures ReadLabel("_:" + name + tail) == Got(BlankNode("_:" + name), tail)
  {
    var s := "_:" + name + tail;
    assert s[2..] == name + tail;
    forall c | c in name ensures NameChar(c) {
      var i :| 0 <= i < |name| && name[i] == c;
    }
    TakesWhile(NameChar, name, tail);
    assert s[2 + |name|..] == tail;
  }

  /** The string part: one quote even when empty, since no quote follows. */
  lemma ReadsShortString(js: Js, body: seq<Piece>, rest: string)
    requires (forall p :: p in body ==> StringPiece(js, p)) && !HeadIs(rest, '"')
    ensures ReadString(js, "\"" + (PiecesText(body) + ("\"" + rest))) == Got(PiecesValue(js, body), rest)
  {
    var s := "\"" + (PiecesText(body) + ("\"" + rest));
    assert s[1..] == PiecesText(body) + ("\"" + rest);
    ReadsLiteralBody(js, body, rest);
    assert [s[0]] == "\"";
    if body == [] {
      assert s[1..] == "\"" + rest;
      assert |s| >= 3 ==> s[2] == rest[0];
    } else {
      assert body[0] in body;
      assert s[1] == PieceText(body[0])[0] != '"';
    }
  }

  lemma ReadsTurtleType(env: Env, value: string, iri: seq<Piece>, tail: string)
    requires ValidIri(env.js, iri) && Fixed(env, PiecesValue(env.js, iri))
    ensures ReadSuffix(env, value, "^^" + (IriText(iri) + tail)) ==
            Got(Literal(value, Some(PiecesValue(env.js, iri)), None), tail)
  {
    var rest := "^^" + (IriText(iri) + tail);
    assert rest[..2] == "^^" && rest[2..] == IriText(iri) + tail;
    ReadsFixedIri(env, iri, tail);
  }

  lemma ReadsTurtleTag(env: Env, value: string, tag: string, tail: string)
    requires (forall i :: 0 <= i < |tag| ==> LangChar(tag[i])) && EndsTerm(tail)
    ensures ReadSuffix(env, value, "@" + (tag + tail)) == Got(Literal(value, None, Some(tag)), tail)
  {
    var rest := "@" + (tag + tail);
    assert rest[1..] == tag + tail;
    ReadsTag(tag, tail);
    assert rest[1 + |tag|..] == (tag + tail)[|tag|..];
  }

  lemma SuffixParts(gap: string, iri: seq<Piece>, tag: string, tail: string)
    ensures SuffixText(NoSuffix) + tail == tail
    ensures SuffixText(Typed(gap, iri)) + tail == "^^" + (gap + (IriText(iri) + tail))
    ensures gap == "" ==> gap + (IriText(iri) + tail) == IriText(iri) + tail
    ensures SuffixText(Tagged(tag)) + tail == "@" + (tag + tail)
  {
  }

  lemma ReadsTurtleSuffix(env: Env, value: string, suffix: Suffix, tail: string)
    requires ValidSuffix(env.js, suffix) && EndsTerm(tail)
    requires suffix.Typed? ==> suffix.gap == "" && Fixed(env, PiecesValue(env.js, suffix.iri))
    ensures ReadSuffix(env, value, SuffixText(suffix) + tail) == Got(SuffixNode(env.js, value, suffix), tail)
  {
    match suffix {
      case NoSuffix =>
        SuffixParts("", [], "", tail);
      case Typed(gap, iri) =>
        SuffixParts(gap, iri, "", tail);
        ReadsTurtleType(env, value, iri, tail);
      case Tagged(tag) =>
        SuffixParts("", [], tag, tail);
        ReadsTurtleTag(env, value, tag, tail);
    }
  }

  lemma ReadsTurtleLiteral(env: Env, body: seq<Piece>, suffix: Suffix, tail: string)
    requires ValidTerm(env.js, LiteralTerm(body, suffix)) && EndsTerm(tail)
    requires FixedTerm(env, LiteralTerm(body, suffix)) && GaplessTerm(LiteralTerm(body, suffix))
    ensures ReadQuoted(env, TermText(LiteralTerm(body, suffix)) + tail) ==
            Got(TermNode(env.js, LiteralTerm(body, suffix)), tail)
  {
    LiteralParts(body, suffix, tail);
    ReadsShortString(env.js, body, SuffixText(suffix) + tail);
    ReadsTurtleSuffix(env, PiecesValue(env.js, body), suffix, tail);
  }

  /** A name that starts with white space is no name. */
  lemma NoName(env: Env, s: string)
    requires |s| > 0 && IsWs(s[0])
    ensures ReadPName(env, s) == Threw
  {
    assert TakeWhile(NameChar, s) == "";
  }

  /** White space after "^^", which the grammar allows, makes the Turtle parser raise; without it it does not. */
  lemma GapRaisesIff(env: Env, body: seq<Piece>, gap: string, iri: seq<Piece>, tail: string)
    requires ValidTerm(env.js, LiteralTerm(body, Typed(gap, iri))) && Fixed(env, PiecesValue(env.js, iri))
    requires EndsTerm(tail)
    ensures ReadQuoted(env, TermText(LiteralTerm(body, Typed(gap, iri))) + tail) == Threw <==> gap != ""
  {
    if gap == "" {
      ReadsTurtleLiteral(env, body, Typed(gap, iri), tail);
    } else {
      var after := gap + (IriText(iri) + tail);
      var rest := "^^" + after;
      LiteralParts(body, Typed(gap, iri), tail);
      assert SuffixText(Typed(gap, iri)) + tail == rest;
      ReadsShortString(env.js, body, rest);
      assert rest[..2] == "^^" && rest[2..] == after;
      NoName(env, after);
    }
  }

  lemma ReadsTurtleObject(env: Env, st: State, ws: string, t: Term, tail: string)
    requires AllWs(ws) && ValidTerm(env.js, t) && FixedTerm(env, t) && GaplessTerm(t) && Ended(t, tail)
    requires st.rest == ws + (TermText(t) + tail)
    ensures ReadObject(env, st) == Done(TermNode(env.js, t), st.(rest := tail))
  {
    var s := TermText(t) + tail;
    SkipsAll(ws, s);
    assert Skip(s) == s;
    match t {
      case IriTerm(iri) => ReadsFixedIri(env, iri, tail);
      case BlankTerm(name) => ReadsTurtleLabel(name, tail);
      case LiteralTerm(body, suffix) => ReadsTurtleLiteral(env, body, suffix, tail);
    }
  }

  lemma ReadsTurtleSubject(env: Env, st: State, t: Term, tail: string)
    requires ValidTerm(env.js, t) && FixedTerm(env, t) && Ended(t, tail) && !t.LiteralTerm?
    requires st.rest == TermText(t) + tail
    ensures ReadSubject(env, st) == Done(TermNode(env.js, t), st.(rest := tail))
    ensures |st.rest| > 0 && (st.rest[0] == '<' || st.rest[0] == '_')
  {
    match t {
      case IriTerm(iri) => ReadsFixedIri(env, iri, tail);
      case BlankTerm(name) => ReadsTurtleLabel(name, tail);
    }
  }

  /** A verb in angle brackets, one object, and a dot. */
  lemma OneStatement(env: Env, st: State, subj: Node, verb: string, r2: string, o: Node, r3: string, rest: string)
    requires HeadIs(Skip(st.rest), '<') && ReadIriRef(env, Skip(st.rest)) == Got(verb, r2)
    requires ReadObject(env, st.(rest := r2)) == Done(o, st.(rest := r3))
    requires Skip(r3) == "." + rest
    ensures ReadPredObjList(env, st, subj) == Done((), State("." + rest, st.bnode, st.out + [Statement(subj, verb, o)]))
  {
    SkipTwice(st.rest);
    SkipTwice(r3);
    assert ReadVerb(env, Skip(st.rest)) == Got(verb, r2);
  }

  /** A statement whose subject and list are read is pushed, and parsing goes on after its dot. */
  lemma StatementParsed(env: Env, st: State, subj: Node, after: State, end: State, rest: string)
    requires |st.rest| > 0 && (st.rest[0] == '<' || st.rest[0] == '_')
    requires ReadSubject(env, st) == Done(subj, after)
    requires ReadPredObjList(env, after, subj) == Done((), end) && end.rest == "." + rest
    ensures ParseStatements(env, st) == ParseStatements(env, end.(rest := rest))
  {
    assert Skip(st.rest) == st.rest;
    NotDirective(st.rest);
    assert st.(rest := st.rest) == st;
    assert ("." + rest)[1..] == rest;
    assert Skip("." + rest) == "." + rest;
  }

  function ItselfUntagged(i: Item, js: Js): Statement
    requires i.TripleItem?
  {
    Statement(TermNode(js, i.s), PiecesValue(js, i.p), TermNode(js, i.o))
  }

  lemma ParsesTripleStatement(env: Env, i: Item, rest: string, n: nat, out: seq<Statement>)
    requires i.TripleItem? && ValidItem(env.js, i) && FixedItem(env, i) && Spaced(i) && Gapless(i)
    ensures ParseStatements(env, State(ItemText(i) + rest, n, out)) ==
            ParseStatements(env, State(rest, n, out + [ItselfUntagged(i, env.js)]))
  {
    var r3 := i.ws3 + ("." + rest);
    var r2 := i.ws2 + (TermText(i.o) + r3);
    var verb := IriText(i.p) + r2;
    var r1 := i.ws1 + verb;
    var st := State(TermText(i.s) + r1, n, out);
    var js, subj := env.js, TermNode(env.js, i.s);
    TripleParts(i, rest);
    ReadsTurtleSubject(env, st, i.s, r1);
    ReadsFixedIri(env, i.p, r2);
    SkipsAll(i.ws1, verb);
    assert Skip(verb) == verb;
    ReadsTurtleObject(env, State(r2, n, out), i.ws2, i.o, r3);
    SkipsAll(i.ws3, "." + rest);
    assert Skip("." + rest) == "." + rest;
    OneStatement(env, State(r1, n, out), subj, PiecesValue(js, i.p), r2, TermNode(js, i.o), r3, rest);
    StatementParsed(env, st, subj, State(r1, n, out), State("." + rest, n, out + [ItselfUntagged(i, js)]), rest);
  }

  /** Parsing depends only on the text after white space and comments. */
  lemma SameAfterSkip(env: Env, a: string, b: string, n: nat, out: seq<Statement>)
    requires Skip(a) == Skip(b)
    ensures ParseStatements(env, State(a, n, out)) == ParseStatements(env, State(b, n, out))
  {
  }

  function ItemStatements(js: Js, i: Item): seq<Statement> {
    if i.TripleItem? then [ItselfUntagged(i, js)] else []
  }

  lemma StatementItemParsed(env: Env, i: Item, rest: string, n: nat, out: seq<Statement>)
    requires ValidItem(env.js, i) && FixedItem(env, i) && Spaced(i) && Gapless(i)
    ensures ParseStatements(env, State(ItemText(i) + rest, n, out)) ==
            ParseStatements(env, State(rest, n, out + ItemStatements(env.js, i)))
  {
    match i {
      case Space(c) =>
        assert ([c] + rest)[1..] == rest;
        SameAfterSkip(env, ItemText(i) + rest, rest, n, out);
      case Comment(text) =>
        var s := ItemText(i) + rest;
        assert s == "#" + (text + ("\n" + rest));
        assert s[1..] == text + ("\n" + rest);
        SkipsLine(text, rest);
        assert ("\n" + rest)[1..] == rest;
        SameAfterSkip(env, s, rest, n, out);
      case TripleItem(_, _, _, _, _, _) => ParsesTripleStatement(env, i, rest, n, out);
    }
    assert !i.TripleItem? ==> out + [] == out;
  }

  lemma UntaggedStep(js: Js, d: Doc, out: seq<Statement>)
    requires d != []
    ensures out + Untagged(DocLines(js, d)) == (out + ItemStatements(js, d[0])) + Untagged(DocLines(js, d[1..]))
  {
  }

  lemma {:induction false} StatementsParsed(env: Env, d: Doc, n: nat, out: seq<Statement>)
    requires ValidDoc(env.js, d) && FixedDoc(env, d) && AllSpaced(d) && AllGapless(d)
    ensures ParseStatements(env, State(DocText(d), n, out)) == Some(out + Untagged(DocLines(env.js, d)))
  {
    if d == [] {
      assert out + Untagged(DocLines(env.js, d)) == out;
    } else {
      StatementItemParsed(env, d[0], DocText(d[1..]), n, out);
      StatementsParsed(env, d[1..], n, out + ItemStatements(env.js, d[0]));
      UntaggedStep(env.js, d, out);
    }
  }

  /**
   On every well-formed document with white space after its blank subjects and none inside its typed
   literals the Turtle parser returns the N-Triples parser's triples, with
   the predicate's type tag dropped; and both are the document's meaning.
   */
  lemma ParsersReturnTheSame(js: Js, d: Doc, base: string)
    requires ValidDoc(js, d) && FixedDoc(Env(js, map[], base), d) && AllSpaced(d) && AllGapless(d)
    ensures ParseNTriples(js, DocText(d)) == Some(DocLines(js, d))
    ensures ParseTurtle(js, DocText(d), base) == Some(Untagged(ParseNTriples(js, DocText(d)).value))
  {
    NTriplesIsMeaning(js, d);
    StatementsParsed(Env(js, map[], base), d, 0, []);
    assert [] + Untagged(DocLines(js, d)) == Untagged(DocLines(js, d));
  }

  // --------------------------------------------------------------------- where they disagree

  /** The blank node that both parsers make of a label and the IRI reference right after it. */
  function Swallowed(name: string, p: seq<Piece>): Node {
    BlankNode("_:" + (name + IriText(p)))
  }

  /**
   A blank node directly followed by its predicate is legal, and neither parser reads it: the
   N-Triples parser drops the triple, and the Turtle parser makes one up, with an empty number.
   */
  lemma MinimalWhiteSpace(js: Js, name: string, p: seq<Piece>, o: seq<Piece>)
    requires ValidLabel(name) && NameText(IriText(p)) && ValidIri(js, p) && ValidIri(js, o)
    ensures var text := "_:" + (name + IriText(p)) + (" " + (IriText(o) + "."));
            && ParseNTriples(js, text) == Some([])
            && ParseTurtle(js, text, "") ==
               Some([Statement(Swallowed(name, p), PiecesValue(js, o), Literal("", Some(XSD + "integer"), None))])
  {
    var full, tail := name + IriText(p), " " + (IriText(o) + ".");
    assert NameText(full);
    MinimalNTriples(js, full, o, tail);
    MinimalTurtle(js, full, o, tail);
  }

  lemma MinimalNTriples(js: Js, full: string, o: seq<Piece>, tail: string)
    requires NameText(full) && ValidIri(js, o) && tail == " " + (IriText(o) + ".")
    ensures ParseNTriples(js, "_:" + full + tail) == Some([])
  {
    var text := "_:" + full + tail;
    ReadsLineLabel(js, full, tail);
    ReadsLineTerm(js, " ", IriTerm(o), ".");
    assert ReadTerm(js, ".") == Got(None, ".");
    assert SkipWs(text) == text && SkipWs(".") == "." && AfterDot(".") == "";
    assert ParseLines(js, "", []) == Some([]);
  }

  lemma MinimalTurtle(js: Js, full: string, o: seq<Piece>, tail: string)
    requires NameText(full) && ValidIri(js, o) && tail == " " + (IriText(o) + ".")
    ensures ParseTurtle(js, "_:" + full + tail, "") ==
            Some([Statement(BlankNode("_:" + full), PiecesValue(js, o), Literal("", Some(XSD + "integer"), None))])
  {
    var env, st := Env(js, map[], ""), State("_:" + full + tail, 0, []);
    var subj, none := BlankNode("_:" + full), Literal("", Some(XSD + "integer"), None);
    var verb := IriText(o) + ".";
    hide ReadSubject, ReadObject, ReadPredObjList, ParseStatements;
    ReadsTurtleLabel(full, tail);
    assert ReadSubject(env, st) == Done(subj, State(tail, 0, []));
    ReadsFixedIri(env, o, ".");
    SkipsAll(" ", verb);
    assert Skip(verb) == verb;
    DotObject(env, State(".", 0, []));
    assert "." + "" == "." && Skip(".") == ".";
    assert [] + [Statement(subj, PiecesValue(js, o), none)] == [Statement(subj, PiecesValue(js, o), none)];
    OneStatement(env, State(tail, 0, []), subj, PiecesValue(js, o), ".", none, ".", "");
    StatementParsed(env, st, subj, State(tail, 0, []), State(".", 0, [Statement(subj, PiecesValue(js, o), none)]), "");
    AtEnd(env, 0, [Statement(subj, PiecesValue(js, o), none)]);
  }

  lemma AtEnd(env: Env, n: nat, out: seq<Statement>)
    ensures ParseStatements(env, State("", n, out)) == Some(out)
  {
  }

  /** Where an object is missing the final dot is taken for a number and read as nothing. */
  lemma DotObject(env: Env, st: State)
    requires st.rest == "."
    ensures ReadObject(env, st) == Done(Literal("", Some(XSD + "integer"), None), st)
  {
    assert ReadDigits(".", Number(0, false, false)) == Number(0, false, false);
    assert ReadNumeric(".") == Got(Literal("", Some(XSD + "integer"), None), ".");
    assert Skip(".") == ".";
  }
}
