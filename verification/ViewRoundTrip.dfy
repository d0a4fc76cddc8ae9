/**
 The whole view document: the prefix directives, the view's node, its lines. Parsing what was
 printed yields exactly the view's triples, for every view and every base.
 */
module ViewRoundTrip {
  import opened Options
  import opened Scanner
  import opened JsText
  import opened Turtle
  import opened ViewTurtle
  import opened Vocabulary

  // --------------------------------------------------------------------------- directives

  predicate CleanText(s: string) {
    forall i :: 0 <= i < |s| ==> s[i] != '>' && s[i] != '\\'
  }

  predicate CleanIri(iri: string) {
    Absolute(iri) && CleanText(iri)
  }

  lemma {:induction false} ReadsIriBody(js: Js, iri: string, tail: string)
    requires CleanText(iri)
    ensures ReadBody(js, Same, ">", iri + (">" + tail)) == Got(iri, tail)
  {
    var s := iri + (">" + tail);
    if iri == "" {
      assert s[..1] == ">" && s[1..] == tail;
    } else {
      assert s[1..] == iri[1..] + (">" + tail);
      ReadsIriBody(js, iri[1..], tail);
      assert [iri[0]] + iri[1..] == iri;
    }
  }

  lemma ReadsIriRef(env: Env, iri: string, tail: string)
    requires CleanIri(iri)
    ensures ReadIriRef(env, "<" + (iri + (">" + tail))) == Got(iri, tail)
  {
    var s := "<" + (iri + (">" + tail));
    assert s[1..] == iri + (">" + tail);
    ReadsIriBody(env.js, iri, tail);
  }

  lemma {:induction false} TrimsNothing(js: Js, name: string)
    requires UsualJs(js) && Word(name)
    ensures TrimEnd(js, TrimStart(js, name)) == name
  {
  }

  lemma ReadsPrefix(env: Env, name: string, iri: string, tail: string)
    requires UsualJs(env.js) && Word(name) && CleanIri(iri)
    ensures ReadPrefix(env, name + (":" + (" " + ("<" + (iri + (">" + (" " + (".\n" + tail)))))))) ==
            Some((env.(prefixes := env.prefixes[name := iri]), "\n" + tail))
  {
    var end := " " + (".\n" + tail);
    var bracketed := "<" + (iri + (">" + end));
    var colon := ":" + (" " + bracketed);
    var named := name + colon;
    forall c | c in name ensures NotColon(c) {
      var i :| 0 <= i < |name| && name[i] == c;
    }
    TakesWhile(NotColon, name, colon);
    assert Drop(named, |name| + 1) == " " + bracketed;
    SkipsSpaces(" ", bracketed);
    ReadsIriRef(env, iri, end);
    SkipsSpaces(" ", ".\n" + tail);
    assert (".\n" + tail)[1..] == "\n" + tail;
    TrimsNothing(env.js, name);
  }

  lemma PrefixParts(name: string, iri: string, tail: string)
    ensures PrefixText(name, iri) + tail ==
            "@prefix" + (" " + (name + (":" + (" " + ("<" + (iri + (">" + (" " + (".\n" + tail)))))))))
  {
  }

  /** A prefix declaration, printed, adds exactly that prefix. */
  lemma ReadsDirective(env: Env, name: string, iri: string, tail: string)
    requires UsualJs(env.js) && Word(name) && CleanIri(iri)
    ensures ReadDirective(env, PrefixText(name, iri) + tail) ==
            Some((env.(prefixes := env.prefixes[name := iri]), "\n" + tail))
    ensures HeadIs(PrefixText(name, iri) + tail, '@')
  {
    PrefixParts(name, iri, tail);
    ReadsPrefix(env, name, iri, tail);
    AtPrefix(env, name + (":" + (" " + ("<" + (iri + (">" + (" " + (".\n" + tail))))))));
  }

  lemma AtPrefix(env: Env, named: string)
    requires |named| > 0 && !IsWs(named[0]) && named[0] != '#'
    ensures ReadDirective(env, "@prefix" + (" " + named)) == ReadPrefix(env, named)
    ensures HeadIs("@prefix" + (" " + named), '@')
  {
    var s := "@prefix" + (" " + named);
    assert s[..7] == "@prefix" && s[7..] == " " + named;
    SkipsSpaces(" ", named);
  }

  lemma StatementBreak(env: Env, tail: string, n: nat, out: seq<Statement>)
    ensures ParseStatements(env, State("\n" + tail, n, out)) == ParseStatements(env, State(tail, n, out))
  {
    assert ("\n" + tail)[1..] == tail;
    assert Skip("\n" + tail) == Skip(tail);
  }

  lemma ParsesDirective(env: Env, name: string, iri: string, tail: string, n: nat, out: seq<Statement>)
    requires UsualJs(env.js) && Word(name) && CleanIri(iri)
    ensures ParseStatements(env, State(PrefixText(name, iri) + tail, n, out)) ==
            ParseStatements(env.(prefixes := env.prefixes[name := iri]), State(tail, n, out))
  {
    var s := PrefixText(name, iri) + tail;
    ReadsDirective(env, name, iri, tail);
    assert Skip(s) == s;
    StatementBreak(env.(prefixes := env.prefixes[name := iri]), tail, n, out);
  }

  /** Letters up to a colon are a scheme. */
  lemma UrlIsClean(iri: string, k: nat)
    requires 0 < k < |iri| && iri[k] == ':' && CleanText(iri)
    requires forall i :: 0 <= i < k ==> AsciiLetter(iri[i])
    ensures CleanIri(iri)
  {
    var scheme, rest := iri[..k], iri[k..];
    forall c | c in scheme ensures SchemeChar(c) {
      var i :| 0 <= i < k && scheme[i] == c;
    }
    assert iri == scheme + rest;
    TakesWhile(SchemeChar, scheme, rest);
  }

  lemma HostText(host: string)
    requires host == "https://lukasberka.github.io/"
    ensures |host| == 29 && CleanText(host) && host[5] == ':' && forall i :: 0 <= i < 5 ==> AsciiLetter(host[i])
  {
  }

  lemma PodText()
    ensures |POD| == 54 && CleanText(POD) && POD[5] == ':' && forall i :: 0 <= i < 5 ==> AsciiLetter(POD[i])
  {
    var host, p := "https://lukasberka.github.io/", POD;
    HostText(host);
    assert |p| == 54;
    assert p[..29] == host;
    assert forall i :: 0 <= i < 29 ==> p[i] == host[i];
    assert forall i :: 29 <= i < |p| ==> p[i] != '>' && p[i] != '\\';
  }

  lemma PodIsClean()
    ensures CleanIri(POD)
  {
    PodText();
    UrlIsClean(POD, 5);
  }

  lemma DctermsIsClean()
    ensures CleanIri(DCTERMS)
  {
    UrlIsClean(DCTERMS, 4);
  }

  lemma XsdIsClean()
    ensures CleanIri(XSD)
  {
    UrlIsClean(XSD, 4);
  }

  function Declared(env: Env, ps: seq<(string, string)>): Env
    decreases |ps|
  {
    if ps == [] then env else Declared(env.(prefixes := env.prefixes[ps[0].0 := ps[0].1]), ps[1..])
  }

  function DeclaredText(ps: seq<(string, string)>, tail: string): string {
    if ps == [] then "\n" + tail else PrefixText(ps[0].0, ps[0].1) + DeclaredText(ps[1..], tail)
  }

  lemma {:induction false} ParsesDirectives(env: Env, ps: seq<(string, string)>, tail: string)
    requires UsualJs(env.js) && AllClean(ps)
    ensures ParseStatements(env, State(DeclaredText(ps, tail), 0, [])) ==
            ParseStatements(Declared(env, ps), State(tail, 0, []))
    decreases |ps|
  {
    if ps == [] {
      StatementBreak(env, tail, 0, []);
    } else {
      ParsesDirective(env, ps[0].0, ps[0].1, DeclaredText(ps[1..], tail), 0, []);
      ParsesDirectives(env.(prefixes := env.prefixes[ps[0].0 := ps[0].1]), ps[1..], tail);
    }
  }

  function Declarations(pod: string, dcterms: string, xsd: string): (ps: seq<(string, string)>)
  {
    [("pod", pod), ("dcterms", dcterms), ("xsd", xsd)]
  }

  lemma DeclaredThree(env: Env, a: string, b: string, c: string, tail: string)
    ensures DeclaredText(Declarations(a, b, c), tail) ==
            PrefixText("pod", a) + (PrefixText("dcterms", b) + (PrefixText("xsd", c) + ("\n" + tail)))
    ensures Declared(env, Declarations(a, b, c)) ==
            env.(prefixes := env.prefixes["pod" := a]["dcterms" := b]["xsd" := c])
  {
    var ps := Declarations(a, b, c);
    var ps1, ps2 := ps[1..], ps[1..][1..];
    assert ps1 == [("dcterms", b), ("xsd", c)] && ps2 == [("xsd", c)] && ps2[1..] == [];
    var env1 := env.(prefixes := env.prefixes["pod" := a]);
    var env2 := env1.(prefixes := env1.prefixes["dcterms" := b]);
    var env3 := env2.(prefixes := env2.prefixes["xsd" := c]);
    assert DeclaredText(ps2[1..], tail) == "\n" + tail && Declared(env3, ps2[1..]) == env3;
    assert DeclaredText(ps2, tail) == PrefixText("xsd", c) + ("\n" + tail) && Declared(env2, ps2) == env3;
    assert DeclaredText(ps1, tail) == PrefixText("dcterms", b) + DeclaredText(ps2, tail) && Declared(env1, ps1) == env3;
  }

  lemma PrefixGroups(a: string, b: string, c: string, d: string, tail: string)
    ensures a + b + c + d + tail == a + (b + (c + (d + tail)))
  {
  }

  function Known(env: Env): Env {
    env.(prefixes := env.prefixes["pod" := POD]["dcterms" := DCTERMS]["xsd" := XSD])
  }

  predicate AllClean(ps: seq<(string, string)>) {
    forall i :: 0 <= i < |ps| ==> Word(ps[i].0) && CleanIri(ps[i].1)
  }

  lemma CleanThree(a: string, b: string, c: string)
    requires CleanIri(a) && CleanIri(b) && CleanIri(c)
    ensures AllClean(Declarations(a, b, c))
  {
    assert Word("pod") && Word("dcterms") && Word("xsd");
  }

  lemma CleanNamespaces()
    ensures AllClean(Declarations(POD, DCTERMS, XSD))
  {
    PodIsClean();
    DctermsIsClean();
    XsdIsClean();
    CleanThree(POD, DCTERMS, XSD);
  }

  lemma PrefixesText(tail: string)
    ensures Prefixes() + tail ==
            PrefixText("pod", POD) + (PrefixText("dcterms", DCTERMS) + (PrefixText("xsd", XSD) + ("\n" + tail)))
  {
    PrefixGroups(PrefixText("pod", POD), PrefixText("dcterms", DCTERMS), PrefixText("xsd", XSD), "\n", tail);
  }

  lemma ParsesPrefixes(env: Env, tail: string)
    requires UsualJs(env.js)
    ensures ParseStatements(env, State(Prefixes() + tail, 0, [])) == ParseStatements(Known(env), State(tail, 0, []))
  {
    CleanNamespaces();
    ParsesDirectives(env, Declarations(POD, DCTERMS, XSD), tail);
    DeclaredThree(env, POD, DCTERMS, XSD, tail);
    PrefixesText(tail);
  }

  // ------------------------------------------------------------------------------- the body

  lemma ReadsA(env: Env, s: string, rest: string)
    requires Skip(s) == "a" + rest && HeadIs(rest, ' ')
    ensures ReadVerb(env, s) == Got(RDF_TYPE, rest)
  {
    assert ("a" + rest)[1..] == rest;
  }

  lemma ReadsNameObject(env: Env, st: State, s: string, iri: string, tail: string)
    requires Skip(st.rest) == s && |s| > 1 && s[0] == 'p' && ReadPName(env, s) == Got(iri, tail)
    ensures ReadObject(env, st) == Done(IriNode(iri), st.(rest := tail))
  {
  }

  lemma ReadsViewClass(env: Env, tail: string, n: nat)
    requires KnowsPrefixes(env) && HeadIs(tail, ' ')
    ensures ReadObject(env, State(" " + ("pod" + ":" + "View" + tail), n, [])) == Done(IriNode(POD + "View"), State(tail, n, []))
  {
    var name := "pod" + ":" + "View" + tail;
    SkipsSpaces(" ", name);
    assert Word("pod") && Word("View");
    ReadsPName(env, "pod", "View", tail);
    ReadsNameObject(env, State(" " + name, n, []), name, POD + "View", tail);
  }

  lemma TypeParts(rest: string)
    ensures " a pod:View ;\n" + rest == " " + ("a" + (" " + ("pod" + ":" + "View" + (" " + (";" + ("\n" + rest))))))
  {
  }

  /** The view's node and its type, before the lines. */
  lemma ReadsType(env: Env, rest: string, n: nat, subj: Node)
    requires KnowsPrefixes(env)
    ensures ReadPredObjList(env, State(" a pod:View ;\n" + rest, n, []), subj) ==
            ReadPredObjList(env, State(rest, n, [Statement(subj, RDF_TYPE, IriNode(POD + "View"))]), subj)
  {
    var mark := ";" + ("\n" + rest);
    var tail := " " + mark;
    var name := "pod" + ":" + "View" + tail;
    var out := [Statement(subj, RDF_TYPE, IriNode(POD + "View"))];
    TypeParts(rest);
    SkipsSpaces(" ", "a" + (" " + name));
    ReadsA(env, " " + ("a" + (" " + name)), " " + name);
    ReadsViewClass(env, tail, n);
    SkipsSpaces(" ", mark);
    assert [] + out == out;
    ReadsPair(env, State(" " + ("a" + (" " + name)), n, []), subj, RDF_TYPE, " " + name, IriNode(POD + "View"),
              State(tail, n, []));
    assert mark[1..] == "\n" + rest;
    LineBreak(env, rest, n, out, subj);
  }

  /** Empty brackets are a fresh node. */
  lemma EmptyBrackets(env: Env, rest: string)
    ensures ReadSubject(env, State("[]" + rest, 0, [])) == Done(Minted(0), State(rest, 1, []))
  {
    var s := "[]" + rest;
    hide ReadPredObjList, Minted;
    assert s[1..] == "]" + rest && ("]" + rest)[1..] == rest;
  }

  lemma LastDot(env: Env, m: nat, out: seq<Statement>)
    ensures AfterDot(Skip(".\n")) == "\n" && ParseStatements(env, State("\n", m, out)) == Some(out)
  {
    assert Skip(".\n") == ".\n" && Skip("\n") == "";
  }

  lemma BodyIsParsed(env: Env, rest: string, m: nat, out: seq<Statement>)
    requires ReadPredObjList(env, State(" a" + rest, 1, []), Minted(0)) == Done((), State(".\n", m, out))
    ensures ParseStatements(env, State("[] a" + rest, 0, [])) == Some(out)
  {
    var s := "[] a" + rest;
    hide ReadPredObjList, ReadSubject, Minted, IsDirective, AfterDot;
    assert s == "[]" + (" a" + rest);
    assert s[0] == '[' && Skip(s) == s;
    NotDirective(s);
    EmptyBrackets(env, " a" + rest);
    assert " a" + rest == " " + ("a" + rest);
    SkipsSpaces(" ", "a" + rest);
    LastDot(env, m, out);
  }

  // -------------------------------------------------------------------- the triples agree

  lemma {:induction false} StatementsConcat(a: seq<Entry>, b: seq<Entry>, subj: Node, n: nat)
    ensures EntryStatements(a + b, subj, n) == EntryStatements(a, subj, n) + EntryStatements(b, subj, n + MintedBy(a))
    decreases |a|
  {
    hide StatementsOf;
    if a == [] {
      assert a + b == b;
    } else {
      assert (a + b)[1..] == a[1..] + b;
      StatementsConcat(a[1..], b, subj, n + Mints(a[0].value));
    }
  }

  lemma {:induction false} ParamsAgree(params: seq<Param>, n: nat)
    ensures EntryStatements(ParamEntries(params), Minted(0), n) == ParamStatements(params, n)
    decreases |params|
  {
    if params != [] {
      var es := ParamEntries(params);
      assert es[1..] == ParamEntries(params[1..]);
      ParamsAgree(params[1..], n + 1);
      assert StatementsOf(es[0], Minted(0), n) ==
             [Statement(Minted(n), POD + "paramName", Plain(params[0].name)),
              Statement(Minted(n), POD + "paramType", Plain(params[0].kind)),
              Statement(Minted(0), POD + "parameter", Minted(n))];
    }
  }

  /** A list of entries that mint nothing pushes one statement each. */
  lemma {:induction false} PlainStatements(es: seq<Entry>, subj: Node, n: nat)
    requires forall i :: 0 <= i < |es| ==> !es[i].value.Nested?
    ensures MintedBy(es) == 0
    ensures |EntryStatements(es, subj, n)| == |es|
    ensures forall i :: 0 <= i < |es| ==>
      EntryStatements(es, subj, n)[i] == Statement(subj, Namespace(es[i].prefix) + es[i].local, ReadingOf(es[i].value, n).node)
    decreases |es|
  {
    hide Minted;
    if es != [] {
      PlainStatements(es[1..], subj, n + Mints(es[0].value));
    }
  }

  lemma StatementsAgree(v: View)
    ensures [Statement(Minted(0), RDF_TYPE, IriNode(POD + "View"))] + EntryStatements(Entries(v), Minted(0), 1) ==
            ViewStatements(v)
  {
    hide EntryStatements, MintedBy, TextEntries, CeilingEntries, ParamEntries, TextStatements, CeilingStatements, ParamStatements, Minted;
    var me := Minted(0);
    var texts, ceiling, params := TextEntries(v), CeilingEntries(v.maxRetrievals), ParamEntries(v.params);
    TextsAgree(v);
    CeilingAgrees(v);
    StatementsConcat(texts, ceiling + params, me, 1);
    StatementsConcat(ceiling, params, me, 1);
    ParamsAgree(v.params, 1);
    Collects(v, EntryStatements(texts, me, 1), EntryStatements(ceiling, me, 1), ParamStatements(v.params, 1));
  }

  function TextStatements(v: View): seq<Statement> {
    var me := Minted(0);
    [Statement(me, DCTERMS + "title", Plain(v.title))]
    + (if v.description != "" then [Statement(me, DCTERMS + "description", Plain(v.description))] else [])
    + [Statement(me, POD + "constructTemplate", Plain(v.template)),
       Statement(me, POD + "contentTypeHint", Plain(if v.contentType != "" then v.contentType else "text/turtle"))]
  }

  function CeilingStatements(v: View): seq<Statement> {
    if v.maxRetrievals.Some? && v.maxRetrievals.value != ""
    then [Statement(Minted(0), POD + "maxViewRetrievals", Literal(v.maxRetrievals.value, Some(XSD + "integer"), None))]
    else []
  }

  lemma TextsAgree(v: View)
    ensures EntryStatements(TextEntries(v), Minted(0), 1) == TextStatements(v) && MintedBy(TextEntries(v)) == 0
  {
    PlainStatements(TextEntries(v), Minted(0), 1);
  }

  lemma CeilingAgrees(v: View)
    ensures EntryStatements(CeilingEntries(v.maxRetrievals), Minted(0), 1) == CeilingStatements(v)
    ensures MintedBy(CeilingEntries(v.maxRetrievals)) == 0
  {
    PlainStatements(CeilingEntries(v.maxRetrievals), Minted(0), 1);
  }

  lemma Collects(v: View, texts: seq<Statement>, ceiling: seq<Statement>, params: seq<Statement>)
    requires texts == TextStatements(v) && ceiling == CeilingStatements(v) && params == ParamStatements(v.params, 1)
    ensures [Statement(Minted(0), RDF_TYPE, IriNode(POD + "View"))] + (texts + (ceiling + params)) == ViewStatements(v)
  {
  }

  // --------------------------------------------------------------------------- the theorem

  lemma EntriesKnown(v: View)
    ensures AllKnown(Entries(v))
  {
    assert Word("title") && Word("description") && Word("constructTemplate") && Word("contentTypeHint");
    assert Word("maxViewRetrievals") && Word("parameter");
  }

  lemma BodyGroups(a: string, b: string, c: string, d: string)
    ensures a + b + c + d == a + (b + (c + d))
  {
  }

  lemma ListIsRead(env: Env, v: View)
    requires KnowsPrefixes(env)
    ensures ReadPredObjList(env, State(" a pod:View ;\n" + LinesText(Entries(v)), 1, []), Minted(0)) ==
            Done((), State(".\n", 1 + MintedBy(Entries(v)), ViewStatements(v)))
  {
    var me := Minted(0);
    EntriesKnown(v);
    ReadsType(env, LinesText(Entries(v)), 1, me);
    ReadsLines(env, Entries(v), 1, [Statement(me, RDF_TYPE, IriNode(POD + "View"))], me);
    StatementsAgree(v);
  }

  lemma BodyParts(lines: string)
    ensures " a pod:View ;\n" + lines == " a" + (" pod:View ;\n" + lines)
    ensures "[] a pod:View ;\n" + lines == "[] a" + (" pod:View ;\n" + lines)
  {
  }

  lemma BodyParses(env: Env, v: View)
    requires KnowsPrefixes(env)
    ensures ParseStatements(env, State("[] a pod:View ;\n" + LinesText(Entries(v)), 0, [])) == Some(ViewStatements(v))
  {
    var lines := LinesText(Entries(v));
    ListIsRead(env, v);
    BodyParts(lines);
    BodyIsParsed(env, " pod:View ;\n" + lines, 1 + MintedBy(Entries(v)), ViewStatements(v));
  }

  /** Parsing a printed view yields exactly its triples, in the order they are printed. */
  lemma PrintedViewParses(js: Js, v: View, base: string)
    requires UsualJs(js)
    ensures ParseTurtle(js, ViewText(v), base) == Some(ViewStatements(v))
  {
    var env := Env(js, map[], base);
    var body := "[] a pod:View ;\n" + LinesText(Entries(v));
    assert ViewText(v) == Prefixes() + body by {
      BodyGroups(Prefixes(), "[] a pod:View ;\n", JoinWith(LineTexts(Entries(v)), " ;\n"), STOP);
    }
    ParsesPrefixes(env, body);
    BodyParses(Known(env), v);
  }

  lemma {:induction false} DecimalInjective(m: nat, n: nat)
    requires Decimal(m) == Decimal(n)
    ensures m == n
  {
    var a, b := Decimal(m), Decimal(n);
    assert a[|a| - 1] == (m % 10) as char + '0' && b[|b| - 1] == (n % 10) as char + '0';
    assert a[..|a| - 1] == b[..|b| - 1];
    if m >= 10 && n >= 10 {
      DecimalInjective(m / 10, n / 10);
    }
  }

  /** Distinct parameters are distinct nodes, and none is the view's own. */
  lemma NodesDistinct(m: nat, n: nat)
    ensures Minted(m) == Minted(n) <==> m == n
  {
    if Minted(m) == Minted(n) {
      assert ("_:g" + Decimal(m))[3..] == Decimal(m);
      assert ("_:g" + Decimal(n))[3..] == Decimal(n);
      DecimalInjective(m, n);
    }
  }
}
