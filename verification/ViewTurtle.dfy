/**
 Printing a view definition as Turtle, and reading it back: for every view the parser returns
 exactly the view's triples.
 */
module ViewTurtle {
  import opened Options
  import opened Scanner
  import opened JsText
  import opened Turtle
  import opened Vocabulary

  const DCTERMS := "http://purl.org/dc/terms/"

  datatype Param = Param(name: string, kind: string)

  /** A retrieval ceiling that is absent or empty is not printed, nor is an empty description. */
  datatype View = View(title: string, description: string, template: string, contentType: string,
                       maxRetrievals: Option<string>, params: seq<Param>)

  // ------------------------------------------------------------------------- the printer

  function PrefixText(name: string, iri: string): string {
    "@prefix " + name + ": <" + iri + "> .\n"
  }

  function Prefixes(): string {
    PrefixText("pod", POD) + PrefixText("dcterms", DCTERMS) + PrefixText("xsd", XSD) + "\n"
  }

  function JoinWith(lines: seq<string>, sep: string): string {
    if lines == [] then ""
    else if |lines| == 1 then lines[0]
    else lines[0] + sep + JoinWith(lines[1..], sep)
  }

  /** What a line prints after its predicate. */
  datatype Value = Short(text: string) | LongText(text: string) | Integer(text: string) | Nested(param: Param)

  /** A predicate name and its value. */
  datatype Entry = Entry(prefix: string, local: string, value: Value)

  function NestedText(p: Param): string {
    "[ " + ("pod" + ":" + "paramName") + " " + Str(p.name) + " ; " + ("pod" + ":" + "paramType") + " " + Str(p.kind) + " ]"
  }

  function ValueText(v: Value): string {
    match v
    case Short(text) => Str(text)
    case LongText(text) => Long(text)
    case Integer(text) => Str(text) + "^^xsd:integer"
    case Nested(param) => NestedText(param)
  }

  function Head(prefix: string, name: string): string {
    "    " + prefix + ":" + name + " "
  }

  function LineText(e: Entry): string {
    Head(e.prefix, e.local) + ValueText(e.value)
  }

  function ParamEntries(params: seq<Param>): (r: seq<Entry>)
    ensures |r| == |params| && forall i :: 0 <= i < |r| ==> r[i] == Entry("pod", "parameter", Nested(params[i]))
  {
    seq(|params|, i requires 0 <= i < |params| => Entry("pod", "parameter", Nested(params[i])))
  }

  function CeilingEntries(ceiling: Option<string>): seq<Entry> {
    if ceiling.Some? && ceiling.value != "" then [Entry("pod", "maxViewRetrievals", Integer(ceiling.value))] else []
  }

  function DescriptionEntries(description: string): seq<Entry> {
    if description != "" then [Entry("dcterms", "description", Short(description))] else []
  }

  function TextEntries(v: View): seq<Entry> {
    [Entry("dcterms", "title", Short(v.title))]
    + DescriptionEntries(v.description)
    + [Entry("pod", "constructTemplate", LongText(v.template)),
       Entry("pod", "contentTypeHint", Short(if v.contentType != "" then v.contentType else "text/turtle"))]
  }

  /** The lines a view prints, in order. */
  function Entries(v: View): seq<Entry> {
    TextEntries(v) + (CeilingEntries(v.maxRetrievals) + ParamEntries(v.params))
  }

  function LineTexts(entries: seq<Entry>): (r: seq<string>)
    ensures |r| == |entries| && forall i :: 0 <= i < |r| ==> r[i] == LineText(entries[i])
  {
    seq(|entries|, i requires 0 <= i < |entries| => LineText(entries[i]))
  }

  function ViewText(v: View): string {
    Prefixes() + "[] a pod:View ;\n" + JoinWith(LineTexts(Entries(v)), " ;\n") + " .\n"
  }

  lemma PushLine(entries: seq<Entry>, e: Entry)
    ensures LineTexts(entries + [e]) == LineTexts(entries) + [Head(e.prefix, e.local) + ValueText(e.value)]
  {
  }

  method PrintView(v: View) returns (text: string)
    ensures text == ViewText(v)
  {
    var body := Prefixes() + "[] a pod:View ;\n";
    var lines := TextLines(v);
    var rest := CeilingAndParams(v);
    LineTextsConcat(TextEntries(v), CeilingEntries(v.maxRetrievals) + ParamEntries(v.params));
    text := body + JoinWith(lines + rest, " ;\n") + " .\n";
  }

  /** The lines of the texts. */
  method TextLines(v: View) returns (lines: seq<string>)
    ensures lines == LineTexts(TextEntries(v))
  {
    ghost var entries := [Entry("dcterms", "title", Short(v.title))];
    lines := [Head("dcterms", "title") + Str(v.title)];
    assert lines == LineTexts(entries);
    if v.description != "" {
      PushLine(entries, Entry("dcterms", "description", Short(v.description)));
      lines := lines + [Head("dcterms", "description") + Str(v.description)];
    }
    entries := entries + DescriptionEntries(v.description);
    assert lines == LineTexts(entries);
    var contentType := if v.contentType != "" then v.contentType else "text/turtle";
    ghost var template, hint :=
      Entry("pod", "constructTemplate", LongText(v.template)), Entry("pod", "contentTypeHint", Short(contentType));
    PushLine(entries, template);
    lines := lines + [Head("pod", "constructTemplate") + Long(v.template)];
    PushLine(entries + [template], hint);
    lines := lines + [Head("pod", "contentTypeHint") + Str(contentType)];
    assert TextEntries(v) == entries + [template] + [hint];
  }

  lemma LineTextsConcat(a: seq<Entry>, b: seq<Entry>)
    ensures LineTexts(a + b) == LineTexts(a) + LineTexts(b)
  {
  }

  /** The lines of the ceiling, if there is one, and of the parameters. */
  method CeilingAndParams(v: View) returns (lines: seq<string>)
    ensures lines == LineTexts(CeilingEntries(v.maxRetrievals) + ParamEntries(v.params))
  {
    hide Str, NestedText, ParamEntries;
    lines := [];
    ghost var start := CeilingEntries(v.maxRetrievals);
    if v.maxRetrievals.Some? && v.maxRetrievals.value != "" {
      PushLine([], Entry("pod", "maxViewRetrievals", Integer(v.maxRetrievals.value)));
      lines := [Head("pod", "maxViewRetrievals") + (Str(v.maxRetrievals.value) + "^^xsd:integer")];
      assert [] + start == start;
    }
    ghost var entries := start;
    for i := 0 to |v.params|
      invariant entries == start + ParamEntries(v.params[..i])
      invariant lines == LineTexts(entries)
    {
      var p := v.params[i];
      PushLine(entries, Entry("pod", "parameter", Nested(p)));
      ParamEntriesPush(v.params[..i], p);
      assert v.params[..i + 1] == v.params[..i] + [p];
      lines := lines + [Head("pod", "parameter") + NestedText(p)];
      entries := entries + [Entry("pod", "parameter", Nested(p))];
    }
    assert v.params[..|v.params|] == v.params;
  }

  lemma ParamEntriesPush(params: seq<Param>, p: Param)
    ensures ParamEntries(params + [p]) == ParamEntries(params) + [Entry("pod", "parameter", Nested(p))]
  {
  }

  // -------------------------------------------------------------------- the view's triples

  function Plain(text: string): Node {
    Literal(text, None, None)
  }

  /** The triples of a view whose blank nodes are numbered in order, its own first. */
  function ViewStatements(v: View): seq<Statement> {
    var me := Minted(0);
    [Statement(me, RDF_TYPE, IriNode(POD + "View")),
     Statement(me, DCTERMS + "title", Plain(v.title))]
    + (if v.description != "" then [Statement(me, DCTERMS + "description", Plain(v.description))] else [])
    + [Statement(me, POD + "constructTemplate", Plain(v.template)),
       Statement(me, POD + "contentTypeHint", Plain(if v.contentType != "" then v.contentType else "text/turtle"))]
    + (if v.maxRetrievals.Some? && v.maxRetrievals.value != ""
       then [Statement(me, POD + "maxViewRetrievals", Literal(v.maxRetrievals.value, Some(XSD + "integer"), None))]
       else [])
    + ParamStatements(v.params, 1)
  }

  /** Each parameter's node, numbered from n on: its name, its type, and that the view has it. */
  function ParamStatements(params: seq<Param>, n: nat): seq<Statement> {
    if params == [] then []
    else
      [Statement(Minted(n), POD + "paramName", Plain(params[0].name)),
       Statement(Minted(n), POD + "paramType", Plain(params[0].kind)),
       Statement(Minted(0), POD + "parameter", Minted(n))]
      + ParamStatements(params[1..], n + 1)
  }

  // ------------------------------------------------------------------------- reading pieces

  ghost predicate UsualJs(js: Js) {
    forall c: char :: AsciiLetter(c) ==> !js.space(c)
  }

  predicate Word(s: string) {
    |s| > 0 && forall i :: 0 <= i < |s| ==> AsciiLetter(s[i])
  }

  lemma SkipsSpaces(a: string, x: string)
    requires (forall i :: 0 <= i < |a| ==> IsWs(a[i])) && |x| > 0 && !IsWs(x[0]) && x[0] != '#'
    ensures Skip(a + x) == x
    decreases |a|
  {
    if a == "" {
      assert a + x == x;
    } else {
      assert (a + x)[1..] == a[1..] + x;
      SkipsSpaces(a[1..], x);
    }
  }

  lemma {:induction false} FindsColon(a: string, b: string, i: nat)
    requires i <= |a| && forall k :: 0 <= k < |a| ==> a[k] != ':'
    ensures FindChar(a + ":" + b, ':', i) == |a|
    decreases |a| - i
  {
    if i < |a| { FindsColon(a, b, i + 1); }
  }

  lemma {:induction false} UnescapesNothing(s: string)
    requires forall i :: 0 <= i < |s| ==> s[i] != '\\'
    ensures UnescapeLocal(s) == s
  {
    if s != "" { UnescapesNothing(s[1..]); }
  }

  /** A prefixed name of letters is read as its namespace and local part. */
  lemma ReadsPName(env: Env, prefix: string, name: string, tail: string)
    requires Word(prefix) && Word(name) && prefix in env.prefixes && Boundary(tail)
    ensures ReadPName(env, prefix + ":" + name + tail) == Got(env.prefixes[prefix] + name, tail)
  {
    var full := prefix + ":" + name;
    forall c | c in full ensures NameChar(c) {
      var i :| 0 <= i < |full| && full[i] == c;
    }
    TakesWhile(NameChar, full, tail);
    FindsColon(prefix, name, 0);
    assert full[..|prefix|] == prefix && full[|prefix| + 1..] == name;
    UnescapesNothing(name);
    assert (full + tail)[|full|..] == tail;
  }

  ghost predicate KnowsPrefixes(env: Env) {
    && "pod" in env.prefixes && env.prefixes["pod"] == POD
    && "dcterms" in env.prefixes && env.prefixes["dcterms"] == DCTERMS
    && "xsd" in env.prefixes && env.prefixes["xsd"] == XSD
  }

  lemma ReadsShort(env: Env, x: string, tail: string)
    requires HeadIs(tail, ' ')
    ensures ReadQuoted(env, Str(x) + tail) == Got(Plain(x), tail)
  {
    StrIsRead(env.js, x, tail);
  }

  lemma ReadsLong(env: Env, x: string, tail: string)
    requires HeadIs(tail, ' ')
    ensures ReadQuoted(env, Long(x) + tail) == Got(Plain(x), tail)
  {
    LongIsRead(env.js, x, tail);
  }

  lemma ReadsNamedType(env: Env, x: string, name: string, iri: string, tail: string)
    requires |name| > 0 && name[0] != '<' && ReadPName(env, name) == Got(iri, tail)
    ensures ReadSuffix(env, x, "^^" + name) == Got(Literal(x, Some(iri), None), tail)
  {
    var rest := "^^" + name;
    assert rest[..2] == "^^" && rest[2..] == name;
  }

  lemma IntegerParts(x: string, tail: string)
    ensures Str(x) + "^^xsd:integer" + tail == Str(x) + ("^^" + ("xsd" + ":" + "integer" + tail))
  {
  }

  lemma ReadsInteger(env: Env, x: string, tail: string)
    requires HeadIs(tail, ' ') && KnowsPrefixes(env)
    ensures ReadQuoted(env, Str(x) + "^^xsd:integer" + tail) == Got(Literal(x, Some(XSD + "integer"), None), tail)
  {
    var name := "xsd" + ":" + "integer" + tail;
    IntegerParts(x, tail);
    StrIsRead(env.js, x, "^^" + name);
    assert Word("xsd") && Word("integer");
    ReadsPName(env, "xsd", "integer", tail);
    ReadsNamedType(env, x, name, XSD + "integer", tail);
  }

  // ------------------------------------------------------------------------ reading entries

  /** The node an object reads as, and the triples reading it pushes. */
  datatype Reading = Reading(node: Node, inner: seq<Statement>)

  function Namespace(prefix: string): string {
    if prefix == "pod" then POD else DCTERMS
  }

  function ReadingOf(v: Value, n: nat): Reading {
    match v
    case Short(text) => Reading(Plain(text), [])
    case LongText(text) => Reading(Plain(text), [])
    case Integer(text) => Reading(Literal(text, Some(XSD + "integer"), None), [])
    case Nested(param) =>
      Reading(Minted(n), [Statement(Minted(n), POD + "paramName", Plain(param.name)),
                             Statement(Minted(n), POD + "paramType", Plain(param.kind))])
  }

  predicate KnownEntry(e: Entry) {
    (e.prefix == "pod" || e.prefix == "dcterms") && Word(e.local)
  }

  lemma ReadsVerb(env: Env, pad: string, e: Entry, tail: string)
    requires KnowsPrefixes(env) && KnownEntry(e) && AllWs(pad) && HeadIs(tail, ' ')
    ensures ReadVerb(env, pad + (e.prefix + ":" + e.local + tail)) == Got(Namespace(e.prefix) + e.local, tail)
    ensures HeadIs(Skip(pad + (e.prefix + ":" + e.local + tail)), e.prefix[0])
  {
    hide ReadPName, ReadIriRef;
    var name := e.prefix + ":" + e.local + tail;
    assert Word("pod") && Word("dcterms");
    SkipsSpaces(pad, name);
    ReadsPName(env, e.prefix, e.local, tail);
    assert name[1] == e.prefix[1];
  }

  /** One predicate with its one object inside a property list, another to follow or none. */
  lemma ReadsPair(env: Env, st: State, subj: Node, verb: string, rest: string, node: Node, after: State)
    requires Skip(st.rest) != "" && Skip(st.rest)[0] != ']' && Skip(st.rest)[0] != '.'
    requires ReadVerb(env, st.rest) == Got(verb, rest)
    requires ReadObject(env, st.(rest := rest)) == Done(node, after)
    requires !HeadIs(Skip(after.rest), ',')
    ensures ReadPredObjList(env, st, subj) ==
            Continued(env, Skip(after.rest), after.bnode, after.out + [Statement(subj, verb, node)], subj)
  {
    SkipTwice(st.rest);
    SkipTwice(after.rest);
  }

  /** What the list reads as from the mark after an object on. */
  function Continued(env: Env, s: string, bnode: nat, out: seq<Statement>, subj: Node): Run<()> {
    if HeadIs(s, ';') then ReadPredObjList(env, State(s[1..], bnode, out), subj) else Done((), State(s, bnode, out))
  }

  /** The value reads as it should, after the space that separates it from its predicate. */
  ghost predicate ReadsValue(env: Env, v: Value, tail: string, n: nat, out: seq<Statement>) {
    var r := ReadingOf(v, n);
    ReadObject(env, State(" " + (ValueText(v) + tail), n, out)) == Done(r.node, State(tail, n + Mints(v), out + r.inner))
  }

  /** One entry of a property list is read, up to the mark that follows it. */
  lemma ReadsEntry(env: Env, pad: string, e: Entry, tail: string, n: nat, out: seq<Statement>, subj: Node)
    requires KnowsPrefixes(env) && KnownEntry(e) && AllWs(pad) && HeadIs(tail, ' ')
    requires ReadsValue(env, e.value, tail, n, out)
    requires !HeadIs(Skip(tail), ',')
    ensures var r := ReadingOf(e.value, n);
            ReadPredObjList(env, State(pad + (e.prefix + ":" + e.local + (" " + (ValueText(e.value) + tail))), n, out), subj) ==
            Continued(env, Skip(tail), n + Mints(e.value), out + r.inner + [Statement(subj, Namespace(e.prefix) + e.local, r.node)], subj)
  {
    var r := ReadingOf(e.value, n);
    var rest := " " + (ValueText(e.value) + tail);
    var st := State(pad + (e.prefix + ":" + e.local + rest), n, out);
    ReadsVerb(env, pad, e, rest);
    assert st.(rest := rest) == State(rest, n, out);
    ReadsPair(env, st, subj, Namespace(e.prefix) + e.local, rest, r.node, State(tail, n + Mints(e.value), out + r.inner));
  }

  lemma ReadsLiteralValue(env: Env, v: Value, tail: string, n: nat, out: seq<Statement>)
    requires KnowsPrefixes(env) && HeadIs(tail, ' ') && !v.Nested?
    ensures ReadsValue(env, v, tail, n, out)
  {
    hide StrBody, LongBody, ReadString, ReadSuffix;
    var text := ValueText(v) + tail;
    match v {
      case Short(x) => ReadsShort(env, x, tail);
      case LongText(x) => ReadsLong(env, x, tail);
      case Integer(x) => ReadsInteger(env, x, tail);
    }
    assert HeadIs(text, '"');
    SkipsSpaces(" ", text);
    assert out + [] == out;
  }

  /** The last pair of a nested list. */
  lemma ReadsLastPair(env: Env, e: Entry, tail: string, n: nat, out: seq<Statement>, b: Node)
    requires KnowsPrefixes(env) && KnownEntry(e) && e.value.Short?
    ensures var rest := " " + (e.prefix + ":" + e.local + (" " + (ValueText(e.value) + (" ]" + tail))));
            ReadPredObjList(env, State(rest, n, out), b) ==
            Done((), State("]" + tail, n, out + [Statement(b, Namespace(e.prefix) + e.local, Plain(e.value.text))]))
  {
    var end := " ]" + tail;
    assert end == " " + ("]" + tail);
    SkipsSpaces(" ", "]" + tail);
    ReadsLiteralValue(env, e.value, end, n, out);
    ReadsEntry(env, " ", e, end, n, out, b);
    assert out + [] == out;
  }

  /** A pair before another in a nested list. */
  lemma ReadsFirstPair(env: Env, e: Entry, second: string, n: nat, out: seq<Statement>, b: Node)
    requires KnowsPrefixes(env) && KnownEntry(e) && e.value.Short?
    ensures var rest := e.prefix + ":" + e.local + (" " + (ValueText(e.value) + (" ;" + second)));
            ReadPredObjList(env, State(rest, n, out), b) ==
            ReadPredObjList(env, State(second, n, out + [Statement(b, Namespace(e.prefix) + e.local, Plain(e.value.text))]), b)
  {
    hide ReadPredObjList, ReadObject, Str;
    var after := " ;" + second;
    assert after == " " + (";" + second);
    SkipsSpaces(" ", ";" + second);
    ReadsLiteralValue(env, e.value, after, n, out);
    ReadsEntry(env, "", e, after, n, out, b);
    var rest := e.prefix + ":" + e.local + (" " + (ValueText(e.value) + after));
    assert "" + rest == rest;
    assert (";" + second)[1..] == second;
    assert out + [] == out;
  }

  /** A bracketed list whose inside reads to its bracket reads as a fresh node. */
  lemma ReadsBrackets(env: Env, inner: string, tail: string, n: nat, out: seq<Statement>, pushed: seq<Statement>)
    requires |inner| > 0 && !IsWs(inner[0]) && inner[0] != '#' && inner[0] != ']'
    requires ReadPredObjList(env, State(inner, n + 1, out), Minted(n)) == Done((), State("]" + tail, n + 1, pushed))
    ensures ReadObject(env, State(" " + ("[" + (" " + inner)), n, out)) == Done(Minted(n), State(tail, n + 1, pushed))
  {
    hide ReadPredObjList, Minted;
    var text := "[" + (" " + inner);
    SkipsSpaces(" ", text);
    SkipsSpaces(" ", inner);
    assert text[1..] == " " + inner;
    assert ("]" + tail)[1..] == tail;
  }

  /** A parameter's nested list reads as its node, its two triples pushed first. */
  lemma ReadsNestedValue(env: Env, p: Param, tail: string, n: nat, out: seq<Statement>)
    requires KnowsPrefixes(env) && HeadIs(tail, ' ')
    ensures ReadsValue(env, Nested(p), tail, n, out)
  {
    var one, two := Entry("pod", "paramName", Short(p.name)), Entry("pod", "paramType", Short(p.kind));
    var b := Minted(n);
    var second := " " + ("pod" + ":" + "paramType" + (" " + (Str(p.kind) + (" ]" + tail))));
    var first := "pod" + ":" + "paramName" + (" " + (Str(p.name) + (" ;" + second)));
    var out1 := out + [Statement(b, POD + "paramName", Plain(p.name))];
    var out2 := out1 + [Statement(b, POD + "paramType", Plain(p.kind))];
    assert Word("paramName") && Word("paramType");
    ReadsFirstPair(env, one, second, n + 1, out, b);
    ReadsLastPair(env, two, tail, n + 1, out1, b);
    assert first[0] == 'p';
    ReadsBrackets(env, first, tail, n, out, out2);
    NestedParts(p, tail);
    assert out2 == out + ReadingOf(Nested(p), n).inner;
  }

  lemma NestedGroups(a: string, b: string, c: string, d: string, e: string, tail: string)
    ensures "[ " + a + " " + b + " ; " + c + " " + d + e + tail ==
            "[" + (" " + (a + (" " + (b + (" ;" + (" " + (c + (" " + (d + (e + tail))))))))))
  {
  }

  lemma NestedParts(p: Param, tail: string)
    ensures var second := " " + ("pod" + ":" + "paramType" + (" " + (Str(p.kind) + (" ]" + tail))));
            NestedText(p) + tail ==
            "[" + (" " + ("pod" + ":" + "paramName" + (" " + (Str(p.name) + (" ;" + second)))))
  {
    hide Str;
    NestedGroups("pod" + ":" + "paramName", Str(p.name), "pod" + ":" + "paramType", Str(p.kind), " ]", tail);
  }

  lemma ReadsAnyValue(env: Env, v: Value, tail: string, n: nat, out: seq<Statement>)
    requires KnowsPrefixes(env) && HeadIs(tail, ' ')
    ensures ReadsValue(env, v, tail, n, out)
  {
    if v.Nested? {
      ReadsNestedValue(env, v.param, tail, n, out);
    } else {
      ReadsLiteralValue(env, v, tail, n, out);
    }
  }

  // ------------------------------------------------------------------------ reading the lines

  /** The triples the entries push, the nodes numbered from n on, and how many they mint. */
  function Mints(v: Value): nat {
    if v.Nested? then 1 else 0
  }

  function EntryStatements(entries: seq<Entry>, subj: Node, n: nat): seq<Statement> {
    if entries == [] then []
    else
      StatementsOf(entries[0], subj, n)
      + EntryStatements(entries[1..], subj, n + Mints(entries[0].value))
  }

  function StatementsOf(e: Entry, subj: Node, n: nat): seq<Statement> {
    var r := ReadingOf(e.value, n);
    r.inner + [Statement(subj, Namespace(e.prefix) + e.local, r.node)]
  }

  function MintedBy(entries: seq<Entry>): nat {
    if entries == [] then 0 else Mints(entries[0].value) + MintedBy(entries[1..])
  }

  const STOP := " .\n"

  lemma LinesStep(entries: seq<Entry>)
    requires |entries| > 1
    ensures LinesText(entries) == LineText(entries[0]) + (" ;\n" + LinesText(entries[1..]))
  {
    var line, rest := LineText(entries[0]), JoinWith(LineTexts(entries[1..]), " ;\n");
    assert LineTexts(entries)[1..] == LineTexts(entries[1..]);
    Regroup(line, " ;\n", rest, STOP);
  }

  lemma Regroup(a: string, b: string, c: string, d: string)
    ensures a + b + c + d == a + (b + (c + d))
  {
  }

  lemma LineParts(e: Entry, tail: string)
    ensures LineText(e) + tail == "    " + (e.prefix + ":" + e.local + (" " + (ValueText(e.value) + tail)))
  {
  }

  /** A line with more to follow. */
  lemma ReadsOneLine(env: Env, e: Entry, rest: string, n: nat, out: seq<Statement>, subj: Node)
    requires KnowsPrefixes(env) && KnownEntry(e)
    ensures var r := ReadingOf(e.value, n);
            ReadPredObjList(env, State(LineText(e) + (" ;\n" + rest), n, out), subj) ==
            ReadPredObjList(env, State(rest, n + Mints(e.value), out + StatementsOf(e, subj, n)), subj)
  {
    var r := ReadingOf(e.value, n);
    var tail := " ;\n" + rest;
    var mark := ";" + ("\n" + rest);
    assert tail == " " + mark && mark[1..] == "\n" + rest;
    SkipsSpaces(" ", mark);
    ReadsAnyValue(env, e.value, tail, n, out);
    LineParts(e, tail);
    ReadsEntry(env, "    ", e, tail, n, out, subj);
    var out1 := out + r.inner + [Statement(subj, Namespace(e.prefix) + e.local, r.node)];
    assert out1 == out + StatementsOf(e, subj, n);
    LineBreak(env, rest, n + Mints(e.value), out1, subj);
  }

  /** The last line. */
  lemma ReadsLastLine(env: Env, e: Entry, n: nat, out: seq<Statement>, subj: Node)
    requires KnowsPrefixes(env) && KnownEntry(e)
    ensures ReadPredObjList(env, State(LineText(e) + STOP, n, out), subj) ==
            Done((), State(".\n", n + Mints(e.value), out + StatementsOf(e, subj, n)))
  {
    var r := ReadingOf(e.value, n);
    assert STOP == " " + ".\n";
    SkipsSpaces(" ", ".\n");
    ReadsAnyValue(env, e.value, STOP, n, out);
    LineParts(e, STOP);
    ReadsEntry(env, "    ", e, STOP, n, out, subj);
    assert out + r.inner + [Statement(subj, Namespace(e.prefix) + e.local, r.node)] == out + StatementsOf(e, subj, n);
  }

  lemma StatementsStep(entries: seq<Entry>, subj: Node, n: nat, out: seq<Statement>)
    requires |entries| > 0
    ensures out + EntryStatements(entries, subj, n) ==
            (out + StatementsOf(entries[0], subj, n))
            + EntryStatements(entries[1..], subj, n + Mints(entries[0].value))
    ensures MintedBy(entries) == Mints(entries[0].value) + MintedBy(entries[1..])
  {
  }

  function LinesText(entries: seq<Entry>): string {
    JoinWith(LineTexts(entries), " ;\n") + STOP
  }

  lemma OneLineText(entries: seq<Entry>)
    requires |entries| == 1
    ensures LinesText(entries) == LineText(entries[0]) + STOP
  {
    assert LineTexts(entries) == [LineText(entries[0])];
  }

  lemma ReadsMoreLines(env: Env, entries: seq<Entry>, n: nat, out: seq<Statement>, subj: Node)
    requires KnowsPrefixes(env) && |entries| > 1 && KnownEntry(entries[0])
    ensures ReadPredObjList(env, State(LinesText(entries), n, out), subj) ==
            ReadPredObjList(env, State(LinesText(entries[1..]), n + Mints(entries[0].value),
                                       out + StatementsOf(entries[0], subj, n)), subj)
  {
    hide ReadPredObjList, LinesText, StatementsOf;
    LinesStep(entries);
    ReadsOneLine(env, entries[0], LinesText(entries[1..]), n, out, subj);
  }

  lemma ReadsSingleLine(env: Env, entries: seq<Entry>, n: nat, out: seq<Statement>, subj: Node)
    requires KnowsPrefixes(env) && |entries| == 1 && KnownEntry(entries[0])
    ensures ReadPredObjList(env, State(LinesText(entries), n, out), subj) == AllRead(entries, n, out, subj)
  {
    OneLineText(entries);
    ReadsLastLine(env, entries[0], n, out, subj);
    LastCounts(entries, subj, n);
  }

  function AllRead(entries: seq<Entry>, n: nat, out: seq<Statement>, subj: Node): Run<()> {
    Done((), State(".\n", n + MintedBy(entries), out + EntryStatements(entries, subj, n)))
  }

  predicate AllKnown(entries: seq<Entry>) {
    forall i :: 0 <= i < |entries| ==> KnownEntry(entries[i])
  }

  /** A reading that goes line by line reads all of them. */
  lemma {:induction false} LineByLine(read: (seq<Entry>, nat, seq<Statement>) -> Run<()>,
                                      entries: seq<Entry>, n: nat, out: seq<Statement>, subj: Node)
    requires |entries| > 0 && AllKnown(entries)
    requires forall es: seq<Entry>, k: nat, o :: |es| == 1 && AllKnown(es) ==> read(es, k, o) == AllRead(es, k, o, subj)
    requires forall es: seq<Entry>, k: nat, o :: |es| > 1 && AllKnown(es) ==>
      read(es, k, o) == read(es[1..], k + Mints(es[0].value), o + StatementsOf(es[0], subj, k))
    ensures read(entries, n, out) == AllRead(entries, n, out, subj)
    decreases |entries|
  {
    hide StatementsOf, Mints, KnownEntry;
    if |entries| > 1 {
      var m, o := n + Mints(entries[0].value), out + StatementsOf(entries[0], subj, n);
      LineByLine(read, entries[1..], m, o, subj);
      StatementsStep(entries, subj, n, out);
    }
  }

  /** Lines joined by semicolons and ended by a dot read as their triples. */
  lemma ReadsLines(env: Env, entries: seq<Entry>, n: nat, out: seq<Statement>, subj: Node)
    requires KnowsPrefixes(env) && |entries| > 0 && AllKnown(entries)
    ensures ReadPredObjList(env, State(LinesText(entries), n, out), subj) == AllRead(entries, n, out, subj)
  {
    hide ReadPredObjList, EntryStatements, MintedBy, StatementsOf, LinesText;
    var read := (es: seq<Entry>, k: nat, o: seq<Statement>) => ReadPredObjList(env, State(LinesText(es), k, o), subj);
    forall es: seq<Entry>, k: nat, o | |es| == 1 && AllKnown(es) ensures read(es, k, o) == AllRead(es, k, o, subj) {
      ReadsSingleLine(env, es, k, o, subj);
    }
    forall es: seq<Entry>, k: nat, o | |es| > 1 && AllKnown(es)
      ensures read(es, k, o) == read(es[1..], k + Mints(es[0].value), o + StatementsOf(es[0], subj, k))
    {
      ReadsMoreLines(env, es, k, o, subj);
    }
    LineByLine(read, entries, n, out, subj);
  }

  lemma LastCounts(entries: seq<Entry>, subj: Node, n: nat)
    requires |entries| == 1
    ensures EntryStatements(entries, subj, n) == StatementsOf(entries[0], subj, n)
    ensures MintedBy(entries) == Mints(entries[0].value)
  {
    assert entries[1..] == [];
  }

  /** A line break before a property list does not change what it reads as. */
  lemma LineBreak(env: Env, rest: string, n: nat, out: seq<Statement>, subj: Node)
    ensures ReadPredObjList(env, State("\n" + rest, n, out), subj) == ReadPredObjList(env, State(rest, n, out), subj)
  {
    assert ("\n" + rest)[1..] == rest;
    assert Skip("\n" + rest) == Skip(rest);
  }
}
