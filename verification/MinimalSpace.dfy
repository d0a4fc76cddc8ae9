/**
 N-Triples lets a blank-node subject be followed by its predicate without white space; the
 N-Triples parser then takes the predicate, up to a dot or white space, for part of the label.
 Such a triple is lost, whatever its predicate looks like, so the parser returns a document's
 meaning exactly when none is written that way.  The one exception is a literal glued to its
 predicate as well: the swallowing can then end inside the quotes, what was code is read as text
 and the other way round, and a document is shown for which that gives the right triples.
 */
module MinimalSpace {
  import opened Options
  import opened Scanner
  import opened JsText
  import opened Turtle
  import opened NTriplesDocs
  import opened ParsersAgree

  // ------------------------------------------------------------------ how many lines

  /** Parsing the text pushes at most n lines. */
  ghost predicate AtMost(js: Js, text: string, n: nat) {
    forall out :: var r := ParseLines(js, text, out); r.Some? ==> |r.value| <= |out| + n
  }

  /** So does parsing it from its next line on. */
  ghost predicate Quiet(js: Js, text: string, n: nat) {
    AtMost(js, text, n) && AtMost(js, SkipLine(text), n)
  }

  lemma Same(js: Js, a: string, b: string, n: nat)
    requires SkipWs(a) == SkipWs(b) && AtMost(js, b, n)
    ensures AtMost(js, a, n)
  {
    forall out ensures ParseLines(js, a, out) == ParseLines(js, b, out) {
    }
  }

  lemma {:induction false} QuietWs(js: Js, ws: string, rest: string, n: nat)
    requires AllWs(ws) && Quiet(js, rest, n)
    ensures Quiet(js, ws + rest, n)
  {
    if ws == "" {
      assert ws + rest == rest;
    } else {
      var text, shorter := ws + rest, ws[1..] + rest;
      QuietWs(js, ws[1..], rest, n);
      assert text[1..] == shorter;
      Same(js, text, shorter, n);
      if ws[0] == '\n' {
        assert SkipLine(text) == text;
      } else {
        assert SkipLine(text) == SkipLine(shorter);
      }
    }
  }

  lemma {:induction false} SkipsSolid(x: string, rest: string)
    requires '\n' !in x
    ensures SkipLine(x + rest) == SkipLine(rest)
  {
    if x == "" {
      assert x + rest == rest;
    } else {
      assert (x + rest)[1..] == x[1..] + rest;
      assert x[0] in x;
      SkipsSolid(x[1..], rest);
    }
  }

  /** What starts no term is skipped to the end of its line. */
  lemma NoTerm(js: Js, text: string, n: nat)
    requires text != "" && !IsWs(text[0]) && text[0] !in "<_\"" && AtMost(js, SkipLine(text[1..]), n)
    ensures AtMost(js, text, n)
  {
    assert SkipWs(text) == text;
    forall out ensures ParseLines(js, text, out) == ParseLines(js, SkipLine(text[1..]), out) {
    }
  }

  /** A statement of fewer than three terms pushes nothing. */
  lemma Unfinished(js: Js, text: string, s: Node, r1: string, p: Option<Node>, r2: string, r3: string, n: nat)
    requires text != "" && !IsWs(text[0]) && text[0] != '#'
    requires ReadTerm(js, text) == Got(Some(s), r1) && ReadTerm(js, r1) == Got(p, r2) && ReadTerm(js, r2) == Got(None, r3)
    requires AtMost(js, AfterDot(SkipWs(r3)), n)
    ensures AtMost(js, text, n)
  {
    assert SkipWs(text) == text;
    var rest := AfterDot(SkipWs(r3));
    forall out ensures ParseLines(js, text, out) == ParseLines(js, rest, out) {
    }
  }

  // ------------------------------------------------------------ the end of a triple

  /** The dot and what follows: a statement cannot start with it, and none is read past it. */
  lemma QuietDot(js: Js, rest: string, n: nat)
    requires Quiet(js, rest, n)
    ensures Quiet(js, "." + rest, n)
  {
    var text := "." + rest;
    assert text[1..] == rest;
    NoTerm(js, text, n);
    assert SkipLine(text) == SkipLine(rest);
  }

  lemma DotIsNoTerm(js: Js, ws: string, rest: string)
    requires AllWs(ws)
    ensures ReadTerm(js, ws + ("." + rest)) == Got(None, "." + rest)
    ensures SkipWs("." + rest) == "." + rest && AfterDot("." + rest) == rest
  {
    SkipsWs(ws, "." + rest);
    assert ("." + rest)[1..] == rest;
  }

  /** White space, dot, rest. */
  function End(ws3: string, rest: string): string {
    ws3 + ("." + rest)
  }

  lemma QuietEnd(js: Js, ws3: string, rest: string, n: nat)
    requires AllWs(ws3) && Quiet(js, rest, n)
    ensures Quiet(js, End(ws3, rest), n)
  {
    QuietDot(js, rest, n);
    QuietWs(js, ws3, "." + rest, n);
  }

  // ------------------------------------------------------------------- text of terms

  lemma {:induction false} PiecesOneLine(js: Js, ps: seq<Piece>)
    requires forall p :: p in ps ==> IriPiece(js, p) || StringPiece(js, p)
    ensures '\n' !in PiecesText(ps)
  {
    if ps != [] {
      PiecesOneLine(js, ps[1..]);
      var p := ps[0];
      assert '\n' !in PieceText(p) by {
        assert IriPiece(js, p) || StringPiece(js, p);
        PieceOneLine(js, p);
      }
    }
  }

  lemma PieceOneLine(js: Js, p: Piece)
    requires IriPiece(js, p) || StringPiece(js, p)
    ensures '\n' !in PieceText(p)
  {
    match p
    case Raw(c) =>
    case Escaped(c) =>
    case Hex4(digits) => assert forall c :: c in PieceText(p) ==> c == '\\' || c == 'u' || HexDigit(c);
    case Hex8(digits) => assert forall c :: c in PieceText(p) ==> c == '\\' || c == 'U' || HexDigit(c);
  }

  lemma IriOneLine(js: Js, iri: seq<Piece>)
    requires ValidIri(js, iri)
    ensures '\n' !in IriText(iri)
  {
    PiecesOneLine(js, iri);
  }

  /** A term at the start of a statement, with nothing but the dot after it. */
  lemma QuietLast(js: Js, t: Term, ws3: string, rest: string, n: nat)
    requires ValidTerm(js, t) && AllWs(ws3) && Quiet(js, rest, n)
    ensures Quiet(js, TermText(t) + End(ws3, rest), n)
  {
    var end := End(ws3, rest);
    var text := TermText(t) + end;
    QuietEnd(js, ws3, rest, n);
    assert "" + text == text;
    ReadsLineTerm(js, "", t, end);
    DotIsNoTerm(js, ws3, rest);
    DotIsNoTerm(js, "", rest);
    assert "" + ("." + rest) == "." + rest;
    Unfinished(js, text, TermNode(js, t), end, None, "." + rest, "." + rest, n);
    SkippedTerm(js, t, ws3, rest, n);
  }

  lemma SkippedTerm(js: Js, t: Term, ws3: string, rest: string, n: nat)
    requires ValidTerm(js, t) && AllWs(ws3) && Quiet(js, rest, n)
    ensures AtMost(js, SkipLine(TermText(t) + End(ws3, rest)), n)
  {
    var end := End(ws3, rest);
    QuietEnd(js, ws3, rest, n);
    match t
    case IriTerm(iri) =>
      IriOneLine(js, iri);
      SkipsSolid(TermText(t), end);
    case BlankTerm(name) =>
      assert '\n' !in TermText(t) by {
        assert forall i :: 0 <= i < |name| ==> NameChar(name[i]);
      }
      SkipsSolid(TermText(t), end);
    case LiteralTerm(body, suffix) => SkippedLiteral(js, body, suffix, ws3, rest, n);
  }

  lemma QuotedOneLine(js: Js, body: seq<Piece>)
    requires forall p :: p in body ==> StringPiece(js, p)
    ensures '\n' !in "\"" + (PiecesText(body) + "\"")
  {
    PiecesOneLine(js, body);
  }

  lemma FourTexts(a: string, b: string, c: string, d: string)
    ensures a + (b + (c + d)) == (a + (b + c)) + d
  {
  }

  lemma SkippedLiteral(js: Js, body: seq<Piece>, suffix: Suffix, ws3: string, rest: string, n: nat)
    requires ValidTerm(js, LiteralTerm(body, suffix)) && AllWs(ws3) && Quiet(js, rest, n)
    ensures AtMost(js, SkipLine(TermText(LiteralTerm(body, suffix)) + End(ws3, rest)), n)
  {
    hide SkipLine, Quiet, AtMost, StringPiece;
    var end := End(ws3, rest);
    QuotedOneLine(js, body);
    SkippedSuffix(js, suffix, ws3, rest, n);
    hide ValidTerm, ValidSuffix, AllWs, SuffixText, PiecesText, TermText;
    var quoted := "\"" + (PiecesText(body) + "\"");
    LiteralParts(body, suffix, end);
    var tail := SuffixText(suffix) + end;
    FourTexts("\"", PiecesText(body), "\"", tail);
    SkipsSolid(quoted, tail);
  }

  lemma SkippedSuffix(js: Js, suffix: Suffix, ws3: string, rest: string, n: nat)
    requires ValidSuffix(js, suffix) && AllWs(ws3) && Quiet(js, rest, n)
    ensures AtMost(js, SkipLine(SuffixText(suffix) + End(ws3, rest)), n)
  {
    var end := End(ws3, rest);
    QuietEnd(js, ws3, rest, n);
    match suffix
    case NoSuffix => assert SuffixText(suffix) + end == end;
    case Tagged(tag) =>
      assert '\n' !in SuffixText(suffix) by {
        assert forall i :: 0 <= i < |tag| ==> LangChar(tag[i]);
      }
      SkipsSolid(SuffixText(suffix), end);
    case Typed(gap, iri) =>
      SuffixParts(gap, iri, "", end);
      SkipsSolid("^^", gap + (IriText(iri) + end));
      IriIsQuiet(js, iri, ws3, rest, n);
      QuietWs(js, gap, IriText(iri) + end, n);
  }

  /** An IRI reference left over at the start of a statement. */
  lemma IriIsQuiet(js: Js, iri: seq<Piece>, ws3: string, rest: string, n: nat)
    requires ValidIri(js, iri) && AllWs(ws3) && Quiet(js, rest, n)
    ensures Quiet(js, IriText(iri) + End(ws3, rest), n)
  {
    var t, end := IriTerm(iri), End(ws3, rest);
    var text := IriText(iri) + end;
    QuietEnd(js, ws3, rest, n);
    assert "" + (TermText(t) + end) == text;
    ReadsLineTerm(js, "", t, end);
    DotIsNoTerm(js, ws3, rest);
    DotIsNoTerm(js, "", rest);
    assert "" + ("." + rest) == "." + rest;
    Unfinished(js, text, TermNode(js, t), end, None, "." + rest, "." + rest, n);
    IriOneLine(js, iri);
    SkipsSolid(IriText(iri), end);
  }

  /** Object and end. */
  function ObjectOn(ws2: string, o: Term, ws3: string, rest: string): string {
    ws2 + (TermText(o) + End(ws3, rest))
  }

  lemma QuietObject(js: Js, ws2: string, o: Term, ws3: string, rest: string, n: nat)
    requires AllWs(ws2) && ValidTerm(js, o) && AllWs(ws3) && Quiet(js, rest, n)
    ensures Quiet(js, ObjectOn(ws2, o, ws3, rest), n)
  {
    QuietLast(js, o, ws3, rest, n);
    QuietWs(js, ws2, TermText(o) + End(ws3, rest), n);
  }

  /** Two terms before the dot are a statement that pushes nothing. */
  lemma TwoTerms(js: Js, text: string, s: Node, ws2: string, o: Term, ws3: string, rest: string, n: nat)
    requires text != "" && !IsWs(text[0]) && text[0] != '#'
    requires AllWs(ws2) && ValidTerm(js, o) && AllWs(ws3) && AtMost(js, rest, n)
    requires ReadTerm(js, text) == Got(Some(s), ObjectOn(ws2, o, ws3, rest))
    ensures AtMost(js, text, n)
  {
    ReadsLineTerm(js, ws2, o, End(ws3, rest));
    DotIsNoTerm(js, ws3, rest);
    Unfinished(js, text, s, ObjectOn(ws2, o, ws3, rest), Some(TermNode(js, o)), End(ws3, rest), "." + rest, n);
  }

  lemma QuietPredicate(js: Js, ws1: string, i: Item, rest: string, n: nat)
    requires i.TripleItem? && ValidItem(js, i) && AllWs(ws1) && Quiet(js, rest, n)
    ensures Quiet(js, ws1 + (IriText(i.p) + ObjectOn(i.ws2, i.o, i.ws3, rest)), n)
  {
    var tail := ObjectOn(i.ws2, i.o, i.ws3, rest);
    var text := IriText(i.p) + tail;
    QuietObject(js, i.ws2, i.o, i.ws3, rest, n);
    assert "" + (TermText(IriTerm(i.p)) + tail) == text;
    ReadsLineTerm(js, "", IriTerm(i.p), tail);
    TwoTerms(js, text, IriNode(PiecesValue(js, i.p)), i.ws2, i.o, i.ws3, rest, n);
    IriOneLine(js, i.p);
    SkipsSolid(IriText(i.p), tail);
    QuietWs(js, ws1, text, n);
  }

  lemma TripleText(i: Item, rest: string)
    requires i.TripleItem?
    ensures ItemText(i) + rest == TermText(i.s) + (i.ws1 + (IriText(i.p) + ObjectOn(i.ws2, i.o, i.ws3, rest)))
  {
    TripleParts(i, rest);
  }

  /** From the next line on, inside a triple or after it. */
  lemma SkippedTriple(js: Js, i: Item, rest: string, n: nat)
    requires i.TripleItem? && ValidItem(js, i) && Quiet(js, rest, n)
    ensures AtMost(js, SkipLine(ItemText(i) + rest), n)
  {
    var tail := i.ws1 + (IriText(i.p) + ObjectOn(i.ws2, i.o, i.ws3, rest));
    TripleText(i, rest);
    QuietPredicate(js, i.ws1, i, rest, n);
    if i.s.IriTerm? {
      IriOneLine(js, i.s.iri);
    } else {
      assert forall k :: 0 <= k < |i.s.name| ==> NameChar(i.s.name[k]);
    }
    SkipsSolid(TermText(i.s), tail);
  }

  // -------------------------------------------------------------- a swallowed predicate

  /** Text without white space or quotes, in which no IRI reference opens a statement. */
  predicate Solid(z: string) {
    && (forall c :: c in z ==> !IsWs(c) && c != '"')
    && (forall i :: 0 < i < |z| && z[i - 1] == '.' ==> z[i] != '<')
  }

  /** A text that ends a word, and after which a statement still lacks a term. */
  ghost predicate Closes(js: Js, r: string, n: nat) {
    && r != "" && (IsWs(r[0]) || r[0] == '.')
    && Quiet(js, r, n)
    && exists p, r2, r3 :: ReadTerm(js, r) == Got(p, r2) && ReadTerm(js, r2) == Got(None, r3)
                           && AtMost(js, AfterDot(SkipWs(r3)), n)
  }

  function FirstDot(z: string): (i: nat)
    ensures i <= |z|
    ensures forall k :: 0 <= k < i ==> z[k] != '.'
    ensures i < |z| ==> z[i] == '.'
  {
    if z == "" || z[0] == '.' then 0 else FirstDot(z[1..]) + 1
  }

  /** Wherever a statement starts in a swallowed predicate, nothing is pushed before its triple's end. */
  lemma {:induction false} SolidIsQuiet(js: Js, z: string, r: string, n: nat)
    requires Solid(z) && (z != "" ==> z[0] != '<') && Closes(js, r, n)
    ensures AtMost(js, z + r, n)
    decreases |z|
  {
    var text := z + r;
    if z == "" {
      assert text == r;
    } else if z[0] == '_' {
      assert z[0] in z;
      var i := FirstDot(z);
      if i < |z| {
        SwallowedToDot(js, z, i, r, n);
      } else {
        SwallowedAll(js, z, r, n);
      }
    } else {
      assert z[0] in z;
      assert text[1..] == z[1..] + r;
      forall c | c in z[1..] ensures c != '\n' {
        assert c in z;
      }
      SkipsSolid(z[1..], r);
      NoTerm(js, text, n);
    }
  }

  lemma SwallowedToDot(js: Js, z: string, i: nat, r: string, n: nat)
    requires Solid(z) && z != "" && z[0] == '_' && Closes(js, r, n)
    requires i < |z| && z[i] == '.' && forall k :: 0 <= k < i ==> z[k] != '.'
    ensures AtMost(js, z + r, n)
    decreases |z|, 0
  {
    var rest := z[i + 1..] + r;
    SolidAfter(z, i + 1);
    LabelToDot(js, z, i, r);
    hide ReadTerm, Solid, Closes, AtMost, SkipWs, AfterDot;
    SolidIsQuiet(js, z[i + 1..], r, n);
    DotIsNoTerm(js, "", rest);
    assert "" + ("." + rest) == "." + rest;
    Unfinished(js, z + r, BlankNode(z[..i]), "." + rest, None, "." + rest, "." + rest, n);
  }

  lemma SolidAfter(z: string, i: nat)
    requires Solid(z) && i <= |z|
    ensures Solid(z[i..]) && (0 < i < |z| && z[i - 1] == '.' ==> z[i] != '<')
  {
    forall c | c in z[i..] ensures c in z {
    }
  }

  /** The label takes everything up to the first dot. */
  lemma LabelToDot(js: Js, z: string, i: nat, r: string)
    requires Solid(z) && z != "" && z[0] == '_' && i < |z| && z[i] == '.' && forall k :: 0 <= k < i ==> z[k] != '.'
    ensures ReadTerm(js, z + r) == Got(Some(BlankNode(z[..i])), "." + (z[i + 1..] + r))
    ensures z + r != "" && !IsWs((z + r)[0]) && (z + r)[0] != '#'
  {
    var text, after := z + r, "." + (z[i + 1..] + r);
    assert text == z[..i] + after;
    forall c | c in z[..i] ensures NotBlankEnd(c) {
      assert c in z;
      var k :| 0 <= k < i && z[k] == c;
    }
    TakesWhile(NotBlankEnd, z[..i], after);
    assert text[i..] == after;
    assert SkipWs(text) == text;
  }

  lemma SwallowedAll(js: Js, z: string, r: string, n: nat)
    requires Solid(z) && z != "" && z[0] == '_' && Closes(js, r, n)
    requires forall k :: 0 <= k < |z| ==> z[k] != '.'
    ensures AtMost(js, z + r, n)
  {
    var text := z + r;
    forall c | c in z ensures NotBlankEnd(c) {
      var k :| 0 <= k < |z| && z[k] == c;
    }
    TakesWhile(NotBlankEnd, z, r);
    assert text[|z|..] == r;
    assert SkipWs(text) == text;
    var p, r2, r3 :| ReadTerm(js, r) == Got(p, r2) && ReadTerm(js, r2) == Got(None, r3)
                     && AtMost(js, AfterDot(SkipWs(r3)), n);
    Unfinished(js, text, BlankNode(z), r, p, r2, r3, n);
  }

  // ------------------------------------------------------------------ whole documents

  /** A literal right after a predicate that is right after its blank node. */
  predicate Glued(i: Item) {
    i.TripleItem? && !Spaced(i) && i.ws2 == "" && i.o.LiteralTerm?
  }

  predicate NoneGlued(d: Doc) {
    forall i :: i in d ==> !Glued(i)
  }

  /** What the label swallows, if nothing in it is a dot: up to white space or the final dot. */
  function SwallowedText(i: Item): string
    requires i.TripleItem?
  {
    TermText(i.s) + (IriText(i.p) + if i.ws2 == "" then TermText(i.o) else "")
  }

  function AfterSwallowed(i: Item, rest: string): string
    requires i.TripleItem?
  {
    if i.ws2 == "" then End(i.ws3, rest) else ObjectOn(i.ws2, i.o, i.ws3, rest)
  }

  lemma {:induction false} PiecesAreSolid(js: Js, ps: seq<Piece>)
    requires ValidIri(js, ps)
    ensures forall c :: c in PiecesText(ps) ==> !IsWs(c) && c != '"' && c != '<' && c != '>'
  {
    if ps != [] {
      PiecesAreSolid(js, ps[1..]);
      PieceIsSolid(js, ps[0]);
    }
  }

  lemma PieceIsSolid(js: Js, p: Piece)
    requires IriPiece(js, p)
    ensures forall c :: c in PieceText(p) ==> !IsWs(c) && c != '"' && c != '<' && c != '>'
  {
    match p
    case Raw(c) =>
    case Hex4(digits) => assert forall c :: c in PieceText(p) ==> c == '\\' || c == 'u' || HexDigit(c);
    case Hex8(digits) => assert forall c :: c in PieceText(p) ==> c == '\\' || c == 'U' || HexDigit(c);
  }

  lemma LabelIsSolid(name: string)
    requires ValidLabel(name)
    ensures forall c :: c in "_:" + name ==> !IsWs(c) && c != '"' && c != '.' && c != '<'
  {
    forall c | c in "_:" + name ensures !IsWs(c) && c != '"' && c != '.' && c != '<' {
      if c in name {
        var i :| 0 <= i < |name| && name[i] == c;
      }
    }
  }

  lemma IriIsSolid(js: Js, iri: seq<Piece>)
    requires ValidIri(js, iri)
    ensures Solid(IriText(iri))
  {
    PiecesAreSolid(js, iri);
    var z := IriText(iri);
    forall i | 0 < i < |z| ensures z[i] != '<' {
      var text := PiecesText(iri);
      if i <= |text| {
        assert z[i] == text[i - 1] && text[i - 1] in text;
      }
    }
  }

  /** Solid texts join where the first does not end in a dot. */
  lemma SolidJoin(a: string, b: string)
    requires Solid(a) && Solid(b) && (a != "" ==> a[|a| - 1] != '.')
    ensures Solid(a + b)
  {
    var z := a + b;
    forall i | 0 < i < |z| && z[i - 1] == '.' ensures z[i] != '<' {
      if i > |a| {
        assert z[i] == b[i - |a|] && z[i - 1] == b[i - |a| - 1];
      }
    }
  }

  lemma SwallowedIsSolid(js: Js, i: Item)
    requires i.TripleItem? && ValidItem(js, i) && !Spaced(i) && !Glued(i)
    ensures Solid(SwallowedText(i)) && SwallowedText(i) != "" && SwallowedText(i)[0] == '_'
  {
    LabelIsSolid(i.s.name);
    IriIsSolid(js, i.p);
    var last := if i.ws2 == "" then TermText(i.o) else "";
    assert Solid(last) by {
      if i.ws2 == "" {
        if i.o.IriTerm? {
          IriIsSolid(js, i.o.iri);
        } else {
          LabelIsSolid(i.o.name);
        }
      }
    }
    SolidJoin(IriText(i.p), last);
    assert Solid(TermText(i.s));
    SolidJoin(TermText(i.s), IriText(i.p) + last);
  }

  lemma Regroup(a: string, b: string, c: string, e: string)
    ensures a + ("" + (b + ("" + (c + e)))) == (a + (b + c)) + e
    ensures a + ("" + (b + e)) == (a + (b + "")) + e
  {
  }

  lemma SwallowedParts(i: Item, rest: string)
    requires i.TripleItem? && i.ws1 == ""
    ensures ItemText(i) + rest == SwallowedText(i) + AfterSwallowed(i, rest)
  {
    hide TermText, IriText, End;
    TripleText(i, rest);
    Regroup(TermText(i.s), IriText(i.p), TermText(i.o), End(i.ws3, rest));
    Regroup(TermText(i.s), IriText(i.p), "", ObjectOn(i.ws2, i.o, i.ws3, rest));
  }

  lemma AfterSwallowedCloses(js: Js, i: Item, rest: string, n: nat)
    requires i.TripleItem? && ValidItem(js, i) && Quiet(js, rest, n)
    ensures Closes(js, AfterSwallowed(i, rest), n)
  {
    DotIsNoTerm(js, i.ws3, rest);
    DotIsNoTerm(js, "", rest);
    assert "" + ("." + rest) == "." + rest;
    QuietEnd(js, i.ws3, rest, n);
    var r := AfterSwallowed(i, rest);
    if i.ws2 == "" {
      assert ReadTerm(js, r) == Got(None, "." + rest);
    } else {
      QuietObject(js, i.ws2, i.o, i.ws3, rest, n);
      ReadsLineTerm(js, i.ws2, i.o, End(i.ws3, rest));
      assert ReadTerm(js, r) == Got(Some(TermNode(js, i.o)), End(i.ws3, rest));
    }
  }

  /** The triples that are not written so. */
  function SpacedCount(d: Doc): nat {
    if d == [] then 0 else (if d[0].TripleItem? && Spaced(d[0]) then 1 else 0) + SpacedCount(d[1..])
  }

  lemma ItemAtMost(js: Js, i: Item, rest: string, n: nat)
    requires ValidItem(js, i) && !Glued(i) && Quiet(js, rest, n)
    ensures AtMost(js, ItemText(i) + rest, n + if i.TripleItem? && Spaced(i) then 1 else 0)
  {
    if Spaced(i) {
      forall out ensures ParseLines(js, ItemText(i) + rest, out) == ParseLines(js, rest, out + ItemLines(js, i)) {
        ItemParsed(js, i, rest, out);
      }
    } else {
      SwallowedParts(i, rest);
      SwallowedIsSolid(js, i);
      AfterSwallowedCloses(js, i, rest, n);
      SolidIsQuiet(js, SwallowedText(i), AfterSwallowed(i, rest), n);
    }
  }

  lemma AtMostMore(js: Js, text: string, n: nat, m: nat)
    requires AtMost(js, text, n) && n <= m
    ensures AtMost(js, text, m)
  {
  }

  lemma ItemSkipped(js: Js, i: Item, rest: string, n: nat)
    requires ValidItem(js, i) && Quiet(js, rest, n)
    ensures AtMost(js, SkipLine(ItemText(i) + rest), n)
  {
    match i
    case Space(c) =>
      assert AllWs([c]);
      QuietWs(js, [c], rest, n);
    case Comment(text) =>
      var s := ItemText(i) + rest;
      assert s == ("#" + text) + ("\n" + rest);
      SkipsSolid("#" + text, "\n" + rest);
      assert AllWs("\n");
      QuietWs(js, "\n", rest, n);
    case TripleItem(_, _, _, _, _, _) => SkippedTriple(js, i, rest, n);
  }

  lemma {:induction false} DocAtMost(js: Js, d: Doc)
    requires ValidDoc(js, d) && NoneGlued(d)
    ensures Quiet(js, DocText(d), SpacedCount(d))
  {
    if d != [] {
      var n := SpacedCount(d[1..]);
      DocAtMost(js, d[1..]);
      ItemAtMost(js, d[0], DocText(d[1..]), n);
      ItemSkipped(js, d[0], DocText(d[1..]), n);
      AtMostMore(js, SkipLine(DocText(d)), n, SpacedCount(d));
    }
  }

  lemma {:induction false} SpacedFewer(js: Js, d: Doc)
    ensures SpacedCount(d) <= |DocLines(js, d)|
    ensures !AllSpaced(d) ==> SpacedCount(d) < |DocLines(js, d)|
  {
    if d != [] {
      SpacedFewer(js, d[1..]);
      if !AllSpaced(d) && Spaced(d[0]) {
        var i :| i in d && !Spaced(i);
        assert i in d[1..];
      }
    }
  }

  /**
   With no literal glued to a swallowed predicate, the N-Triples parser returns a document's
   meaning exactly when white space follows every blank-node subject.
   */
  lemma NTriplesRightIff(js: Js, d: Doc)
    requires ValidDoc(js, d) && NoneGlued(d)
    ensures ParseNTriples(js, DocText(d)) == Some(DocLines(js, d)) <==> AllSpaced(d)
  {
    if AllSpaced(d) {
      NTriplesIsMeaning(js, d);
    } else {
      DocAtMost(js, d);
      SpacedFewer(js, d);
      assert AtMost(js, DocText(d), SpacedCount(d));
    }
  }

  // ----------------------------------------------------------------------- by coincidence

  /** The built-in reads "002e" as a dot and, minding no line end after two digits, "03e" as a bracket. */
  predicate ReadsHex(js: Js) {
    js.fromHex("002e") == Some(".") && js.fromHex("03e\n") == Some(">")
  }

  function Raws(x: string): (ps: seq<Piece>)
    ensures |ps| == |x| && forall i :: 0 <= i < |x| ==> ps[i] == Raw(x[i])
  {
    seq(|x|, i requires 0 <= i < |x| => Raw(x[i]))
  }

  lemma {:induction false} RawsRead(js: Js, x: string)
    ensures PiecesText(Raws(x)) == x && PiecesValue(js, Raws(x)) == x
  {
    if x != "" {
      RawsRead(js, x[1..]);
      assert Raws(x)[1..] == Raws(x[1..]);
    }
  }

  /**
   A glued literal whose text repeats the line up to its own closing quote, and a comment that
   repeats the literal.
   */
  function GluedTriple(repeated: string): Item {
    TripleItem(BlankTerm("b"), "", Raws("p"), "", LiteralTerm([Hex4("002e")] + Raws(repeated + ">"), NoSuffix), "")
  }

  function GluedDoc(): Doc {
    [GluedTriple("#. _:b <p"), Item.Comment(". _:b <p\\u03e")]
  }

  lemma PlainStep(js: Js, simple: char -> char, close: char, c: char, rest: string)
    requires c != close && c != '\\'
    ensures ReadBody(js, simple, [close], [c] + rest) == Prepend([c], ReadBody(js, simple, [close], rest))
  {
    assert ([c] + rest)[1..] == rest && [close][0] == close;
  }

  lemma PrependTwice(a: string, b: string, r: Read<string>)
    ensures Prepend(a, Prepend(b, r)) == Prepend(a + b, r)
    ensures Prepend("", r) == r
  {
    if r.Got? {
      assert a + (b + r.value) == a + b + r.value;
      assert "" + r.value == r.value;
    }
  }

  /** Plain characters are read as themselves. */
  lemma {:induction false} ReadsPlain(js: Js, simple: char -> char, close: char, x: string, tail: string)
    requires forall i :: 0 <= i < |x| ==> x[i] != close && x[i] != '\\'
    ensures ReadBody(js, simple, [close], x + tail) == Prepend(x, ReadBody(js, simple, [close], tail))
    decreases |x|
  {
    hide ReadBody, Prepend;
    var r := ReadBody(js, simple, [close], tail);
    if x == "" {
      assert x + tail == tail;
      PrependTwice("", "", r);
    } else {
      assert x + tail == [x[0]] + (x[1..] + tail) && [x[0]] + x[1..] == x;
      PlainStep(js, simple, close, x[0], x[1..] + tail);
      ReadsPlain(js, simple, close, x[1..], tail);
      PrependTwice([x[0]], x[1..], r);
    }
  }

  /** The comment, read as the end of a literal. */
  lemma CommentAsText(js: Js, x: string)
    requires ReadsHex(js) && forall i :: 0 <= i < |x| ==> x[i] != '"' && x[i] != '\\'
    ensures ReadBody(js, Unescape, "\"", x + "\\u03e\n") == Got(x + ">", "")
  {
    var escape := "\\u03e\n";
    ReadsPlain(js, Unescape, '"', x, escape);
    assert ['"'] == "\"";
    assert escape[2..] == "03e\n";
    assert Sub(escape, 2, 4) == "03e\n" && Drop(escape, 6) == "";
    assert ReadEscape(js, Unescape, escape) == Got(">", "");
    assert ReadBody(js, Unescape, "\"", "") == Got("", "");
    assert ReadBody(js, Unescape, "\"", escape) == Prepend(">", Got("", ""));
    assert ">" + "" == ">";
  }

  /** What goes before the repeated text. */
  const OPENING := "_:b" + "<p>" + "\"" + "\\u002e"

  lemma TripleShape(n: string, p: string, q: string, e: string, t: string, dot: string)
    ensures n + ("" + (p + ("" + ((q + ((e + t) + (q + ""))) + ("" + dot))))) == ((n + p + q + e) + t) + (q + dot)
  {
  }

  lemma GluedBodyText(js: Js, repeated: string)
    ensures PiecesText([Hex4("002e")] + Raws(repeated + ">")) == "\\u002e" + (repeated + ">")
    ensures PiecesValue(js, [Hex4("002e")] + Raws(repeated + ">")) == CodePoint(js, "002e") + (repeated + ">")
  {
    RawsRead(js, repeated + ">");
    var body := [Hex4("002e")] + Raws(repeated + ">");
    assert body[1..] == Raws(repeated + ">") && body[0] == Hex4("002e");
    assert PieceText(body[0]) == "\\u002e";
  }

  lemma GluedTripleText(js: Js, repeated: string)
    ensures ItemText(GluedTriple(repeated)) == (OPENING + (repeated + ">")) + ("\"" + ".")
  {
    RawsRead(js, "p");
    GluedBodyText(js, repeated);
    hide PiecesText, OPENING;
    TripleShape("_:b", "<p>", "\"", "\\u002e", repeated + ">", ".");
    assert IriText(Raws("p")) == "<p>" && "_:" + "b" == "_:b";
    assert OPENING == "_:b" + "<p>" + "\"" + "\\u002e" by {
      GluedOpening();
    }
  }

  lemma GluedOpening()
    ensures OPENING == "_:b" + "<p>" + "\"" + "\\u002e"
  {
  }

  lemma DocShape(i: Item, comment: string)
    ensures DocText([i, Item.Comment(comment)]) == ItemText(i) + ("#" + (comment + "\n"))
  {
    var c := Item.Comment(comment);
    var d := [i, c];
    var text := ItemText(c);
    assert text == "#" + (comment + "\n");
    hide ItemText;
    assert d[1..] == [c] && [c][1..] == [];
    assert DocText([c]) == text + "" == text;
  }

  lemma GluedText(js: Js, repeated: string, comment: string)
    ensures DocText([GluedTriple(repeated), Item.Comment(comment)]) ==
            (OPENING + (repeated + ">")) + ("\"" + ("." + ("#" + (comment + "\n"))))
  {
    hide ItemText, DocText, OPENING, GluedTriple;
    GluedTripleText(js, repeated);
    DocShape(GluedTriple(repeated), comment);
    Associate(OPENING + (repeated + ">"), "\"", ".", "#" + (comment + "\n"));
  }

  lemma Associate(a: string, b: string, c: string, d: string)
    ensures (a + (b + c)) + d == a + (b + (c + d))
  {
  }

  lemma PlainPieces(js: Js, x: string)
    requires forall i :: 0 <= i < |x| ==> x[i] !in "\"\\\n\r"
    ensures forall p :: p in Raws(x) ==> StringPiece(js, p)
  {
  }

  lemma GluedDocIsValid(js: Js)
    requires ReadsHex(js)
    ensures ValidDoc(js, GluedDoc()) && !AllSpaced(GluedDoc()) && !NoneGlued(GluedDoc())
  {
    var d := GluedDoc();
    assert d[0] in d;
    PlainPieces(js, "#. _:b <p" + ">");
    assert Readable(js, Hex4("002e"));
    assert ValidTerm(js, d[0].o) by {
      forall p | p in d[0].o.body ensures StringPiece(js, p) {
      }
    }
    assert ValidItem(js, d[0]) && Glued(d[0]) && ValidItem(js, d[1]);
  }

  lemma GluedDocLines(js: Js)
    requires ReadsHex(js)
    ensures DocLines(js, GluedDoc()) ==
            [Line(BlankNode("_:b"), IriNode("p"), Literal("." + ("#. _:b <p" + ">"), None, None))]
  {
    var d := GluedDoc();
    var i := GluedTriple("#. _:b <p");
    assert d == [i] + [d[1]] && d[1..] == [d[1]] && [d[1]][1..] == [];
    RawsRead(js, "p");
    RawsRead(js, "#. _:b <p" + ">");
    var body := i.o.body;
    assert body[1..] == Raws("#. _:b <p" + ">") && body[0] == Hex4("002e");
    assert PiecesValue(js, body) == "." + ("#. _:b <p" + ">");
    hide PiecesValue;
    assert TermNode(js, i.s) == BlankNode("_:b");
    assert DocLines(js, [d[1]]) == [];
  }

  /** The label swallows the opening quote, and the closing one opens the comment as a literal. */
  lemma CoincidenceNTriples(js: Js)
    requires ReadsHex(js)
    ensures ValidDoc(js, GluedDoc()) && !AllSpaced(GluedDoc())
    ensures ParseNTriples(js, DocText(GluedDoc())) == Some(DocLines(js, GluedDoc()))
  {
    GluedDocIsValid(js);
    GluedDocLines(js);
    GluedText(js, "#. _:b <p", ". _:b <p\\u03e");
    CoincidenceText();
    var open := "\"" + (".#. _:b <p" + "\\u03e\n");
    hide GluedDoc, DocText;
    GluedParse(js, "_:b<p>\"\\u002e#", open, Literal("." + ("#. _:b <p" + ">"), None, None));
  }

  /** The same text, cut where the parser cuts it. */
  lemma CoincidenceText()
    ensures (OPENING + ("#. _:b <p" + ">")) + ("\"" + ("." + ("#" + (". _:b <p\\u03e" + "\n")))) ==
            "_:b<p>\"\\u002e#" + ("." + (" " + ("_:b" + (" <p>" + ("\"" + (".#. _:b <p" + "\\u03e\n"))))))
  {
    var end := ".#. _:b <p" + "\\u03e\n";
    RepeatedText();
    assert "." + ("#" + (". _:b <p\\u03e" + "\n")) == end;
    assert OPENING + "#" == "_:b<p>\"\\u002e#" by {
      OpeningText();
    }
    hide OPENING;
    RegroupWord(OPENING, "#", ".", " ", "_:b", " <p>", "\"" + end);
  }

  lemma OpeningText()
    ensures OPENING + "#" == "_:b<p>\"\\u002e#"
  {
  }

  lemma RepeatedText()
    ensures "#. _:b <p" + ">" == "#" + ("." + (" " + ("_:b" + " <p>")))
  {
  }

  lemma RegroupWord(a: string, b: string, c: string, d: string, e: string, f: string, g: string)
    ensures (a + (b + (c + (d + (e + f))))) + g == (a + b) + (c + (d + (e + (f + g))))
  {
  }

  lemma GluedParse(js: Js, word: string, open: string, o: Node)
    requires ReadsHex(js) && word == "_:b<p>\"\\u002e#" && open == "\"" + (".#. _:b <p" + "\\u03e\n")
    requires o == Literal("." + ("#. _:b <p" + ">"), None, None)
    ensures ParseNTriples(js, word + ("." + (" " + ("_:b" + (" <p>" + open))))) ==
            Some([Line(BlankNode("_:b"), IriNode("p"), o)])
  {
    var second := "_:b" + (" <p>" + open);
    SwallowsQuote(js, word, " " + second);
    ReadsComment(js, open);
    assert ".#. _:b <p>" == "." + ("#. _:b <p" + ">");
    SecondLine(js, open, o);
    hide ParseLines, ReadTerm;
    SpaceLine(js, ' ', second, []);
    assert [' '] + second == " " + second;
  }

  lemma SwallowsQuote(js: Js, word: string, rest: string)
    requires word == "_:b<p>\"\\u002e#"
    ensures forall out :: ParseLines(js, word + ("." + rest), out) == ParseLines(js, rest, out)
  {
    var text := word + ("." + rest);
    assert forall c :: c in word ==> NotBlankEnd(c);
    TakesWhile(NotBlankEnd, word, "." + rest);
    assert text[|word|..] == "." + rest;
    assert text[0] == '_' && SkipWs(text) == text;
    DotIsNoTerm(js, "", rest);
    assert "" + ("." + rest) == "." + rest;
    assert ReadTerm(js, text) == Got(Some(BlankNode(word)), "." + rest);
  }

  lemma ReadsComment(js: Js, open: string)
    requires ReadsHex(js) && open == "\"" + (".#. _:b <p" + "\\u03e\n")
    ensures ReadTerm(js, open) == Got(Some(Literal(".#. _:b <p>", None, None)), "")
  {
    assert open[1..] == ".#. _:b <p" + "\\u03e\n";
    CommentAsText(js, ".#. _:b <p");
    assert ".#. _:b <p" + ">" == ".#. _:b <p>";
    assert ReadLineSuffix(js, ".#. _:b <p>", "") == Got(Literal(".#. _:b <p>", None, None), "");
  }

  lemma SecondLine(js: Js, open: string, o: Node)
    requires ReadTerm(js, open) == Got(Some(o), "")
    ensures ParseLines(js, "_:b" + (" <p>" + open), []) == Some([Line(BlankNode("_:b"), IriNode("p"), o)])
  {
    var text, iri := "_:b" + (" <p>" + open), Raws("p");
    RawsRead(js, "p");
    hide ReadTerm, ParseLine, PiecesText, PiecesValue;
    assert "_:" + "b" + (" <p>" + open) == text && "_:" + "b" == "_:b";
    ReadsLineLabel(js, "b", " <p>" + open);
    assert IriText(iri) == "<p>";
    assert " " + (TermText(IriTerm(iri)) + open) == " <p>" + open;
    PlainPieceIri(js);
    ReadsLineTerm(js, " ", IriTerm(iri), open);
    OneLine(js, text, BlankNode("_:b"), " <p>" + open, IriNode("p"), open, o);
  }

  lemma PlainPieceIri(js: Js)
    ensures ValidIri(js, Raws("p"))
  {
  }

  /** Three terms and the end of the text. */
  lemma OneLine(js: Js, text: string, s: Node, r1: string, p: Node, r2: string, o: Node)
    requires text != "" && !IsWs(text[0]) && text[0] != '#'
    requires ReadTerm(js, text) == Got(Some(s), r1) && ReadTerm(js, r1) == Got(Some(p), r2)
    requires ReadTerm(js, r2) == Got(Some(o), "")
    ensures ParseLines(js, text, []) == Some([Line(s, p, o)])
  {
    hide ReadTerm;
    assert SkipWs(text) == text;
    assert AfterDot(SkipWs("")) == "";
    assert [] + [Line(s, p, o)] == [Line(s, p, o)];
    assert ParseLines(js, "", [Line(s, p, o)]) == Some([Line(s, p, o)]);
  }
}
