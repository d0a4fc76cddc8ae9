/**
 N-Triples documents by their grammar (section 7 of RDF 1.1 N-Triples), how they are written, what
 they mean, and that both of the client's parsers read that meaning off the text.
 */
module NTriplesDocs {
  import opened Options
  import opened Scanner
  import opened JsText
  import opened Turtle

  // --------------------------------------------------------------------------- documents

  /** A character, an escaped character, or a code point in four or eight hexadecimal digits. */
  datatype Piece = Raw(c: char) | Escaped(c: char) | Hex4(digits: string) | Hex8(digits: string)

  datatype Suffix = NoSuffix | Typed(gap: string, iri: seq<Piece>) | Tagged(tag: string)

  datatype Term = IriTerm(iri: seq<Piece>) | BlankTerm(name: string) | LiteralTerm(body: seq<Piece>, suffix: Suffix)

  /** White space, a comment with its line end, or a triple with the white space inside it. */
  datatype Item = Space(c: char) | Comment(text: string)
                | TripleItem(s: Term, ws1: string, p: seq<Piece>, ws2: string, o: Term, ws3: string)

  type Doc = seq<Item>

  // ------------------------------------------------------------------------------ text

  function PieceText(p: Piece): string {
    match p
    case Raw(c) => [c]
    case Escaped(c) => ['\\', c]
    case Hex4(digits) => "\\u" + digits
    case Hex8(digits) => "\\U" + digits
  }

  function PiecesText(ps: seq<Piece>): string {
    if ps == [] then "" else PieceText(ps[0]) + PiecesText(ps[1..])
  }

  function IriText(iri: seq<Piece>): string {
    "<" + (PiecesText(iri) + ">")
  }

  function SuffixText(s: Suffix): string {
    match s
    case NoSuffix => ""
    case Typed(gap, iri) => "^^" + (gap + IriText(iri))
    case Tagged(tag) => "@" + tag
  }

  function TermText(t: Term): string {
    match t
    case IriTerm(iri) => IriText(iri)
    case BlankTerm(name) => "_:" + name
    case LiteralTerm(body, suffix) => "\"" + (PiecesText(body) + ("\"" + SuffixText(suffix)))
  }

  function ItemText(i: Item): string {
    match i
    case Space(c) => [c]
    case Comment(text) => "#" + (text + "\n")
    case TripleItem(s, ws1, p, ws2, o, ws3) =>
      TermText(s) + (ws1 + (IriText(p) + (ws2 + (TermText(o) + (ws3 + ".")))))
  }

  function DocText(d: Doc): string {
    if d == [] then "" else ItemText(d[0]) + DocText(d[1..])
  }

  // ------------------------------------------------------------------------ well-formedness

  predicate HexDigit(c: char) {
    '0' <= c <= '9' || 'a' <= c <= 'f' || 'A' <= c <= 'F'
  }

  /** The digits are digits, as many as the escape takes, and name a code point. */
  predicate Readable(js: Js, p: Piece) {
    p.Hex4? || p.Hex8? ==>
      && |p.digits| == (if p.Hex4? then 4 else 8)
      && (forall c :: c in p.digits ==> HexDigit(c))
      && js.fromHex(p.digits).Some?
  }

  predicate IriPiece(js: Js, p: Piece) {
    !p.Escaped? && Readable(js, p) && (p.Raw? ==> p.c > ' ' && p.c !in "<>\"{}|^`\\")
  }

  predicate StringPiece(js: Js, p: Piece) {
    && Readable(js, p)
    && (p.Raw? ==> p.c !in "\"\\\n\r")
    && (p.Escaped? ==> p.c in "tbnrf\"'\\")
  }

  predicate ValidIri(js: Js, iri: seq<Piece>) {
    forall p :: p in iri ==> IriPiece(js, p)
  }

  predicate NameText(name: string) {
    forall i :: 0 <= i < |name| ==> NameChar(name[i])
  }

  /** A label, without the dots the grammar allows inside one nor any other mark that ends a Turtle name. */
  predicate ValidLabel(name: string) {
    NameText(name) && '<' !in name && '>' !in name
  }

  predicate ValidTerm(js: Js, t: Term) {
    match t
    case IriTerm(iri) => ValidIri(js, iri)
    case BlankTerm(name) => ValidLabel(name)
    case LiteralTerm(body, suffix) =>
      && (forall p :: p in body ==> StringPiece(js, p))
      && (suffix.Typed? ==> AllWs(suffix.gap) && ValidIri(js, suffix.iri))
      && (suffix.Tagged? ==> forall i :: 0 <= i < |suffix.tag| ==> LangChar(suffix.tag[i]))
  }

  predicate ValidItem(js: Js, i: Item) {
    match i
    case Space(c) => IsWs(c)
    case Comment(text) => '\n' !in text
    case TripleItem(s, ws1, p, ws2, o, ws3) =>
      && ValidTerm(js, s) && ValidIri(js, p) && ValidTerm(js, o)
      && !s.LiteralTerm? && AllWs(ws1) && AllWs(ws2) && AllWs(ws3)
  }

  predicate ValidDoc(js: Js, d: Doc) {
    forall i :: 0 <= i < |d| ==> ValidItem(js, d[i])
  }

  /** White space separates a blank-node subject from the predicate. */
  predicate Spaced(i: Item) {
    i.TripleItem? && i.s.BlankTerm? ==> i.ws1 != ""
  }

  predicate AllSpaced(d: Doc) {
    forall i :: i in d ==> Spaced(i)
  }

  /** No white space between "^^" and the datatype. */
  predicate Gapless(i: Item) {
    i.TripleItem? && i.o.LiteralTerm? && i.o.suffix.Typed? ==> i.o.suffix.gap == ""
  }

  predicate AllGapless(d: Doc) {
    forall i :: i in d ==> Gapless(i)
  }

  // ---------------------------------------------------------------------------- meaning

  function CodePoint(js: Js, digits: string): string {
    match js.fromHex(digits)
    case Some(text) => text
    case None => ""
  }

  function PieceValue(js: Js, p: Piece): string {
    match p
    case Raw(c) => [c]
    case Escaped(c) => [Unescape(c)]
    case Hex4(digits) => CodePoint(js, digits)
    case Hex8(digits) => CodePoint(js, digits)
  }

  function PiecesValue(js: Js, ps: seq<Piece>): string {
    if ps == [] then "" else PieceValue(js, ps[0]) + PiecesValue(js, ps[1..])
  }

  function TermNode(js: Js, t: Term): Node {
    match t
    case IriTerm(iri) => IriNode(PiecesValue(js, iri))
    case BlankTerm(name) => BlankNode("_:" + name)
    case LiteralTerm(body, suffix) =>
      Literal(PiecesValue(js, body),
              if suffix.Typed? then Some(PiecesValue(js, suffix.iri)) else None,
              if suffix.Tagged? then Some(suffix.tag) else None)
  }

  /** The triples of a document, in order. */
  function DocLines(js: Js, d: Doc): seq<Line> {
    if d == [] then []
    else
      (if d[0].TripleItem? then [Line(TermNode(js, d[0].s), IriNode(PiecesValue(js, d[0].p)), TermNode(js, d[0].o))] else [])
      + DocLines(js, d[1..])
  }

  function Untagged(lines: seq<Line>): (r: seq<Statement>)
    ensures |r| == |lines|
    ensures forall i :: 0 <= i < |r| ==> r[i] == Statement(lines[i].s, lines[i].p.value, lines[i].o)
  {
    seq(|lines|, i requires 0 <= i < |lines| => Statement(lines[i].s, lines[i].p.value, lines[i].o))
  }

  // ------------------------------------------------------------------------ reading pieces

  /** Pieces that neither close the text nor read otherwise under this reader's simple escapes. */
  predicate Fits(js: Js, simple: char -> char, close: char, p: Piece) {
    && Readable(js, p)
    && (p.Raw? ==> p.c != close && p.c != '\\')
    && (p.Escaped? ==> p.c != 'u' && p.c != 'U' && simple(p.c) == Unescape(p.c))
  }

  lemma ReadsPiece(js: Js, simple: char -> char, close: char, p: Piece, tail: string)
    requires close != '\\' && Fits(js, simple, close, p)
    ensures ReadBody(js, simple, [close], PieceText(p) + tail) ==
            Prepend(PieceValue(js, p), ReadBody(js, simple, [close], tail))
  {
    var s := PieceText(p) + tail;
    match p {
      case Raw(c) =>
        assert s[1..] == tail;
        assert [close][0] == close;
      case Escaped(c) =>
        assert s[2..] == tail;
      case Hex4(digits) =>
        assert s[2..] == digits + tail && Sub(s, 2, 4) == digits;
        assert Drop(s, 6) == tail;
      case Hex8(digits) =>
        assert s[2..] == digits + tail && Sub(s, 2, 8) == digits;
        assert Drop(s, 10) == tail;
    }
  }

  lemma {:induction false} ReadsPieces(js: Js, simple: char -> char, close: char, ps: seq<Piece>, tail: string)
    requires close != '\\' && forall p :: p in ps ==> Fits(js, simple, close, p)
    ensures ReadBody(js, simple, [close], PiecesText(ps) + ([close] + tail)) == Got(PiecesValue(js, ps), tail)
  {
    var end := [close] + tail;
    if ps == [] {
      assert PiecesText(ps) + end == end && end[1..] == tail && [close] <= end;
    } else {
      assert PiecesText(ps) + end == PieceText(ps[0]) + (PiecesText(ps[1..]) + end);
      ReadsPiece(js, simple, close, ps[0], PiecesText(ps[1..]) + end);
      ReadsPieces(js, simple, close, ps[1..], tail);
    }
  }

  lemma ReadsIri(js: Js, iri: seq<Piece>, tail: string)
    requires ValidIri(js, iri)
    ensures ReadIri(js, IriText(iri) + tail) == Got(PiecesValue(js, iri), tail)
    ensures HeadIs(IriText(iri) + tail, '<')
  {
    var s := IriText(iri) + tail;
    assert s[1..] == PiecesText(iri) + (['>'] + tail);
    ReadsPieces(js, Same, '>', iri, tail);
    assert ['>'] == ">";
  }

  lemma ReadsLiteralBody(js: Js, body: seq<Piece>, tail: string)
    requires forall p :: p in body ==> StringPiece(js, p)
    ensures ReadBody(js, Unescape, "\"", PiecesText(body) + ("\"" + tail)) == Got(PiecesValue(js, body), tail)
  {
    ReadsPieces(js, Unescape, '"', body, tail);
    assert ['"'] == "\"";
  }
}
