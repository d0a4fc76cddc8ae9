/**
 Tokens with their texts.  Texts whose last token cannot grow are put together piece by piece, so
 the lexemes of a text built from words, IRI references and quoted strings can be listed.
 */
module Lexing {
  import opened Scanner
  import opened Splicing

  // ------------------------------------------------------------------- tokens with texts

  datatype Lexeme = Lexeme(kind: Kind, text: string)

  /** What a token covers; an unclosed string covers what there is. */
  function Covered(q: string, t: Token): string {
    if t.start <= t.end <= |q| then q[t.start..t.end] else if t.start <= |q| then q[t.start..] else ""
  }

  function LexemesOf(q: string, tokens: seq<Token>): (r: seq<Lexeme>)
    ensures |r| == |tokens| && forall i :: 0 <= i < |r| ==> r[i] == Lexeme(tokens[i].kind, Covered(q, tokens[i]))
  {
    seq(|tokens|, i requires 0 <= i < |tokens| => Lexeme(tokens[i].kind, Covered(q, tokens[i])))
  }

  function Lexemes(l: Letters, q: string): seq<Lexeme> {
    LexemesOf(q, Tokens(l, q))
  }

  lemma {:induction false} SealedEnds(l: Letters, p: string, i: nat)
    requires SealedFrom(l, p, i)
    ensures forall t :: t in TokensFrom(l, p, i) ==> t.start <= t.end <= |p|
    decreases if i < |p| then |p| - i else 0
  {
    hide KindOf;
    if i < |p| {
      SealedEnds(l, p, TokenEnd(l, p, i));
    }
  }

  lemma CoveredShift(p: string, x: string, t: Token)
    requires t.start <= |x|
    ensures Covered(p + x, Token(t.kind, t.start + |p|, t.end + |p|)) == Covered(x, t)
  {
    var q := p + x;
    if t.start <= t.end <= |x| {
      assert q[t.start + |p|..t.end + |p|] == x[t.start..t.end];
    } else {
      assert q[t.start + |p|..] == x[t.start..];
    }
  }

  /** After a sealed text the lexemes start afresh too. */
  lemma LexemesConcat(l: Letters, p: string, x: string)
    requires Sealed(l, p)
    ensures Lexemes(l, p + x) == Lexemes(l, p) + Lexemes(l, x)
  {
    hide TokensFrom, SealedFrom, Covered;
    TokensConcat(l, p, x);
    var a, b := Tokens(l, p), Tokens(l, x);
    forall i | 0 <= i < |a| ensures Covered(p + x, a[i]) == Covered(p, a[i]) {
      assert a[i] in a;
      CoveredBefore(l, p, x, a[i]);
    }
    forall i | 0 <= i < |b| ensures Covered(p + x, Shift(b, |p|)[i]) == Covered(x, b[i]) {
      assert b[i] in b;
      TokenStarts(l, x, 0, b[i]);
      CoveredShift(p, x, b[i]);
    }
  }

  lemma CoveredBefore(l: Letters, p: string, x: string, t: Token)
    requires Sealed(l, p) && t in Tokens(l, p)
    ensures Covered(p + x, t) == Covered(p, t)
  {
    SealedEnds(l, p, 0);
    assert (p + x)[t.start..t.end] == p[t.start..t.end];
  }

  // ------------------------------------------------------------------------- pieces

  /** s is sealed and made of exactly these lexemes. */
  predicate Reads(l: Letters, s: string, ls: seq<Lexeme>) {
    Sealed(l, s) && Lexemes(l, s) == ls
  }

  lemma ReadsConcat(l: Letters, p: string, ps: seq<Lexeme>, x: string, xs: seq<Lexeme>)
    requires Reads(l, p, ps) && Reads(l, x, xs)
    ensures Reads(l, p + x, ps + xs)
  {
    LexemesConcat(l, p, x);
    SealedConcat(l, p, x);
  }

  lemma ReadsOther(l: Letters, c: char)
    requires KindOf(l, c) in {Other, Brace}
    ensures Reads(l, [c], [Lexeme(KindOf(l, c), [c])])
  {
    assert TokensFrom(l, [c], 1) == [];
    assert Tokens(l, [c]) == [Token(KindOf(l, c), 0, 1)];
    assert [c][0..1] == [c];
  }

  /** A first token that ends before the last character, followed by one lone character. */
  lemma ReadsPiece(l: Letters, s: string, d: char)
    requires |s| > 0 && TokenEnd(l, s + [d], 0) == |s| && KindOf(l, d) == Other
    ensures Reads(l, s + [d], [Lexeme(KindOf(l, s[0]), s), Lexeme(Other, [d])])
  {
    var p := s + [d];
    assert p[0] == s[0];
    assert TokensFrom(l, p, |p|) == [];
    assert TokensFrom(l, p, |s|) == [Token(Other, |s|, |s| + 1)];
    assert Tokens(l, p) == [Token(KindOf(l, s[0]), 0, |s|)] + TokensFrom(l, p, |s|);
    assert p[0..|s|] == s;
    assert p[|s|] == d;
    assert p[|s|..|s| + 1] == [p[|s|]];
    assert SealedFrom(l, p, |p|);
    assert SealedFrom(l, p, |s|);
  }

  // ------------------------------------------------------------------- well-formed pieces

  /** What ends a piece of the block: the space between two of them, or the closing parenthesis. */
  predicate Closer(c: char) {
    c == ' ' || c == ')'
  }

  /** An IRI reference: nothing but the last character closes it. */
  predicate IriRefText(t: string) {
    |t| >= 2 && t[0] == '<' && FindChar(t, '>', 0) == |t| - 1
  }

  /** A quoted string whose closing quote is its end. */
  predicate QuotedText(s: string) {
    |s| >= 2 && IsQuote(s[0]) && StringEnd(s + " ", QuoteAt(s, 0), |QuoteAt(s, 0)|) == |s|
  }

  /** A quoted string alone, or typed by an IRI reference. */
  predicate LiteralText(t: string, k: nat) {
    && k <= |t| && QuotedText(t[..k])
    && (k < |t| ==> k + 2 <= |t| && t[k..k + 2] == "^^" && IriRefText(t[k + 2..]))
  }

  ghost predicate SerializedTerm(t: string) {
    IriRefText(t) || exists k: nat :: LiteralText(t, k)
  }

  predicate WordText(l: Letters, s: string) {
    |s| > 0 && forall c :: c in s ==> l.alnum(c) || c == '_'
  }

  lemma {:induction false} NameRun(l: Letters, q: string, i: nat, j: nat)
    requires i <= j < |q| && (forall k :: i <= k < j ==> ContinuesName(l, q[k])) && !ContinuesName(l, q[j])
    ensures NameEnd(l, q, i) == j
    decreases j - i
  {
    if i < j { NameRun(l, q, i + 1, j); }
  }

  lemma ReadsName(l: Letters, s: string, d: char)
    requires Usual(l) && Closer(d)
    requires |s| > 0 && KindOf(l, s[0]) == Name && forall k :: 1 <= k < |s| ==> ContinuesName(l, s[k])
    ensures Reads(l, s + [d], [Lexeme(Name, s), Lexeme(Other, [d])])
  {
    NameRun(l, s + [d], 1, |s|);
    ReadsPiece(l, s, d);
  }

  lemma ReadsIriRef(l: Letters, t: string, d: char)
    requires Usual(l) && IriRefText(t) && Closer(d)
    ensures Reads(l, t + [d], [Lexeme(IriRef, t), Lexeme(Other, [d])])
  {
    FindCharAppend(t, [d], '>', 0);
    ReadsPiece(l, t, d);
  }

  predicate QuoteMark(quote: string) {
    |quote| >= 1 && forall c :: c in quote ==> IsQuote(c)
  }

  /** Which harmless character follows a closed string does not matter. */
  lemma {:induction false} ClosedString(s: string, quote: string, i: nat, d: char)
    requires QuoteMark(quote) && i <= |s| && StringEnd(s + " ", quote, i) == |s|
    requires d != '\\' && !IsQuote(d)
    ensures StringEnd(s + [d], quote, i) == |s|
    decreases |s| - i
  {
    var a, b := s + " ", s + [d];
    NotQuoted(s, quote, i, ' ');
    NotQuoted(s, quote, i, d);
    assert StringEnd(a, quote, |s| + 1) == |s| + 1;
    assert i < |s|;
    if s[i] == '\\' {
      if i + 2 <= |s| { ClosedString(s, quote, i + 2, d); }
    } else if !StartsWithAt(a, quote, i) {
      ClosedString(s, quote, i + 1, d);
    }
  }

  /** Appending one character that is no quote opens no new place where the quote stands. */
  lemma NotQuoted(s: string, quote: string, i: nat, d: char)
    requires QuoteMark(quote) && i <= |s| && !IsQuote(d)
    ensures StartsWithAt(s + [d], quote, i) == StartsWithAt(s, quote, i)
  {
    var a := s + [d];
    if i + |quote| == |a| {
      assert a[i..i + |quote|][|quote| - 1] == d;
      assert quote[|quote| - 1] in quote;
    } else if i + |quote| <= |s| {
      assert a[i..i + |quote|] == s[i..i + |quote|];
    }
  }

  lemma QuoteAtIsMark(s: string, i: nat)
    requires i < |s| && IsQuote(s[i])
    ensures QuoteMark(QuoteAt(s, i))
  {
  }

  lemma ReadsQuoted(l: Letters, s: string, d: char)
    requires QuotedText(s) && d != '\\' && !IsQuote(d) && KindOf(l, d) == Other
    ensures Reads(l, s + [d], [Lexeme(Quoted, s), Lexeme(Other, [d])])
  {
    var quote := QuoteAt(s, 0);
    QuoteAtIsMark(s, 0);
    NotQuoted(s, "'''", 0, d);
    NotQuoted(s, "\"\"\"", 0, d);
    assert |s| >= 3 ==> (s + [d])[0..3] == s[0..3];
    assert QuoteAt(s + [d], 0) == quote;
    ClosedString(s, quote, |quote|, d);
    ReadsPiece(l, s, d);
  }

  lemma ReadsTyped(l: Letters, s: string, r: string, d: char)
    requires Usual(l) && QuotedText(s) && IriRefText(r) && Closer(d)
    ensures Reads(l, s + "^^" + r + [d],
                  [Lexeme(Quoted, s), Lexeme(Other, "^"), Lexeme(Other, "^"), Lexeme(IriRef, r), Lexeme(Other, [d])])
  {
    hide Tokens, Sealed, FindChar, StringEnd, Lexemes;
    var first := [Lexeme(Quoted, s), Lexeme(Other, "^")] + [Lexeme(Other, "^")];
    ReadsQuoted(l, s, '^');
    ReadsOther(l, '^');
    assert ['^'] == "^";
    ReadsConcat(l, s + ['^'], [Lexeme(Quoted, s), Lexeme(Other, "^")], ['^'], [Lexeme(Other, "^")]);
    ReadsIriRef(l, r, d);
    ReadsConcat(l, s + ['^'] + ['^'], first, r + [d], [Lexeme(IriRef, r), Lexeme(Other, [d])]);
    assert s + "^^" + r + [d] == s + ['^'] + ['^'] + (r + [d]);
  }
}
