/**
 What splicing text into a query does to its tokens. A text is sealed when its last token cannot
 grow whatever follows, so cutting or splicing at that point is cutting between two tokens.
 */
module Splicing {
  import opened Options
  import opened Scanner

  /** No token of p from i on grows when text is appended: only the last could, and it is one character. */
  predicate SealedFrom(l: Letters, p: string, i: nat)
    decreases if i < |p| then |p| - i else 0
  {
    if i >= |p| then i == |p|
    else (TokenEnd(l, p, i) < |p| || KindOf(l, p[i]) in {Brace, Other}) && SealedFrom(l, p, TokenEnd(l, p, i))
  }

  predicate Sealed(l: Letters, p: string) {
    SealedFrom(l, p, 0)
  }

  // ------------------------------------------------------------ appending after a token

  lemma {:induction false} FindCharAppend(q: string, x: string, c: char, i: nat)
    requires i <= |q| && FindChar(q, c, i) < |q|
    ensures FindChar(q + x, c, i) == FindChar(q, c, i)
    decreases |q| - i
  {
    if q[i] != c { FindCharAppend(q, x, c, i + 1); }
  }

  lemma {:induction false} StringEndBound(q: string, quote: string, i: nat)
    requires |quote| >= 1 && StringEnd(q, quote, i) < |q|
    ensures i + |quote| <= StringEnd(q, quote, i)
    decreases if i < |q| then |q| - i else 0
  {
    if q[i] == '\\' {
      StringEndBound(q, quote, i + 2);
    } else if !StartsWithAt(q, quote, i) {
      StringEndBound(q, quote, i + 1);
    }
  }

  lemma {:induction false} StringEndAppend(q: string, x: string, quote: string, i: nat)
    requires |quote| >= 1 && StringEnd(q, quote, i) < |q|
    ensures StringEnd(q + x, quote, i) == StringEnd(q, quote, i)
    decreases if i < |q| then |q| - i else 0
  {
    StringEndBound(q, quote, i);
    assert (q + x)[i..i + |quote|] == q[i..i + |quote|];
    if q[i] == '\\' {
      StringEndAppend(q, x, quote, i + 2);
    } else if !StartsWithAt(q, quote, i) {
      StringEndAppend(q, x, quote, i + 1);
    }
  }

  lemma {:induction false} NameEndAppend(l: Letters, q: string, x: string, i: nat)
    requires i <= |q| && NameEnd(l, q, i) < |q|
    ensures NameEnd(l, q + x, i) == NameEnd(l, q, i)
    decreases |q| - i
  {
    if ContinuesName(l, q[i]) { NameEndAppend(l, q, x, i + 1); }
  }

  lemma QuoteAtAppend(q: string, x: string, i: nat)
    requires i + 3 <= |q|
    ensures QuoteAt(q + x, i) == QuoteAt(q, i)
  {
    assert (q + x)[i..i + 3] == q[i..i + 3];
  }

  lemma TokenEndAppend(l: Letters, p: string, x: string, i: nat)
    requires i < |p|
    requires TokenEnd(l, p, i) < |p| || KindOf(l, p[i]) in {Brace, Other}
    ensures TokenEnd(l, p + x, i) == TokenEnd(l, p, i)
  {
    match KindOf(l, p[i]) {
      case Comment => FindCharAppend(p, x, '\n', i);
      case Quoted =>
        var quote := QuoteAt(p, i);
        StringEndBound(p, quote, i + |quote|);
        QuoteAtAppend(p, x, i);
        StringEndAppend(p, x, quote, i + |quote|);
      case IriRef =>
        FindCharAppend(p, x, '>', i);
      case Name => NameEndAppend(l, p, x, i + 1);
      case _ =>
    }
  }

  // ------------------------------------------------------------------ cutting after a token

  lemma {:induction false} FindCharCut(q: string, x: string, c: char, i: nat)
    requires i <= |q| && FindChar(q + x, c, i) <= |q|
    ensures FindChar(q, c, i) == FindChar(q + x, c, i)
    decreases |q| - i
  {
    if i < |q| && q[i] != c { FindCharCut(q, x, c, i + 1); }
  }

  lemma {:induction false} StringEndCut(q: string, x: string, quote: string, i: nat)
    requires |quote| >= 1 && StringEnd(q + x, quote, i) <= |q|
    ensures StringEnd(q, quote, i) == StringEnd(q + x, quote, i)
    decreases if i < |q| then |q| - i else 0
  {
    if i < |q| {
      if q[i] == '\\' {
        StringEndCut(q, x, quote, i + 2);
      } else if StartsWithAt(q + x, quote, i) {
        assert (q + x)[i..i + |quote|] == q[i..i + |quote|];
      } else {
        assert i + |quote| <= |q| ==> (q + x)[i..i + |quote|] == q[i..i + |quote|];
        StringEndCut(q, x, quote, i + 1);
      }
    }
  }

  lemma {:induction false} NameEndCut(l: Letters, q: string, x: string, i: nat)
    requires i <= |q| && NameEnd(l, q + x, i) <= |q|
    ensures NameEnd(l, q, i) == NameEnd(l, q + x, i)
    decreases |q| - i
  {
    if i < |q| && ContinuesName(l, q[i]) { NameEndCut(l, q, x, i + 1); }
  }

  lemma QuoteAtCut(q: string, x: string, i: nat)
    requires i < |q| && i + |QuoteAt(q + x, i)| <= |q|
    ensures QuoteAt(q, i) == QuoteAt(q + x, i)
  {
    if i + 3 <= |q| {
      QuoteAtAppend(q, x, i);
    }
  }

  lemma TokenEndCut(l: Letters, p: string, x: string, i: nat)
    requires i < |p| && TokenEnd(l, p + x, i) <= |p|
    ensures TokenEnd(l, p, i) == TokenEnd(l, p + x, i)
  {
    match KindOf(l, p[i]) {
      case Comment => FindCharCut(p, x, '\n', i);
      case Quoted =>
        QuoteAtCut(p, x, i);
        var quote := QuoteAt(p, i);
        StringEndCut(p, x, quote, i + |quote|);
      case IriRef =>
        FindCharCut(p, x, '>', i);
      case Name => NameEndCut(l, p, x, i + 1);
      case _ =>
    }
  }

  // -------------------------------------------------------------------- shifting tokens

  function Shift(tokens: seq<Token>, d: nat): (r: seq<Token>)
    ensures |r| == |tokens|
    ensures forall i :: 0 <= i < |r| ==> r[i] == Token(tokens[i].kind, tokens[i].start + d, tokens[i].end + d)
  {
    seq(|tokens|, i requires 0 <= i < |tokens| => Token(tokens[i].kind, tokens[i].start + d, tokens[i].end + d))
  }

  lemma {:induction false} FindCharShift(p: string, x: string, c: char, j: nat)
    requires j <= |x|
    ensures FindChar(p + x, c, |p| + j) == |p| + FindChar(x, c, j)
    decreases |x| - j
  {
    if j < |x| && x[j] != c { FindCharShift(p, x, c, j + 1); }
  }

  lemma StartsWithShift(p: string, x: string, s: string, j: nat)
    requires j <= |x|
    ensures StartsWithAt(p + x, s, |p| + j) == StartsWithAt(x, s, j)
  {
    if j + |s| <= |x| {
      assert (p + x)[|p| + j..|p| + j + |s|] == x[j..j + |s|];
    }
  }

  lemma {:induction false} StringEndShift(p: string, x: string, quote: string, j: nat)
    requires |quote| >= 1
    ensures StringEnd(p + x, quote, |p| + j) == |p| + StringEnd(x, quote, j)
    decreases if j < |x| then |x| - j else 0
  {
    if j < |x| {
      StartsWithShift(p, x, quote, j);
      if x[j] == '\\' {
        StringEndShift(p, x, quote, j + 2);
      } else if !StartsWithAt(x, quote, j) {
        StringEndShift(p, x, quote, j + 1);
      }
    }
  }

  lemma {:induction false} NameEndShift(l: Letters, p: string, x: string, j: nat)
    requires j <= |x|
    ensures NameEnd(l, p + x, |p| + j) == |p| + NameEnd(l, x, j)
    decreases |x| - j
  {
    if j < |x| && ContinuesName(l, x[j]) { NameEndShift(l, p, x, j + 1); }
  }

  lemma QuoteAtShift(p: string, x: string, j: nat)
    requires j < |x|
    ensures QuoteAt(p + x, |p| + j) == QuoteAt(x, j)
  {
    StartsWithShift(p, x, "'''", j);
    StartsWithShift(p, x, "\"\"\"", j);
    if j + 3 <= |x| {
      assert (p + x)[|p| + j..|p| + j + 3] == x[j..j + 3];
    }
  }

  lemma TokenEndShift(l: Letters, p: string, x: string, j: nat)
    requires j < |x|
    ensures TokenEnd(l, p + x, |p| + j) == |p| + TokenEnd(l, x, j)
  {
    match KindOf(l, x[j]) {
      case Comment => FindCharShift(p, x, '\n', j);
      case Quoted =>
        QuoteAtShift(p, x, j);
        var quote := QuoteAt(x, j);
        StringEndShift(p, x, quote, j + |quote|);
      case IriRef => FindCharShift(p, x, '>', j);
      case Name => NameEndShift(l, p, x, j + 1);
      case _ =>
    }
  }

  lemma {:induction false} TokensShift(l: Letters, p: string, x: string, j: nat)
    ensures TokensFrom(l, p + x, |p| + j) == Shift(TokensFrom(l, x, j), |p|)
    decreases if j < |x| then |x| - j else 0
  {
    hide TokenEnd, KindOf;
    if j < |x| {
      TokenEndShift(l, p, x, j);
      TokensShift(l, p, x, TokenEnd(l, x, j));
      var t, rest := Token(KindOf(l, x[j]), j, TokenEnd(l, x, j)), TokensFrom(l, x, TokenEnd(l, x, j));
      ShiftConcat([t], rest, |p|);
    }
  }

  lemma ShiftConcat(a: seq<Token>, b: seq<Token>, d: nat)
    ensures Shift(a + b, d) == Shift(a, d) + Shift(b, d)
  {
  }

  // ------------------------------------------------------------------- tokens of a concatenation

  lemma {:induction false} TokensConcatFrom(l: Letters, p: string, x: string, i: nat)
    requires SealedFrom(l, p, i)
    ensures TokensFrom(l, p + x, i) == TokensFrom(l, p, i) + Shift(Tokens(l, x), |p|)
    decreases if i < |p| then |p| - i else 0
  {
    hide TokenEnd, KindOf;
    if i >= |p| {
      TokensShift(l, p, x, 0);
    } else {
      TokenEndAppend(l, p, x, i);
      TokensConcatFrom(l, p, x, TokenEnd(l, p, i));
    }
  }

  /** After a sealed text the tokens start afresh. */
  lemma TokensConcat(l: Letters, p: string, x: string)
    requires Sealed(l, p)
    ensures Tokens(l, p + x) == Tokens(l, p) + Shift(Tokens(l, x), |p|)
  {
    TokensConcatFrom(l, p, x, 0);
  }

  lemma {:induction false} SealedConcatFrom(l: Letters, p: string, x: string, i: nat)
    requires SealedFrom(l, p, i) && Sealed(l, x)
    ensures SealedFrom(l, p + x, i)
    decreases if i < |p| then |p| - i else 0
  {
    hide TokenEnd, KindOf;
    if i >= |p| {
      SealedShift(l, p, x, 0);
    } else {
      TokenEndAppend(l, p, x, i);
      SealedConcatFrom(l, p, x, TokenEnd(l, p, i));
    }
  }

  lemma {:induction false} SealedShift(l: Letters, p: string, x: string, j: nat)
    requires SealedFrom(l, x, j)
    ensures SealedFrom(l, p + x, |p| + j)
    decreases if j < |x| then |x| - j else 0
  {
    hide TokenEnd, KindOf;
    if j < |x| {
      TokenEndShift(l, p, x, j);
      SealedShift(l, p, x, TokenEnd(l, x, j));
    }
  }

  lemma SealedConcat(l: Letters, p: string, x: string)
    requires Sealed(l, p) && Sealed(l, x)
    ensures Sealed(l, p + x)
  {
    SealedConcatFrom(l, p, x, 0);
  }

  /** A one-character token is where a text may be cut: what stands up to it is sealed. */
  lemma {:induction false} CutIsSealed(l: Letters, p: string, x: string, i: nat, t: Token)
    requires t in TokensFrom(l, p + x, i) && t.kind in {Brace, Other} && t.end == |p|
    ensures SealedFrom(l, p, i)
    decreases if i < |p| then |p| - i else 0
  {
    var q := p + x;
    TokenStarts(l, q, i, t);
    if t.start != i {
      assert TokensFrom(l, q, i)[1..] == TokensFrom(l, q, TokenEnd(l, q, i));
      TokenStarts(l, q, TokenEnd(l, q, i), t);
      TokenEndCut(l, p, x, i);
      CutIsSealed(l, p, x, TokenEnd(l, q, i), t);
    }
  }

  lemma {:induction false} TokenStarts(l: Letters, q: string, i: nat, t: Token)
    requires t in TokensFrom(l, q, i)
    ensures i <= t.start < |q| && t.kind == KindOf(l, q[t.start]) && t.end == TokenEnd(l, q, t.start)
    ensures t.start != i ==> t in TokensFrom(l, q, TokenEnd(l, q, i)) && TokenEnd(l, q, i) <= t.start
    decreases if i < |q| then |q| - i else 0
  {
    var rest := TokensFrom(l, q, TokenEnd(l, q, i));
    if t in rest {
      TokenStarts(l, q, TokenEnd(l, q, i), t);
    }
  }

  // ------------------------------------------------- what the scan reports of a concatenation

  lemma {:induction false} FirstBraceConcat(a: seq<Token>, b: seq<Token>)
    ensures FirstBrace(a + b) == OrElse(FirstBrace(a), FirstBrace(b))
  {
    if a == [] {
      assert a + b == b;
    } else {
      assert (a + b)[1..] == a[1..] + b;
      FirstBraceConcat(a[1..], b);
    }
  }

  lemma {:induction false} FirstWhereConcat(q: string, a: seq<Token>, b: seq<Token>)
    ensures FirstWhere(q, a + b) == OrElse(FirstWhere(q, a), FirstWhere(q, b))
  {
    if a == [] {
      assert a + b == b;
    } else {
      assert (a + b)[1..] == a[1..] + b;
      FirstWhereConcat(q, a[1..], b);
    }
  }

  lemma {:induction false} BraceAfterWhereConcat(q: string, a: seq<Token>, b: seq<Token>)
    ensures BraceAfterWhere(q, a + b) ==
            OrElse(BraceAfterWhere(q, a), if FirstWhere(q, a).Some? then FirstBrace(b) else BraceAfterWhere(q, b))
  {
    if a == [] {
      assert a + b == b;
    } else {
      assert (a + b)[1..] == a[1..] + b;
      if IsWhereToken(q, a[0]) {
        FirstBraceConcat(a[1..], b);
      } else {
        BraceAfterWhereConcat(q, a[1..], b);
      }
    }
  }

  ghost predicate TokensWithin(tokens: seq<Token>, n: nat) {
    forall t :: t in tokens ==> t.kind == Name ==> t.end <= n
  }

  lemma {:induction false} NamesWithin(l: Letters, q: string, i: nat)
    ensures TokensWithin(TokensFrom(l, q, i), |q|)
    decreases if i < |q| then |q| - i else 0
  {
    hide KindOf;
    if i < |q| {
      NamesWithin(l, q, TokenEnd(l, q, i));
    }
  }

  /** Text after the tokens does not change which of them are WHERE. */
  lemma {:induction false} WhereIgnoresSuffix(p: string, x: string, a: seq<Token>)
    requires TokensWithin(a, |p|)
    ensures FirstWhere(p + x, a) == FirstWhere(p, a)
    ensures BraceAfterWhere(p + x, a) == BraceAfterWhere(p, a)
  {
    if a != [] {
      var t := a[0];
      if t.kind == Name && t.start <= t.end <= |p| {
        assert (p + x)[t.start..t.end] == p[t.start..t.end];
      }
      forall u | u in a[1..] ensures u.kind == Name ==> u.end <= |p| {
        assert u in a;
      }
      WhereIgnoresSuffix(p, x, a[1..]);
    }
  }

  /**
   The scan of a text depends only on a sealed prefix in which all three positions are found:
   whatever follows, the answer is the prefix's own.
   */
  lemma ScanOfPrefix(l: Letters, p: string, x: string)
    requires Sealed(l, p) && BraceAfterWhere(p, Tokens(l, p)).Some?
    ensures FirstBrace(Tokens(l, p + x)) == FirstBrace(Tokens(l, p))
    ensures FirstWhere(p + x, Tokens(l, p + x)) == FirstWhere(p, Tokens(l, p))
    ensures BraceAfterWhere(p + x, Tokens(l, p + x)) == BraceAfterWhere(p, Tokens(l, p))
  {
    var a, b := Tokens(l, p), Shift(Tokens(l, x), |p|);
    TokensConcat(l, p, x);
    NamesWithin(l, p, 0);
    WhereIgnoresSuffix(p, x, a);
    FirstBraceConcat(a, b);
    FirstWhereConcat(p + x, a, b);
    BraceAfterWhereConcat(p + x, a, b);
    GroupNeedsWhere(p, a);
  }

  lemma {:induction false} GroupNeedsWhere(q: string, a: seq<Token>)
    requires BraceAfterWhere(q, a).Some?
    ensures FirstWhere(q, a).Some? && FirstBrace(a).Some?
    ensures exists t :: t in a && t.kind == Brace && t.start == BraceAfterWhere(q, a).value
  {
    if IsWhereToken(q, a[0]) {
      FirstBraceIsToken(a[1..]);
    } else {
      GroupNeedsWhere(q, a[1..]);
      var t :| t in a[1..] && t.kind == Brace && t.start == BraceAfterWhere(q, a).value;
      assert t in a;
    }
  }

  lemma {:induction false} FirstBraceIsToken(a: seq<Token>)
    requires FirstBrace(a).Some?
    ensures exists t :: t in a && t.kind == Brace && t.start == FirstBrace(a).value
  {
    if a[0].kind != Brace {
      FirstBraceIsToken(a[1..]);
      var t :| t in a[1..] && t.kind == Brace && t.start == FirstBrace(a).value;
      assert t in a;
    } else {
      assert a[0] in a;
    }
  }
}
