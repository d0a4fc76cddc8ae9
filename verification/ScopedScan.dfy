/**
 Scanning a state-scoped query: the clause is spliced in front of the WHERE token, so the tokens
 before it stay, and WHERE and all that follows it move by the clause's length.
 */
module ScopedScan {
  import opened Options
  import opened Scanner
  import opened Splicing
  import opened Lexing
  import opened Bindings
  import opened StateScope

  /** A character that continues a name and closes nothing. */
  predicate Letterlike(l: Letters, c: char) {
    ContinuesName(l, c) && !IsQuote(c) && c != '\n' && c != '>' && c != '\\'
  }

  // ------------------------------------------------ one letter for another after a token's end

  lemma {:induction false} StringEndSwap(s: string, quote: string, i: nat, c: char, d: char)
    requires QuoteMark(quote) && StringEnd(s + [c], quote, i) <= |s|
    requires !IsQuote(c) && !IsQuote(d)
    ensures StringEnd(s + [d], quote, i) == StringEnd(s + [c], quote, i)
    decreases if i < |s| then |s| - i else 0
  {
    var a := s + [c];
    assert StringEnd(a, quote, |s| + 1) == |s| + 1;
    assert i <= |s|;
    NotQuoted(s, quote, i, c);
    NotQuoted(s, quote, i, d);
    assert i < |s|;
    if s[i] == '\\' {
      StringEndSwap(s, quote, i + 2, c, d);
    } else if !StartsWithAt(a, quote, i) {
      StringEndSwap(s, quote, i + 1, c, d);
    }
  }

  lemma QuoteAtSwap(p: string, c: char, d: char, i: nat)
    requires i < |p| && !IsQuote(c) && !IsQuote(d)
    ensures QuoteAt(p + [c], i) == QuoteAt(p + [d], i)
  {
    if i + 3 <= |p| {
      QuoteAtAppend(p, [c], i);
      QuoteAtAppend(p, [d], i);
    } else {
      NotQuoted(p, "'''", i, c);
      NotQuoted(p, "'''", i, d);
      NotQuoted(p, "\"\"\"", i, c);
      NotQuoted(p, "\"\"\"", i, d);
    }
  }

  lemma TokenEndSwap(l: Letters, p: string, c: char, d: char, i: nat)
    requires i < |p| && TokenEnd(l, p + [c], i) <= |p| && Letterlike(l, c) && Letterlike(l, d)
    ensures TokenEnd(l, p + [d], i) == TokenEnd(l, p + [c], i)
  {
    match KindOf(l, p[i]) {
      case Comment =>
        FindCharCut(p, [c], '\n', i);
        FindCharAppend(p, [d], '\n', i);
      case Quoted =>
        QuoteAtSwap(p, c, d, i);
        var quote := QuoteAt(p + [c], i);
        StringEndSwap(p, quote, i + |quote|, c, d);
      case IriRef =>
        FindCharCut(p, [c], '>', i);
        FindCharAppend(p, [d], '>', i);
      case Name =>
        NameEndCut(l, p, [c], i + 1);
        NameEndAppend(l, p, [d], i + 1);
      case _ =>
    }
  }

  /** A token that ends where a name starts ends there whatever name is put in its place. */
  lemma TokenEndBeforeName(l: Letters, p: string, y: string, x: string, i: nat)
    requires i < |p| && TokenEnd(l, p + y, i) <= |p|
    requires |y| > 0 && |x| > 0 && Letterlike(l, y[0]) && Letterlike(l, x[0])
    ensures TokenEnd(l, p + x, i) == TokenEnd(l, p + y, i)
  {
    assert p + y == (p + [y[0]]) + y[1..];
    assert p + x == (p + [x[0]]) + x[1..];
    TokenEndCut(l, p + [y[0]], y[1..], i);
    TokenEndSwap(l, p, y[0], x[0], i);
    TokenEndAppend(l, p + [x[0]], x[1..], i);
  }

  // ----------------------------------------------------------------- the tokens before WHERE

  function UpTo(l: Letters, q: string, i: nat, w: nat): seq<Token>
    requires Reaches(l, q, i, w)
    decreases if i < |q| then |q| - i else 0
  {
    if i == w then []
    else [Token(KindOf(l, q[i]), i, TokenEnd(l, q, i))] + UpTo(l, q, TokenEnd(l, q, i), w)
  }

  lemma {:induction false} ReachesAfter(l: Letters, q: string, i: nat, w: nat)
    requires Reaches(l, q, i, w)
    ensures i <= w
    ensures forall t :: t in UpTo(l, q, i, w) ==> t.start < w && t.end <= w
    decreases if i < |q| then |q| - i else 0
  {
    if i != w {
      ReachesAfter(l, q, TokenEnd(l, q, i), w);
    }
  }

  /** Both texts have the same tokens up to p's end, and then those of what follows. */
  lemma {:induction false} SplitAtName(l: Letters, p: string, y: string, x: string, i: nat)
    requires Reaches(l, p + y, i, |p|)
    requires |y| > 0 && |x| > 0 && Letterlike(l, y[0]) && Letterlike(l, x[0])
    ensures TokensFrom(l, p + y, i) == UpTo(l, p + y, i, |p|) + Shift(Tokens(l, y), |p|)
    ensures TokensFrom(l, p + x, i) == UpTo(l, p + y, i, |p|) + Shift(Tokens(l, x), |p|)
    decreases if i < |p| then |p| - i else 0
  {
    hide TokenEnd, KindOf, Letterlike;
    if i == |p| {
      TokensShift(l, p, y, 0);
      TokensShift(l, p, x, 0);
    } else {
      ReachesAfter(l, p + y, TokenEnd(l, p + y, i), |p|);
      TokenEndBeforeName(l, p, y, x, i);
      SplitAtName(l, p, y, x, TokenEnd(l, p + y, i));
    }
  }

  // ---------------------------------------------------------------------- moved positions

  function Moved(o: Option<nat>, d: nat): (r: Option<nat>)
    ensures r.Some? == o.Some?
    ensures o.Some? ==> r.value == o.value + d
  {
    match o
    case None => None
    case Some(v) => Some(v + d)
  }

  lemma {:induction false} ScanShifted(p: string, y: string, a: seq<Token>)
    ensures FirstBrace(Shift(a, |p|)) == Moved(FirstBrace(a), |p|)
    ensures FirstWhere(p + y, Shift(a, |p|)) == Moved(FirstWhere(y, a), |p|)
    ensures BraceAfterWhere(p + y, Shift(a, |p|)) == Moved(BraceAfterWhere(y, a), |p|)
  {
    if a != [] {
      var t := a[0];
      assert Shift(a, |p|)[1..] == Shift(a[1..], |p|);
      if t.kind == Name && t.start <= t.end <= |y| {
        assert (p + y)[|p| + t.start..|p| + t.end] == y[t.start..t.end];
      }
      ScanShifted(p, y, a[1..]);
    }
  }

  lemma {:induction false} GroupNeedsWhereToken(q: string, a: seq<Token>)
    requires FirstWhere(q, a).None?
    ensures BraceAfterWhere(q, a).None?
  {
    if a != [] { GroupNeedsWhereToken(q, a[1..]); }
  }

  /** A text whose tokens split into two parts, none of the first a WHERE, scans as the second part does. */
  lemma ScanOfParts(l: Letters, q: string, a: seq<Token>, b: seq<Token>)
    requires Tokens(l, q) == a + b && FirstWhere(q, a).None?
    ensures Scan(l, q) == Positions(OrElse(FirstBrace(a), FirstBrace(b)), FirstWhere(q, b), BraceAfterWhere(q, b))
  {
    FirstBraceConcat(a, b);
    FirstWhereConcat(q, a, b);
    BraceAfterWhereConcat(q, a, b);
    GroupNeedsWhereToken(q, a);
  }

  lemma {:induction false} FindsBracket(graph: string, i: nat)
    requires '>' !in graph && i <= |graph|
    ensures FindChar("<" + graph + ">", '>', i + 1) == |graph| + 1
    decreases |graph| - i
  {
    if i < |graph| {
      assert ("<" + graph + ">")[i + 1] == graph[i];
      FindsBracket(graph, i + 1);
    }
  }

  lemma ClauseReads(l: Letters, graph: string)
    requires Usual(l) && '>' !in graph
    ensures Reads(l, Clause(graph), [Lexeme(Name, "FROM"), Lexeme(Other, " "), Lexeme(IriRef, "<" + graph + ">"), Lexeme(Other, " ")])
  {
    var bracketed := "<" + graph + ">";
    FindsBracket(graph, 0);
    ReadsIriRef(l, bracketed, ' ');
    ReadsName(l, "FROM", ' ');
    hide Reads;
    var from, rest := "FROM" + " ", bracketed + " ";
    var a, b := [Lexeme(Name, "FROM"), Lexeme(Other, " ")], [Lexeme(IriRef, bracketed), Lexeme(Other, " ")];
    assert [' '] == " ";
    ReadsConcat(l, from, a, rest, b);
    assert Clause(graph) == from + rest;
    assert a + b == [Lexeme(Name, "FROM"), Lexeme(Other, " "), Lexeme(IriRef, bracketed), Lexeme(Other, " ")];
  }

  lemma ClauseTokens(l: Letters, graph: string)
    requires Usual(l) && '>' !in graph
    ensures Sealed(l, Clause(graph))
    ensures FirstWhere(Clause(graph), Tokens(l, Clause(graph))).None? && FirstBrace(Tokens(l, Clause(graph))).None?
  {
    ClauseReads(l, graph);
    hide TokensFrom, SealedFrom;
    var c, a := Clause(graph), Tokens(l, Clause(graph));
    var ls := Lexemes(l, c);
    assert |a| == 4 && forall i :: 0 <= i < 4 ==> a[i].kind == ls[i].kind && ls[i].text == Covered(c, a[i]);
    forall t | t in a ensures t.kind != Brace && !IsWhereToken(c, t) {
      var i :| 0 <= i < 4 && a[i] == t;
      assert t.kind == Name ==> i == 0 && Covered(c, t) == "FROM";
    }
    NoneFound(c, a);
  }

  lemma {:induction false} NoneFound(q: string, a: seq<Token>)
    requires forall t :: t in a ==> t.kind != Brace && !IsWhereToken(q, t)
    ensures FirstWhere(q, a).None? && FirstBrace(a).None?
  {
    if a != [] {
      assert a[0] in a;
      NoneFound(q, a[1..]);
    }
  }

  // ---------------------------------------------------------------------------- the theorem

  /** The positions the scan reports after a clause of length k is put before WHERE. */
  function AfterScoping(found: Positions, k: nat): Positions
    requires found.whereAt.Some?
  {
    Positions(
      if found.firstBrace.Some? && found.firstBrace.value > found.whereAt.value then Moved(found.firstBrace, k)
      else found.firstBrace,
      Moved(found.whereAt, k),
      Moved(found.group, k))
  }

  /** Rescanning the scoped query finds the same WHERE, moved by the clause's length, and so on. */
  lemma ScopedScanMoves(l: Letters, graph: string, query: string)
    requires Usual(l) && '>' !in graph && Scan(l, query).whereAt.Some?
    ensures var scoped := StateScoped(l, graph, query);
            scoped.Some? && Scan(l, scoped.value) == AfterScoping(Scan(l, query), |Clause(graph)|)
  {
    WhereIsToken(l, query);
    var w := Scan(l, query).whereAt.value;
    var p, y := query[..w], query[w..];
    assert query == p + y;
    ClauseTokens(l, graph);
    assert Lower(query[w..w + 5][0]) == 'w';
    ScopedScanOf(l, p, Clause(graph), y);
  }

  lemma ScanAfterPart(l: Letters, pre: string, y: string, a: seq<Token>)
    requires Tokens(l, pre + y) == a + Shift(Tokens(l, y), |pre|) && FirstWhere(pre + y, a).None?
    ensures Scan(l, pre + y) == Joined(FirstBrace(a), Scan(l, y), |pre|)
  {
    ScanOfParts(l, pre + y, a, Shift(Tokens(l, y), |pre|));
    ScanShifted(pre, y, Tokens(l, y));
  }

  /** The tokens with c spliced in: those before, those of c, those after. */
  lemma SplicedTokens(l: Letters, p: string, c: string, y: string)
    requires Sealed(l, c) && |c| > 0 && Letterlike(l, c[0]) && |y| > 0 && Letterlike(l, y[0])
    requires Reaches(l, p + y, 0, |p|)
    ensures Tokens(l, p + c + y) ==
            UpTo(l, p + y, 0, |p|) + Shift(Tokens(l, c), |p|) + Shift(Tokens(l, y), |p| + |c|)
  {
    hide TokensFrom, UpTo, Reaches, SealedFrom, Letterlike;
    assert p + c + y == p + (c + y);
    SplitAtName(l, p, y, c + y, 0);
    TokensConcat(l, c, y);
    ShiftConcat(Tokens(l, c), Shift(Tokens(l, y), |c|), |p|);
    ShiftTwice(Tokens(l, y), |c|, |p|);
  }

  /** Neither the tokens before WHERE nor those of c hold a WHERE, wherever the text goes on. */
  lemma NoWhereYet(l: Letters, p: string, c: string, y: string, a: seq<Token>)
    requires FirstWhere(p + y, a).None? && (forall t :: t in a ==> t.end <= |p|)
    requires FirstWhere(c, Tokens(l, c)).None? && FirstBrace(Tokens(l, c)).None?
    ensures FirstWhere(p + c + y, a + Shift(Tokens(l, c), |p|)).None?
    ensures FirstBrace(a + Shift(Tokens(l, c), |p|)) == FirstBrace(a)
  {
    var cs := Shift(Tokens(l, c), |p|);
    WhereIgnoresSuffix(p, y, a);
    WhereIgnoresSuffix(p, c + y, a);
    assert p + c + y == p + (c + y);
    ScanShifted(p, c, Tokens(l, c));
    NamesWithin(l, c, 0);
    assert TokensWithin(cs, |p + c|);
    WhereIgnoresSuffix(p + c, y, cs);
    FirstWhereConcat(p + c + y, a, cs);
    FirstBraceConcat(a, cs);
  }

  lemma ScanBefore(l: Letters, p: string, y: string, a: seq<Token>)
    requires Reaches(l, p + y, 0, |p|) && |y| > 0 && Letterlike(l, y[0]) && a == UpTo(l, p + y, 0, |p|)
    requires Scan(l, p + y).whereAt == Some(|p|)
    ensures Scan(l, p + y) == Joined(FirstBrace(a), Scan(l, y), |p|)
    ensures FirstWhere(p + y, a).None? && (forall t :: t in a ==> t.start < |p| && t.end <= |p|)
  {
    SplitAtName(l, p, y, y, 0);
    ReachesAfter(l, p + y, 0, |p|);
    BeforeWhere(l, p, y, a);
    ScanAfterPart(l, p, y, a);
  }

  lemma ScanSpliced(l: Letters, p: string, c: string, y: string, a: seq<Token>)
    requires FirstWhere(c, Tokens(l, c)).None? && FirstBrace(Tokens(l, c)).None?
    requires Tokens(l, p + c + y) == a + Shift(Tokens(l, c), |p|) + Shift(Tokens(l, y), |p| + |c|)
    requires FirstWhere(p + y, a).None? && (forall t :: t in a ==> t.end <= |p|)
    ensures Scan(l, p + c + y) == Joined(FirstBrace(a), Scan(l, y), |p| + |c|)
  {
    NoWhereYet(l, p, c, y, a);
    ScanAfterSplice(l, p + c, y, a + Shift(Tokens(l, c), |p|), FirstBrace(a), |p| + |c|);
  }

  lemma ScanAfterSplice(l: Letters, pre: string, y: string, b: seq<Token>, brace: Option<nat>, d: nat)
    requires Tokens(l, pre + y) == b + Shift(Tokens(l, y), |pre|) && FirstWhere(pre + y, b).None?
    requires brace == FirstBrace(b) && d == |pre|
    ensures Scan(l, pre + y) == Joined(brace, Scan(l, y), d)
  {
    ScanAfterPart(l, pre, y, b);
  }

  lemma ScopedScanOf(l: Letters, p: string, c: string, y: string)
    requires Sealed(l, c) && |c| > 0 && Letterlike(l, c[0])
    requires FirstWhere(c, Tokens(l, c)).None? && FirstBrace(Tokens(l, c)).None?
    requires Scan(l, p + y).whereAt == Some(|p|) && Reaches(l, p + y, 0, |p|) && |y| > 0 && Letterlike(l, y[0])
    ensures Scan(l, p + c + y) == AfterScoping(Scan(l, p + y), |c|)
  {
    hide Scan, Tokens, UpTo, Reaches, Sealed, FirstBrace, FirstWhere;
    var a := UpTo(l, p + y, 0, |p|);
    ScanBefore(l, p, y, a);
    BracesOrdered(a, |p|);
    FirstInY(l, y);
    SplicedTokens(l, p, c, y);
    ScanSpliced(l, p, c, y, a);
    JoinedMoves(FirstBrace(a), Scan(l, y), |p|, |c|);
  }

  /** What the scan reports of a text: the first brace of its first part, and the positions of its second. */
  function Joined(brace: Option<nat>, found: Positions, d: nat): Positions {
    Positions(OrElse(brace, Moved(found.firstBrace, d)), Moved(found.whereAt, d), Moved(found.group, d))
  }

  lemma JoinedMoves(brace: Option<nat>, found: Positions, d: nat, k: nat)
    requires found.whereAt == Some(0)
    requires brace.Some? ==> brace.value < d
    requires found.firstBrace.Some? ==> found.firstBrace.value > 0
    ensures Joined(brace, found, d + k) == AfterScoping(Joined(brace, found, d), k)
  {
  }

  /** A WHERE at the very start comes before any brace. */
  lemma FirstInY(l: Letters, y: string)
    requires Scan(l, y).whereAt == Some(0)
    ensures Scan(l, y).firstBrace.Some? ==> Scan(l, y).firstBrace.value > 0
  {
    FirstWhereIsToken(y, Tokens(l, y));
    var t :| t in Tokens(l, y) && IsWhereToken(y, t) && t.start == 0;
    TokenStarts(l, y, 0, t);
    if Scan(l, y).firstBrace.Some? {
      FirstBraceIsToken(Tokens(l, y));
      var u :| u in Tokens(l, y) && u.kind == Brace && u.start == Scan(l, y).firstBrace.value;
      TokenStarts(l, y, 0, u);
    }
  }

  lemma ShiftTwice(a: seq<Token>, d: nat, e: nat)
    ensures Shift(Shift(a, d), e) == Shift(a, d + e)
  {
  }

  /** None of the tokens before the first WHERE is a WHERE. */
  lemma BeforeWhere(l: Letters, p: string, y: string, a: seq<Token>)
    requires Tokens(l, p + y) == a + Shift(Tokens(l, y), |p|) && Scan(l, p + y).whereAt == Some(|p|)
    requires forall t :: t in a ==> t.start < |p| && t.end <= |p|
    ensures FirstWhere(p + y, a).None?
  {
    FirstWhereConcat(p + y, a, Shift(Tokens(l, y), |p|));
    if FirstWhere(p + y, a).Some? {
      FirstWhereIsToken(p + y, a);
    }
  }

  lemma BracesOrdered(a: seq<Token>, w: nat)
    requires forall t :: t in a ==> t.start < w
    ensures FirstBrace(a).Some? ==> FirstBrace(a).value < w
  {
    if FirstBrace(a).Some? { FirstBraceIsToken(a); }
  }

  /** The same after a sealed block was injected first: the engine's own token lookup. */
  lemma ScopedInjectionMoves(l: Letters, graph: string, query: string, block: string)
    requires Usual(l) && '>' !in graph && Scan(l, query).group.Some? && Sealed(l, " " + block + " ")
    ensures var bound := InjectValuesBlock(l, query, block);
            && bound.Ok? && Scan(l, query).whereAt.Some?
            && var scoped := StateScoped(l, graph, bound.value);
            scoped.Some? && Scan(l, scoped.value) == AfterScoping(Scan(l, query), |Clause(graph)|)
  {
    InjectionKeepsScan(l, query, block);
    GroupNeedsWhere(query, Tokens(l, query));
    ScopedScanMoves(l, graph, InjectValuesBlock(l, query, block).value);
  }
}
