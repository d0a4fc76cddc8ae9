/**
 The scan against the lexical grammar of queries, written out character by character: the four forms
 of string literals, comments, IRI references, braces and names.  A text made of such pieces has them
 as its tokens, and what the scan reports are the starts of a brace and of a bare WHERE among them.
 */
module QueryGrammar {
  import opened Options
  import opened Scanner
  import opened Splicing
  import opened Bindings
  import Scope = StateScope

  // --------------------------------------------------------------------- string literals

  /** Characters other than the quote and the backslash, and backslashes with the character after them. */
  predicate ShortBody(s: string, c: char) {
    || s == ""
    || (s[0] != c && s[0] != '\\' && ShortBody(s[1..], c))
    || (s[0] == '\\' && |s| >= 2 && ShortBody(s[2..], c))
  }

  /** The same with at most two quotes before each character or backslash pair. */
  predicate LongBody(s: string, c: char)
    decreases |s|, 1
  {
    || s == ""
    || exists k: nat :: k <= 2 && LongUnit(s, c, k)
  }

  predicate LongUnit(s: string, c: char, k: nat)
    decreases |s|, 0
  {
    && k < |s| && (forall i :: 0 <= i < k ==> s[i] == c)
    && if s[k] == '\\' then k + 2 <= |s| && LongBody(s[k + 2..], c)
       else s[k] != c && LongBody(s[k + 1..], c)
  }

  /** A closed literal; an empty one is not followed by a third quote, which would open a long one. */
  ghost predicate Literal(text: string, next: string) {
    exists c, body :: (c == '"' || c == '\'') && LiteralOf(text, c, body, next)
  }

  predicate LiteralOf(text: string, c: char, body: string, next: string) {
    || (text == [c] + body + [c] && ShortBody(body, c) && (body == "" && next != "" ==> next[0] != c))
    || (text == [c, c, c] + body + [c, c, c] && LongBody(body, c))
  }

  /** A literal that nothing closes before the end of the text. */
  ghost predicate OpenLiteral(text: string) {
    exists c, body, k: nat :: (c == '"' || c == '\'') && k <= 2 && OpenLiteralOf(text, c, body, k)
  }

  predicate OpenLiteralOf(text: string, c: char, body: string, k: nat) {
    || (text == [c] + body && ShortBody(body, c))
    || (text == [c, c, c] + body + Copies(c, k) && LongBody(body, c))
  }

  function Copies(c: char, k: nat): (r: string)
    ensures |r| == k && forall i :: 0 <= i < k ==> r[i] == c
  {
    seq(k, _ => c)
  }

  // ------------------------------------------------------------------------------ pieces

  datatype Piece = Piece(kind: Kind, text: string)

  predicate Marks(c: char) {
    c in {'#', '"', '\'', '<', '{'}
  }

  predicate Starts(l: Letters, c: char) {
    l.alpha(c) || c in {'_', '?', '$', ':'}
  }

  predicate Continues(l: Letters, c: char) {
    l.alnum(c) || c in {'_', '-', '.', ':'}
  }

  /** The piece is of its kind when this text follows it; what is left open ends the text. */
  ghost predicate WellFormed(l: Letters, p: Piece, next: string) {
    match p.kind
    case Comment => p.text != "" && p.text[0] == '#' && '\n' !in p.text && (next == "" || next[0] == '\n')
    case Quoted => Literal(p.text, next) || (next == "" && OpenLiteral(p.text))
    case IriRef => exists iri :: '>' !in iri && (p.text == "<" + iri + ">" || (next == "" && p.text == "<" + iri))
    case Brace => p.text == "{"
    case Name =>
      && p.text != "" && !Marks(p.text[0]) && Starts(l, p.text[0])
      && (forall i :: 0 < i < |p.text| ==> Continues(l, p.text[i]))
      && (next == "" || !Continues(l, next[0]))
    case Other => |p.text| == 1 && !Marks(p.text[0]) && !Starts(l, p.text[0])
  }

  function Text(ps: seq<Piece>): string {
    if ps == [] then "" else ps[0].text + Text(ps[1..])
  }

  ghost predicate Lexed(l: Letters, ps: seq<Piece>) {
    ps == [] || (WellFormed(l, ps[0], Text(ps[1..])) && Lexed(l, ps[1..]))
  }

  /** Where the piece starts. */
  function StartOf(ps: seq<Piece>, k: nat): nat
    requires k <= |ps|
  {
    if k == 0 then 0 else |ps[0].text| + StartOf(ps[1..], k - 1)
  }

  function TokensOf(ps: seq<Piece>, at: nat): seq<Token> {
    if ps == [] then []
    else [Token(ps[0].kind, at, at + |ps[0].text|)] + TokensOf(ps[1..], at + |ps[0].text|)
  }

  // ---------------------------------------------------------------------- where pieces end

  lemma {:induction false} ShortEnds(pre: string, body: string, c: char, rest: string)
    requires ShortBody(body, c) && c != '\\'
    ensures StringEnd(pre + body + [c] + rest, [c], |pre|) == |pre| + |body| + 1
    decreases |body|
  {
    var q := pre + body + [c] + rest;
    if body == "" {
      assert q[|pre|] == c && q[|pre|..|pre| + 1] == [c];
    } else {
      var n := if body[0] == '\\' then 2 else 1;
      assert q == (pre + body[..n]) + body[n..] + [c] + rest;
      assert q[|pre|] == body[0] && q[|pre|..|pre| + 1] == [body[0]];
      ShortEnds(pre + body[..n], body[n..], c, rest);
    }
  }

  /** A quote with another character within the next two is no closing one. */
  lemma SkipsQuotes(q: string, c: char, i: nat, k: nat)
    requires k <= 2 && i + k < |q| && c != '\\'
    requires forall j :: i <= j < i + k ==> q[j] == c
    requires q[i + k] != c
    ensures StringEnd(q, [c, c, c], i) == StringEnd(q, [c, c, c], i + k)
    decreases k
  {
    if k > 0 {
      assert i + 3 <= |q| ==> q[i..i + 3][k] == q[i + k];
      SkipsQuotes(q, c, i + 1, k - 1);
    }
  }

  lemma LongStep(q: string, c: char, i: nat, body: string, k: nat)
    requires c != '\\' && k <= 2 && LongUnit(body, c, k)
    requires i + |body| <= |q| && q[i..i + |body|] == body
    ensures StringEnd(q, [c, c, c], i) == StringEnd(q, [c, c, c], i + k + if body[k] == '\\' then 2 else 1)
  {
    assert forall j :: i <= j < i + |body| ==> q[j] == body[j - i];
    SkipsQuotes(q, c, i, k);
    if body[k] != '\\' {
      assert i + k + 3 <= |q| ==> q[i + k..i + k + 3][0] == body[k];
    }
  }

  lemma {:induction false} LongEnds(q: string, c: char, i: nat, body: string)
    requires LongBody(body, c) && c != '\\'
    requires i + |body| + 3 <= |q| && q[i..i + |body|] == body && q[i + |body|..i + |body| + 3] == [c, c, c]
    ensures StringEnd(q, [c, c, c], i) == i + |body| + 3
    decreases |body|
  {
    hide StringEnd, LongBody, LongUnit;
    if body == "" {
      ClosesLong(q, c, i);
    } else {
      var k := LongSplit(body, c);
      LongStep(q, c, i, body, k);
      var n := if body[k] == '\\' then k + 2 else k + 1;
      assert q[i + n..i + |body|] == q[i..i + |body|][n..];
      LongEnds(q, c, i + n, body[n..]);
    }
  }

  lemma ClosesLong(q: string, c: char, i: nat)
    requires c != '\\' && i + 3 <= |q| && q[i..i + 3] == [c, c, c]
    ensures StringEnd(q, [c, c, c], i) == i + 3
  {
    assert q[i] == q[i..i + 3][0];
  }

  lemma LongSplit(body: string, c: char) returns (k: nat)
    requires LongBody(body, c) && body != ""
    ensures k <= 2 && LongUnit(body, c, k) && k < |body|
    ensures var n := if body[k] == '\\' then k + 2 else k + 1; n <= |body| && LongBody(body[n..], c)
  {
    k :| k <= 2 && LongUnit(body, c, k);
  }

  lemma LiteralEnds(l: Letters, text: string, c: char, body: string, next: string)
    requires (c == '"' || c == '\'') && LiteralOf(text, c, body, next)
    ensures text != "" && KindOf(l, text[0]) == Quoted && TokenEnd(l, text + next, 0) == |text|
  {
    var q := text + next;
    assert q[0] == c;
    if text == [c] + body + [c] && ShortBody(body, c) && (body == "" && next != "" ==> next[0] != c) {
      assert q == [c] + body + [c] + next;
      assert |q| >= 3 ==> q[..3] != [c, c, c] by {
        if body != "" {
          assert q[1] == body[0];
        } else if next != "" {
          assert q[2] == next[0];
        }
      }
      OneQuote(q, c);
      ShortEnds([c], body, c, next);
    } else {
      assert q == [c, c, c] + body + [c, c, c] + next;
      assert q[0..3] == [c, c, c];
      assert [c, c, c] == if c == '"' then "\"\"\"" else "'''";
      assert q[3..3 + |body|] == body && q[3 + |body|..3 + |body| + 3] == [c, c, c];
      LongEnds(q, c, 3, body);
    }
  }

  lemma {:induction false} ShortRunsOut(q: string, c: char, i: nat)
    requires i <= |q| && ShortBody(q[i..], c) && c != '\\'
    ensures StringEnd(q, [c], i) == |q|
    decreases |q| - i
  {
    if i < |q| {
      assert q[i..][0] == q[i] && q[i..i + 1] == [q[i]];
      var n := if q[i] == '\\' then 2 else 1;
      assert q[i..][n..] == q[i + n..];
      ShortRunsOut(q, c, i + n);
    }
  }

  lemma {:induction false} QuotesRunOut(q: string, c: char, i: nat, k: nat)
    requires i + k == |q| && k <= 2 && c != '\\' && forall j :: i <= j < |q| ==> q[j] == c
    ensures StringEnd(q, [c, c, c], i) == |q|
    decreases k
  {
    if k > 0 {
      QuotesRunOut(q, c, i + 1, k - 1);
    }
  }

  lemma {:induction false} LongRunsOut(q: string, c: char, i: nat, body: string, k: nat)
    requires LongBody(body, c) && c != '\\' && k <= 2
    requires i + |body| + k == |q| && q[i..i + |body|] == body && forall j :: i + |body| <= j < |q| ==> q[j] == c
    ensures StringEnd(q, [c, c, c], i) == |q|
    decreases |body|
  {
    hide StringEnd, LongBody, LongUnit;
    if body == "" {
      QuotesRunOut(q, c, i, k);
    } else {
      var m := LongSplit(body, c);
      LongStep(q, c, i, body, m);
      var n := if body[m] == '\\' then m + 2 else m + 1;
      assert q[i + n..i + |body|] == q[i..i + |body|][n..];
      LongRunsOut(q, c, i + n, body[n..], k);
    }
  }

  lemma OpenLiteralEnds(l: Letters, text: string, c: char, body: string, k: nat)
    requires (c == '"' || c == '\'') && k <= 2 && OpenLiteralOf(text, c, body, k)
    ensures text != "" && KindOf(l, text[0]) == Quoted && TokenEnd(l, text, 0) == |text|
  {
    assert text[0] == c;
    if text == [c] + body && ShortBody(body, c) {
      assert text[1..] == body;
      assert |text| >= 3 ==> text[..3] != [c, c, c] by {
        assert body != "" ==> text[1] == body[0];
      }
      OneQuote(text, c);
      ShortRunsOut(text, c, 1);
    } else {
      assert text[0..3] == [c, c, c] && text[3..3 + |body|] == body;
      assert [c, c, c] == if c == '"' then "\"\"\"" else "'''";
      LongRunsOut(text, c, 3, body, k);
    }
  }

  lemma OneQuote(q: string, c: char)
    requires q != "" && q[0] == c && (|q| >= 3 ==> q[..3] != [c, c, c])
    requires c == '"' || c == '\''
    ensures QuoteAt(q, 0) == [c]
  {
    assert |q| >= 3 ==> q[0..3] == q[..3] && q[..3][0] == c;
    assert "'''" == ['\'', '\'', '\''] && "\"\"\"" == ['"', '"', '"'];
  }

  lemma {:induction false} FindsAt(q: string, c: char, i: nat, j: nat)
    requires i <= j <= |q| && (forall k :: i <= k < j ==> q[k] != c) && (j < |q| ==> q[j] == c)
    ensures FindChar(q, c, i) == j
    decreases j - i
  {
    if i < j {
      FindsAt(q, c, i + 1, j);
    }
  }

  lemma {:induction false} NameEndsAt(l: Letters, q: string, i: nat, j: nat)
    requires i <= j <= |q| && (forall k :: i <= k < j ==> Continues(l, q[k])) && (j < |q| ==> !Continues(l, q[j]))
    ensures NameEnd(l, q, i) == j
    decreases j - i
  {
    if i < j {
      NameEndsAt(l, q, i + 1, j);
    }
  }

  /** A well-formed piece at the start of a text is its first token. */
  lemma PieceEnds(l: Letters, p: Piece, next: string)
    requires WellFormed(l, p, next)
    ensures p.text != "" && KindOf(l, p.text[0]) == p.kind && TokenEnd(l, p.text + next, 0) == |p.text|
  {
    var q := p.text + next;
    match p.kind
    case Comment =>
      forall k | 0 <= k < |p.text| ensures q[k] != '\n' {
        assert q[k] == p.text[k] && p.text[k] in p.text;
      }
      FindsAt(q, '\n', 0, |p.text|);
    case Quoted =>
      if Literal(p.text, next) {
        var c, body :| (c == '"' || c == '\'') && LiteralOf(p.text, c, body, next);
        LiteralEnds(l, p.text, c, body, next);
      } else {
        assert q == p.text;
        var c, body, k: nat :| (c == '"' || c == '\'') && k <= 2 && OpenLiteralOf(p.text, c, body, k);
        OpenLiteralEnds(l, p.text, c, body, k);
      }
    case IriRef =>
      var iri :| '>' !in iri && (p.text == "<" + iri + ">" || (next == "" && p.text == "<" + iri));
      forall k | 0 <= k < |iri| + 1 ensures q[k] != '>' {
        assert k > 0 ==> q[k] == iri[k - 1] && iri[k - 1] in iri;
      }
      FindsAt(q, '>', 0, |iri| + 1);
    case Brace =>
    case Name => NameEndsAt(l, q, 1, |p.text|);
    case Other =>
  }

  /** What it is followed by starts afresh. */
  lemma PieceFirst(l: Letters, p: Piece, next: string)
    requires WellFormed(l, p, next)
    ensures Tokens(l, p.text + next) == [Token(p.kind, 0, |p.text|)] + Shift(Tokens(l, next), |p.text|)
  {
    hide WellFormed, TokenEnd, KindOf;
    PieceEnds(l, p, next);
    TokensShift(l, p.text, next, 0);
    assert (p.text + next)[0] == p.text[0];
  }

  lemma ShiftShift(tokens: seq<Token>, a: nat, b: nat)
    ensures Shift(Shift(tokens, a), b) == Shift(tokens, a + b)
  {
  }

  lemma {:induction false} TokensOfShift(ps: seq<Piece>, at: nat, d: nat)
    ensures TokensOf(ps, at + d) == Shift(TokensOf(ps, at), d)
    decreases |ps|
  {
    if ps != [] {
      TokensOfShift(ps[1..], at + |ps[0].text|, d);
      var t := Token(ps[0].kind, at, at + |ps[0].text|);
      ShiftConcat([t], TokensOf(ps[1..], at + |ps[0].text|), d);
    }
  }

  /** A text made of well-formed pieces has these pieces, one by one, as its tokens. */
  lemma {:induction false} LexedTokens(l: Letters, ps: seq<Piece>)
    requires Lexed(l, ps)
    ensures Tokens(l, Text(ps)) == TokensOf(ps, 0)
    decreases |ps|
  {
    hide WellFormed, TokenEnd, KindOf;
    if ps != [] {
      PieceFirst(l, ps[0], Text(ps[1..]));
      LexedTokens(l, ps[1..]);
      TokensOfShift(ps[1..], 0, |ps[0].text|);
    }
  }

  /** Wherever a token starts, a literal of any of the four forms is exactly one. */
  lemma LiteralIsOneToken(l: Letters, before: string, text: string, next: string)
    requires Sealed(l, before) && Literal(text, next)
    ensures Tokens(l, before + (text + next)) ==
            Tokens(l, before) + [Token(Quoted, |before|, |before| + |text|)] + Shift(Tokens(l, next), |before| + |text|)
  {
    hide Tokens, Literal, Sealed;
    var rest := Tokens(l, next);
    TokensConcat(l, before, text + next);
    PieceFirst(l, Piece(Quoted, text), next);
    ShiftConcat([Token(Quoted, 0, |text|)], Shift(rest, |text|), |before|);
    ShiftShift(rest, |text|, |before|);
    assert Shift([Token(Quoted, 0, |text|)], |before|) == [Token(Quoted, |before|, |before| + |text|)];
  }

  // ------------------------------------------------------------------ every text has pieces

  /** A short string's text from i on is a body, closed at e, or a body up to the end. */
  lemma {:induction false} ShortCut(q: string, c: char, i: nat) returns (e: nat)
    requires i <= |q| && c != '\\' && (i < |q| ==> q[|q| - 1] != '\\')
    ensures i <= e <= |q| && ShortBody(q[i..e], c)
    ensures e < |q| ==> q[e] == c
    decreases |q| - i
  {
    if i == |q| || q[i] == c {
      e := i;
    } else {
      var n := if q[i] == '\\' then 2 else 1;
      e := ShortCut(q, c, i + n);
      assert q[i..e][n..] == q[i + n..e];
    }
  }

  /** A long string's text from i on is a body, closed at e by three quotes, or ended there with at most two. */
  lemma {:induction false} LongCut(q: string, c: char, i: nat) returns (e: nat)
    requires i <= |q| && c != '\\' && (i < |q| ==> q[|q| - 1] != '\\')
    ensures i <= e <= |q| && LongBody(q[i..e], c)
    ensures if e + 3 <= |q| then q[e..e + 3] == [c, c, c] else forall j :: e <= j < |q| ==> q[j] == c
    decreases |q| - i
  {
    var k := RunLength(q, c, i);
    if i + k == |q| || k == 3 {
      e := i;
      assert k == 3 ==> q[e..e + 3] == [c, c, c];
      assert LongBody(q[i..i], c);
    } else {
      var n := if q[i + k] == '\\' then k + 2 else k + 1;
      e := LongCut(q, c, i + n);
      assert q[i..e][n..] == q[i + n..e];
      assert LongUnit(q[i..e], c, k);
    }
  }

  /** How many of at most three quotes stand at i. */
  lemma RunLength(q: string, c: char, i: nat) returns (k: nat)
    requires i <= |q|
    ensures k <= 3 && i + k <= |q| && forall j :: i <= j < i + k ==> q[j] == c
    ensures k < 3 && i + k < |q| ==> q[i + k] != c
  {
    k := 0;
    if i < |q| && q[i] == c {
      k := 1;
      if i + 1 < |q| && q[i + 1] == c {
        k := 2;
        if i + 2 < |q| && q[i + 2] == c {
          k := 3;
        }
      }
    }
  }

  /** A text that starts with a quote starts with a literal, or is one left open. */
  lemma QuotedFirst(q: string, c: char) returns (e: nat)
    requires q != "" && q[0] == c && (c == '"' || c == '\'') && q[|q| - 1] != '\\'
    ensures 0 < e <= |q| && WellFormedQuoted(q[..e], q[e..])
  {
    if |q| >= 3 && q[1] == c && q[2] == c {
      var b := LongCut(q, c, 3);
      if b + 3 <= |q| {
        e := b + 3;
        assert q[..e] == [c, c, c] + q[3..b] + [c, c, c];
        assert LiteralOf(q[..e], c, q[3..b], q[e..]);
      } else {
        e := |q|;
        assert q[..e] == [c, c, c] + q[3..b] + Copies(c, |q| - b);
        assert OpenLiteralOf(q[..e], c, q[3..b], |q| - b);
      }
    } else {
      var b := ShortCut(q, c, 1);
      if b < |q| {
        e := b + 1;
        assert q[..e] == [c] + q[1..b] + [c];
        assert LiteralOf(q[..e], c, q[1..b], q[e..]);
      } else {
        e := |q|;
        assert q[..e] == [c] + q[1..b];
        assert OpenLiteralOf(q[..e], c, q[1..b], 0);
      }
    }
  }

  ghost predicate WellFormedQuoted(text: string, next: string) {
    Literal(text, next) || (next == "" && OpenLiteral(text))
  }

  /** Every text but the empty one starts with a well-formed piece. */
  lemma FirstPiece(l: Letters, q: string) returns (p: Piece)
    requires q != "" && q[|q| - 1] != '\\'
    ensures p.text != "" && p.text <= q && WellFormed(l, p, q[|p.text|..])
  {
    var c := q[0];
    if c == '#' {
      var e := FindChar(q, '\n', 0);
      p := Piece(Comment, q[..e]);
      assert forall i :: 0 <= i < e ==> q[i] != '\n';
    } else if c == '"' || c == '\'' {
      var e := QuotedFirst(q, c);
      p := Piece(Quoted, q[..e]);
    } else if c == '<' {
      var close := FindChar(q, '>', 0);
      assert forall i :: 0 <= i < close ==> q[i] != '>';
      p := Piece(IriRef, if close < |q| then q[..close + 1] else q);
      assert p.text == "<" + q[1..close] + (if close < |q| then ">" else "");
      assert close == |q| ==> p.text == "<" + q[1..close];
    } else if c == '{' {
      p := Piece(Brace, q[..1]);
    } else if Starts(l, c) {
      var e := NameEnd(l, q, 1);
      p := Piece(Name, q[..e]);
      assert e < |q| ==> q[e..][0] == q[e];
    } else {
      p := Piece(Other, q[..1]);
    }
  }

  /** So every text that ends in no backslash is made of well-formed pieces, the last perhaps left open. */
  lemma {:induction false} EveryTextIsLexed(l: Letters, q: string) returns (ps: seq<Piece>)
    requires q == "" || q[|q| - 1] != '\\'
    ensures Lexed(l, ps) && Text(ps) == q
    decreases |q|
  {
    hide WellFormed;
    if q == "" {
      ps := [];
    } else {
      var p := FirstPiece(l, q);
      var rest := q[|p.text|..];
      assert rest != "" ==> rest[|rest| - 1] == q[|q| - 1];
      var more := EveryTextIsLexed(l, rest);
      ps := [p] + more;
      assert ps[1..] == more && p.text + rest == q;
    }
  }

  // ---------------------------------------------------------------------- what is reported

  /** A bare WHERE, in whatever case. */
  predicate Where(p: Piece) {
    && p.kind == Name && |p.text| == 5
    && p.text[0] in {'w', 'W'} && p.text[1] in {'h', 'H'} && p.text[2] in {'e', 'E'}
    && p.text[3] in {'r', 'R'} && p.text[4] in {'e', 'E'}
  }

  predicate Opens(p: Piece) {
    p.kind == Brace
  }

  /** The piece k, from a on, is the first that has the property. */
  ghost predicate FirstFrom(ps: seq<Piece>, a: nat, k: nat, has: Piece -> bool) {
    a <= k < |ps| && has(ps[k]) && forall j :: a <= j < k ==> !has(ps[j])
  }

  /** The position, counted from at, is that of the first piece from a on that has the property, or there is none. */
  ghost predicate FoundFrom(ps: seq<Piece>, at: nat, a: nat, has: Piece -> bool, found: Option<nat>) {
    match found
    case None => forall j :: a <= j < |ps| ==> !has(ps[j])
    case Some(i) => exists k: nat :: FirstFrom(ps, a, k, has) && at + StartOf(ps, k) == i
  }

  /** The position is that of the first brace after the first bare WHERE, or there is none. */
  ghost predicate GroupFound(ps: seq<Piece>, at: nat, found: Option<nat>) {
    || (found.None? && forall j :: 0 <= j < |ps| ==> !Where(ps[j]))
    || (exists k: nat :: FirstFrom(ps, 0, k, Where) && FoundFrom(ps, at, k + 1, Opens, found))
  }

  lemma FoundLater(ps: seq<Piece>, at: nat, a: nat, has: Piece -> bool, found: Option<nat>)
    requires ps != [] && FoundFrom(ps[1..], at + |ps[0].text|, a, has, found)
    ensures FoundFrom(ps, at, a + 1, has, found)
  {
    match found
    case None =>
      forall j | a + 1 <= j < |ps| ensures !has(ps[j]) {
        assert ps[1..][j - 1] == ps[j];
      }
    case Some(i) =>
      var k: nat :| FirstFrom(ps[1..], a, k, has) && at + |ps[0].text| + StartOf(ps[1..], k) == i;
      forall j | a + 1 <= j < k + 1 ensures !has(ps[j]) {
        assert ps[1..][j - 1] == ps[j];
      }
      assert FirstFrom(ps, a + 1, k + 1, has);
  }

  lemma FoundFirst(ps: seq<Piece>, at: nat, has: Piece -> bool, rest: Option<nat>)
    requires ps != [] && FoundFrom(ps, at, 1, has, rest)
    ensures FoundFrom(ps, at, 0, has, if has(ps[0]) then Some(at) else rest)
  {
    if has(ps[0]) {
      assert FirstFrom(ps, 0, 0, has);
    } else if rest.Some? {
      var k: nat :| FirstFrom(ps, 1, k, has) && at + StartOf(ps, k) == rest.value;
      assert FirstFrom(ps, 0, k, has);
    }
  }

  lemma {:induction false} BraceReports(ps: seq<Piece>, at: nat)
    ensures FoundFrom(ps, at, 0, Opens, FirstBrace(TokensOf(ps, at)))
    decreases |ps|
  {
    if ps != [] {
      var rest := FirstBrace(TokensOf(ps[1..], at + |ps[0].text|));
      BraceReports(ps[1..], at + |ps[0].text|);
      FoundLater(ps, at, 0, Opens, rest);
      FoundFirst(ps, at, Opens, rest);
    }
  }

  /** The text has these pieces from the position on. */
  predicate Holds(q: string, at: nat, ps: seq<Piece>) {
    at + |Text(ps)| == |q| && q[at..] == Text(ps)
  }

  lemma HoldsRest(q: string, at: nat, ps: seq<Piece>)
    requires Holds(q, at, ps) && ps != []
    ensures Holds(q, at + |ps[0].text|, ps[1..])
    ensures at + |ps[0].text| <= |q| && q[at..at + |ps[0].text|] == ps[0].text
  {
    assert q[at + |ps[0].text|..] == q[at..][|ps[0].text|..];
    assert q[at..at + |ps[0].text|] == q[at..][..|ps[0].text|];
  }

  lemma WhereIff(q: string, at: nat, p: Piece)
    requires at + |p.text| <= |q| && q[at..at + |p.text|] == p.text
    ensures IsWhereToken(q, Token(p.kind, at, at + |p.text|)) <==> Where(p)
  {
  }

  lemma {:induction false} WhereReports(q: string, ps: seq<Piece>, at: nat)
    requires Holds(q, at, ps)
    ensures FoundFrom(ps, at, 0, Where, FirstWhere(q, TokensOf(ps, at)))
    decreases |ps|
  {
    hide Where, IsWhereToken;
    if ps != [] {
      var rest := FirstWhere(q, TokensOf(ps[1..], at + |ps[0].text|));
      HoldsRest(q, at, ps);
      WhereReports(q, ps[1..], at + |ps[0].text|);
      FoundLater(ps, at, 0, Where, rest);
      FoundFirst(ps, at, Where, rest);
      WhereIff(q, at, ps[0]);
    }
  }

  lemma {:induction false} GroupReports(q: string, ps: seq<Piece>, at: nat)
    requires Holds(q, at, ps)
    ensures GroupFound(ps, at, BraceAfterWhere(q, TokensOf(ps, at)))
    decreases |ps|
  {
    hide Where, IsWhereToken, FoundFrom;
    if ps != [] {
      var later := at + |ps[0].text|;
      HoldsRest(q, at, ps);
      WhereIff(q, at, ps[0]);
      if Where(ps[0]) {
        BraceReports(ps[1..], later);
        FoundLater(ps, at, 0, Opens, FirstBrace(TokensOf(ps[1..], later)));
        assert FirstFrom(ps, 0, 0, Where);
      } else {
        GroupReports(q, ps[1..], later);
        GroupLater(ps, at, BraceAfterWhere(q, TokensOf(ps[1..], later)));
      }
    }
  }

  lemma GroupLater(ps: seq<Piece>, at: nat, found: Option<nat>)
    requires ps != [] && !Where(ps[0]) && GroupFound(ps[1..], at + |ps[0].text|, found)
    ensures GroupFound(ps, at, found)
  {
    hide Where, FoundFrom;
    if found.None? && forall j :: 0 <= j < |ps[1..]| ==> !Where(ps[1..][j]) {
      forall j | 0 <= j < |ps| ensures !Where(ps[j]) {
        if j > 0 {
          assert ps[1..][j - 1] == ps[j];
        }
      }
    } else {
      var k: nat :| FirstFrom(ps[1..], 0, k, Where) && FoundFrom(ps[1..], at + |ps[0].text|, k + 1, Opens, found);
      FoundLater(ps, at, k + 1, Opens, found);
      forall j | 0 <= j < k + 1 ensures !Where(ps[j]) {
        if j > 0 {
          assert ps[1..][j - 1] == ps[j];
        }
      }
      assert FirstFrom(ps, 0, k + 1, Where);
    }
  }

  /**
   Of a text made of well-formed pieces the scan reports the first brace, the first bare WHERE, and
   the first brace after it, among the pieces.
   */
  lemma ScanReports(l: Letters, ps: seq<Piece>)
    requires Lexed(l, ps)
    ensures var found := Scan(l, Text(ps));
            && FoundFrom(ps, 0, 0, Opens, found.firstBrace)
            && FoundFrom(ps, 0, 0, Where, found.whereAt)
            && GroupFound(ps, 0, found.group)
  {
    LexedTokens(l, ps);
    hide Lexed, FoundFrom, GroupFound;
    BraceReports(ps, 0);
    WhereReports(Text(ps), ps, 0);
    GroupReports(Text(ps), ps, 0);
  }

  // -------------------------------------------------------------------- outside of literals

  /** Wherever a string literal stands among the tokens, nothing the scan reports lies in it. */
  lemma NotInsideLiterals(l: Letters, before: string, text: string, next: string, i: nat)
    requires Sealed(l, before) && Literal(text, next)
    requires var found := Scan(l, before + (text + next)); Some(i) in {found.firstBrace, found.whereAt, found.group}
    ensures i < |before| || |before| + |text| <= i
  {
    var q := before + (text + next);
    var tokens := Tokens(l, q);
    LiteralIsOneToken(l, before, text, next);
    hide Sealed, Literal, Tokens;
    if FirstBrace(tokens) == Some(i) {
      FirstBraceIsToken(tokens);
    } else if FirstWhere(q, tokens) == Some(i) {
      Scope.FirstWhereIsToken(q, tokens);
    } else {
      GroupNeedsWhere(q, tokens);
    }
    var t :| t in tokens && t.kind in {Brace, Name} && t.start == i;
    hide FirstBrace, FirstWhere, BraceAfterWhere;
    if t in Tokens(l, before) {
      TokenStarts(l, before, 0, t);
    } else {
      assert t in Shift(Tokens(l, next), |before| + |text|);
    }
  }

  // ------------------------------------------------------------------------- the injection

  lemma {:induction false} TextConcat(a: seq<Piece>, b: seq<Piece>)
    ensures Text(a + b) == Text(a) + Text(b)
  {
    if a == [] {
      assert a + b == b;
    } else {
      assert (a + b)[1..] == a[1..] + b;
      TextConcat(a[1..], b);
    }
  }

  lemma {:induction false} StartIsLength(ps: seq<Piece>, k: nat)
    requires k <= |ps|
    ensures StartOf(ps, k) == |Text(ps[..k])|
    decreases k
  {
    if k > 0 {
      assert ps[..k][1..] == ps[1..][..k - 1];
      StartIsLength(ps[1..], k - 1);
    }
  }

  lemma CutAtBrace(l: Letters, ps: seq<Piece>, k: nat)
    requires Lexed(l, ps) && k < |ps| && Opens(ps[k])
    ensures var i := StartOf(ps, k);
            i < |Text(ps)| && Text(ps)[..i + 1] == Text(ps[..k + 1]) && Text(ps)[i + 1..] == Text(ps[k + 1..])
  {
    assert ps == ps[..k + 1] + ps[k + 1..] && ps[..k + 1] == ps[..k] + [ps[k]];
    TextConcat(ps[..k + 1], ps[k + 1..]);
    TextConcat(ps[..k], [ps[k]]);
    StartIsLength(ps, k);
    LexedPiece(l, ps, k);
    assert Text([ps[k]]) == ps[k].text + Text([]) == "{";
  }

  lemma {:induction false} LexedPiece(l: Letters, ps: seq<Piece>, k: nat)
    requires Lexed(l, ps) && k < |ps|
    ensures WellFormed(l, ps[k], Text(ps[k + 1..]))
    decreases k
  {
    if k > 0 {
      LexedPiece(l, ps[1..], k - 1);
      assert ps[1..][k..] == ps[k + 1..];
    }
  }

  /** The block stands right after the brace that is piece m, if the text with it parses. */
  ghost predicate InjectedAfter(ps: seq<Piece>, m: nat, block: string, parses: string -> bool, r: Result<string>) {
    && m < |ps|
    && var text := Text(ps[..m + 1]) + " " + block + " " + Text(ps[m + 1..]);
       r == if parses(text) then Ok(text) else Err(DoesNotParse)
  }

  /** What becomes of a template whose first bare WHERE is piece k. */
  ghost predicate InjectedFor(ps: seq<Piece>, k: nat, block: string, parses: string -> bool, r: Result<string>) {
    if forall j :: k < j < |ps| ==> !Opens(ps[j]) then r == Err(NoGroup)
    else if forall j :: 0 <= j < k && j < |ps| ==> !Opens(ps[j]) then r == Err(Shorthand)
    else exists m: nat :: FirstFrom(ps, k + 1, m, Opens) && InjectedAfter(ps, m, block, parses, r)
  }

  /**
   What becomes of a template of well-formed pieces: without a bare WHERE, without a brace after it or
   without one before it it is refused; otherwise the block goes right after the brace that follows it.
   */
  lemma InjectionByGrammar(
      l: Letters, n3: Serializer, parses: string -> bool, ps: seq<Piece>,
      bound: map<string, string>, decls: seq<ParamDecl>, block: string)
    requires Lexed(l, ps) && bound != map[] && ValuesBlock(n3, bound, decls) == Ok(block)
    ensures var r := InjectValues(l, n3, parses, Text(ps), bound, decls);
            if forall j :: 0 <= j < |ps| ==> !Where(ps[j]) then r == Err(NoWhere)
            else exists k: nat :: FirstFrom(ps, 0, k, Where) && InjectedFor(ps, k, block, parses, r)
  {
    hide ValuesBlock, Tokens, FirstBrace, FirstWhere, BraceAfterWhere, Lexed, Where, Opens, Spliced, InjectedFor, Text;
    var found := Scan(l, Text(ps));
    ScanReports(l, ps);
    if exists j :: 0 <= j < |ps| && Where(ps[j]) {
      var k: nat :| FirstFrom(ps, 0, k, Where) && FoundFrom(ps, 0, k + 1, Opens, found.group);
      WhereUnique(ps, k, found);
      BraceBefore(l, ps, k, found);
      InjectsFor(l, n3, parses, ps, bound, decls, block, k);
    }
  }

  lemma InjectsFor(
      l: Letters, n3: Serializer, parses: string -> bool, ps: seq<Piece>,
      bound: map<string, string>, decls: seq<ParamDecl>, block: string, k: nat)
    requires Lexed(l, ps) && bound != map[] && ValuesBlock(n3, bound, decls) == Ok(block) && k < |ps|
    requires var found := Scan(l, Text(ps));
             && FoundFrom(ps, 0, k + 1, Opens, found.group) && found.whereAt == Some(StartOf(ps, k))
             && (found.firstBrace.None? || StartOf(ps, k) < found.firstBrace.value <==>
                 forall j :: 0 <= j < k ==> !Opens(ps[j]))
    ensures InjectedFor(ps, k, block, parses, InjectValues(l, n3, parses, Text(ps), bound, decls))
  {
    hide ValuesBlock, Lexed, Scan, Opens, Text;
    var found := Scan(l, Text(ps));
    var r := InjectValues(l, n3, parses, Text(ps), bound, decls);
    if found.group.Some? {
      var m: nat :| FirstFrom(ps, k + 1, m, Opens) && 0 + StartOf(ps, m) == found.group.value;
      CutAtBrace(l, ps, m);
      if exists j :: 0 <= j < k && Opens(ps[j]) {
        assert InjectedAfter(ps, m, block, parses, r);
      }
    }
  }

  /** There is one first WHERE. */
  lemma WhereUnique(ps: seq<Piece>, k: nat, found: Positions)
    requires FirstFrom(ps, 0, k, Where) && FoundFrom(ps, 0, 0, Where, found.whereAt)
    ensures found.whereAt == Some(StartOf(ps, k))
  {
    hide Where;
    if found.whereAt.Some? {
      var m: nat :| FirstFrom(ps, 0, m, Where) && 0 + StartOf(ps, m) == found.whereAt.value;
      assert m == k;
    }
  }

  /** The first brace stands before the WHERE exactly when some brace does. */
  lemma BraceBefore(l: Letters, ps: seq<Piece>, k: nat, found: Positions)
    requires Lexed(l, ps) && k < |ps| && Where(ps[k]) && FoundFrom(ps, 0, 0, Opens, found.firstBrace)
    ensures found.firstBrace.None? || StartOf(ps, k) < found.firstBrace.value <==> forall j :: 0 <= j < k ==> !Opens(ps[j])
  {
    hide Lexed;
    if found.firstBrace.Some? {
      var b: nat :| FirstFrom(ps, 0, b, Opens) && StartOf(ps, b) == found.firstBrace.value;
      if b < k {
        StartsBefore(l, ps, b, k);
      } else {
        StartsBefore(l, ps, k, b);
      }
    }
  }

  lemma StartsBefore(l: Letters, ps: seq<Piece>, j: nat, k: nat)
    requires Lexed(l, ps) && j < k < |ps|
    ensures StartOf(ps, j) + |ps[j].text| <= StartOf(ps, k) && ps[j].text != ""
  {
    assert ps[..k] == ps[..j] + ([ps[j]] + ps[j + 1..k]);
    TextConcat(ps[..j], [ps[j]] + ps[j + 1..k]);
    assert ([ps[j]] + ps[j + 1..k])[1..] == ps[j + 1..k];
    StartIsLength(ps, j);
    StartIsLength(ps, k);
    LexedPiece(l, ps, j);
    PieceEnds(l, ps[j], Text(ps[j + 1..]));
  }

  lemma ReportedPiece(l: Letters, ps: seq<Piece>, i: nat) returns (k: nat)
    requires Lexed(l, ps)
    requires var found := Scan(l, Text(ps)); Some(i) in {found.firstBrace, found.whereAt, found.group}
    ensures k < |ps| && (Opens(ps[k]) || Where(ps[k])) && StartOf(ps, k) == i
  {
    var found := Scan(l, Text(ps));
    ScanReports(l, ps);
    hide Lexed, Scan, Opens, Where, StartOf, Text;
    if found.firstBrace == Some(i) {
      k :| FirstFrom(ps, 0, k, Opens) && 0 + StartOf(ps, k) == i;
    } else if found.whereAt == Some(i) {
      k :| FirstFrom(ps, 0, k, Where) && 0 + StartOf(ps, k) == i;
    } else {
      var w: nat :| FirstFrom(ps, 0, w, Where) && FoundFrom(ps, 0, w + 1, Opens, found.group);
      k :| FirstFrom(ps, w + 1, k, Opens) && 0 + StartOf(ps, k) == i;
    }
  }

  /** No brace and no WHERE is reported that stands in a string literal, a comment or an IRI. */
  lemma ReportedOutside(l: Letters, ps: seq<Piece>, j: nat, i: nat)
    requires Lexed(l, ps) && j < |ps| && ps[j].kind in {Quoted, Comment, IriRef}
    requires var found := Scan(l, Text(ps)); Some(i) in {found.firstBrace, found.whereAt, found.group}
    ensures i < StartOf(ps, j) || StartOf(ps, j) + |ps[j].text| <= i
  {
    hide Lexed, Scan;
    var k := ReportedPiece(l, ps, i);
    if k < j {
      StartsBefore(l, ps, k, j);
    } else {
      StartsBefore(l, ps, j, k);
    }
  }

  /** The engine's clause goes right before the first bare WHERE; without one there is no place for it. */
  lemma ScopingByGrammar(l: Letters, graph: string, ps: seq<Piece>)
    requires Lexed(l, ps)
    ensures var r := Scope.StateScoped(l, graph, Text(ps));
            if forall j :: 0 <= j < |ps| ==> !Where(ps[j]) then r == None
            else exists k: nat :: FirstFrom(ps, 0, k, Where) && ScopedBefore(ps, k, graph, r)
  {
    hide Tokens, FirstBrace, FirstWhere, BraceAfterWhere, Lexed, Where;
    ScanReports(l, ps);
    var found := Scan(l, Text(ps));
    if found.whereAt.Some? {
      var k: nat :| FirstFrom(ps, 0, k, Where) && 0 + StartOf(ps, k) == found.whereAt.value;
      CutAtPiece(ps, k);
      assert ScopedBefore(ps, k, graph, Scope.StateScoped(l, graph, Text(ps)));
    }
  }

  ghost predicate ScopedBefore(ps: seq<Piece>, k: nat, graph: string, r: Option<string>) {
    k <= |ps| && r == Some(Text(ps[..k]) + ("FROM <" + graph + "> ") + Text(ps[k..]))
  }

  lemma CutAtPiece(ps: seq<Piece>, k: nat)
    requires k <= |ps|
    ensures var i := StartOf(ps, k);
            i <= |Text(ps)| && Text(ps)[..i] == Text(ps[..k]) && Text(ps)[i..] == Text(ps[k..])
  {
    assert ps == ps[..k] + ps[k..];
    TextConcat(ps[..k], ps[k..]);
    StartIsLength(ps, k);
  }
}
