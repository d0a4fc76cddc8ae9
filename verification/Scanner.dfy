/**
 The hand-written scan that finds a query's WHERE group, and the tokenizer it is: comments,
 short and long strings, IRI references, braces, names, and single characters of anything else.
 */
module Scanner {
  import opened Options

  /** Which characters count as letters, and which as letters or digits. */
  datatype Letters = Letters(alpha: char -> bool, alnum: char -> bool)

  predicate AsciiLetter(c: char) {
    'a' <= c <= 'z' || 'A' <= c <= 'Z'
  }

  predicate AsciiAlnum(c: char) {
    AsciiLetter(c) || '0' <= c <= '9'
  }

  /** On ASCII the classification is the usual one, and letters are letters or digits. */
  ghost predicate Usual(l: Letters) {
    && (forall c: char :: c <= '~' ==> (l.alpha(c) <==> AsciiLetter(c)))
    && (forall c: char :: c <= '~' ==> (l.alnum(c) <==> AsciiAlnum(c)))
    && (forall c: char :: l.alpha(c) ==> l.alnum(c))
  }

  // ---------------------------------------------------------------------- one token

  datatype Kind = Comment | Quoted | IriRef | Brace | Name | Other

  datatype Token = Token(kind: Kind, start: nat, end: nat)

  predicate IsQuote(c: char) {
    c == '\'' || c == '"'
  }

  predicate StartsName(l: Letters, c: char) {
    l.alpha(c) || c in "_?$:"
  }

  predicate ContinuesName(l: Letters, c: char) {
    l.alnum(c) || c in "_-.:"
  }

  function KindOf(l: Letters, c: char): Kind {
    if c == '#' then Comment
    else if IsQuote(c) then Quoted
    else if c == '<' then IriRef
    else if c == '{' then Brace
    else if StartsName(l, c) then Name
    else Other
  }

  /** Index of the first c at or after i; |q| if there is none. */
  function FindChar(q: string, c: char, i: nat): (j: nat)
    requires i <= |q|
    ensures i <= j <= |q|
    ensures j < |q| ==> q[j] == c
    ensures forall k :: i <= k < j ==> q[k] != c
    decreases |q| - i
  {
    if i == |q| || q[i] == c then i else FindChar(q, c, i + 1)
  }

  predicate StartsWithAt(q: string, s: string, i: nat) {
    i + |s| <= |q| && q[i..i + |s|] == s
  }

  /** Three quotes open a long string, one a short string. */
  function QuoteAt(q: string, i: nat): (quote: string)
    requires i < |q|
    ensures |quote| == 1 || |quote| == 3
    ensures quote[0] == q[i]
    ensures i + |quote| <= |q|
  {
    if StartsWithAt(q, "'''", i) || StartsWithAt(q, "\"\"\"", i) then q[i..i + 3] else [q[i]]
  }

  /** Where the string body starting at i ends: past the closing quote, or past the text if none. */
  function StringEnd(q: string, quote: string, i: nat): (end: nat)
    requires |quote| >= 1
    ensures end >= i
    decreases if i < |q| then |q| - i else 0
  {
    if i >= |q| then i
    else if q[i] == '\\' then StringEnd(q, quote, i + 2)
    else if StartsWithAt(q, quote, i) then i + |quote|
    else StringEnd(q, quote, i + 1)
  }

  function NameEnd(l: Letters, q: string, i: nat): (j: nat)
    requires i <= |q|
    ensures i <= j <= |q|
    ensures forall k :: i <= k < j ==> ContinuesName(l, q[k])
    ensures j < |q| ==> !ContinuesName(l, q[j])
    decreases |q| - i
  {
    if i == |q| || !ContinuesName(l, q[i]) then i else NameEnd(l, q, i + 1)
  }

  function TokenEnd(l: Letters, q: string, i: nat): (end: nat)
    requires i < |q|
    ensures end > i
  {
    match KindOf(l, q[i])
    case Comment => FindChar(q, '\n', i)
    case Quoted => var quote := QuoteAt(q, i); StringEnd(q, quote, i + |quote|)
    case IriRef =>
      var close := FindChar(q, '>', i);
      if close == |q| then |q| else close + 1
    case Brace => i + 1
    case Name => NameEnd(l, q, i + 1)
    case Other => i + 1
  }

  // ------------------------------------------------------------------- the tokenizer

  function TokensFrom(l: Letters, q: string, i: nat): seq<Token>
    decreases if i < |q| then |q| - i else 0
  {
    if i >= |q| then []
    else [Token(KindOf(l, q[i]), i, TokenEnd(l, q, i))] + TokensFrom(l, q, TokenEnd(l, q, i))
  }

  function Tokens(l: Letters, q: string): seq<Token> {
    TokensFrom(l, q, 0)
  }

  function Lower(c: char): char {
    if 'A' <= c <= 'Z' then c - 'A' + 'a' else c
  }

  /** text.upper() == "WHERE" */
  predicate IsWhere(text: string) {
    |text| == 5 && Lower(text[0]) == 'w' && Lower(text[1]) == 'h' && Lower(text[2]) == 'e'
    && Lower(text[3]) == 'r' && Lower(text[4]) == 'e'
  }

  predicate IsWhereToken(q: string, t: Token) {
    t.kind == Name && t.start <= t.end <= |q| && IsWhere(q[t.start..t.end])
  }

  /** Start of the first brace. */
  function FirstBrace(tokens: seq<Token>): Option<nat> {
    if tokens == [] then None
    else if tokens[0].kind == Brace then Some(tokens[0].start)
    else FirstBrace(tokens[1..])
  }

  /** Start of the first bare WHERE. */
  function FirstWhere(q: string, tokens: seq<Token>): Option<nat> {
    if tokens == [] then None
    else if IsWhereToken(q, tokens[0]) then Some(tokens[0].start)
    else FirstWhere(q, tokens[1..])
  }

  /** Start of the first brace after the first bare WHERE. */
  function BraceAfterWhere(q: string, tokens: seq<Token>): Option<nat> {
    if tokens == [] then None
    else if IsWhereToken(q, tokens[0]) then FirstBrace(tokens[1..])
    else BraceAfterWhere(q, tokens[1..])
  }

  // ------------------------------------------------------------------------ the scan

  /** What remains to be found after a scan that has found these so far. */
  function OrElse<T>(found: Option<T>, rest: Option<T>): Option<T> {
    if found.Some? then found else rest
  }

  method ScanWhereGroup(l: Letters, query: string)
    returns (firstBrace: Option<nat>, whereAt: Option<nat>, whereBrace: Option<nat>)
    ensures firstBrace == FirstBrace(Tokens(l, query))
    ensures whereAt == FirstWhere(query, Tokens(l, query))
    ensures whereBrace == BraceAfterWhere(query, Tokens(l, query))
  {
    firstBrace, whereAt, whereBrace := None, None, None;
    var i, n := 0, |query|;
    while i < n
      invariant FirstBrace(Tokens(l, query)) == OrElse(firstBrace, FirstBrace(TokensFrom(l, query, i)))
      invariant FirstWhere(query, Tokens(l, query)) == OrElse(whereAt, FirstWhere(query, TokensFrom(l, query, i)))
      invariant BraceAfterWhere(query, Tokens(l, query)) ==
                OrElse(whereBrace, if whereAt.Some? then FirstBrace(TokensFrom(l, query, i))
                                   else BraceAfterWhere(query, TokensFrom(l, query, i)))
      invariant whereBrace.Some? ==> whereAt.Some?
      decreases if i < n then n - i else 0
    {
      var ch := query[i];
      ghost var at := i;
      ghost var rest := TokensFrom(l, query, TokenEnd(l, query, at));
      assert TokensFrom(l, query, at)[1..] == rest;
      if ch == '#' {
        i := FindNewline(query, i);
      } else if IsQuote(ch) {
        i := SkipString(query, i);
      } else if ch == '<' {
        i := SkipIri(query, i);
      } else if ch == '{' {
        if firstBrace.None? {
          firstBrace := Some(i);
        }
        if whereAt.Some? && whereBrace.None? {
          whereBrace := Some(i);
        }
        i := i + 1;
      } else if StartsName(l, ch) {
        var start := i;
        i := i + 1;
        while i < n && ContinuesName(l, query[i])
          invariant start < i <= n
          invariant NameEnd(l, query, start + 1) == NameEnd(l, query, i)
        {
          i := i + 1;
        }
        if whereAt.None? && IsWhere(query[start..i]) {
          whereAt := Some(start);
        }
      } else {
        i := i + 1;
      }
      assert i == TokenEnd(l, query, at);
    }
  }

  method FindNewline(q: string, i: nat) returns (j: nat)
    requires i <= |q|
    ensures j == FindChar(q, '\n', i)
  {
    j := i;
    while j < |q| && q[j] != '\n'
      invariant i <= j <= |q| && FindChar(q, '\n', i) == FindChar(q, '\n', j)
    {
      j := j + 1;
    }
  }

  method SkipString(q: string, i: nat) returns (end: nat)
    requires i < |q|
    ensures var quote := QuoteAt(q, i); end == StringEnd(q, quote, i + |quote|)
  {
    var quote := QuoteAt(q, i);
    end := i + |quote|;
    while end < |q|
      invariant StringEnd(q, quote, i + |quote|) == StringEnd(q, quote, end)
      decreases if end < |q| then |q| - end else 0
    {
      if q[end] == '\\' {
        end := end + 2;
      } else if StartsWithAt(q, quote, end) {
        end := end + |quote|;
        return;
      } else {
        end := end + 1;
      }
    }
  }

  method SkipIri(q: string, i: nat) returns (end: nat)
    requires i < |q|
    ensures var close := FindChar(q, '>', i); end == if close == |q| then |q| else close + 1
  {
    var close := i;
    while close < |q| && q[close] != '>'
      invariant i <= close <= |q| && FindChar(q, '>', i) == FindChar(q, '>', close)
    {
      close := close + 1;
    }
    end := if close == |q| then |q| else close + 1;
  }
}
