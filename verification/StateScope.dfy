/**
 State scoping: the engine puts a FROM clause naming the state graph before a query's WHERE, and
 the store finds such clauses by pattern, blanks them, and widens the scope of the evaluation.
 */
module StateScope {
  import opened Options
  import opened Scanner
  import opened Splicing
  import opened Lexing
  import opened Bindings

  /** What the pattern depends on: which characters are space, and case folding in the graph name. */
  datatype Text = Text(letters: Letters, space: char -> bool, fold: char -> char)

  ghost predicate UsualText(t: Text) {
    && Usual(t.letters) && t.space(' ')
    && (forall c: char :: '!' <= c <= '~' ==> !t.space(c))
    && (forall c: char :: t.space(c) ==> !t.letters.alnum(c))
    && (forall c: char :: c != '>' ==> t.fold(c) != t.fold('>'))
    && (forall c: char :: c != '<' ==> t.fold(c) != t.fold('<'))
  }

  predicate WordChar(t: Text, c: char) {
    t.letters.alnum(c) || c == '_'
  }

  // ----------------------------------------------------------------- the engine's side

  function Clause(graph: string): string {
    "FROM <" + graph + "> "
  }

  function StateScoped(l: Letters, graph: string, query: string): Option<string> {
    match Scan(l, query).whereAt
    case None => None
    case Some(w) =>
      WhereIsToken(l, query);
      Some(query[..w] + Clause(graph) + query[w..])
  }

  // ------------------------------------------------------------------- the store's side

  predicate SameFolded(fold: char -> char, a: string, b: string) {
    |a| == |b| && forall i :: 0 <= i < |a| ==> fold(a[i]) == fold(b[i])
  }

  /** s is the word in any letter case. */
  predicate IsKeyword(s: string, word: string) {
    |s| == |word| && forall k :: 0 <= k < |word| ==> Lower(s[k]) == word[k]
  }

  predicate Spaces(t: Text, s: string) {
    |s| > 0 && forall c :: c in s ==> t.space(c)
  }

  /** FROM and spaces, with NAMED and spaces between or not: the pattern up to the graph name. */
  predicate Head(t: Text, h: string) {
    && |h| > 4 && IsKeyword(h[..4], "from")
    && (Spaces(t, h[4..]) ||
        exists m :: 4 < m < |h| - 5 && Spaces(t, h[4..m]) && IsKeyword(h[m..m + 5], "named") && Spaces(t, h[m + 5..]))
  }

  /** The pattern matches the text from i to e: it starts at a word's start, and the graph name ends it. */
  predicate Matches(t: Text, graph: string, q: string, i: nat, e: nat) {
    && i + |graph| + 2 <= e <= |q|
    && (i > 0 ==> !WordChar(t, q[i - 1]))
    && Head(t, q[i..e - |graph| - 2])
    && SameFolded(t.fold, q[e - |graph| - 2..e], "<" + graph + ">")
  }

  ghost predicate MatchesAt(t: Text, graph: string, q: string, i: nat) {
    exists e :: Matches(t, graph, q, i, e)
  }

  /** The text from i on with every match of the pattern, leftmost first, replaced by a space. */
  ghost function Blanked(t: Text, graph: string, q: string, i: nat): string
    decreases if i < |q| then |q| - i else 0
  {
    if i >= |q| then ""
    else if MatchesAt(t, graph, q, i) then
      var e :| Matches(t, graph, q, i, e);
      " " + Blanked(t, graph, q, e)
    else [q[i]] + Blanked(t, graph, q, i + 1)
  }

  ghost predicate MentionsScope(t: Text, graph: string, q: string) {
    exists i :: 0 <= i < |q| && MatchesAt(t, graph, q, i)
  }

  ghost function ApplyStateScope(t: Text, graph: string, q: string): (string, bool) {
    if MentionsScope(t, graph, q) then (Blanked(t, graph, q, 0), true) else (q, false)
  }

  // ------------------------------------------------------------------ what a match is made of

  lemma HeadChars(t: Text, h: string, k: nat)
    requires UsualText(t) && Head(t, h) && k < |h|
    ensures h[k] != '>'
    ensures Lower(h[k]) == 'f' <==> k == 0
  {
    if k < 4 {
      assert Lower(h[..4][k]) == "from"[k];
    } else if Spaces(t, h[4..]) {
      assert h[4..][k - 4] in h[4..];
    } else {
      var m :| 4 < m < |h| - 5 && Spaces(t, h[4..m]) && IsKeyword(h[m..m + 5], "named") && Spaces(t, h[m + 5..]);
      if k < m {
        assert h[4..m][k - 4] in h[4..m];
      } else if k < m + 5 {
        assert Lower(h[m..m + 5][k - m]) == "named"[k - m];
      } else {
        assert h[m + 5..][k - m - 5] in h[m + 5..];
      }
    }
  }

  /** Within a match '>' stands only at the end, and before the graph name 'f' only at the start. */
  lemma MatchChars(t: Text, graph: string, q: string, i: nat, e: nat, k: nat)
    requires UsualText(t) && '>' !in graph && Matches(t, graph, q, i, e) && i <= k < e
    ensures q[k] == '>' <==> k == e - 1
    ensures k < e - |graph| - 2 ==> (Lower(q[k]) == 'f' <==> k == i)
  {
    var a := e - |graph| - 2;
    if k < a {
      HeadChars(t, q[i..a], k - i);
    } else {
      var bracketed := "<" + graph + ">";
      assert t.fold(q[a..e][k - a]) == t.fold(bracketed[k - a]);
      assert k < e - 1 ==> bracketed[k - a] == if k == a then '<' else graph[k - a - 1];
    }
  }

  lemma MatchBounds(t: Text, graph: string, q: string, i: nat, e: nat)
    requires Matches(t, graph, q, i, e)
    ensures i + 4 < e - |graph| - 2 && e <= |q|
  {
    assert |q[i..e - |graph| - 2]| > 4;
  }

  lemma BoundaryBefore(t: Text, graph: string, q: string, i: nat, e: nat)
    requires Matches(t, graph, q, i, e)
    ensures i > 0 ==> !WordChar(t, q[i - 1])
  {
  }

  lemma SliceOfSlice(s: string, i: nat, e: nat, a: nat, b: nat)
    requires i <= e <= |s| && a <= b <= e - i
    ensures s[i..e][a..b] == s[i + a..i + b]
  {
    var u := s[i..e];
    assert forall k :: 0 <= k < |u| ==> u[k] == s[i + k];
    assert forall k :: 0 <= k < b - a ==> u[a..b][k] == u[a + k];
  }

  /** The same text elsewhere, after a word boundary, matches too. */
  lemma MatchMoves(t: Text, graph: string, q: string, i: nat, e: nat, r: string, j: nat)
    requires Matches(t, graph, q, i, e) && j + (e - i) <= |r| && q[i..e] == r[j..j + (e - i)]
    requires j > 0 ==> !WordChar(t, r[j - 1])
    ensures Matches(t, graph, r, j, j + (e - i))
  {
    hide Head, SameFolded;
    var n, m := e - i, e - i - |graph| - 2;
    SliceOfSlice(q, i, e, 0, m);
    SliceOfSlice(r, j, j + n, 0, m);
    SliceOfSlice(q, i, e, m, n);
    SliceOfSlice(r, j, j + n, m, n);
  }

  // ------------------------------------------------------------------------- the inserted clause

  /** The clause itself matches, if what precedes it is no word character. */
  lemma ClauseMatches(t: Text, graph: string, p: string, y: string)
    requires UsualText(t) && (|p| > 0 ==> !WordChar(t, p[|p| - 1]))
    ensures Matches(t, graph, p + Clause(graph) + y, |p|, |p| + |graph| + 7)
  {
    var r := p + Clause(graph) + y;
    var a, e := |p| + 5, |p| + |graph| + 7;
    var h := r[|p|..a];
    assert h == "FROM ";
    assert h[..4] == "FROM" && h[4..] == " ";
    var bracketed := "<" + graph + ">";
    assert r[a..e] == bracketed by {
      assert forall k :: 0 <= k < |bracketed| ==> r[a + k] == bracketed[k];
    }
  }

  /** A match in the scoped text is one before the clause, the clause itself, or one after it. */
  lemma MatchInScoped(t: Text, graph: string, p: string, y: string, i: nat, e: nat)
    requires UsualText(t) && '>' !in graph && |y| > 0 && Lower(y[0]) == 'w'
    requires Matches(t, graph, p + Clause(graph) + y, i, e)
    ensures var d := |p| + |graph| + 8;
            || (e <= |p| && Matches(t, graph, p, i, e))
            || (i == |p| && e == d - 1)
            || (i > d && Matches(t, graph, y, i - d, e - d))
  {
    var c := Clause(graph);
    var r := p + c + y;
    var close := |p| + |graph| + 6;
    assert r[close] == '>' && r[close + 1] == ' ' && r[|p|] == 'F';
    assert forall k :: |p| <= k < close ==> r[k] == c[k - |p|] && c[k - |p|] != '>';
    MatchChars(t, graph, r, i, e, e - 1);
    MatchChars(t, graph, r, i, e, i);
    if e <= |p| {
      assert p[i..e] == r[i..e];
      MatchMoves(t, graph, r, i, e, p, i);
    } else if i <= close {
      MatchChars(t, graph, r, i, e, close);
      assert e == close + 1;
      if i < |p| { MatchChars(t, graph, r, i, e, |p|); }
    } else {
      var d := |p| + |c|;
      assert r[i] == if i == close + 1 then ' ' else y[i - d];
      assert i > d && y[i - d - 1] == r[i - 1];
      assert (p + c + y)[i..e] == y[i - d..e - d] by {
        SuffixOf(p + c, y, i, e);
      }
      MatchMoves(t, graph, r, i, e, y, i - d);
    }
  }

  lemma SuffixOf(p: string, y: string, i: nat, e: nat)
    requires |p| <= i <= e <= |p| + |y|
    ensures (p + y)[i..e] == y[i - |p|..e - |p|]
  {
    var q := p + y;
    assert forall k :: 0 <= k < e - i ==> q[i..e][k] == q[i + k] && y[i - |p|..e - |p|][k] == y[i - |p| + k];
  }

  /** Matches before the clause and after it stay. */
  lemma MatchStaysBefore(t: Text, graph: string, p: string, rest: string, i: nat, e: nat)
    requires Matches(t, graph, p, i, e)
    ensures Matches(t, graph, p + rest, i, e)
  {
    BoundaryBefore(t, graph, p, i, e);
    MatchBounds(t, graph, p, i, e);
    hide Matches;
    assert p[i..e] == (p + rest)[i..e];
    MatchMoves(t, graph, p, i, e, p + rest, i);
  }

  lemma MatchStaysAfter(t: Text, graph: string, front: string, y: string, i: nat, e: nat)
    requires i > 0 && Matches(t, graph, y, i, e)
    ensures Matches(t, graph, front + y, i + |front|, e + |front|)
  {
    BoundaryBefore(t, graph, y, i, e);
    MatchBounds(t, graph, y, i, e);
    hide Matches;
    SuffixOf(front, y, i + |front|, e + |front|);
    assert (front + y)[i + |front| - 1] == y[i - 1];
    MatchMoves(t, graph, y, i, e, front + y, i + |front|);
  }

  lemma {:induction false} Copied(t: Text, graph: string, q: string, i: nat, j: nat)
    requires i <= j <= |q| && forall k :: i <= k < j ==> !MatchesAt(t, graph, q, k)
    ensures Blanked(t, graph, q, i) == q[i..j] + Blanked(t, graph, q, j)
    decreases j - i
  {
    if i < j {
      Copied(t, graph, q, i + 1, j);
      assert q[i..j] == [q[i]] + q[i + 1..j];
    }
  }

  /** Every match is replaced by something shorter. */
  lemma {:induction false} BlankedShrinks(t: Text, graph: string, q: string, i: nat)
    requires i <= |q|
    ensures |Blanked(t, graph, q, i)| <= |q| - i
    ensures (exists k :: i <= k < |q| && MatchesAt(t, graph, q, k)) ==> |Blanked(t, graph, q, i)| < |q| - i
    decreases |q| - i
  {
    if i < |q| {
      if MatchesAt(t, graph, q, i) {
        var e: nat :| Matches(t, graph, q, i, e) && Blanked(t, graph, q, i) == " " + Blanked(t, graph, q, e);
        assert |q[i..e - |graph| - 2]| > 4;
        BlankedShrinks(t, graph, q, e);
      } else {
        BlankedShrinks(t, graph, q, i + 1);
      }
    }
  }

  /** A text with a single match is blanked there and nowhere else. */
  lemma BlankedOnce(t: Text, graph: string, r: string, i: nat, e: nat)
    requires i < e <= |r| && Matches(t, graph, r, i, e)
    requires forall k, f :: 0 <= k < |r| && Matches(t, graph, r, k, f) ==> k == i && f == e
    ensures Blanked(t, graph, r, 0) == r[..i] + " " + r[e..]
  {
    assert MatchesAt(t, graph, r, i);
    Copied(t, graph, r, 0, i);
    Copied(t, graph, r, e, |r|);
    var f :| Matches(t, graph, r, i, f) && Blanked(t, graph, r, i) == " " + Blanked(t, graph, r, f);
    assert Blanked(t, graph, r, |r|) == "";
    assert r[0..i] == r[..i] && r[e..|r|] == r[e..];
    assert r[..i] + (" " + r[e..]) == r[..i] + " " + r[e..];
  }

  lemma ScopedParts(graph: string, p: string, y: string)
    ensures var r := p + Clause(graph) + y;
            r[..|p|] == p && r[|p| + |graph| + 7..] == " " + y && p + " " + (" " + y) == p + "  " + y
  {
  }

  /** Blanking the scoped text leaves the text with two more spaces. */
  lemma ClauseIsBlanked(t: Text, graph: string, p: string, y: string)
    requires UsualText(t) && '>' !in graph && !MentionsScope(t, graph, p) && !MentionsScope(t, graph, y)
    requires |y| > 0 && Lower(y[0]) == 'w' && (|p| > 0 ==> !WordChar(t, p[|p| - 1]))
    ensures ApplyStateScope(t, graph, p + Clause(graph) + y) == (p + "  " + y, true)
  {
    var r := p + Clause(graph) + y;
    var end := |p| + |graph| + 7;
    ClauseMatches(t, graph, p, y);
    assert MatchesAt(t, graph, r, |p|);
    forall k: nat, f: nat | k < |r| && Matches(t, graph, r, k, f) ensures k == |p| && f == end {
      MatchInScoped(t, graph, p, y, k, f);
      NotMentioned(t, graph, p, k, f);
      NotMentioned(t, graph, y, k - end - 1, f - end - 1);
    }
    BlankedOnce(t, graph, r, |p|, end);
    ScopedParts(graph, p, y);
  }

  lemma NotMentioned(t: Text, graph: string, q: string, i: int, e: int)
    requires !MentionsScope(t, graph, q)
    ensures i >= 0 && e >= 0 ==> !Matches(t, graph, q, i, e)
  {
    if i >= 0 && e >= 0 && Matches(t, graph, q, i, e) {
      assert MatchesAt(t, graph, q, i);
    }
  }

  /** Before the first match nothing is blanked. */
  lemma BlankedFirst(t: Text, graph: string, r: string, k: nat)
    requires k < |r| && MatchesAt(t, graph, r, k) && forall i :: 0 <= i < k ==> !MatchesAt(t, graph, r, i)
    ensures |Blanked(t, graph, r, 0)| > k && Blanked(t, graph, r, 0)[k] == ' '
  {
    Copied(t, graph, r, 0, k);
    assert |r[0..k]| == k;
  }

  lemma {:induction false} FirstMatch(t: Text, graph: string, r: string, k: nat) returns (first: nat)
    requires MatchesAt(t, graph, r, k)
    ensures first <= k && MatchesAt(t, graph, r, first) && forall i :: 0 <= i < first ==> !MatchesAt(t, graph, r, i)
  {
    if i: nat :| i < k && MatchesAt(t, graph, r, i) {
      first := FirstMatch(t, graph, r, i);
    } else {
      first := k;
    }
  }

  /** A clause mentioned before WHERE is blanked as well, and its place shows it. */
  lemma EarlierMentionShows(t: Text, graph: string, p: string, y: string)
    requires UsualText(t) && '>' !in graph && MentionsScope(t, graph, p)
    ensures ApplyStateScope(t, graph, p + Clause(graph) + y).0 != p + "  " + y
  {
    var r := p + Clause(graph) + y;
    var i: nat :| i < |p| && MatchesAt(t, graph, p, i);
    var e: nat :| Matches(t, graph, p, i, e);
    MatchStaysBefore(t, graph, p, Clause(graph) + y, i, e);
    assert p + (Clause(graph) + y) == r;
    assert MatchesAt(t, graph, r, i);
    var k := FirstMatch(t, graph, r, i);
    BlankedFirst(t, graph, r, k);
    FIsNoSpace(t, graph, r, k);
    assert (p + "  " + y)[k] == p[k] == r[k];
  }

  lemma FIsNoSpace(t: Text, graph: string, r: string, k: nat)
    requires UsualText(t) && '>' !in graph && MatchesAt(t, graph, r, k)
    ensures k < |r| && r[k] != ' '
  {
    var e: nat :| Matches(t, graph, r, k, e);
    assert |r[k..e - |graph| - 2]| > 4;
    MatchChars(t, graph, r, k, e, k);
  }

  /** After a word character no boundary stands before the clause, and it stays. */
  lemma ClauseIsMissed(t: Text, graph: string, p: string, y: string)
    requires UsualText(t) && '>' !in graph && !MentionsScope(t, graph, p)
    requires |y| > 0 && Lower(y[0]) == 'w' && |p| > 0 && WordChar(t, p[|p| - 1])
    ensures ApplyStateScope(t, graph, p + Clause(graph) + y).0 != p + "  " + y
    ensures !MentionsScope(t, graph, y) ==>
      ApplyStateScope(t, graph, p + Clause(graph) + y) == (p + Clause(graph) + y, false)
  {
    var r := p + Clause(graph) + y;
    assert r[|p|] == 'F' && r[|p| - 1] == p[|p| - 1] && (p + "  " + y)[|p|] == ' ';
    forall k, e: nat | 0 <= k < |r| && Matches(t, graph, r, k, e)
      ensures k > |p| && MentionsScope(t, graph, y)
    {
      MatchInScoped(t, graph, p, y, k, e);
      NotMentioned(t, graph, p, k, e);
      assert MatchesAt(t, graph, y, k - |p| - |graph| - 8);
    }
    assert forall k :: 0 <= k <= |p| ==> !MatchesAt(t, graph, r, k);
    Copied(t, graph, r, 0, |p| + 1);
    assert r[0..|p| + 1][|p|] == 'F';
  }

  /** A clause mentioned after WHERE is blanked as well, and the text is too short. */
  lemma LaterMentionShows(t: Text, graph: string, p: string, y: string)
    requires UsualText(t) && '>' !in graph && !MentionsScope(t, graph, p) && MentionsScope(t, graph, y)
    requires |y| > 0 && Lower(y[0]) == 'w' && (|p| > 0 ==> !WordChar(t, p[|p| - 1]))
    ensures ApplyStateScope(t, graph, p + Clause(graph) + y).0 != p + "  " + y
  {
    var r, end := p + Clause(graph) + y, |p| + |graph| + 7;
    ClauseMatches(t, graph, p, y);
    assert MatchesAt(t, graph, r, |p|);
    forall k, f: nat | 0 <= k <= |p| && Matches(t, graph, r, k, f) ensures k == |p| && f == end {
      MatchInScoped(t, graph, p, y, k, f);
      NotMentioned(t, graph, p, k, f);
    }
    assert forall k :: 0 <= k < |p| ==> !MatchesAt(t, graph, r, k);
    Copied(t, graph, r, 0, |p|);
    var f: nat :| Matches(t, graph, r, |p|, f) && Blanked(t, graph, r, |p|) == " " + Blanked(t, graph, r, f);
    var i: nat :| i < |y| && MatchesAt(t, graph, y, i);
    var e: nat :| Matches(t, graph, y, i, e);
    assert i > 0 by {
      FIsNoW(t, graph, y, e);
    }
    MatchStaysAfter(t, graph, p + Clause(graph), y, i, e);
    assert MatchesAt(t, graph, r, i + end + 1);
    BlankedShrinks(t, graph, r, end);
  }

  lemma FIsNoW(t: Text, graph: string, y: string, e: nat)
    requires UsualText(t) && '>' !in graph && |y| > 0 && Lower(y[0]) == 'w'
    ensures !Matches(t, graph, y, 0, e)
  {
    if Matches(t, graph, y, 0, e) {
      assert |y[0..e - |graph| - 2]| > 4;
      MatchChars(t, graph, y, 0, e, 0);
    }
  }

  // -------------------------------------------------------------------------- the round trip

  /**
   The store undoes the engine's scoping (the flag set, the query back with two extra spaces) if and
   only if no word character directly precedes WHERE, and neither the text before WHERE nor the text
   from it on has anything the pattern takes for a state clause: one of the query's own, or one that
   stands in a string or a comment.
   */
  lemma ScopeIsUndoneIff(t: Text, graph: string, query: string)
    requires UsualText(t) && '>' !in graph && Scan(t.letters, query).whereAt.Some?
    ensures var w := Scan(t.letters, query).whereAt.value;
            var scoped := StateScoped(t.letters, graph, query);
            && w <= |query| && scoped.Some?
            && (ApplyStateScope(t, graph, scoped.value) == (query[..w] + "  " + query[w..], true)
                <==>
                && (w > 0 ==> !WordChar(t, query[w - 1]))
                && !MentionsScope(t, graph, query[..w]) && !MentionsScope(t, graph, query[w..]))
  {
    WhereIsToken(t.letters, query);
    var w := Scan(t.letters, query).whereAt.value;
    var p, y := query[..w], query[w..];
    assert Lower(query[w..w + 5][0]) == 'w';
    if MentionsScope(t, graph, p) {
      EarlierMentionShows(t, graph, p, y);
    } else if w > 0 && WordChar(t, query[w - 1]) {
      ClauseIsMissed(t, graph, p, y);
    } else if MentionsScope(t, graph, y) {
      LaterMentionShows(t, graph, p, y);
    } else {
      ClauseIsBlanked(t, graph, p, y);
    }
  }

  /**
   The flag tells whether the store changed the query: an unscoped query comes back as it was, and
   a query that comes back flagged has lost at least one clause.
   */
  lemma FlagMeansChanged(t: Text, graph: string, query: string)
    ensures var (result, flag) := ApplyStateScope(t, graph, query);
            (flag <==> result != query) && (flag ==> |result| < |query|)
  {
    BlankedShrinks(t, graph, query, 0);
  }

  /**
   A legal query whose dataset clause names ":%20WHERE" and whose WHERE is left out: the scan takes
   the end of the name for the keyword, the engine puts its clause there, and the store, for the
   digit before it, does not find it.
   */
  const DIGIT_BEFORE_WHERE := "PREFIX :<a>" + "CONSTRUCT{}" + "FROM :%20" + "WHERE{}"

  lemma NextToken(l: Letters, q: string, i: nat, j: nat)
    requires i < |q| && TokenEnd(l, q, i) == j && !(KindOf(l, q[i]) == Name && j <= |q| && IsWhere(q[i..j]))
    ensures FirstWhere(q, TokensFrom(l, q, i)) == FirstWhere(q, TokensFrom(l, q, j))
  {
    var token := Token(KindOf(l, q[i]), i, j);
    assert TokensFrom(l, q, i) == [token] + TokensFrom(l, q, j);
    assert !IsWhereToken(q, token);
    assert ([token] + TokensFrom(l, q, j))[1..] == TokensFrom(l, q, j);
  }

  /** A name that ends before j and is not WHERE. */
  lemma NextName(l: Letters, q: string, i: nat, j: nat)
    requires Usual(l) && i < j < |q| && KindOf(l, q[i]) == Name && !ContinuesName(l, q[j])
    requires (forall k :: i < k < j ==> ContinuesName(l, q[k])) && (j - i == 5 ==> Lower(q[i]) != 'w')
    ensures FirstWhere(q, TokensFrom(l, q, i)) == FirstWhere(q, TokensFrom(l, q, j))
  {
    NameRun(l, q, i + 1, j);
    assert j - i == 5 ==> q[i..j][0] == q[i];
    NextToken(l, q, i, j);
  }

  lemma NextOther(l: Letters, q: string, i: nat)
    requires i < |q| && KindOf(l, q[i]) in {Other, Brace}
    ensures FirstWhere(q, TokensFrom(l, q, i)) == FirstWhere(q, TokensFrom(l, q, i + 1))
  {
    NextToken(l, q, i, i + 1);
  }

  lemma NextIri(l: Letters, q: string, i: nat)
    requires i + 2 < |q| && q[i] == '<' && q[i + 1] != '>' && q[i + 2] == '>'
    ensures FirstWhere(q, TokensFrom(l, q, i)) == FirstWhere(q, TokensFrom(l, q, i + 3))
  {
    assert FindChar(q, '>', i + 1) == i + 2;
    NextToken(l, q, i, i + 3);
  }

  lemma DigitQueryWhere(l: Letters)
    requires Usual(l)
    ensures FirstWhere(DIGIT_BEFORE_WHERE, Tokens(l, DIGIT_BEFORE_WHERE)) == Some(31)
  {
    var q := DIGIT_BEFORE_WHERE;
    hide TokensFrom, FirstWhere, TokenEnd, DIGIT_BEFORE_WHERE;
    DigitQueryText();
    NextName(l, q, 0, 6);
    NextOther(l, q, 6);
    NextName(l, q, 7, 8);
    NextIri(l, q, 8);
    NextName(l, q, 11, 20);
    NextOther(l, q, 20);
    NextOther(l, q, 21);
    NextName(l, q, 22, 26);
    NextOther(l, q, 26);
    NextName(l, q, 27, 28);
    NextOther(l, q, 28);
    NextOther(l, q, 29);
    NextOther(l, q, 30);
    WhereHere(l, q, 31);
  }

  /** A run of letters of the text. */
  predicate LettersAt(q: string, i: nat, j: nat) {
    i <= j <= |q| && forall k :: i <= k < j ==> AsciiLetter(q[k])
  }

  lemma LettersInside(a: string, b: string, c: string, i: nat, j: nat)
    requires LettersAt(b, i, j)
    ensures LettersAt(a + b + c, |a| + i, |a| + j)
  {
    var q := a + b + c;
    forall k | |a| + i <= k < |a| + j ensures AsciiLetter(q[k]) {
      assert q[k] == b[k - |a|];
    }
  }

  lemma DigitQueryParts(a: string, b: string, c: string, d: string, q: string)
    requires a == "PREFIX :<a>" && b == "CONSTRUCT{}" && c == "FROM :%20" && d == "WHERE{}" && q == a + b + c + d
    ensures LettersAt(q, 0, 6) && LettersAt(q, 11, 20) && LettersAt(q, 22, 26) && LettersAt(q, 31, 36)
  {
    assert LettersAt(a, 0, 6) && LettersAt(b, 0, 9) && LettersAt(c, 0, 4) && LettersAt(d, 0, 5);
    LettersInside("", a, b + c + d, 0, 6);
    LettersInside(a, b, c + d, 0, 9);
    LettersInside(a + b, c, d, 0, 4);
    LettersInside(a + b + c, d, "", 0, 5);
    assert "" + a + (b + c + d) == q && a + b + (c + d) == q && a + b + c + d + "" == q;
  }

  lemma DigitQueryText()
    ensures var q := DIGIT_BEFORE_WHERE;
            && |q| == 38 && LettersAt(q, 0, 6) && LettersAt(q, 11, 20) && LettersAt(q, 22, 26) && LettersAt(q, 31, 36)
            && q[0] == 'P' && q[1] == 'R' && q[2] == 'E' && q[3] == 'F' && q[4] == 'I' && q[5] == 'X'
            && q[6] == ' ' && q[7] == ':' && q[8] == '<' && q[9] == 'a' && q[10] == '>' && q[11] == 'C'
            && q[20] == '{' && q[21] == '}' && q[22] == 'F' && q[26] == ' ' && q[27] == ':'
            && q[28] == '%' && q[29] == '2' && q[30] == '0' && IsWhere(q[31..36]) && q[31] == 'W' && q[36] == '{' && q[37] == '}'
  {
    DigitQueryParts("PREFIX :<a>", "CONSTRUCT{}", "FROM :%20", "WHERE{}", DIGIT_BEFORE_WHERE);
  }

  lemma WhereHere(l: Letters, q: string, i: nat)
    requires Usual(l) && i + 5 < |q| && IsWhere(q[i..i + 5]) && !ContinuesName(l, q[i + 5]) && LettersAt(q, i, i + 5)
    ensures FirstWhere(q, TokensFrom(l, q, i)) == Some(i)
  {
    NameRun(l, q, i + 1, i + 5);
    assert TokensFrom(l, q, i) == [Token(Name, i, i + 5)] + TokensFrom(l, q, i + 5);
  }

  lemma DigitBeforeWhere(t: Text, graph: string)
    requires UsualText(t) && '>' !in graph
    ensures var query := DIGIT_BEFORE_WHERE;
            var scoped := StateScoped(t.letters, graph, query);
            scoped.Some? && ApplyStateScope(t, graph, scoped.value) == (scoped.value, false)
  {
    var query := DIGIT_BEFORE_WHERE;
    DigitQueryWhere(t.letters);
    hide DIGIT_BEFORE_WHERE, TokensFrom, FirstWhere, Matches, Blanked, TokenEnd;
    DigitQueryText();
    assert query == query[..31] + query[31..];
    var p, y := query[..31], query[31..];
    forall i, e: nat ensures !Matches(t, graph, p, i, e) && !Matches(t, graph, y, i, e) {
      NoScopeInDigitQuery(t, graph, p, y, i, e);
    }
    ClauseIsMissed(t, graph, p, y);
  }

  /** The one '>' of the query stands before FROM, and the other 'F' is inside a word. */
  lemma NoScopeInDigitQuery(t: Text, graph: string, p: string, y: string, i: nat, e: nat)
    requires UsualText(t) && '>' !in graph && p + y == DIGIT_BEFORE_WHERE && |p| == 31
    ensures !Matches(t, graph, p, i, e) && !Matches(t, graph, y, i, e)
  {
    DigitQueryText();
    OnlyBracket();
    var q := DIGIT_BEFORE_WHERE;
    assert forall k :: 0 <= k < |y| ==> y[k] == q[31 + k];
    hide DIGIT_BEFORE_WHERE, Matches;
    if Matches(t, graph, y, i, e) {
      MatchBounds(t, graph, y, i, e);
      MatchChars(t, graph, y, i, e, e - 1);
      assert false;
    }
    if Matches(t, graph, p, i, e) {
      MatchBounds(t, graph, p, i, e);
      MatchChars(t, graph, p, i, e, e - 1);
      MatchChars(t, graph, p, i, e, i);
      assert p[e - 1] == q[e - 1] && p[i] == q[i];
      EarlyF(i);
      assert false;
    }
  }

  lemma OnlyBracket()
    ensures forall k :: 0 <= k < |DIGIT_BEFORE_WHERE| && DIGIT_BEFORE_WHERE[k] == '>' ==> k == 10
  {
  }

  lemma EarlyF(i: nat)
    requires i < 10 && Lower(DIGIT_BEFORE_WHERE[i]) == 'f'
    ensures i == 3
  {
  }

  // ------------------------------------------------------------------- the WHERE position

  lemma {:induction false} FirstWhereIsToken(q: string, a: seq<Token>)
    requires FirstWhere(q, a).Some?
    ensures exists t :: t in a && IsWhereToken(q, t) && t.start == FirstWhere(q, a).value
  {
    if IsWhereToken(q, a[0]) {
      assert a[0] in a;
    } else {
      FirstWhereIsToken(q, a[1..]);
      var t :| t in a[1..] && IsWhereToken(q, t) && t.start == FirstWhere(q, a).value;
      assert t in a;
    }
  }

  /** The scan goes from token to token, and w is where one starts. */
  predicate Reaches(l: Letters, q: string, i: nat, w: nat)
    decreases if i < |q| then |q| - i else 0
  {
    i == w || (i < w && i < |q| && Reaches(l, q, TokenEnd(l, q, i), w))
  }

  lemma {:induction false} TokenIsReached(l: Letters, q: string, i: nat, t: Token)
    requires t in TokensFrom(l, q, i)
    ensures Reaches(l, q, i, t.start)
    decreases if i < |q| then |q| - i else 0
  {
    TokenStarts(l, q, i, t);
    if t.start != i {
      TokenIsReached(l, q, TokenEnd(l, q, i), t);
    }
  }

  lemma WhereIsToken(l: Letters, query: string)
    requires Scan(l, query).whereAt.Some?
    ensures var w := Scan(l, query).whereAt.value;
            && w + 5 <= |query| && IsWhere(query[w..w + 5]) && Reaches(l, query, 0, w)
            && KindOf(l, query[w]) == Name && TokenEnd(l, query, w) == w + 5
  {
    var tokens := Tokens(l, query);
    FirstWhereIsToken(query, tokens);
    var w := FirstWhere(query, tokens).value;
    var t :| t in tokens && IsWhereToken(query, t) && t.start == w;
    TokenStarts(l, query, 0, t);
    TokenIsReached(l, query, 0, t);
    WhereText(l, query, t);
  }

  lemma WhereText(l: Letters, query: string, t: Token)
    requires IsWhereToken(query, t)
    ensures t.end == t.start + 5 && IsWhere(query[t.start..t.start + 5])
  {
  }
}
