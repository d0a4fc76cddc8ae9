/**
 The state clauses of a query, read off its tokens, against the ones the store finds by pattern.
 The store strips exactly the query's own clauses if and only if everything the pattern matches
 starts at a token and spells the graph as it is, and every clause of the query is written with
 plain white space and no word character before it.
 */
module StateClauses {
  import opened Options
  import opened Scanner
  import opened Lexing
  import opened Bindings
  import opened StateScope

  // ------------------------------------------------------------------- clauses of a query

  /** What may stand between two tokens of a clause: white space and comments. */
  function GapEnd(t: Text, q: string, i: nat): (j: nat)
    ensures j >= i
    decreases if i < |q| then |q| - i else 0
  {
    if i >= |q| then i
    else if t.space(q[i]) then GapEnd(t, q, i + 1)
    else if q[i] == '#' then
      assert FindChar(q, '\n', i) > i;
      GapEnd(t, q, FindChar(q, '\n', i))
    else i
  }

  /** A name token that is the word, in any letter case. */
  predicate WordAt(l: Letters, q: string, i: nat, word: string) {
    && 0 < |word| && i + |word| <= |q|
    && IsKeyword(q[i..i + |word|], word) && NameEnd(l, q, i + 1) == i + |word|
  }

  /** The gap after FROM, past NAMED if it is there. */
  function GraphAt(t: Text, q: string, i: nat): (k: nat)
    ensures k >= i + 4
  {
    var j := GapEnd(t, q, i + 4);
    if WordAt(t.letters, q, j, "named") then GapEnd(t, q, j + 5) else j
  }

  /** Where the dataset clause for the graph ends that starts at i, if one does. */
  function ClauseEnd(t: Text, graph: string, q: string, i: nat): (end: Option<nat>)
    ensures end.Some? ==> i < end.value <= |q|
  {
    if !WordAt(t.letters, q, i, "from") then None
    else
      var k := GraphAt(t, q, i);
      if StartsWithAt(q, "<" + graph + ">", k) then Some(k + |graph| + 2) else None
  }

  /** The end of a token, within the text. */
  function Within(q: string, j: nat): (n: nat)
    ensures n <= |q| && n <= j
  {
    if j <= |q| then j else |q|
  }

  /** The query with every clause among its tokens replaced by a space. */
  function Stripped(t: Text, graph: string, q: string, i: nat): string
    decreases if i < |q| then |q| - i else 0
  {
    if i >= |q| then ""
    else
      match ClauseEnd(t, graph, q, i)
      case Some(e) => " " + Stripped(t, graph, q, e)
      case None =>
        var j := TokenEnd(t.letters, q, i);
        q[i..Within(q, j)] + Stripped(t, graph, q, j)
  }

  // ---------------------------------------------------------------------- what must hold

  predicate PlainGap(t: Text, q: string, i: nat) {
    GapEnd(t, q, i) <= |q| && i <= |q| && Spaces(t, q[i..GapEnd(t, q, i)])
  }

  /** White space and no comments in the clause that starts at i, and a word boundary before it. */
  predicate PlainClause(t: Text, q: string, i: nat) {
    && i <= |q| && (i > 0 ==> !WordChar(t, q[i - 1]))
    && PlainGap(t, q, i + 4)
    && (var j := GapEnd(t, q, i + 4); WordAt(t.letters, q, j, "named") ==> PlainGap(t, q, j + 5))
  }

  /** A match that starts at a token and spells the graph as it is. */
  predicate OwnMatch(t: Text, graph: string, q: string, from: nat, i: nat, e: nat) {
    && Reaches(t.letters, q, from, i)
    && |graph| + 2 <= e <= |q| && q[e - |graph| - 2..e] == "<" + graph + ">"
  }

  /** The pattern finds clauses only, and finds every clause, from a token on. */
  ghost predicate FindsClauses(t: Text, graph: string, q: string, from: nat) {
    && (forall i: nat, e: nat :: from <= i && Matches(t, graph, q, i, e) ==> OwnMatch(t, graph, q, from, i, e))
    && (forall i: nat :: i < |q| && Reaches(t.letters, q, from, i) && ClauseEnd(t, graph, q, i).Some? ==>
          PlainClause(t, q, i))
  }

  // ------------------------------------------------------------------ clauses and matches

  lemma {:induction false} GapOfSpaces(t: Text, q: string, i: nat, j: nat)
    requires i <= j < |q| && (forall k :: i <= k < j ==> t.space(q[k])) && !t.space(q[j]) && q[j] != '#'
    ensures GapEnd(t, q, i) == j
    decreases j - i
  {
    if i < j {
      GapOfSpaces(t, q, i + 1, j);
    }
  }

  lemma KeywordChars(t: Text, q: string, i: nat, word: string)
    requires UsualText(t) && word in {"from", "named"} && i + |word| <= |q| && IsKeyword(q[i..i + |word|], word)
    ensures forall k :: i <= k < i + |word| ==> AsciiLetter(q[k]) && Lower(q[k]) == word[k - i]
  {
    forall k | i <= k < i + |word| ensures AsciiLetter(q[k]) && Lower(q[k]) == word[k - i] {
      assert Lower(q[i..i + |word|][k - i]) == word[k - i];
    }
  }

  /** A keyword before white space is a token of its own. */
  lemma KeywordIsWord(t: Text, q: string, i: nat, word: string)
    requires UsualText(t) && word in {"from", "named"} && i + |word| < |q|
    requires IsKeyword(q[i..i + |word|], word) && !ContinuesName(t.letters, q[i + |word|])
    ensures WordAt(t.letters, q, i, word)
  {
    KeywordChars(t, q, i, word);
    RunOfLetters(t, q, i + 1, i + |word|);
  }

  lemma {:induction false} RunOfLetters(t: Text, q: string, i: nat, j: nat)
    requires UsualText(t) && i <= j < |q| && !ContinuesName(t.letters, q[j])
    requires forall k :: i <= k < j ==> AsciiLetter(q[k])
    ensures NameEnd(t.letters, q, i) == j
    decreases j - i
  {
    if i < j {
      RunOfLetters(t, q, i + 1, j);
    }
  }

  lemma SpaceEndsName(t: Text, c: char)
    requires UsualText(t) && t.space(c)
    ensures !ContinuesName(t.letters, c) && KindOf(t.letters, c) == Other && Lower(c) != 'f'
  {
  }

  predicate SpaceRun(t: Text, q: string, i: nat, j: nat) {
    i <= j <= |q| && forall k :: i <= k < j ==> t.space(q[k])
  }

  /** After FROM at i white space, NAMED at m, and white space up to a. */
  predicate NamedBetween(t: Text, q: string, i: nat, a: nat, m: nat) {
    && i + 4 < m && m + 5 < a <= |q|
    && SpaceRun(t, q, i + 4, m) && IsKeyword(q[m..m + 5], "named") && SpaceRun(t, q, m + 5, a)
  }

  /** What a match is made of, up to its graph. */
  ghost predicate Shaped(t: Text, q: string, i: nat, a: nat) {
    && i + 4 < a < |q| && IsKeyword(q[i..i + 4], "from") && q[a] == '<'
    && (SpaceRun(t, q, i + 4, a) || exists m: nat :: NamedBetween(t, q, i, a, m))
  }

  lemma MatchShape(t: Text, graph: string, q: string, i: nat, e: nat)
    requires UsualText(t) && Matches(t, graph, q, i, e)
    ensures e >= |graph| + 2 && Shaped(t, q, i, e - |graph| - 2)
  {
    var a := e - |graph| - 2;
    var h := q[i..a];
    SliceOfSlice(q, i, a, 0, 4);
    assert q[a] == '<' by {
      assert t.fold(q[a..e][0]) == t.fold(("<" + graph + ">")[0]);
    }
    HeadShape(t, q, i, a);
  }

  lemma HeadShape(t: Text, q: string, i: nat, a: nat)
    requires i <= a <= |q| && Head(t, q[i..a])
    ensures SpaceRun(t, q, i + 4, a) || exists m: nat :: NamedBetween(t, q, i, a, m)
  {
    var h := q[i..a];
    if Spaces(t, h[4..]) {
      assert h[4..] == h[4..|h|];
      SpacesInside(t, q, i, a, 4, |h|);
    } else {
      var m :| 4 < m < |h| - 5 && Spaces(t, h[4..m]) && IsKeyword(h[m..m + 5], "named") && Spaces(t, h[m + 5..]);
      NamedShape(t, q, i, a, m);
    }
  }

  lemma NamedShape(t: Text, q: string, i: nat, a: nat, m: nat)
    requires i <= a <= |q| && 4 < m && m + 5 < a - i
    requires var h := q[i..a]; Spaces(t, h[4..m]) && IsKeyword(h[m..m + 5], "named") && Spaces(t, h[m + 5..])
    ensures NamedBetween(t, q, i, a, i + m)
  {
    hide IsKeyword, Spaces;
    var h := q[i..a];
    assert h[m + 5..] == h[m + 5..|h|];
    SpacesInside(t, q, i, a, 4, m);
    SpacesInside(t, q, i, a, m + 5, |h|);
    SliceOfSlice(q, i, a, m, m + 5);
    assert i + m + 5 == i + (m + 5);
  }

  lemma SpacesInside(t: Text, q: string, i: nat, a: nat, x: nat, y: nat)
    requires i <= a <= |q| && x <= y <= a - i && Spaces(t, q[i..a][x..y])
    ensures SpaceRun(t, q, i + x, i + y)
  {
    forall k | i + x <= k < i + y ensures t.space(q[k]) {
      assert q[i..a][x..y][k - i - x] == q[k];
      assert q[i..a][x..y][k - i - x] in q[i..a][x..y];
    }
  }

  lemma RunIsGap(t: Text, q: string, i: nat, j: nat)
    requires UsualText(t) && SpaceRun(t, q, i, j) && i < j < |q| && !t.space(q[j]) && q[j] != '#'
    ensures GapEnd(t, q, i) == j && PlainGap(t, q, i)
  {
    GapOfSpaces(t, q, i, j);
    forall c | c in q[i..j] ensures t.space(c) {
      var k :| 0 <= k < j - i && q[i..j][k] == c;
      assert c == q[i + k];
    }
  }

  /** At a match the tokens read FROM, white space, and the graph's bracket where the match has it. */
  lemma ShapeTokens(t: Text, q: string, i: nat, a: nat)
    requires UsualText(t) && Shaped(t, q, i, a)
    ensures WordAt(t.letters, q, i, "from") && GraphAt(t, q, i) == a
    ensures PlainGap(t, q, i + 4)
    ensures var j := GapEnd(t, q, i + 4); WordAt(t.letters, q, j, "named") ==> PlainGap(t, q, j + 5)
  {
    hide GapEnd, PlainGap, WordAt, IsKeyword;
    assert t.space(q[i + 4]) by {
      if !SpaceRun(t, q, i + 4, a) {
        var m: nat :| NamedBetween(t, q, i, a, m);
      }
    }
    SpaceEndsName(t, q[i + 4]);
    KeywordIsWord(t, q, i, "from");
    if SpaceRun(t, q, i + 4, a) {
      RunIsGap(t, q, i + 4, a);
      BracketIsNoWord(t.letters, q, a);
    } else {
      var m: nat :| NamedBetween(t, q, i, a, m);
      NamedIsWord(t, q, i, a, m);
      RunIsGap(t, q, i + 4, m);
      RunIsGap(t, q, m + 5, a);
    }
  }

  lemma NamedIsWord(t: Text, q: string, i: nat, a: nat, m: nat)
    requires UsualText(t) && NamedBetween(t, q, i, a, m)
    ensures WordAt(t.letters, q, m, "named") && !t.space(q[m]) && q[m] != '#'
  {
    hide WordAt;
    SpaceEndsName(t, q[m + 5]);
    KeywordIsWord(t, q, m, "named");
    KeywordChars(t, q, m, "named");
    LetterIsNoSpace(t, q[m]);
  }

  lemma BracketIsNoWord(l: Letters, q: string, a: nat)
    requires a < |q| && q[a] == '<'
    ensures !WordAt(l, q, a, "named")
  {
    NoKeyword(q, a);
  }

  lemma LetterIsNoSpace(t: Text, c: char)
    requires UsualText(t) && AsciiLetter(c)
    ensures !t.space(c) && c != '#'
  {
  }

  lemma MatchTokens(t: Text, graph: string, q: string, i: nat, e: nat)
    requires UsualText(t) && Matches(t, graph, q, i, e)
    ensures e >= |graph| + 2
    ensures WordAt(t.letters, q, i, "from") && GraphAt(t, q, i) == e - |graph| - 2 && PlainClause(t, q, i)
  {
    hide Matches, WordAt, GraphAt, PlainGap, GapEnd, Shaped;
    MatchShape(t, graph, q, i, e);
    BoundaryBefore(t, graph, q, i, e);
    ShapeTokens(t, q, i, e - |graph| - 2);
    MatchWithin(t, graph, q, i, e);
  }

  lemma MatchWithin(t: Text, graph: string, q: string, i: nat, e: nat)
    requires Matches(t, graph, q, i, e)
    ensures i <= |q|
  {
  }

  lemma NoKeyword(q: string, a: nat)
    requires a < |q| && q[a] == '<'
    ensures a + 5 <= |q| ==> !IsKeyword(q[a..a + 5], "named")
  {
    if a + 5 <= |q| {
      assert q[a..a + 5][0] == '<' && "named"[0] == 'n';
    }
  }

  /** A clause written plainly is matched. */
  lemma PlainClauseMatches(t: Text, graph: string, q: string, i: nat)
    requires UsualText(t) && ClauseEnd(t, graph, q, i).Some? && PlainClause(t, q, i)
    ensures Matches(t, graph, q, i, ClauseEnd(t, graph, q, i).value)
  {
    hide Head, GapEnd, NameEnd;
    var e := ClauseEnd(t, graph, q, i).value;
    var a := e - |graph| - 2;
    PlainHead(t, q, i, a);
    SpelledIsFolded(t.fold, q[a..e], "<" + graph + ">");
  }

  lemma SpelledIsFolded(fold: char -> char, a: string, b: string)
    ensures a == b ==> SameFolded(fold, a, b)
  {
  }

  lemma PlainHead(t: Text, q: string, i: nat, a: nat)
    requires WordAt(t.letters, q, i, "from") && PlainClause(t, q, i) && GraphAt(t, q, i) == a <= |q|
    ensures Head(t, q[i..a])
  {
    hide GapEnd, NameEnd, Spaces, IsKeyword;
    var h, j := q[i..a], GapEnd(t, q, i + 4);
    SliceOfSlice(q, i, a, 0, 4);
    if WordAt(t.letters, q, j, "named") {
      var m := j - i;
      SliceOfSlice(q, i, a, 4, m);
      SliceOfSlice(q, i, a, m, m + 5);
      SliceOfSlice(q, i, a, m + 5, |h|);
      assert h[m + 5..] == h[m + 5..|h|];
      NonEmptyRun(t, q[i + 4..j]);
      NonEmptyRun(t, q[j + 5..a]);
    } else {
      SliceOfSlice(q, i, a, 4, |h|);
      assert h[4..] == h[4..|h|];
      NonEmptyRun(t, q[i + 4..a]);
    }
  }

  lemma NonEmptyRun(t: Text, s: string)
    ensures Spaces(t, s) ==> |s| > 0
  {
  }

  /** A match that spells the graph as it is, is a clause written plainly. */
  lemma OwnMatchIsClause(t: Text, graph: string, q: string, i: nat, e: nat)
    requires UsualText(t) && '>' !in graph && Matches(t, graph, q, i, e)
    ensures PlainClause(t, q, i)
    ensures q[e - |graph| - 2..e] == "<" + graph + ">" <==> ClauseEnd(t, graph, q, i) == Some(e)
    ensures ClauseEnd(t, graph, q, i).Some? ==> ClauseEnd(t, graph, q, i) == Some(e)
  {
    MatchTokens(t, graph, q, i, e);
    hide Matches, WordAt, GraphAt, PlainClause;
    assert StartsWithAt(q, "<" + graph + ">", e - |graph| - 2) <==> q[e - |graph| - 2..e] == "<" + graph + ">";
  }

  // -------------------------------------------------------------------- inside a clause

  /** A clause starts with F. */
  lemma ClauseStartsWithF(t: Text, graph: string, q: string, i: nat)
    requires UsualText(t) && ClauseEnd(t, graph, q, i).Some?
    ensures i < |q| && Lower(q[i]) == 'f' && q[i] != ' ' && KindOf(t.letters, q[i]) == Name
    ensures TokenEnd(t.letters, q, i) == i + 4
  {
    KeywordChars(t, q, i, "from");
  }

  lemma MatchStartsWithF(t: Text, graph: string, q: string, i: nat, e: nat)
    requires UsualText(t) && '>' !in graph && Matches(t, graph, q, i, e)
    ensures i < e <= |q| && Lower(q[i]) == 'f' && q[i] != ' '
  {
    MatchBounds(t, graph, q, i, e);
    MatchChars(t, graph, q, i, e, i);
  }

  /** Two matches do not overlap, and one start has one end. */
  lemma MatchesApart(t: Text, graph: string, q: string, i: nat, e: nat, k: nat, f: nat)
    requires UsualText(t) && '>' !in graph && Matches(t, graph, q, i, e) && Matches(t, graph, q, k, f) && i <= k < e
    ensures k == i && f == e
  {
    hide Matches;
    MatchBounds(t, graph, q, i, e);
    MatchBounds(t, graph, q, k, f);
    MatchChars(t, graph, q, i, e, k);
    MatchChars(t, graph, q, k, f, k);
    MatchChars(t, graph, q, k, f, f - 1);
    MatchChars(t, graph, q, i, e, e - 1);
    if f <= e {
      MatchChars(t, graph, q, i, e, f - 1);
    } else {
      MatchChars(t, graph, q, k, f, e - 1);
    }
  }

  lemma {:induction false} SpacesReach(t: Text, q: string, i: nat, j: nat, k: nat)
    requires UsualText(t) && i <= j <= |q| && (forall x :: i <= x < j ==> t.space(q[x]))
    ensures k >= j ==> (Reaches(t.letters, q, i, k) <==> Reaches(t.letters, q, j, k))
    ensures i <= k < j && Reaches(t.letters, q, i, k) ==> t.space(q[k])
    decreases j - i
  {
    if i < j {
      SpaceEndsName(t, q[i]);
      assert TokenEnd(t.letters, q, i) == i + 1;
      hide UsualText, TokenEnd, Reaches;
      if k > i {
        StepReach(t.letters, q, i, k);
      }
      SpacesReach(t, q, i + 1, j, k);
    }
  }

  lemma StepReach(l: Letters, q: string, i: nat, k: nat)
    requires i < |q| && i < k
    ensures Reaches(l, q, i, k) <==> Reaches(l, q, TokenEnd(l, q, i), k)
  {
  }

  /** The tokens of a match up to its graph: those from there on are the tokens from the bracket on. */
  lemma ShapeReach(t: Text, q: string, i: nat, a: nat, k: nat)
    requires UsualText(t) && Shaped(t, q, i, a)
    ensures k >= a ==> (Reaches(t.letters, q, i, k) <==> Reaches(t.letters, q, a, k))
  {
    hide WordAt, GraphAt, PlainGap, GapEnd, IsKeyword, Reaches, TokenEnd;
    ShapeTokens(t, q, i, a);
    KeywordToken(t, q, i, "from");
    if k >= a {
      StepReach(t.letters, q, i, k);
      if SpaceRun(t, q, i + 4, a) {
        SpacesReach(t, q, i + 4, a, k);
      } else {
        var m: nat :| NamedBetween(t, q, i, a, m);
        NamedIsWord(t, q, i, a, m);
        KeywordToken(t, q, m, "named");
        SpacesReach(t, q, i + 4, m, k);
        StepReach(t.letters, q, m, k);
        SpacesReach(t, q, m + 5, a, k);
      }
    }
  }

  /** The tokens of a match: those after it are the tokens from its end, and inside it none starts with F. */
  lemma MatchReach(t: Text, graph: string, q: string, i: nat, e: nat, k: nat)
    requires UsualText(t) && '>' !in graph && Matches(t, graph, q, i, e)
    requires e >= |graph| + 2 && q[e - |graph| - 2..e] == "<" + graph + ">"
    ensures k >= e ==> (Reaches(t.letters, q, i, k) <==> Reaches(t.letters, q, e, k))
    ensures i < k < e && Reaches(t.letters, q, i, k) ==> Lower(q[k]) != 'f'
  {
    hide Matches, Shaped, TokenEnd, Reaches;
    var l, a := t.letters, e - |graph| - 2;
    MatchShape(t, graph, q, i, e);
    MatchBounds(t, graph, q, i, e);
    BracketToken(t, graph, q, a);
    if k > a {
      ShapeReach(t, q, i, a, k);
      StepReach(l, q, a, k);
      if k < e {
        NotBehind(l, q, e, k);
      }
    } else if i < k < a {
      MatchChars(t, graph, q, i, e, k);
    }
  }

  lemma KeywordToken(t: Text, q: string, i: nat, word: string)
    requires UsualText(t) && word in {"from", "named"} && WordAt(t.letters, q, i, word)
    ensures i < |q| && TokenEnd(t.letters, q, i) == i + |word|
  {
    KeywordChars(t, q, i, word);
  }

  lemma BracketToken(t: Text, graph: string, q: string, a: nat)
    requires '>' !in graph && a + |graph| + 2 <= |q| && q[a..a + |graph| + 2] == "<" + graph + ">"
    ensures TokenEnd(t.letters, q, a) == a + |graph| + 2 && q[a] == '<'
  {
    var bracketed := "<" + graph + ">";
    var close := a + |graph| + 1;
    forall k | a <= k <= close ensures q[k] == bracketed[k - a] && (k < close ==> q[k] != '>') {
      assert q[a..a + |graph| + 2][k - a] == q[k];
      assert a < k < close ==> graph[k - a - 1] in graph;
    }
    assert q[close] == '>';
    var j := FindChar(q, '>', a);
    assert j <= close && !(j < close);
  }

  // -------------------------------------------------------------------------- the theorem

  /** Where a clause written plainly starts, both replace it and go on after it. */
  lemma AtClause(t: Text, graph: string, q: string, i: nat, e: nat)
    requires UsualText(t) && '>' !in graph && ClauseEnd(t, graph, q, i) == Some(e) && PlainClause(t, q, i)
    ensures Blanked(t, graph, q, i) == " " + Blanked(t, graph, q, e)
    ensures Stripped(t, graph, q, i) == " " + Stripped(t, graph, q, e)
    ensures FindsClauses(t, graph, q, i) <==> FindsClauses(t, graph, q, e)
  {
    PlainClauseMatches(t, graph, q, i);
    OwnMatchIsClause(t, graph, q, i, e);
    hide Matches, ClauseEnd, PlainClause, Reaches;
    assert MatchesAt(t, graph, q, i);
    var f: nat :| Matches(t, graph, q, i, f) && Blanked(t, graph, q, i) == " " + Blanked(t, graph, q, f);
    MatchesApart(t, graph, q, i, e, i, f);
    FindsFurther(t, graph, q, i, e);
  }

  lemma FindsFurther(t: Text, graph: string, q: string, i: nat, e: nat)
    requires UsualText(t) && '>' !in graph && ClauseEnd(t, graph, q, i) == Some(e) && PlainClause(t, q, i)
    requires Matches(t, graph, q, i, e)
    ensures FindsClauses(t, graph, q, i) <==> FindsClauses(t, graph, q, e)
  {
    var l := t.letters;
    OwnMatchIsClause(t, graph, q, i, e);
    assert Reaches(l, q, i, i);
    hide Matches, ClauseEnd, PlainClause, Reaches;
    forall k: nat ensures k >= e ==> (Reaches(l, q, i, k) <==> Reaches(l, q, e, k)) {
      MatchReach(t, graph, q, i, e, k);
    }
    forall k: nat, f: nat | Matches(t, graph, q, k, f) && i <= k < e ensures k == i && f == e {
      MatchesApart(t, graph, q, i, e, k, f);
    }
    forall k: nat | i < k < e && k < |q| && Reaches(l, q, i, k) ensures ClauseEnd(t, graph, q, k).None? {
      MatchReach(t, graph, q, i, e, k);
      if ClauseEnd(t, graph, q, k).Some? {
        ClauseStartsWithF(t, graph, q, k);
      }
    }
    NoneBehind(t, graph, q, i, e);
  }

  lemma NoneBehind(t: Text, graph: string, q: string, i: nat, e: nat)
    requires i < e <= |q| && Matches(t, graph, q, i, e) && OwnMatch(t, graph, q, i, i, e) && PlainClause(t, q, i)
    requires forall k: nat :: k >= e ==> (Reaches(t.letters, q, i, k) <==> Reaches(t.letters, q, e, k))
    requires forall k: nat, f: nat :: Matches(t, graph, q, k, f) && i <= k < e ==> k == i && f == e
    requires forall k: nat :: i < k < e && k < |q| && Reaches(t.letters, q, i, k) ==> ClauseEnd(t, graph, q, k).None?
    ensures FindsClauses(t, graph, q, i) <==> FindsClauses(t, graph, q, e)
  {
    hide Matches, ClauseEnd, PlainClause;
    forall k: nat, f: nat ensures k >= e ==> (OwnMatch(t, graph, q, i, k, f) <==> OwnMatch(t, graph, q, e, k, f)) {
    }
    forall k: nat ensures Reaches(t.letters, q, e, k) ==> k >= e {
    }
    forall k: nat ensures Reaches(t.letters, q, i, k) ==> k >= i {
    }
  }

  /** Where a clause starts that the pattern misses, or matches another graph's, the texts differ. */
  lemma AtMissedClause(t: Text, graph: string, q: string, i: nat)
    requires UsualText(t) && '>' !in graph && ClauseEnd(t, graph, q, i).Some? && !PlainClause(t, q, i)
    ensures Blanked(t, graph, q, i) != Stripped(t, graph, q, i) && !FindsClauses(t, graph, q, i)
  {
    hide Matches, ClauseEnd, PlainClause, Reaches;
    ClauseStartsWithF(t, graph, q, i);
    forall e: nat ensures !Matches(t, graph, q, i, e) {
      if Matches(t, graph, q, i, e) {
        OwnMatchIsClause(t, graph, q, i, e);
      }
    }
    var e := ClauseEnd(t, graph, q, i).value;
    assert Stripped(t, graph, q, i) == " " + Stripped(t, graph, q, e);
    hide Stripped;
    assert !MatchesAt(t, graph, q, i);
    assert Blanked(t, graph, q, i) == [q[i]] + Blanked(t, graph, q, i + 1);
    assert (" " + Stripped(t, graph, q, e))[0] == ' ' && ([q[i]] + Blanked(t, graph, q, i + 1))[0] == q[i];
    ReachesItself(t.letters, q, i);
  }

  lemma ReachesItself(l: Letters, q: string, i: nat)
    ensures Reaches(l, q, i, i)
  {
  }

  lemma AtOtherGraph(t: Text, graph: string, q: string, i: nat)
    requires UsualText(t) && '>' !in graph && MatchesAt(t, graph, q, i) && ClauseEnd(t, graph, q, i).None?
    ensures Blanked(t, graph, q, i) != Stripped(t, graph, q, i) && !FindsClauses(t, graph, q, i)
  {
    var e: nat :| Matches(t, graph, q, i, e);
    MatchStartsWithF(t, graph, q, i, e);
    OwnMatchIsClause(t, graph, q, i, e);
    hide Matches, ClauseEnd, PlainClause, TokenEnd;
    assert !OwnMatch(t, graph, q, i, i, e);
    var j := TokenEnd(t.letters, q, i);
    var token := q[i..Within(q, j)];
    assert Stripped(t, graph, q, i) == token + Stripped(t, graph, q, j);
    hide Stripped, FindsClauses;
    var f: nat :| Matches(t, graph, q, i, f) && Blanked(t, graph, q, i) == " " + Blanked(t, graph, q, f);
    assert token[0] == q[i];
    assert (token + Stripped(t, graph, q, j))[0] == q[i];
  }

  /** Inside a token the pattern finds something that is no clause of the query. */
  lemma InsideToken(t: Text, graph: string, q: string, i: nat, k: nat)
    requires UsualText(t) && '>' !in graph && i < |q| && ClauseEnd(t, graph, q, i).None? && !MatchesAt(t, graph, q, i)
    requires i < k < Within(q, TokenEnd(t.letters, q, i)) && MatchesAt(t, graph, q, k)
    requires forall x: nat :: i < x < k ==> !MatchesAt(t, graph, q, x)
    ensures Blanked(t, graph, q, i) != Stripped(t, graph, q, i) && !FindsClauses(t, graph, q, i)
  {
    hide Matches, ClauseEnd, PlainClause;
    var e: nat :| Matches(t, graph, q, k, e);
    MatchStartsWithF(t, graph, q, k, e);
    assert !Reaches(t.letters, q, i, k) by {
      NotBehind(t.letters, q, TokenEnd(t.letters, q, i), k);
    }
    assert !OwnMatch(t, graph, q, i, k, e);
    Copied(t, graph, q, i, k);
    var f: nat :| Matches(t, graph, q, k, f) && Blanked(t, graph, q, k) == " " + Blanked(t, graph, q, f);
    var text := q[i..Within(q, TokenEnd(t.letters, q, i))];
    assert text[k - i] == q[k] && |q[i..k]| == k - i;
    assert Stripped(t, graph, q, i)[k - i] == q[k];
    assert Blanked(t, graph, q, i)[k - i] == ' ';
  }

  lemma NotBehind(l: Letters, q: string, j: nat, k: nat)
    requires k < j
    ensures !Reaches(l, q, j, k)
  {
  }

  /** Past a token in which nothing is found. */
  lemma AtOtherToken(t: Text, graph: string, q: string, i: nat)
    requires UsualText(t) && i < |q| && ClauseEnd(t, graph, q, i).None?
    requires forall x: nat :: i <= x < Within(q, TokenEnd(t.letters, q, i)) ==> !MatchesAt(t, graph, q, x)
    ensures var j := TokenEnd(t.letters, q, i);
            && Blanked(t, graph, q, i) == q[i..Within(q, j)] + Blanked(t, graph, q, j)
            && Stripped(t, graph, q, i) == q[i..Within(q, j)] + Stripped(t, graph, q, j)
            && (FindsClauses(t, graph, q, i) <==> FindsClauses(t, graph, q, j))
  {
    var l, j := t.letters, TokenEnd(t.letters, q, i);
    Copied(t, graph, q, i, Within(q, j));
    forall k: nat ensures k >= j ==> (Reaches(l, q, i, k) <==> Reaches(l, q, j, k))
                  ensures i < k < j ==> !Reaches(l, q, i, k)
    {
      if k < j {
        NotBehind(l, q, j, k);
      }
    }
    hide ClauseEnd, PlainClause;
    forall k: nat, e: nat | i <= k < j ensures !Matches(t, graph, q, k, e) {
      MatchIsAt(t, graph, q, k, e);
    }
    hide Matches;
    SameFinds(t, graph, q, i, j);
  }

  lemma SameFinds(t: Text, graph: string, q: string, i: nat, j: nat)
    requires i < j && i < |q| && ClauseEnd(t, graph, q, i).None?
    requires forall k: nat :: (k >= j ==> (Reaches(t.letters, q, i, k) <==> Reaches(t.letters, q, j, k)))
                              && (i < k < j ==> !Reaches(t.letters, q, i, k))
    requires forall k: nat, e: nat :: i <= k < j ==> !Matches(t, graph, q, k, e)
    ensures FindsClauses(t, graph, q, i) <==> FindsClauses(t, graph, q, j)
  {
    hide Matches, ClauseEnd, PlainClause;
    forall k: nat, f: nat ensures k >= j ==> (OwnMatch(t, graph, q, i, k, f) <==> OwnMatch(t, graph, q, j, k, f)) {
    }
    forall k: nat ensures Reaches(t.letters, q, j, k) ==> k >= j {
    }
    forall k: nat ensures Reaches(t.letters, q, i, k) ==> k >= i {
    }
  }

  lemma {:induction false} StripsFromIff(t: Text, graph: string, q: string, i: nat)
    requires UsualText(t) && '>' !in graph
    ensures Blanked(t, graph, q, i) == Stripped(t, graph, q, i) <==> FindsClauses(t, graph, q, i)
    decreases if i < |q| then |q| - i else 0
  {
    hide Matches, PlainClause, Blanked, Stripped, FindsClauses, ClauseEnd;
    if i >= |q| {
      AtTheEnd(t, graph, q, i);
    } else if ClauseEnd(t, graph, q, i).Some? {
      if PlainClause(t, q, i) {
        var e := ClauseEnd(t, graph, q, i).value;
        AtClause(t, graph, q, i, e);
        StripsFromIff(t, graph, q, e);
        Cancel(" ", Blanked(t, graph, q, e), Stripped(t, graph, q, e));
      } else {
        AtMissedClause(t, graph, q, i);
      }
    } else if MatchesAt(t, graph, q, i) {
      AtOtherGraph(t, graph, q, i);
    } else if k: nat :| i < k < Within(q, TokenEnd(t.letters, q, i)) && MatchesAt(t, graph, q, k) {
      var first := FirstMatchAfter(t, graph, q, i, k);
      InsideToken(t, graph, q, i, first);
    } else {
      var j := TokenEnd(t.letters, q, i);
      AtOtherToken(t, graph, q, i);
      StripsFromIff(t, graph, q, j);
      Cancel(q[i..Within(q, j)], Blanked(t, graph, q, j), Stripped(t, graph, q, j));
    }
  }

  lemma Cancel(p: string, a: string, b: string)
    ensures p + a == p + b <==> a == b
  {
    assert (p + a)[|p|..] == a && (p + b)[|p|..] == b;
  }

  lemma MatchIsAt(t: Text, graph: string, q: string, k: nat, e: nat)
    ensures Matches(t, graph, q, k, e) ==> k < |q| && MatchesAt(t, graph, q, k)
  {
    if Matches(t, graph, q, k, e) {
      MatchBounds(t, graph, q, k, e);
    }
  }

  lemma AtTheEnd(t: Text, graph: string, q: string, i: nat)
    requires i >= |q|
    ensures Blanked(t, graph, q, i) == "" == Stripped(t, graph, q, i) && FindsClauses(t, graph, q, i)
  {
    forall k: nat, e: nat ensures i <= k ==> !Matches(t, graph, q, k, e) {
      if i <= k && Matches(t, graph, q, k, e) {
        MatchBounds(t, graph, q, k, e);
      }
    }
  }

  lemma {:induction false} FirstMatchAfter(t: Text, graph: string, q: string, i: nat, k: nat) returns (first: nat)
    requires i < k && MatchesAt(t, graph, q, k)
    ensures i < first <= k && MatchesAt(t, graph, q, first) && forall x: nat :: i < x < first ==> !MatchesAt(t, graph, q, x)
    decreases k
  {
    if x: nat :| i < x < k && MatchesAt(t, graph, q, x) {
      first := FirstMatchAfter(t, graph, q, i, x);
    } else {
      first := k;
    }
  }

  /**
   The store hands on the query with exactly its own state clauses replaced by spaces if and only
   if the pattern matches nothing but clauses (from a token on, and with the graph spelled as it
   is), and misses none (all are written with plain white space, after a word boundary).
   */
  lemma StripsExactlyIff(t: Text, graph: string, query: string)
    requires UsualText(t) && '>' !in graph
    ensures ApplyStateScope(t, graph, query).0 == Stripped(t, graph, query, 0) <==> FindsClauses(t, graph, query, 0)
  {
    StripsFromIff(t, graph, query, 0);
    if !MentionsScope(t, graph, query) {
      forall i: nat | i < |query| ensures !MatchesAt(t, graph, query, i) {
      }
      Copied(t, graph, query, 0, |query|);
      assert Blanked(t, graph, query, |query|) == "" && query[0..|query|] == query;
    }
  }

  // --------------------------------------------------------------- a clause inside a string

  /** What may stand between the brackets of an IRI reference. */
  predicate IriText(s: string) {
    forall c :: c in s ==> c > ' ' && c !in "<>\"{}|^`\\"
  }

  const BEFORE_STRING := "CONSTRUCT{}" + "WHERE{" + "?s ?p "

  /** A query for the resources that have the clause's text as a value. */
  function Quoting(graph: string): string {
    BEFORE_STRING + ("\"" + Clause(graph) + "\"}")
  }

  lemma BeforeStringParts(a: string, b: string, c: string)
    requires a == "CONSTRUCT{}" && b == "WHERE{" && c == "?s ?p "
    ensures var q := a + b + c;
            && |q| == 23 && LettersAt(q, 0, 9) && LettersAt(q, 11, 16) && q[0] == 'C'
            && q[9] == '{' && q[10] == '}' && q[11] == 'W' && IsWhere(q[11..16]) && q[16] == '{'
            && q[17] == '?' && q[18] == 's' && q[19] == ' ' && q[20] == '?' && q[21] == 'p' && q[22] == ' '
            && (forall k :: 0 <= k < 23 ==> Lower(q[k]) != 'f' && q[k] != '>')
  {
    assert LettersAt(a, 0, 9) && LettersAt(b, 0, 5);
    LettersInside("", a, b + c, 0, 9);
    LettersInside(a, b, c, 0, 5);
    assert "" + a + (b + c) == a + b + c;
    assert forall k :: 0 <= k < |a| ==> Lower(a[k]) != 'f' && a[k] != '>';
    assert forall k :: 0 <= k < |b| ==> Lower(b[k]) != 'f' && b[k] != '>';
    assert forall k :: 0 <= k < |c| ==> Lower(c[k]) != 'f' && c[k] != '>';
  }

  lemma QuotingText(graph: string)
    requires IriText(graph)
    ensures var q, n := Quoting(graph), |graph|;
            && |q| == n + 34 && q[..23] == BEFORE_STRING && |BEFORE_STRING| == 23
            && q[23] == '"' && q[24..n + 32] == Clause(graph) && q[n + 32] == '"' && q[n + 33] == '}'
            && (forall k :: 0 <= k < 23 ==> Lower(q[k]) != 'f' && q[k] != '>')
            && (forall k :: 24 <= k < n + 32 ==> q[k] != '"' && q[k] != '\\' && (q[k] == '>' ==> k == n + 30))
            && Lower(q[24]) == 'f' && Lower(q[25]) != 'f' && Lower(q[26]) != 'f' && Lower(q[27]) != 'f'
            && Lower(q[28]) != 'f' && q[30 + n] == '>' && Lower(q[31 + n]) != 'f'
  {
    BeforeStringParts("CONSTRUCT{}", "WHERE{", "?s ?p ");
    var q, n, c := Quoting(graph), |graph|, Clause(graph);
    assert |BEFORE_STRING| == 23;
    assert forall k :: 0 <= k < 23 ==> q[k] == BEFORE_STRING[k];
    hide BEFORE_STRING;
    assert |c| == n + 8 && c[0] == 'F' && c[1] == 'R' && c[2] == 'O' && c[3] == 'M' && c[4] == ' ' && c[5] == '<';
    forall k | 24 <= k < n + 32
      ensures q[k] == c[k - 24] && q[k] != '"' && q[k] != '\\' && (q[k] == '>' ==> k == n + 30)
    {
      if 6 <= k - 24 < n + 6 {
        assert c[k - 24] == graph[k - 30] && graph[k - 30] in graph;
      }
    }
    assert c[n + 6] == '>' && c[n + 7] == ' ';
  }

  lemma QuotingStart(graph: string)
    ensures var q := Quoting(graph);
            && |q| > 23 && LettersAt(q, 0, 9) && LettersAt(q, 11, 16) && q[0] == 'C'
            && q[9] == '{' && q[10] == '}' && q[11] == 'W' && IsWhere(q[11..16]) && q[16] == '{'
            && q[17] == '?' && q[18] == 's' && q[19] == ' ' && q[20] == '?' && q[21] == 'p' && q[22] == ' '
            && q[23] == '"'
  {
    BeforeStringParts("CONSTRUCT{}", "WHERE{", "?s ?p ");
    var q, b := Quoting(graph), BEFORE_STRING;
    assert |b| == 23 && LettersAt(b, 0, 9) && LettersAt(b, 11, 16);
    hide BEFORE_STRING;
    assert forall k :: 0 <= k < 23 ==> q[k] == b[k];
    assert q[11..16] == b[11..16];
  }

  lemma {:induction false} StringRuns(q: string, i: nat, j: nat)
    requires i <= j < |q| && q[j] == '"' && forall k :: i <= k < j ==> q[k] != '"' && q[k] != '\\'
    ensures StringEnd(q, "\"", i) == j + 1
    decreases j - i
  {
    assert q[i..i + 1] == [q[i]];
    if i < j {
      StringRuns(q, i + 1, j);
    }
  }

  lemma QuotedToken(l: Letters, q: string, i: nat, j: nat)
    requires i + 1 < j < |q| && q[i] == '"' && q[j] == '"'
    requires forall k :: i < k < j ==> q[k] != '"' && q[k] != '\\'
    ensures KindOf(l, q[i]) == Quoted && TokenEnd(l, q, i) == j + 1
  {
    assert q[i..i + 3][1] == q[i + 1] && q[i..i + 3][0] == '"';
    assert QuoteAt(q, i) == "\"";
    StringRuns(q, i + 1, j);
  }

  /** A name of the query ends where its letters do. */
  lemma NameToken(l: Letters, q: string, i: nat, j: nat)
    requires Usual(l) && i < j < |q| && KindOf(l, q[i]) == Name && !ContinuesName(l, q[j])
    requires forall k :: i < k < j ==> ContinuesName(l, q[k])
    ensures TokenEnd(l, q, i) == j
  {
    NameRun(l, q, i + 1, j);
  }

  /** The tokens before the string, which lead to it. */
  lemma QuotingTokens(l: Letters, graph: string)
    requires Usual(l)
    ensures var q := Quoting(graph);
            && |q| > 23 && TokenEnd(l, q, 0) == 9 && TokenEnd(l, q, 9) == 10 && TokenEnd(l, q, 10) == 11
            && TokenEnd(l, q, 11) == 16 && TokenEnd(l, q, 16) == 17 && TokenEnd(l, q, 17) == 19 && TokenEnd(l, q, 19) == 20
            && TokenEnd(l, q, 20) == 22 && TokenEnd(l, q, 22) == 23
  {
    QuotingStart(graph);
    var q := Quoting(graph);
    hide Quoting, NameEnd;
    NameToken(l, q, 0, 9);
    NameToken(l, q, 11, 16);
    NameToken(l, q, 17, 19);
    NameToken(l, q, 20, 22);
  }

  lemma QuotingReach(l: Letters, graph: string, k: nat)
    requires Usual(l)
    ensures k >= 23 ==> (Reaches(l, Quoting(graph), 0, k) <==> Reaches(l, Quoting(graph), 23, k))
  {
    QuotingTokens(l, graph);
    var q := Quoting(graph);
    hide Quoting, TokenEnd, Reaches;
    if k >= 23 {
      StepReach(l, q, 0, k);
      StepReach(l, q, 9, k);
      StepReach(l, q, 10, k);
      StepReach(l, q, 11, k);
      StepReach(l, q, 16, k);
      StepReach(l, q, 17, k);
      StepReach(l, q, 19, k);
      StepReach(l, q, 20, k);
      StepReach(l, q, 22, k);
    }
  }

  lemma QuotingWhere(l: Letters, graph: string)
    requires Usual(l)
    ensures Scan(l, Quoting(graph)).whereAt == Some(11)
  {
    QuotingTokens(l, graph);
    QuotingStart(graph);
    var q := Quoting(graph);
    hide Quoting, TokenEnd, TokensFrom, FirstWhere;
    NextToken(l, q, 0, 9);
    NextOther(l, q, 9);
    NextOther(l, q, 10);
    WhereHere(l, q, 11);
  }

  lemma {:induction false} NothingStripped(t: Text, graph: string, q: string, i: nat)
    requires forall k: nat :: k < |q| && Reaches(t.letters, q, i, k) ==> ClauseEnd(t, graph, q, k).None?
    ensures i <= |q| ==> Stripped(t, graph, q, i) == q[i..]
    decreases if i < |q| then |q| - i else 0
  {
    hide ClauseEnd;
    if i < |q| {
      var j := TokenEnd(t.letters, q, i);
      ReachesItself(t.letters, q, i);
      forall k: nat | Reaches(t.letters, q, j, k) ensures Reaches(t.letters, q, i, k) {
        if k < j {
          NotBehind(t.letters, q, j, k);
        } else {
          StepReach(t.letters, q, i, k);
        }
      }
      NothingStripped(t, graph, q, j);
      if j <= |q| {
        assert q[i..j] + q[j..] == q[i..];
      } else {
        AtTheEnd(t, graph, q, j);
        assert q[i..|q|] + "" == q[i..];
      }
    }
  }

  /** The query has no state clause of its own. */
  lemma QuotingHasNoClause(t: Text, graph: string)
    requires UsualText(t) && IriText(graph)
    ensures Stripped(t, graph, Quoting(graph), 0) == Quoting(graph)
  {
    var q, l, end := Quoting(graph), t.letters, |graph| + 33;
    QuotingText(graph);
    QuotedToken(l, q, 23, end - 1);
    forall k: nat | k < |q| && Reaches(l, q, 0, k) ensures ClauseEnd(t, graph, q, k).None? {
      QuotingReach(l, graph, k);
      hide Quoting, ClauseEnd, TokenEnd, Reaches;
      if 23 < k {
        StepReach(l, q, 23, k);
        if k < end {
          NotBehind(l, q, end, k);
        }
      }
      if ClauseEnd(t, graph, q, k).Some? {
        ClauseStartsWithF(t, graph, q, k);
      }
    }
    NothingStripped(t, graph, q, 0);
    assert q[0..] == q;
  }

  /** The pattern matches the text in the string, and nothing else. */
  lemma QuotingMatches(t: Text, graph: string)
    requires UsualText(t) && IriText(graph)
    ensures Matches(t, graph, Quoting(graph), 24, |graph| + 31)
    ensures forall k: nat, f: nat :: Matches(t, graph, Quoting(graph), k, f) ==> k == 24 && f == |graph| + 31
  {
    var q, n := Quoting(graph), |graph|;
    var p := BEFORE_STRING + "\"";
    assert q == p + Clause(graph) + "\"}";
    QuotingText(graph);
    assert |p| == 24 && p[|p| - 1] == '"';
    ClauseMatches(t, graph, p, "\"}");
    assert '>' !in graph by {
      assert '>' in graph ==> false;
    }
    hide Quoting, Matches, Clause, BEFORE_STRING;
    forall k: nat, f: nat | Matches(t, graph, q, k, f) ensures k == 24 && f == n + 31 {
      MatchBounds(t, graph, q, k, f);
      MatchChars(t, graph, q, k, f, k);
      MatchChars(t, graph, q, k, f, f - 1);
      assert f - 1 == n + 30;
      assert k + n + 2 < f;
    }
  }

  lemma QuotingApplied(t: Text, graph: string)
    requires UsualText(t) && IriText(graph)
    ensures ApplyStateScope(t, graph, Quoting(graph)) == (BEFORE_STRING + ("\"" + "  " + "\"}"), true)
  {
    var q, n := Quoting(graph), |graph|;
    QuotingMatches(t, graph);
    QuotingText(graph);
    QuotingCut(graph);
    hide Matches, Blanked, BEFORE_STRING, Quoting, Clause;
    assert MatchesAt(t, graph, q, 24);
    BlankedOnce(t, graph, q, 24, n + 31);
  }

  lemma QuotingCut(graph: string)
    requires IriText(graph)
    ensures var q, n := Quoting(graph), |graph|;
            |q| > n + 32 && q[..24] + " " + q[n + 31..] == BEFORE_STRING + ("\"" + "  " + "\"}")
            && q[23..n + 33] == "\"" + Clause(graph) + "\""
  {
    QuotingText(graph);
    var q, n, c := Quoting(graph), |graph|, Clause(graph);
    assert |c| == n + 8 && c[n + 7] == ' ';
    hide Quoting, Clause, BEFORE_STRING;
    assert q[..24] == q[..23] + "\"";
    assert q[n + 31] == q[24..n + 32][n + 7];
    assert q[n + 31..] == " \"}";
    assert q[..23] + "\"" + " " + " \"}" == q[..23] + ("\"" + "  " + "\"}");
    assert q[23..n + 33] == [q[23]] + q[24..n + 32] + [q[n + 32]];
  }

  /**
   A query with the clause's text inside a string: the scan finds WHERE, the text stands in one
   quoted token, and the query has no state clause of its own; the store takes the text for a
   clause, hands on another string, and widens the scope.
   */
  lemma ClauseInString(t: Text, graph: string)
    requires UsualText(t) && IriText(graph)
    ensures var q := Quoting(graph);
            && Scan(t.letters, q).whereAt == Some(11)
            && Reaches(t.letters, q, 0, 23) && KindOf(t.letters, q[23]) == Quoted
            && TokenEnd(t.letters, q, 23) == 23 + |"\"" + Clause(graph) + "\""|
            && q[23..TokenEnd(t.letters, q, 23)] == "\"" + Clause(graph) + "\""
            && Stripped(t, graph, q, 0) == q
            && ApplyStateScope(t, graph, q) == (BEFORE_STRING + ("\"" + "  " + "\"}"), true)
  {
    var q, n := Quoting(graph), |graph|;
    hide Matches, Reaches, TokenEnd, Stripped, ApplyStateScope, BEFORE_STRING, FirstWhere, TokensFrom, Quoting;
    QuotingWhere(t.letters, graph);
    QuotingText(graph);
    QuotingCut(graph);
    QuotedToken(t.letters, q, 23, n + 32);
    QuotingReach(t.letters, graph, 23);
    ReachesItself(t.letters, q, 23);
    QuotingHasNoClause(t, graph);
    QuotingApplied(t, graph);
  }
}
