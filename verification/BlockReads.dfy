/**
 From the text of an injected VALUES block to the row it means: the block's tokens, with their
 texts, read back to the variables and the terms it was built from, so the row that the algebra
 substitutes is the row that stands in the query.
 */
module BlockReads {
  import opened Options
  import opened Rdf
  import opened Scanner
  import opened Splicing
  import opened Lexing
  import opened Bindings
  import Sparql

  // ----------------------------------------------------------------------- one term

  /** The texts of lexemes, joined. */
  function TextOf(ls: seq<Lexeme>): string {
    if ls == [] then "" else ls[0].text + TextOf(ls[1..])
  }

  predicate IsCloser(x: Lexeme) {
    x == Lexeme(Other, " ") || x == Lexeme(Other, ")")
  }

  /** The lexemes of one term: none of them closes it, and together they are its text. */
  predicate TermLexemes(ls: seq<Lexeme>, t: string) {
    (forall x :: x in ls ==> !IsCloser(x)) && TextOf(ls) == t
  }

  /** No name, brace or comment. */
  predicate Inert(ls: seq<Lexeme>) {
    forall x :: x in ls ==> x.kind in {Quoted, IriRef, Other}
  }

  /** A serialized term is its own lexemes, none of which opens, names or hides anything. */
  lemma ReadsTerm(l: Letters, t: string, d: char) returns (ls: seq<Lexeme>)
    requires Usual(l) && SerializedTerm(t) && Closer(d)
    ensures Reads(l, t + [d], ls + [Lexeme(Other, [d])]) && TermLexemes(ls, t) && Inert(ls)
  {
    hide Tokens, Sealed, FindChar, StringEnd, QuoteAt, Lexemes;
    if IriRefText(t) {
      ReadsIriRef(l, t, d);
      ls := [Lexeme(IriRef, t)];
      assert ls[1..] == [] && TextOf(ls) == t + "";
    } else {
      var k: nat :| LiteralText(t, k);
      if k == |t| {
        assert t[..k] == t;
        ReadsQuoted(l, t, d);
        ls := [Lexeme(Quoted, t)];
        assert ls[1..] == [] && TextOf(ls) == t + "";
      } else {
        var s, r := t[..k], t[k + 2..];
        ReadsTyped(l, s, r, d);
        ls := [Lexeme(Quoted, s), Lexeme(Other, "^"), Lexeme(Other, "^"), Lexeme(IriRef, r)];
        assert t == s + t[k..k + 2] + r;
        TypedText(s, r);
      }
    }
  }

  lemma TypedText(s: string, r: string)
    ensures TextOf([Lexeme(Quoted, s), Lexeme(Other, "^"), Lexeme(Other, "^"), Lexeme(IriRef, r)]) == s + "^^" + r
  {
    var d := [Lexeme(IriRef, r)];
    var c := [Lexeme(Other, "^")] + d;
    var b := [Lexeme(Other, "^")] + c;
    var a := [Lexeme(Quoted, s)] + b;
    assert a[1..] == b && b[1..] == c && c[1..] == d && d[1..] == [];
    assert TextOf(d) == r + "";
    assert TextOf(c) == "^" + TextOf(d);
    assert TextOf(b) == "^" + TextOf(c);
    assert TextOf(a) == s + TextOf(b);
    assert a == [Lexeme(Quoted, s), Lexeme(Other, "^"), Lexeme(Other, "^"), Lexeme(IriRef, r)];
    assert s + ("^" + ("^" + r)) == s + "^^" + r;
  }

  // --------------------------------------------------------------------- reading them back

  /** The terms up to the closing parenthesis: a space ends one. */
  function TermsRead(ls: seq<Lexeme>, current: string): seq<string> {
    if ls == [] then []
    else if ls[0] == Lexeme(Other, ")") then if current == "" then [] else [current]
    else if ls[0] == Lexeme(Other, " ") then [current] + TermsRead(ls[1..], "")
    else TermsRead(ls[1..], current + ls[0].text)
  }

  /** The variables up to the closing parenthesis, without their marks, and what follows. */
  function VarsRead(ls: seq<Lexeme>): Option<(seq<string>, seq<Lexeme>)> {
    if ls == [] then None
    else if ls[0] == Lexeme(Other, ")") then Some(([], ls[1..]))
    else if ls[0] == Lexeme(Other, " ") then VarsRead(ls[1..])
    else if ls[0].kind == Name && "?" <= ls[0].text then
      match VarsRead(ls[1..])
      case None => None
      case Some((names, rest)) => Some(([ls[0].text[1..]] + names, rest))
    else None
  }

  const OPEN_VARS := [Lexeme(Other, " "), Lexeme(Name, "VALUES"), Lexeme(Other, " "), Lexeme(Other, "(")]
  const OPEN_ROW := [Lexeme(Other, " "), Lexeme(Brace, "{"), Lexeme(Other, " "), Lexeme(Other, "(")]

  /** The variables and the terms of a VALUES block with one row. */
  function BlockRead(ls: seq<Lexeme>): Option<(seq<string>, seq<string>)> {
    if !(OPEN_VARS <= ls) then None
    else
      match VarsRead(ls[|OPEN_VARS|..])
      case None => None
      case Some((names, rest)) =>
        if OPEN_ROW <= rest then Some((names, TermsRead(rest[|OPEN_ROW|..], ""))) else None
  }

  lemma {:induction false} TermAdded(ls: seq<Lexeme>, rest: seq<Lexeme>, current: string)
    requires forall x :: x in ls ==> !IsCloser(x)
    ensures TermsRead(ls + rest, current) == TermsRead(rest, current + TextOf(ls))
    decreases |ls|
  {
    if ls == [] {
      assert ls + rest == rest && current + "" == current;
    } else {
      assert ls[0] in ls;
      assert (ls + rest)[1..] == ls[1..] + rest;
      TermAdded(ls[1..], rest, current + ls[0].text);
      assert current + ls[0].text + TextOf(ls[1..]) == current + TextOf(ls);
    }
  }

  lemma LastTermRead(first: seq<Lexeme>, t: string, tail: seq<Lexeme>)
    requires TermLexemes(first, t) && t != ""
    ensures TermsRead(first + [Lexeme(Other, ")")] + tail, "") == [t]
  {
    var more := [Lexeme(Other, ")")] + tail;
    assert first + [Lexeme(Other, ")")] + tail == first + more;
    TermAdded(first, more, "");
    assert "" + t == t;
  }

  lemma NextTermRead(first: seq<Lexeme>, t: string, tail: seq<Lexeme>)
    requires TermLexemes(first, t)
    ensures TermsRead(first + [Lexeme(Other, " ")] + tail, "") == [t] + TermsRead(tail, "")
  {
    var more := [Lexeme(Other, " ")] + tail;
    assert first + [Lexeme(Other, " ")] + tail == first + more && more[1..] == tail;
    TermAdded(first, more, "");
    assert "" + t == t;
  }

  lemma {:induction false} JoinedTermsRead(l: Letters, terms: seq<string>) returns (ls: seq<Lexeme>)
    requires Usual(l) && forall t :: t in terms ==> SerializedTerm(t)
    ensures Reads(l, Join(terms) + ")", ls) && Inert(ls)
    ensures forall tail :: TermsRead(ls + tail, "") == terms
    decreases |terms|
  {
    hide Reads, SerializedTerm, TermLexemes;
    assert [')'] == ")" && [' '] == " ";
    if terms == [] {
      ReadsOther(l, ')');
      assert Join(terms) + ")" == [')'];
      ls := [Lexeme(Other, ")")];
      forall tail ensures TermsRead(ls + tail, "") == terms {
        assert (ls + tail)[0] == ls[0];
      }
    } else if |terms| == 1 {
      assert terms[0] in terms && terms == [terms[0]];
      var first := ReadsTerm(l, terms[0], ')');
      ls := first + [Lexeme(Other, ")")];
      NotEmptyTerm(terms[0]);
      hide TermsRead;
      forall tail ensures TermsRead(ls + tail, "") == terms {
        LastTermRead(first, terms[0], tail);
      }
    } else {
      assert terms[0] in terms && terms == [terms[0]] + terms[1..];
      var first := ReadsTerm(l, terms[0], ' ');
      var rest := JoinedTermsRead(l, terms[1..]);
      ls := (first + [Lexeme(Other, " ")]) + rest;
      ReadsConcat(l, terms[0] + " ", first + [Lexeme(Other, " ")], Join(terms[1..]) + ")", rest);
      assert Join(terms) + ")" == terms[0] + " " + (Join(terms[1..]) + ")");
      hide TermsRead;
      forall tail ensures TermsRead(ls + tail, "") == terms {
        NextTermRead(first, terms[0], rest + tail);
        assert ls + tail == first + [Lexeme(Other, " ")] + (rest + tail);
      }
    }
  }

  lemma NotEmptyTerm(t: string)
    requires SerializedTerm(t)
    ensures t != ""
  {
  }

  lemma VarAdded(name: string, close: Lexeme, rest: seq<Lexeme>)
    requires close == Lexeme(Other, " ") || close == Lexeme(Other, ")")
    ensures VarsRead([Lexeme(Name, "?" + name), close] + rest) ==
            match VarsRead([close] + rest)
            case None => None
            case Some((names, after)) => Some(([name] + names, after))
  {
    var ls := [Lexeme(Name, "?" + name), close] + rest;
    assert ls[1..] == [close] + rest;
    assert ("?" + name)[1..] == name;
  }

  lemma VarCounted(name: string, close: Lexeme, rest: seq<Lexeme>)
    requires close == Lexeme(Other, " ") || close == Lexeme(Other, ")")
    ensures var ls := [Lexeme(Name, "?" + name), close] + rest;
            && NamesIn(ls) == ["?" + name] + NamesIn(rest)
            && Count(ls, Brace) == Count(rest, Brace) && Count(ls, Comment) == Count(rest, Comment)
  {
    var ls := [Lexeme(Name, "?" + name), close] + rest;
    assert ls[1..] == [close] + rest && ls[1..][1..] == rest;
  }

  lemma LastVarRead(name: string, tail: seq<Lexeme>)
    ensures VarsRead([Lexeme(Name, "?" + name), Lexeme(Other, ")")] + tail) == Some(([name], tail))
  {
    VarAdded(name, Lexeme(Other, ")"), tail);
    assert ([Lexeme(Other, ")")] + tail)[1..] == tail && [name] + [] == [name];
  }

  lemma NextVarRead(name: string, names: seq<string>, rest: seq<Lexeme>, tail: seq<Lexeme>)
    requires VarsRead(rest + tail) == Some((names, tail))
    ensures VarsRead([Lexeme(Name, "?" + name), Lexeme(Other, " ")] + rest + tail) == Some(([name] + names, tail))
  {
    var first := [Lexeme(Name, "?" + name), Lexeme(Other, " ")];
    VarAdded(name, Lexeme(Other, " "), rest + tail);
    assert first + rest + tail == first + (rest + tail);
    assert ([Lexeme(Other, " ")] + (rest + tail))[1..] == rest + tail;
  }

  lemma ClosedList(tail: seq<Lexeme>)
    ensures VarsRead([Lexeme(Other, ")")] + tail) == Some(([], tail))
    ensures var ls := [Lexeme(Other, ")")]; NamesIn(ls) == [] && Count(ls, Brace) == 0 && Count(ls, Comment) == 0
  {
    assert ([Lexeme(Other, ")")] + tail)[1..] == tail;
    assert [Lexeme(Other, ")")][1..] == [];
  }

  lemma {:induction false} JoinedNamesRead(l: Letters, names: seq<string>) returns (ls: seq<Lexeme>)
    requires Usual(l) && forall s :: s in names ==> WordText(l, s)
    ensures Reads(l, Join(Variables(names)) + ")", ls)
    ensures NamesIn(ls) == Variables(names) && Count(ls, Brace) == 0 && Count(ls, Comment) == 0
    ensures forall tail :: VarsRead(ls + tail) == Some((names, tail))
    decreases |names|
  {
    hide Reads, VarsRead, NamesIn, Count, WordText;
    var parts := Variables(names);
    assert [')'] == ")" && [' '] == " ";
    if names == [] {
      ReadsOther(l, ')');
      assert Join(parts) + ")" == [')'];
      ls := [Lexeme(Other, ")")];
      ClosedList([]);
      forall tail ensures VarsRead(ls + tail) == Some((names, tail)) {
        ClosedList(tail);
      }
    } else {
      assert names[0] in names && parts[0] == "?" + names[0];
      VariableIsName(l, names[0]);
      if |names| == 1 {
        ReadsName(l, parts[0], ')');
        ls := [Lexeme(Name, "?" + names[0]), Lexeme(Other, ")")];
        VarCounted(names[0], Lexeme(Other, ")"), []);
        ClosedList([]);
        assert ls + [] == ls && names == [names[0]] && parts == [parts[0]];
        NoLexemes();
        forall tail ensures VarsRead(ls + tail) == Some((names, tail)) {
          LastVarRead(names[0], tail);
        }
      } else {
        ReadsName(l, parts[0], ' ');
        var rest := JoinedNamesRead(l, names[1..]);
        assert Variables(names[1..]) == parts[1..];
        var first := [Lexeme(Name, "?" + names[0]), Lexeme(Other, " ")];
        ls := first + rest;
        ReadsConcat(l, parts[0] + " ", first, Join(parts[1..]) + ")", rest);
        assert Join(parts) + ")" == parts[0] + " " + (Join(parts[1..]) + ")");
        VarCounted(names[0], Lexeme(Other, " "), rest);
        assert [parts[0]] + parts[1..] == parts && [names[0]] + names[1..] == names;
        forall tail ensures VarsRead(ls + tail) == Some((names, tail)) {
          NextVarRead(names[0], names[1..], rest, tail);
        }
      }
    }
  }

  lemma NoLexemes()
    ensures NamesIn([]) == [] && Count([], Brace) == 0 && Count([], Comment) == 0
  {
  }

  lemma VariableIsName(l: Letters, name: string)
    requires Usual(l) && WordText(l, name)
    ensures KindOf(l, ("?" + name)[0]) == Name && forall k :: 1 <= k < |"?" + name| ==> ContinuesName(l, ("?" + name)[k])
  {
    forall k | 1 <= k < |"?" + name| ensures ContinuesName(l, ("?" + name)[k]) {
      assert ("?" + name)[k] == name[k - 1] && name[k - 1] in name;
    }
  }

  // ------------------------------------------------------------------------ the whole block

  lemma ReadsOpenVars(l: Letters)
    requires Usual(l)
    ensures Reads(l, " VALUES (", OPEN_VARS)
  {
    hide Reads;
    assert [' '] == " " && ['('] == "(";
    ReadsOther(l, ' ');
    ReadsName(l, "VALUES", ' ');
    ReadsConcat(l, " ", [Lexeme(Other, " ")], "VALUES" + " ", [Lexeme(Name, "VALUES"), Lexeme(Other, " ")]);
    ReadsOther(l, '(');
    var first := [Lexeme(Other, " ")] + [Lexeme(Name, "VALUES"), Lexeme(Other, " ")];
    ReadsConcat(l, " " + ("VALUES" + " "), first, "(", [Lexeme(Other, "(")]);
    assert " VALUES (" == " " + ("VALUES" + " ") + "(";
    assert first + [Lexeme(Other, "(")] == OPEN_VARS;
  }

  lemma ReadsOpenRow(l: Letters)
    requires Usual(l)
    ensures Reads(l, " { (", OPEN_ROW)
  {
    hide Reads;
    assert [' '] == " " && ['('] == "(" && ['{'] == "{";
    ReadsOther(l, ' ');
    ReadsOther(l, '{');
    ReadsOther(l, '(');
    var sp, br, op := [Lexeme(Other, " ")], [Lexeme(Brace, "{")], [Lexeme(Other, "(")];
    ReadsConcat(l, " ", sp, "{", br);
    ReadsConcat(l, " " + "{", sp + br, " ", sp);
    ReadsConcat(l, " " + "{" + " ", sp + br + sp, "(", op);
    assert " { (" == " " + "{" + " " + "(";
    assert sp + br + sp + op == OPEN_ROW;
  }

  lemma ReadsEnd(l: Letters) returns (ls: seq<Lexeme>)
    requires Usual(l)
    ensures Reads(l, " } ", ls) && Inert(ls)
  {
    hide Reads;
    assert [' '] == " " && ['}'] == "}";
    ReadsOther(l, ' ');
    ReadsOther(l, '}');
    var sp, br := [Lexeme(Other, " ")], [Lexeme(Other, "}")];
    ReadsConcat(l, " ", sp, "}", br);
    ReadsConcat(l, " " + "}", sp + br, " ", sp);
    assert " } " == " " + "}" + " ";
    ls := sp + br + sp;
  }

  lemma BlockPieces(vars: string, vals: string)
    ensures " " + ("VALUES (" + vars + ") { (" + vals + ") }") + " " ==
            " VALUES (" + (vars + ")") + " { (" + (vals + ")") + " } "
  {
  }

  /**
   Whatever the supplied values, the injected block (with its surrounding spaces) is lexically
   closed: its only names are VALUES and the variables in order, it has one brace and no comment,
   and its lexemes read back to its variables and its terms.
   */
  lemma BlockIsClosed(l: Letters, names: seq<string>, terms: seq<string>)
    requires Usual(l)
    requires forall s :: s in names ==> WordText(l, s)
    requires forall t :: t in terms ==> SerializedTerm(t)
    ensures var text := " " + BlockText(Variables(names), terms) + " ";
            && Sealed(l, text) && BlockRead(Lexemes(l, text)) == Some((names, terms))
            && NamesIn(Lexemes(l, text)) == ["VALUES"] + Variables(names)
            && Count(Lexemes(l, text), Brace) == 1 && Count(Lexemes(l, text), Comment) == 0
  {
    hide Lexemes, Sealed, WordText, SerializedTerm, OPEN_VARS, OPEN_ROW, TermsRead, VarsRead, NamesIn, Count, Inert;
    ReadsOpenVars(l);
    ReadsOpenRow(l);
    var end := ReadsEnd(l);
    var vars := JoinedNamesRead(l, names);
    var row := JoinedTermsRead(l, terms);
    var a, b := Join(Variables(names)) + ")", Join(terms) + ")";
    ReadsConcat(l, " VALUES (", OPEN_VARS, a, vars);
    ReadsConcat(l, " VALUES (" + a, OPEN_VARS + vars, " { (", OPEN_ROW);
    ReadsConcat(l, " VALUES (" + a + " { (", OPEN_VARS + vars + OPEN_ROW, b, row);
    ReadsConcat(l, " VALUES (" + a + " { (" + b, OPEN_VARS + vars + OPEN_ROW + row, " } ", end);
    BlockPieces(Join(Variables(names)), Join(terms));
    BlockParts(vars, row, end, names, terms);
    BlockNames(vars, row, end, names);
  }

  /** The names among lexemes, in order. */
  function NamesIn(ls: seq<Lexeme>): seq<string> {
    if ls == [] then [] else (if ls[0].kind == Name then [ls[0].text] else []) + NamesIn(ls[1..])
  }

  function Count(ls: seq<Lexeme>, kind: Kind): nat {
    if ls == [] then 0 else (if ls[0].kind == kind then 1 else 0) + Count(ls[1..], kind)
  }

  lemma {:induction false} PartsAdd(a: seq<Lexeme>, b: seq<Lexeme>, kind: Kind)
    ensures NamesIn(a + b) == NamesIn(a) + NamesIn(b)
    ensures Count(a + b, kind) == Count(a, kind) + Count(b, kind)
  {
    if a == [] {
      assert a + b == b;
    } else {
      assert (a + b)[1..] == a[1..] + b;
      PartsAdd(a[1..], b, kind);
    }
  }

  lemma {:induction false} InertParts(ls: seq<Lexeme>)
    requires Inert(ls)
    ensures NamesIn(ls) == [] && Count(ls, Brace) == 0 && Count(ls, Comment) == 0
  {
    if ls != [] {
      assert ls[0] in ls;
      InertParts(ls[1..]);
    }
  }

  lemma OpenParts()
    ensures NamesIn(OPEN_VARS) == ["VALUES"] && Count(OPEN_VARS, Brace) == 0 && Count(OPEN_VARS, Comment) == 0
    ensures NamesIn(OPEN_ROW) == [] && Count(OPEN_ROW, Brace) == 1 && Count(OPEN_ROW, Comment) == 0
  {
    assert OPEN_VARS[1..][1..][1..][1..] == [] && OPEN_ROW[1..][1..][1..][1..] == [];
    assert OPEN_VARS[1..][1..][1..] == [OPEN_VARS[3]] && OPEN_ROW[1..][1..][1..] == [OPEN_ROW[3]];
    assert OPEN_VARS[1..][1..] == OPEN_VARS[2..] && OPEN_ROW[1..][1..] == OPEN_ROW[2..];
  }

  lemma BlockNames(vars: seq<Lexeme>, row: seq<Lexeme>, end: seq<Lexeme>, names: seq<string>)
    requires NamesIn(vars) == Variables(names) && Count(vars, Brace) == 0 && Count(vars, Comment) == 0
    requires Inert(row) && Inert(end)
    ensures var ls := OPEN_VARS + vars + OPEN_ROW + row + end;
            && NamesIn(ls) == ["VALUES"] + Variables(names) && Count(ls, Brace) == 1 && Count(ls, Comment) == 0
  {
    hide NamesIn, Count, OPEN_VARS, OPEN_ROW;
    OpenParts();
    InertParts(row);
    InertParts(end);
    forall kind | kind in {Brace, Comment}
      ensures NamesIn(OPEN_VARS + vars + OPEN_ROW + row + end) ==
              NamesIn(OPEN_VARS) + NamesIn(vars) + NamesIn(OPEN_ROW) + NamesIn(row) + NamesIn(end)
      ensures Count(OPEN_VARS + vars + OPEN_ROW + row + end, kind) ==
              Count(OPEN_VARS, kind) + Count(vars, kind) + Count(OPEN_ROW, kind) + Count(row, kind) + Count(end, kind)
    {
      PartsAdd(OPEN_VARS, vars, kind);
      PartsAdd(OPEN_VARS + vars, OPEN_ROW, kind);
      PartsAdd(OPEN_VARS + vars + OPEN_ROW, row, kind);
      PartsAdd(OPEN_VARS + vars + OPEN_ROW + row, end, kind);
    }
  }

  lemma BlockParts(vars: seq<Lexeme>, row: seq<Lexeme>, end: seq<Lexeme>, names: seq<string>, terms: seq<string>)
    requires forall tail :: VarsRead(vars + tail) == Some((names, tail))
    requires forall tail :: TermsRead(row + tail, "") == terms
    ensures BlockRead(OPEN_VARS + vars + OPEN_ROW + row + end) == Some((names, terms))
  {
    hide VarsRead, TermsRead, OPEN_VARS, OPEN_ROW;
    var ls, rest := OPEN_VARS + vars + OPEN_ROW + row + end, OPEN_ROW + (row + end);
    assert ls == OPEN_VARS + (vars + rest);
    assert ls[|OPEN_VARS|..] == vars + rest;
    assert rest[|OPEN_ROW|..] == row + end;
  }

  // ---------------------------------------------------------------------------- the row

  /** The row of a block: its terms' texts read as terms. */
  function RowRead(names: seq<string>, terms: seq<string>, read: string -> Term): (row: Sparql.Row)
    requires |names| == |terms|
    ensures row.Keys == set s | s in names
  {
    if names == [] then map[] else RowRead(names[1..], terms[1..], read)[names[0] := read(terms[0])]
  }

  predicate Distinct(decls: seq<ParamDecl>) {
    forall i, j :: 0 <= i < j < |decls| ==> decls[i].name != decls[j].name
  }

  /** Serializing a value as a term and reading the text gives the term the value binds as. */
  ghost predicate Serializes(n3: Serializer, read: string -> Term, term: (string, ParamType) -> Term) {
    forall v, k :: n3(v, k).Some? ==> read(n3(v, k).value) == term(v, k)
  }

  /** The supplied parameters with their terms. */
  ghost predicate RowOf(row: Sparql.Row, bound: map<string, string>, decls: seq<ParamDecl>, term: (string, ParamType) -> Term) {
    && (forall n :: n in row <==> n in bound && exists d :: d in decls && d.name == n)
    && (forall d :: d in decls && d.name in bound ==> d.name in row && row[d.name] == term(bound[d.name], d.kind))
  }

  lemma {:induction false} RowReadAt(names: seq<string>, terms: seq<string>, read: string -> Term, i: nat)
    requires |names| == |terms| && i < |names| && forall j, k :: 0 <= j < k < |names| ==> names[j] != names[k]
    ensures RowRead(names, terms, read)[names[i]] == read(terms[i])
    decreases |names|
  {
    if i > 0 {
      RowReadAt(names[1..], terms[1..], read, i - 1);
      assert names[1..][i - 1] == names[i] && terms[1..][i - 1] == terms[i];
    }
  }

  lemma {:induction false} OrderedDistinct(bound: map<string, string>, decls: seq<ParamDecl>)
    requires Distinct(decls)
    ensures Distinct(Ordered(bound, decls))
  {
    if decls != [] {
      OrderedDistinct(bound, decls[1..]);
      var rest := Ordered(bound, decls[1..]);
      forall i | 0 <= i < |rest| ensures rest[i].name != decls[0].name {
        assert rest[i] in rest;
        var j :| 0 <= j < |decls[1..]| && decls[1..][j] == rest[i];
        assert decls[j + 1] == rest[i];
      }
    }
  }

  lemma BuiltRow(n3: Serializer, read: string -> Term, term: (string, ParamType) -> Term,
                 bound: map<string, string>, decls: seq<ParamDecl>)
    requires Serializes(n3, read, term) && Distinct(decls) && TermTexts(n3, bound, Ordered(bound, decls)).Ok?
    ensures var ordered := Ordered(bound, decls);
            RowOf(RowRead(NamesOf(ordered), TermTexts(n3, bound, ordered).value, read), bound, decls, term)
  {
    var ordered := Ordered(bound, decls);
    var names, terms := NamesOf(ordered), TermTexts(n3, bound, ordered).value;
    var row := RowRead(names, terms, read);
    OrderedDistinct(bound, decls);
    forall d | d in decls && d.name in bound ensures d.name in row && row[d.name] == term(bound[d.name], d.kind) {
      assert d in ordered;
      var i :| 0 <= i < |ordered| && ordered[i] == d;
      RowReadAt(names, terms, read, i);
      assert names[i] in names;
    }
    forall n ensures n in row <==> n in bound && exists d :: d in decls && d.name == n {
      if n in row {
        var i :| 0 <= i < |names| && names[i] == n;
        assert ordered[i] in ordered;
      }
      if n in bound && exists d :: d in decls && d.name == n {
        var d :| d in decls && d.name == n;
        assert d in ordered;
        var i :| 0 <= i < |ordered| && ordered[i] == d;
        assert names[i] == n;
      }
    }
  }

  /** The text of a bound query, its lexemes, and what its block reads back to. */
  lemma BoundQueryText(
      l: Letters, n3: Serializer, parses: string -> bool,
      template: string, bound: map<string, string>, decls: seq<ParamDecl>)
    returns (prefix: string, block: string, suffix: string)
    requires Usual(l) && bound != map[]
    requires forall d :: d in decls ==> WordText(l, d.name)
    requires forall v, k :: n3(v, k).Some? ==> SerializedTerm(n3(v, k).value)
    requires InjectValues(l, n3, parses, template, bound, decls).Ok?
    ensures template == prefix + suffix
    ensures InjectValues(l, n3, parses, template, bound, decls) == Ok(prefix + block + suffix)
    ensures Lexemes(l, template) == Lexemes(l, prefix) + Lexemes(l, suffix)
    ensures Lexemes(l, prefix + block + suffix) == Lexemes(l, prefix) + Lexemes(l, block) + Lexemes(l, suffix)
    ensures var ordered := Ordered(bound, decls);
            && TermTexts(n3, bound, ordered).Ok?
            && BlockRead(Lexemes(l, block)) == Some((NamesOf(ordered), TermTexts(n3, bound, ordered).value))
            && NamesIn(Lexemes(l, block)) == ["VALUES"] + Variables(NamesOf(ordered))
            && Count(Lexemes(l, block), Brace) == 1 && Count(Lexemes(l, block), Comment) == 0
    ensures Scan(l, prefix + block + suffix) == Scan(l, template)
  {
    hide Tokens, Sealed, Lexemes, SerializedTerm, WordText, BlockRead, Scan, NamesIn, Count;
    OkMeansSpliced(l, n3, parses, template, bound, decls);
    BuiltPieces(l, n3, bound, decls);
    var ordered := Ordered(bound, decls);
    var names, terms := NamesOf(ordered), TermTexts(n3, bound, ordered).value;
    var text := BlockText(Variables(names), terms);
    block := " " + text + " ";
    BlockIsClosed(l, names, terms);
    InjectionKeepsScan(l, template, text);
    GroupIsBrace(l, template);
    var at := Scan(l, template).group.value;
    prefix, suffix := template[..at + 1], template[at + 1..];
    assert template == prefix + suffix;
    assert Spliced(template, at, text) == prefix + block + suffix;
    SplicedLexemes(l, prefix, block, suffix);
  }

  /**
   A request with supplied parameters either fails, or its query keeps the template's positions,
   and what is added to it is one brace, the names VALUES and the supplied variables in order, and
   no comment: no value reaches outside its place.
   */
  lemma BoundQueryKeepsScan(l: Letters, n3: Serializer, parses: string -> bool,
                            template: string, bound: map<string, string>, decls: seq<ParamDecl>)
    returns (prefix: string, block: string, suffix: string)
    requires Usual(l) && bound != map[]
    requires forall d :: d in decls ==> WordText(l, d.name)
    requires forall v, k :: n3(v, k).Some? ==> SerializedTerm(n3(v, k).value)
    requires InjectValues(l, n3, parses, template, bound, decls).Ok?
    ensures var r := InjectValues(l, n3, parses, template, bound, decls).value;
            && template == prefix + suffix && r == prefix + block + suffix && Scan(l, r) == Scan(l, template)
            && NamesIn(Lexemes(l, template)) == NamesIn(Lexemes(l, prefix)) + NamesIn(Lexemes(l, suffix))
            && NamesIn(Lexemes(l, r)) == NamesIn(Lexemes(l, prefix)) + (["VALUES"] + Variables(NamesOf(Ordered(bound, decls))))
                                         + NamesIn(Lexemes(l, suffix))
            && Count(Lexemes(l, r), Brace) == Count(Lexemes(l, template), Brace) + 1
            && Count(Lexemes(l, r), Comment) == Count(Lexemes(l, template), Comment)
  {
    hide Lexemes, SerializedTerm, WordText, BlockRead, Scan, NamesIn, Count, InjectValues;
    prefix, block, suffix := BoundQueryText(l, n3, parses, template, bound, decls);
    var p, b, s := Lexemes(l, prefix), Lexemes(l, block), Lexemes(l, suffix);
    forall kind | kind in {Brace, Comment}
      ensures NamesIn(p + s) == NamesIn(p) + NamesIn(s) && NamesIn(p + b + s) == NamesIn(p) + NamesIn(b) + NamesIn(s)
      ensures Count(p + b + s, kind) == Count(p + s, kind) + Count(b, kind)
    {
      PartsAdd(p, s, kind);
      PartsAdd(p, b, kind);
      PartsAdd(p + b, s, kind);
    }
  }

  lemma SplicedLexemes(l: Letters, prefix: string, block: string, suffix: string)
    requires Sealed(l, prefix) && Sealed(l, block)
    ensures Lexemes(l, prefix + suffix) == Lexemes(l, prefix) + Lexemes(l, suffix)
    ensures Lexemes(l, prefix + block + suffix) == Lexemes(l, prefix) + Lexemes(l, block) + Lexemes(l, suffix)
  {
    LexemesConcat(l, prefix, suffix);
    LexemesConcat(l, prefix, block);
    SealedConcat(l, prefix, block);
    LexemesConcat(l, prefix + block, suffix);
  }

  /**
   A bound query, from text to meaning: its lexemes are the template's with the block's between
   them; the block reads back to the supplied parameters and their terms; and with that row put
   first in the template's group the query builds exactly the template's triples with each
   supplied parameter replaced by its term.
   */
  lemma BoundQueryMeansSubstitution(
      l: Letters, n3: Serializer, parses: string -> bool, read: string -> Term, term: (string, ParamType) -> Term,
      template: string, bound: map<string, string>, decls: seq<ParamDecl>,
      i: Sparql.Interpretation, head: seq<Sparql.TriplePattern>, group: Sparql.Group, g: Graph)
    returns (prefix: string, block: string, suffix: string, row: Sparql.Row)
    requires Usual(l) && bound != map[] && Distinct(decls) && Serializes(n3, read, term)
    requires forall d :: d in decls ==> WordText(l, d.name)
    requires forall v, k :: n3(v, k).Some? ==> SerializedTerm(n3(v, k).value)
    requires InjectValues(l, n3, parses, template, bound, decls).Ok?
    requires Sparql.Plain(group) && Sparql.NoLabels(head)
    ensures template == prefix + suffix
    ensures InjectValues(l, n3, parses, template, bound, decls) == Ok(prefix + block + suffix)
    ensures Lexemes(l, prefix + block + suffix) == Lexemes(l, prefix) + Lexemes(l, block) + Lexemes(l, suffix)
    ensures match BlockRead(Lexemes(l, block))
            case None => false
            case Some((names, terms)) => |names| == |terms| && row == RowRead(names, terms, read)
    ensures RowOf(row, bound, decls, term)
    ensures Sparql.Construct(i, head, Sparql.Injected(group, row), g) ==
            Sparql.Construct(i, Sparql.SubstTriples(head, row), Sparql.SubstGroup(i, group, row), g)
  {
    hide Lexemes, SerializedTerm, WordText, Sparql.Construct, BlockRead, RowRead, InjectValues, RowOf, Usual;
    prefix, block, suffix := BoundQueryText(l, n3, parses, template, bound, decls);
    BuiltRow(n3, read, term, bound, decls);
    var ordered := Ordered(bound, decls);
    row := RowRead(NamesOf(ordered), TermTexts(n3, bound, ordered).value, read);
    Sparql.InjectionIsSubstitution(i, head, group, row, g);
  }

  lemma BuiltPieces(l: Letters, n3: Serializer, bound: map<string, string>, decls: seq<ParamDecl>)
    requires forall d :: d in decls ==> WordText(l, d.name)
    requires forall v, k :: n3(v, k).Some? ==> SerializedTerm(n3(v, k).value)
    requires ValuesBlock(n3, bound, decls).Ok?
    ensures var ordered := Ordered(bound, decls);
            && TermTexts(n3, bound, ordered).Ok?
            && (forall s :: s in NamesOf(ordered) ==> WordText(l, s))
            && (forall t :: t in TermTexts(n3, bound, ordered).value ==> SerializedTerm(t))
  {
    var ordered := Ordered(bound, decls);
    var names := NamesOf(ordered);
    forall s | s in names ensures WordText(l, s) {
      var i :| 0 <= i < |names| && names[i] == s;
      assert ordered[i] in ordered;
    }
  }
}
