/**
 The Turtle parser on N-Triples documents that use the optional white space differently from the
 N-Triples parser.  A label there ends at a Turtle delimiter, so a predicate right after a blank
 node is swallowed too, and what is left raises, pushes a triple about the swallowed label, or
 pushes nothing; white space before a datatype raises.  The parser returns a document's meaning
 exactly when neither occurs.  The exception is a swallowed predicate in which a dot is followed
 by what opens a statement, such as the word "prefix": a document is shown for which that gives
 the right triples.
 */
module MinimalSpaceTurtle {
  import opened Options
  import opened Scanner
  import opened JsText
  import opened Turtle
  import opened NTriplesDocs
  import opened ParsersAgree
  import opened MinimalSpace

  // --------------------------------------------------------------------- ordinary IRIs

  /** A statement that does not start with a name: a comment, a blank node or a directive. */
  predicate StartsOddly(s: string) {
    s != "" && (s[0] in "#[_" || IsDirective(s))
  }

  /** A text that no subject but a name and no directive opens. */
  predicate NoStatement(s: string) {
    s != "" && !IsWs(s[0]) && s[0] !in "#[_<" && !IsDirective(s)
  }

  /** After no dot of it would a statement start so. */
  predicate OrdinaryIri(iri: seq<Piece>) {
    var t := PiecesText(iri) + ">";
    forall i :: 0 < i < |t| && t[i - 1] == '.' ==> !StartsOddly(t[i..])
  }

  /** What an unspaced triple swallows is ordinary. */
  predicate Ordinary(i: Item) {
    i.TripleItem? && !Spaced(i) ==>
      OrdinaryIri(i.p) && (i.ws2 == "" && i.o.IriTerm? ==> OrdinaryIri(i.o.iri))
  }

  predicate AllOrdinary(d: Doc) {
    forall i :: i in d ==> Ordinary(i)
  }

  /** A directive is recognized before the closing bracket. */
  lemma DirectiveIsLocal(a: string, b: string)
    requires a != "" && a[|a| - 1] == '>' && IsDirective(a + b)
    ensures IsDirective(a)
  {
    assert HeadIs(a + b, '@') ==> HeadIs(a, '@');
    WordIsLocal(a, b, "prefix");
    WordIsLocal(a, b, "base");
  }

  lemma WordIsLocal(a: string, b: string, word: string)
    requires a != "" && a[|a| - 1] == '>' && '>' !in word
    ensures StartsWithWord(a + b, word) ==> |word| < |a| && StartsWithWord(a, word)
    ensures StartsWithWord(a + b, word) && WordEnds(a + b, |word|) ==> WordEnds(a, |word|)
  {
    if StartsWithWord(a + b, word) {
      var head := (a + b)[..|word|];
      forall k | 0 <= k < |word| ensures head[k] != '>' {
        assert word[k] == Lower(head[k]) && word[k] in word;
      }
      assert forall k :: 0 <= k < |a| && k < |word| ==> head[k] == a[k];
      assert head == a[..|word|];
    }
  }

  // -------------------------------------------------------------------- counting pushes

  /** Parsing the text pushes the statement at most n times. */
  ghost predicate Rarely(env: Env, text: string, x: Statement, n: nat) {
    forall bnode, out ::
      var r := ParseStatements(env, State(text, bnode, out));
      r.Some? ==> multiset(r.value)[x] <= multiset(out)[x] + n
  }

  /** A statement no swallowed label makes. */
  predicate Labelled(x: Statement) {
    x.s.BlankNode? && '<' !in x.s.value
  }

  // --------------------------------------------------------------------- what raises

  /** With no prefix declared there are no names. */
  lemma NoPrefixNoName(env: Env, s: string)
    requires env.prefixes == map[]
    ensures ReadPName(env, s) == Threw
  {
  }

  lemma VerbRaises(env: Env, st: State, subj: Node)
    requires env.prefixes == map[] && Skip(st.rest) != "" && Skip(st.rest)[0] !in "].<a"
    ensures ReadPredObjList(env, st, subj) == Raised
  {
    SkipTwice(st.rest);
    NoPrefixNoName(env, Skip(st.rest));
  }

  lemma SubjectRaises(env: Env, text: string)
    requires env.prefixes == map[] && NoStatement(text)
    ensures forall bnode, out :: ParseStatements(env, State(text, bnode, out)) == None
  {
    assert Skip(text) == text;
    NoPrefixNoName(env, text);
  }

  // ------------------------------------------------------------------- swallowed labels

  function FirstEnd(z: string): (i: nat)
    ensures i <= |z|
    ensures forall k :: 0 <= k < i ==> NameChar(z[k])
    ensures i < |z| ==> Ends(z[i])
  {
    if z == "" || Ends(z[0]) then 0 else FirstEnd(z[1..]) + 1
  }

  /** The label and what it could swallow of the triple. */
  function Word(i: Item): string
    requires i.TripleItem? && i.s.BlankTerm?
  {
    i.s.name + (IriText(i.p) + if i.ws2 == "" && !i.o.LiteralTerm? then TermText(i.o) else "")
  }

  function AfterWord(i: Item, rest: string): string
    requires i.TripleItem?
  {
    if i.ws2 == "" && !i.o.LiteralTerm? then End(i.ws3, rest) else ObjectOn(i.ws2, i.o, i.ws3, rest)
  }

  lemma LabelText(name: string)
    ensures TermText(BlankTerm(name)) == "_:" + name
  {
  }

  lemma RegroupLabel(l: string, n: string, p: string, o: string, e: string)
    ensures (l + n) + ("" + (p + ("" + (o + e)))) == l + ((n + (p + o)) + e)
    ensures (l + n) + ("" + (p + e)) == l + ((n + (p + "")) + e)
  {
  }

  lemma WordParts(i: Item, rest: string)
    requires i.TripleItem? && !Spaced(i)
    ensures ItemText(i) + rest == "_:" + (Word(i) + AfterWord(i, rest))
  {
    TripleText(i, rest);
    LabelText(i.s.name);
    hide TermText, IriText, End;
    RegroupLabel("_:", i.s.name, IriText(i.p), TermText(i.o), End(i.ws3, rest));
    RegroupLabel("_:", i.s.name, IriText(i.p), "", ObjectOn(i.ws2, i.o, i.ws3, rest));
  }

  /** No white space or double quote, and delimiters only inside IRI references. */
  lemma WordIsSolid(js: Js, i: Item)
    requires i.TripleItem? && ValidItem(js, i) && !Spaced(i)
    ensures forall c :: c in Word(i) ==> !IsWs(c) && c != '"'
    ensures '<' in Word(i)
  {
    LabelIsSolid(i.s.name);
    IriIsSolid(js, i.p);
    if i.ws2 == "" && i.o.IriTerm? {
      IriIsSolid(js, i.o.iri);
    }
    if i.ws2 == "" && i.o.BlankTerm? {
      LabelIsSolid(i.o.name);
    }
    forall c | c in Word(i) ensures !IsWs(c) && c != '"' {
      assert c in "_:" + i.s.name || c in IriText(i.p) || (i.ws2 == "" && !i.o.LiteralTerm? && c in TermText(i.o));
    }
    assert '<' in IriText(i.p) by {
      assert IriText(i.p)[0] == '<';
    }
  }

  lemma ReadsWordLabel(word: string, tail: string)
    requires NameText(word) && (tail != "" ==> Ends(tail[0]))
    ensures ReadLabel("_:" + (word + tail)) == Got(BlankNode("_:" + word), tail)
  {
    ReadsTurtleLabel(word, tail);
    assert "_:" + word + tail == "_:" + (word + tail);
  }

  /** What parsing does once a statement's predicates are read. */
  function Onward(env: Env, list: Run<()>): Option<seq<Statement>> {
    if list.Raised? then None else ParseStatements(env, list.state.(rest := AfterDot(Skip(list.state.rest))))
  }

  /** A statement that opens with a label: its subject, and what is left for its predicates. */
  lemma LabelStatement(env: Env, word: string, tail: string, bnode: nat, out: seq<Statement>)
    requires NameText(word) && (tail != "" ==> Ends(tail[0]))
    ensures ParseStatements(env, State("_:" + (word + tail), bnode, out)) ==
            Onward(env, ReadPredObjList(env, State(tail, bnode, out), BlankNode("_:" + word)))
  {
    var text := "_:" + (word + tail);
    ReadsWordLabel(word, tail);
    assert text[0] == '_' && Skip(text) == text && "_:" <= text;
    NotDirective(text);
    hide ReadPredObjList, ReadLabel;
  }

  /** Cut short by a delimiter inside a swallowed IRI, the statement raises or leaves junk behind a dot. */
  lemma CutShort(env: Env, z: string, j: nat, tail: string, x: Statement, n: nat)
    requires env.prefixes == map[] && j < |z| && NameText(z[..j]) && Ends(z[j]) && !IsWs(z[j])
    requires z[j] == '.' ==> NoStatement(z[j + 1..] + tail)
    ensures Rarely(env, "_:" + (z + tail), x, n)
  {
    var left := z[j..] + tail;
    assert z + tail == z[..j] + left;
    assert Skip(left) == left && left[0] == z[j];
    if z[j] == '.' {
      var junk := z[j + 1..] + tail;
      SubjectRaises(env, junk);
      assert left[1..] == junk;
    } else if z[j] == ']' {
      SubjectRaises(env, left) by {
        NotDirectiveAt(left);
      }
    }
    forall bnode, out ensures ParseStatements(env, State("_:" + (z + tail), bnode, out)) == None {
      LabelStatement(env, z[..j], left, bnode, out);
      var subj := BlankNode("_:" + z[..j]);
      if z[j] !in "]." {
        VerbRaises(env, State(left, bnode, out), subj);
      }
    }
  }

  lemma NotDirectiveAt(s: string)
    requires s != "" && s[0] == ']'
    ensures !IsDirective(s)
  {
    assert |s| >= 6 ==> LowerCase(s[..6])[0] == s[0];
    assert |s| >= 4 ==> LowerCase(s[..4])[0] == s[0];
  }

  /** Inside an ordinary IRI what is behind a dot opens no statement. */
  lemma OrdinaryJunk(js: Js, iri: seq<Piece>, k: nat, tail: string)
    requires ValidIri(js, iri) && OrdinaryIri(iri)
    requires var t := PiecesText(iri) + ">"; 0 < k < |t| && t[k - 1] == '.'
    ensures NoStatement((PiecesText(iri) + ">")[k..] + tail)
  {
    var t := PiecesText(iri) + ">";
    var a := t[k..];
    PiecesAreSolid(js, iri);
    assert !StartsOddly(a);
    assert a[|a| - 1] == '>';
    if IsDirective(a + tail) {
      DirectiveIsLocal(a, tail);
    }
    assert (a + tail)[0] == t[k];
    if k < |PiecesText(iri)| {
      assert t[k] == PiecesText(iri)[k] && PiecesText(iri)[k] in PiecesText(iri);
    }
  }

  /** Where a label is cut short inside an IRI reference by a dot. */
  lemma CutInIri(js: Js, iri: seq<Piece>, m: nat, tail: string)
    requires ValidIri(js, iri) && OrdinaryIri(iri) && m < |IriText(iri)| && IriText(iri)[m] == '.'
    ensures NoStatement(IriText(iri)[m + 1..] + tail)
  {
    var t := PiecesText(iri) + ">";
    assert IriText(iri) == "<" + t;
    assert IriText(iri)[m] == t[m - 1];
    assert t[|t| - 1] == '>';
    OrdinaryJunk(js, iri, m, tail);
    assert IriText(iri)[m + 1..] == t[m..];
  }

  lemma CutParts(a: string, b: string, c: string, j: nat, tail: string)
    requires |a| <= j < |a + (b + c)|
    ensures if j < |a| + |b|
            then (a + (b + c))[j] == b[j - |a|] && (a + (b + c))[j + 1..] + tail == b[j - |a| + 1..] + (c + tail)
            else (a + (b + c))[j] == c[j - |a| - |b|] && (a + (b + c))[j + 1..] + tail == c[j - |a| - |b| + 1..] + tail
  {
    var z := a + (b + c);
    if j < |a| + |b| {
      assert z[j + 1..] == b[j - |a| + 1..] + c;
    } else {
      assert z[j + 1..] == c[j - |a| - |b| + 1..];
    }
  }

  lemma NoDotInLabel(name: string, j: nat)
    requires ValidLabel(name)
    ensures j < |name| ==> name[j] != '.'
    ensures j < |TermText(BlankTerm(name))| ==> TermText(BlankTerm(name))[j] != '.'
  {
    LabelIsSolid(name);
    assert j < |name| ==> name[j] == ("_:" + name)[j + 2];
    assert j < |"_:" + name| ==> ("_:" + name)[j] in "_:" + name;
  }

  lemma CutInWord(js: Js, i: Item, j: nat, tail: string)
    requires i.TripleItem? && ValidItem(js, i) && !Spaced(i) && Ordinary(i)
    requires j < |Word(i)| && Word(i)[j] == '.'
    ensures NoStatement(Word(i)[j + 1..] + tail)
  {
    hide NoStatement, IriText, TermText, ValidLabel, OrdinaryIri, ValidIri;
    var name, p := i.s.name, IriText(i.p);
    var o := if i.ws2 == "" && !i.o.LiteralTerm? then TermText(i.o) else "";
    NoDotInLabel(name, j);
    assert Word(i) == name + (p + o);
    CutParts(name, p, o, j, tail);
    if j < |name| + |p| {
      CutInIri(js, i.p, j - |name|, o + tail);
    } else {
      CutInObject(js, i, j - |name| - |p|, tail);
    }
  }

  lemma CutInObject(js: Js, i: Item, k: nat, tail: string)
    requires i.TripleItem? && ValidItem(js, i) && !Spaced(i) && Ordinary(i) && i.ws2 == "" && !i.o.LiteralTerm?
    requires k < |TermText(i.o)| && TermText(i.o)[k] == '.'
    ensures NoStatement(TermText(i.o)[k + 1..] + tail)
  {
    if i.o.BlankTerm? {
      NoDotInLabel(i.o.name, k);
    } else {
      CutInIri(js, i.o.iri, k, tail);
    }
  }

  // ------------------------------------------------------------- whole swallowed predicates

  /** The number made of the dot where an object should be. */
  lemma DotIsNumber(env: Env, ws: string, rest: string, bnode: nat, out: seq<Statement>)
    requires AllWs(ws) && (rest != "" ==> !Digit(rest[0]))
    ensures ReadObject(env, State(End(ws, rest), bnode, out)) ==
            Done(Literal("", Some(XSD + "integer"), None), State("." + rest, bnode, out))
  {
    var dot := "." + rest;
    SkipsAll(ws, dot);
    assert Skip(dot) == dot;
    assert ReadDigits(dot, Number(0, false, false)) == Number(0, false, false);
    assert dot[0..] == dot;
  }

  lemma DotEndsList(env: Env, ws: string, rest: string, bnode: nat, out: seq<Statement>, subj: Node)
    requires AllWs(ws)
    ensures ReadPredObjList(env, State(End(ws, rest), bnode, out), subj) == Done((), State("." + rest, bnode, out))
    ensures Skip("." + rest) == "." + rest && AfterDot("." + rest) == rest
  {
    SkipsAll(ws, "." + rest);
    assert Skip("." + rest) == "." + rest;
    assert ("." + rest)[1..] == rest;
  }

  /** The object taken for the predicate: an IRI pushes a made-up triple, anything else raises. */
  lemma ObjectAsVerb(env: Env, i: Item, rest: string, bnode: nat, out: seq<Statement>, subj: Node)
    requires env.prefixes == map[] && i.TripleItem? && ValidItem(env.js, i) && (rest != "" ==> !Digit(rest[0]))
    ensures var r := ReadPredObjList(env, State(ObjectOn(i.ws2, i.o, i.ws3, rest), bnode, out), subj);
            || r == Raised
            || exists v :: r == Done((), State("." + rest, bnode,
                                               out + [Statement(subj, v, Literal("", Some(XSD + "integer"), None))]))
  {
    var end := End(i.ws3, rest);
    var text := TermText(i.o) + end;
    var st := State(ObjectOn(i.ws2, i.o, i.ws3, rest), bnode, out);
    SkipsAll(i.ws2, text);
    assert Skip(text) == text;
    if i.o.IriTerm? {
      ReadsIri(env.js, i.o.iri, end);
      var v := Resolve(env, PiecesValue(env.js, i.o.iri));
      DotIsNumber(env, i.ws3, rest, bnode, out);
      assert "." + rest == "." + rest && Skip("." + rest) == "." + rest by {
        DotEndsList(env, "", rest, bnode, out, subj);
      }
      OneStatement(env, st, subj, v, end, Literal("", Some(XSD + "integer"), None), "." + rest, rest);
    } else {
      VerbRaises(env, st, subj);
    }
  }

  lemma UnspacedRarely(env: Env, i: Item, rest: string, x: Statement, n: nat)
    requires env.prefixes == map[] && i.TripleItem? && ValidItem(env.js, i) && !Spaced(i) && Ordinary(i)
    requires Labelled(x) && Rarely(env, rest, x, n) && (rest != "" ==> !Digit(rest[0]))
    ensures Rarely(env, ItemText(i) + rest, x, n)
  {
    var word, tail := Word(i), AfterWord(i, rest);
    WordParts(i, rest);
    WordIsSolid(env.js, i);
    var j := FirstEnd(word);
    if j < |word| {
      assert word[j] in word;
      if word[j] == '.' {
        CutInWord(env.js, i, j, tail);
      }
      CutShort(env, word, j, tail, x, n);
    } else {
      WholeWord(env, i, rest, x, n);
    }
  }

  lemma WholeWord(env: Env, i: Item, rest: string, x: Statement, n: nat)
    requires env.prefixes == map[] && i.TripleItem? && ValidItem(env.js, i) && !Spaced(i)
    requires NameText(Word(i)) && '<' in Word(i)
    requires Labelled(x) && Rarely(env, rest, x, n) && (rest != "" ==> !Digit(rest[0]))
    ensures Rarely(env, "_:" + (Word(i) + AfterWord(i, rest)), x, n)
  {
    var word, tail := Word(i), AfterWord(i, rest);
    var subj := BlankNode("_:" + word);
    assert '<' in subj.value;
    AfterWordEnds(i, rest);
    forall bnode, out
      ensures var r := ParseStatements(env, State("_:" + (word + tail), bnode, out));
              r.Some? ==> multiset(r.value)[x] <= multiset(out)[x] + n
    {
      LabelStatement(env, word, tail, bnode, out);
      DotEndsList(env, i.ws3, rest, bnode, out, subj);
      if tail != End(i.ws3, rest) {
        ObjectAsVerb(env, i, rest, bnode, out, subj);
      }
    }
  }

  lemma AfterWordEnds(i: Item, rest: string)
    requires i.TripleItem? && AllWs(i.ws2) && AllWs(i.ws3)
    ensures AfterWord(i, rest) != "" && Ends(AfterWord(i, rest)[0])
    ensures AfterWord(i, rest) == End(i.ws3, rest) || AfterWord(i, rest) == ObjectOn(i.ws2, i.o, i.ws3, rest)
  {
  }

  // ------------------------------------------------------------------ whole documents

  /** White space before a datatype raises. */
  lemma GapRaises(env: Env, i: Item, rest: string, x: Statement, n: nat)
    requires env.prefixes == map[] && i.TripleItem? && ValidItem(env.js, i) && FixedItem(env, i)
    requires Spaced(i) && !Gapless(i)
    ensures Rarely(env, ItemText(i) + rest, x, n)
  {
    var r3 := End(i.ws3, rest);
    var r2 := ObjectOn(i.ws2, i.o, i.ws3, rest);
    var verb := IriText(i.p) + r2;
    var r1 := i.ws1 + verb;
    TripleText(i, rest);
    ReadsFixedIri(env, i.p, r2);
    SkipsAll(i.ws1, verb);
    assert Skip(verb) == verb;
    forall bnode, out ensures ParseStatements(env, State(TermText(i.s) + r1, bnode, out)) == None {
      var st, subj := State(TermText(i.s) + r1, bnode, out), TermNode(env.js, i.s);
      ReadsTurtleSubject(env, st, i.s, r1);
      GapObject(env, i.ws2, i.o, r3, bnode, out);
      ObjectRaises(env, State(r1, bnode, out), subj, PiecesValue(env.js, i.p), r2);
      StatementRaises(env, st, subj, State(r1, bnode, out));
    }
  }

  lemma GapObject(env: Env, ws: string, o: Term, tail: string, bnode: nat, out: seq<Statement>)
    requires AllWs(ws) && ValidTerm(env.js, o) && FixedTerm(env, o) && !GaplessTerm(o) && EndsTerm(tail)
    ensures ReadObject(env, State(ws + (TermText(o) + tail), bnode, out)) == Raised
  {
    var s := TermText(o) + tail;
    SkipsAll(ws, s);
    assert Skip(s) == s;
    GapRaisesIff(env, o.body, o.suffix.gap, o.suffix.iri, tail);
  }

  lemma ObjectRaises(env: Env, st: State, subj: Node, verb: string, r2: string)
    requires HeadIs(Skip(st.rest), '<') && ReadIriRef(env, Skip(st.rest)) == Got(verb, r2)
    requires ReadObject(env, st.(rest := r2)) == Raised
    ensures ReadPredObjList(env, st, subj) == Raised
  {
    SkipTwice(st.rest);
    assert ReadVerb(env, Skip(st.rest)) == Got(verb, r2);
  }

  lemma StatementRaises(env: Env, st: State, subj: Node, after: State)
    requires |st.rest| > 0 && (st.rest[0] == '<' || st.rest[0] == '_')
    requires ReadSubject(env, st) == Done(subj, after) && ReadPredObjList(env, after, subj) == Raised
    ensures ParseStatements(env, st) == None
  {
    assert Skip(st.rest) == st.rest;
    NotDirective(st.rest);
    assert st.(rest := st.rest) == st;
  }

  /** The items of a document that the parser reads as the statement. */
  function GoodCount(js: Js, d: Doc, x: Statement): nat {
    if d == [] then 0
    else
      (if d[0].TripleItem? && Spaced(d[0]) && Gapless(d[0]) && ItselfUntagged(d[0], js) == x then 1 else 0)
      + GoodCount(js, d[1..], x)
  }

  lemma ItemRarely(env: Env, i: Item, rest: string, x: Statement, n: nat)
    requires env.prefixes == map[] && ValidItem(env.js, i) && FixedItem(env, i) && Ordinary(i)
    requires Labelled(x) || Spaced(i)
    requires Rarely(env, rest, x, n) && (rest != "" ==> !Digit(rest[0]))
    ensures Rarely(env, ItemText(i) + rest, x,
                   n + if i.TripleItem? && Spaced(i) && Gapless(i) && ItselfUntagged(i, env.js) == x then 1 else 0)
  {
    if !Spaced(i) {
      UnspacedRarely(env, i, rest, x, n);
    } else if !Gapless(i) {
      GapRaises(env, i, rest, x, n);
    } else {
      forall bnode, out
        ensures ParseStatements(env, State(ItemText(i) + rest, bnode, out)) ==
                ParseStatements(env, State(rest, bnode, out + ItemStatements(env.js, i)))
      {
        StatementItemParsed(env, i, rest, bnode, out);
      }
    }
  }

  lemma NoDigitAhead(js: Js, d: Doc)
    requires ValidDoc(js, d)
    ensures DocText(d) != "" ==> !Digit(DocText(d)[0])
  {
    if d != [] {
      var i := d[0];
      assert ItemText(i) != "" && !Digit(ItemText(i)[0]) by {
        assert ValidItem(js, i);
        if i.TripleItem? && i.s.IriTerm? {
          assert TermText(i.s)[0] == '<';
        }
      }
    }
  }

  lemma {:induction false} DocRarely(env: Env, d: Doc, x: Statement)
    requires env.prefixes == map[] && ValidDoc(env.js, d) && FixedDoc(env, d) && AllOrdinary(d)
    requires Labelled(x) || AllSpaced(d)
    ensures Rarely(env, DocText(d), x, GoodCount(env.js, d, x))
  {
    if d != [] {
      DocRarely(env, d[1..], x);
      NoDigitAhead(env.js, d[1..]);
      assert d[0] in d;
      ItemRarely(env, d[0], DocText(d[1..]), x, GoodCount(env.js, d[1..], x));
    }
  }

  lemma {:induction false} MeaningCount(js: Js, d: Doc, x: Statement)
    ensures GoodCount(js, d, x) <= multiset(Untagged(DocLines(js, d)))[x]
    ensures forall i :: i in d && i.TripleItem? && !(Spaced(i) && Gapless(i)) && ItselfUntagged(i, js) == x ==>
              GoodCount(js, d, x) < multiset(Untagged(DocLines(js, d)))[x]
  {
    if d != [] {
      MeaningCount(js, d[1..], x);
      UntaggedStep(js, d, []);
      var rest := Untagged(DocLines(js, d[1..]));
      assert Untagged(DocLines(js, d)) == ItemStatements(js, d[0]) + rest;
      forall i | i in d && i.TripleItem? && !(Spaced(i) && Gapless(i)) && ItselfUntagged(i, js) == x
        ensures GoodCount(js, d, x) < multiset(Untagged(DocLines(js, d)))[x]
      {
        if i != d[0] {
          assert i in d[1..];
        }
      }
    }
  }

  /**
   On documents whose swallowed predicates are ordinary the Turtle parser returns the meaning
   exactly when white space follows every blank-node subject and precedes no datatype.
   */
  lemma TurtleRightIff(js: Js, d: Doc, base: string)
    requires ValidDoc(js, d) && FixedDoc(Env(js, map[], base), d) && AllOrdinary(d)
    ensures ParseTurtle(js, DocText(d), base) == Some(Untagged(DocLines(js, d))) <==> AllSpaced(d) && AllGapless(d)
  {
    var env := Env(js, map[], base);
    if AllSpaced(d) && AllGapless(d) {
      ParsersReturnTheSame(js, d, base);
    } else {
      var i :| i in d && !(Spaced(i) && Gapless(i)) && (AllSpaced(d) || !Spaced(i));
      var x := ItselfUntagged(i, js);
      assert Labelled(x) || AllSpaced(d) by {
        assert ValidItem(js, i);
      }
      DocRarely(env, d, x);
      MeaningCount(js, d, x);
      assert Rarely(env, DocText(d), x, GoodCount(js, d, x));
      var none: seq<Statement> := [];
      assert multiset(none)[x] == 0;
    }
  }

  function UnspacedDoc(name: string, p: seq<Piece>, o: seq<Piece>): Doc {
    [TripleItem(BlankTerm(name), "", p, " ", IriTerm(o), "")]
  }

  lemma UnspacedDocIsValid(js: Js, name: string, p: seq<Piece>, o: seq<Piece>)
    requires ValidLabel(name) && ValidIri(js, p) && ValidIri(js, o)
    ensures var d := UnspacedDoc(name, p, o);
            && ValidDoc(js, d) && FixedDoc(Env(js, map[], ""), d) && !AllSpaced(d) && NoneGlued(d) && SpacedCount(d) == 0
            && (OrdinaryIri(p) ==> AllOrdinary(d))
  {
    var d := UnspacedDoc(name, p, o);
    assert d[0] in d && d[1..] == [];
    assert ValidItem(js, d[0]) && !Spaced(d[0]);
  }

  /**
   One triple whose blank node is directly followed by its predicate, whatever that is: the
   N-Triples parser loses it, and the Turtle parser, unless the predicate is odd, misreads it.
   */
  lemma UnspacedDocument(js: Js, name: string, p: seq<Piece>, o: seq<Piece>)
    requires ValidLabel(name) && ValidIri(js, p) && ValidIri(js, o)
    ensures var d := UnspacedDoc(name, p, o);
            && ValidDoc(js, d)
            && (var r := ParseNTriples(js, DocText(d)); r.Some? ==> r.value == [])
            && (OrdinaryIri(p) ==> ParseTurtle(js, DocText(d), "") != Some(Untagged(DocLines(js, d))))
  {
    hide UnspacedDoc, DocText, OrdinaryIri, ValidDoc, FixedDoc, ParseLines, ParseStatements, DocLines, SpacedCount;
    UnspacedDocIsValid(js, name, p, o);
    var d := UnspacedDoc(name, p, o);
    DocAtMost(js, d);
    assert AtMost(js, DocText(d), 0);
    if OrdinaryIri(p) {
      TurtleRightIff(js, d, "");
    }
  }

  /** One triple with white space before its datatype: only the N-Triples parser reads it. */
  lemma GapDocument(js: Js, s: seq<Piece>, p: seq<Piece>, body: seq<Piece>, gap: string, iri: seq<Piece>)
    requires ValidIri(js, s) && ValidIri(js, p) && ValidTerm(js, LiteralTerm(body, Typed(gap, iri))) && gap != ""
    ensures var d := [TripleItem(IriTerm(s), " ", p, " ", LiteralTerm(body, Typed(gap, iri)), "")];
            && ValidDoc(js, d) && ParseNTriples(js, DocText(d)) == Some(DocLines(js, d))
            && ParseTurtle(js, DocText(d), "") != Some(Untagged(DocLines(js, d)))
  {
    var i := TripleItem(IriTerm(s), " ", p, " ", LiteralTerm(body, Typed(gap, iri)), "");
    var d := [i];
    assert ValidItem(js, i) && i in d && d[1..] == [];
    NTriplesRightIff(js, d);
    TurtleRightIff(js, d, "");
  }

  // ----------------------------------------------------------------------- by coincidence

  /**
   A predicate with the word "prefix" behind a dot, a literal that completes the directive and
   repeats the line up to its own closing quote, and a comment that repeats the literal.
   */
  function OddTriple(repeated: string): Item {
    TripleItem(BlankTerm("b"), "", Raws("x.prefix"), "", LiteralTerm(Raws(repeated + ">"), NoSuffix), "")
  }

  function OddDoc(): Doc {
    [OddTriple(".#:<>. _:b <x.prefix"), Item.Comment(":<>. _:b <x.prefix\\u03e")]
  }

  lemma OddTripleText(js: Js, repeated: string)
    ensures ItemText(OddTriple(repeated)) == ("_:b" + "<x.prefix>" + "\"" + (repeated + ">")) + ("\"" + ".")
  {
    RawsRead(js, "x.prefix");
    RawsRead(js, repeated + ">");
    hide PiecesText;
    assert IriText(Raws("x.prefix")) == "<x.prefix>" by {
      assert "<" + ("x.prefix" + ">") == "<x.prefix>";
    }
    assert "_:" + "b" == "_:b";
    OddShape("_:b", "<x.prefix>", "\"", repeated + ">", ".");
  }

  lemma OddShape(n: string, p: string, q: string, t: string, dot: string)
    ensures n + ("" + (p + ("" + ((q + (t + (q + ""))) + ("" + dot))))) == (n + p + q + t) + (q + dot)
  {
  }

  lemma OddText(js: Js, repeated: string, comment: string)
    ensures DocText([OddTriple(repeated), Item.Comment(comment)]) ==
            ("_:b" + "<x.prefix>" + "\"" + (repeated + ">")) + ("\"" + ("." + ("#" + (comment + "\n"))))
  {
    hide ItemText, DocText, OddTriple;
    OddTripleText(js, repeated);
    DocShape(OddTriple(repeated), comment);
    Associate("_:b" + "<x.prefix>" + "\"" + (repeated + ">"), "\"", ".", "#" + (comment + "\n"));
  }

  /** The same text, cut where the parser cuts it. */
  lemma OddCuts()
    ensures ("_:b" + "<x.prefix>" + "\"" + (".#:<>. _:b <x.prefix" + ">"))
            + ("\"" + ("." + ("#" + (":<>. _:b <x.prefix\\u03e" + "\n")))) ==
            "_:" + ("b<x" + ("." + ("prefix" + (">\".#" + (":" + ("<>" + ("." + (" " + ("_:" + ("b" + (" <x.prefix>"
            + ("\"" + (".#:<>. _:b <x.prefix" + "\\u03e\n")))))))))))))
  {
    OddHead();
    OddRepeated();
    OddComment();
    var end := ".#:<>. _:b <x.prefix" + "\\u03e\n";
    RegroupOdd("_:", "b<x", ".", "prefix", ">\"", ".#", ":", "<>", " ", "b", " <x.prefix>", "\"" + end);
    assert ">\"" + ".#" == ">\".#";
  }

  lemma OddHead()
    ensures "_:b" + "<x.prefix>" + "\"" == "_:" + ("b<x" + ("." + ("prefix" + ">\"")))
  {
  }

  lemma OddRepeated()
    ensures ".#:<>. _:b <x.prefix" + ">" == ".#" + (":" + ("<>" + ("." + (" " + ("_:" + ("b" + " <x.prefix>"))))))
  {
  }

  lemma OddComment()
    ensures "." + ("#" + (":<>. _:b <x.prefix\\u03e" + "\n")) == ".#:<>. _:b <x.prefix" + "\\u03e\n"
  {
  }

  lemma RegroupOdd(l: string, a: string, dot: string, w: string, q: string, h: string, colon: string, iri: string,
                   ws: string, b: string, p: string, end: string)
    ensures (l + (a + (dot + (w + q))) + (h + (colon + (iri + (dot + (ws + (l + (b + p)))))))) + end ==
            l + (a + (dot + (w + ((q + h) + (colon + (iri + (dot + (ws + (l + (b + (p + end)))))))))))
  {
  }

  lemma OddTripleIsValid(js: Js, repeated: string)
    requires forall i :: 0 <= i < |repeated| ==> repeated[i] !in "\"\\\n\r"
    ensures ValidItem(js, OddTriple(repeated)) && FixedItem(Env(js, map[], ""), OddTriple(repeated))
    ensures !Spaced(OddTriple(repeated))
  {
    PlainPieces(js, repeated + ">");
    PlainIri(js, "x.prefix");
  }

  lemma PlainIri(js: Js, x: string)
    requires forall i :: 0 <= i < |x| ==> x[i] > ' ' && x[i] !in "<>\"{}|^`\\"
    ensures ValidIri(js, Raws(x))
  {
  }

  lemma OddDocIsValid(js: Js)
    ensures ValidDoc(js, OddDoc()) && FixedDoc(Env(js, map[], ""), OddDoc()) && !AllSpaced(OddDoc())
  {
    var d := OddDoc();
    assert d[0] in d;
    OddTripleIsValid(js, ".#:<>. _:b <x.prefix");
    hide OddTriple, FixedTerm;
    assert d[0] == OddTriple(".#:<>. _:b <x.prefix");
    assert ValidItem(js, d[1]);
  }

  lemma OddDocLines(js: Js)
    ensures Untagged(DocLines(js, OddDoc())) ==
            [Statement(BlankNode("_:b"), "x.prefix", Literal(".#:<>. _:b <x.prefix" + ">", None, None))]
  {
    var d := OddDoc();
    var i := OddTriple(".#:<>. _:b <x.prefix");
    assert d == [i] + [d[1]] && d[1..] == [d[1]] && [d[1]][1..] == [];
    RawsRead(js, "x.prefix");
    RawsRead(js, ".#:<>. _:b <x.prefix" + ">");
    hide PiecesValue;
    assert TermNode(js, i.s) == BlankNode("_:b");
    assert DocLines(js, [d[1]]) == [];
    UntaggedStep(js, d, []);
  }

  lemma OddIsDirective(named: string)
    requires HeadIs(named, '>')
    ensures var text := "prefix" + named;
            IsDirective(text) && StartsWithWord(text, "prefix") && !("@prefix" <= text) && Skip(text) == text && text[6..] == named
  {
    var text := "prefix" + named;
    assert text[..6] == "prefix" && text[6] == '>' && text[0] == 'p';
    LowerPrefix();
  }

  /** The name up to the colon, an empty IRI, a dot. */
  lemma OddPrefix(env: Env, name: string, rest: string)
    requires HeadIs(name, '>') && ':' !in name
    ensures var r := ReadPrefix(env, name + (":" + ("<>" + ("." + rest))));
            r.Some? && r.value.1 == rest && r.value.0.js == env.js && r.value.0.base == env.base
  {
    var tail := "<>" + ("." + rest);
    var named := name + (":" + tail);
    TakesWhile(NotColon, name, ":" + tail);
    assert named[|name| + 1..] == tail;
    assert Drop(tail, 1) == ">" + ("." + rest);
    assert (">" + ("." + rest))[1..] == "." + rest;
    assert ReadBody(env.js, JsText.Same, ">", ">" + ("." + rest)) == Got("", "." + rest);
    assert Skip(tail) == tail && Skip("." + rest) == "." + rest;
    assert ("." + rest)[1..] == rest;
  }

  /** The directive takes the opening quote into a prefix's name. */
  lemma OddDirective(env: Env, rest: string) returns (after: Env)
    requires env.prefixes == map[] && env.base == ""
    ensures after.js == env.js && after.base == ""
    ensures var text := "prefix" + (">\".#" + (":" + ("<>" + ("." + rest))));
            forall bnode, out :: ParseStatements(env, State(text, bnode, out)) == ParseStatements(after, State(rest, bnode, out))
  {
    var name := ">\".#";
    var named := name + (":" + ("<>" + ("." + rest)));
    assert named[0] == '>' && Skip(named) == named;
    OddIsDirective(named);
    OddPrefix(env, name, rest);
    hide ReadPrefix, IsDirective, StartsWithWord, Skip;
    var text := "prefix" + named;
    after := ReadDirective(env, text).value.0;
    forall bnode, out ensures ParseStatements(env, State(text, bnode, out)) == ParseStatements(after, State(rest, bnode, out)) {
    }
  }

  lemma LowerPrefix()
    ensures LowerCase("prefix") == "prefix"
  {
  }

  /** The last statement, whose object is the comment. */
  lemma OddStatement(env: Env, open: string, o: Node, bnode: nat)
    requires env.base == "" && open != "" && open[0] == '"' && ReadQuoted(env, open) == Got(o, "")
    ensures ParseStatements(env, State("_:" + ("b" + (" <x.prefix>" + open)), bnode, [])) ==
            Some([Statement(BlankNode("_:b"), "x.prefix", o)])
  {
    var tail := " <x.prefix>" + open;
    ReadsOddVerb(env, open);
    assert "_:" + "b" == "_:b";
    LabelStatement(env, "b", tail, bnode, []);
    var subj, st := BlankNode("_:b"), State(tail, bnode, []);
    LastObject(env, st, subj, "x.prefix", open, o);
    assert [] + [Statement(subj, "x.prefix", o)] == [Statement(subj, "x.prefix", o)];
    AtEnd(env, bnode, [Statement(subj, "x.prefix", o)]);
    assert AfterDot(Skip("")) == "";
  }

  lemma OddVerbText(js: Js)
    ensures IriText(Raws("x.prefix")) == "<x.prefix>" && PiecesValue(js, Raws("x.prefix")) == "x.prefix"
  {
    RawsRead(js, "x.prefix");
    assert "<" + ("x.prefix" + ">") == "<x.prefix>";
  }

  lemma ReadsSpacedIri(env: Env, iri: seq<Piece>, open: string)
    requires env.base == "" && ValidIri(env.js, iri)
    ensures var s := Skip(" " + (IriText(iri) + open));
            HeadIs(s, '<') && ReadIriRef(env, s) == Got(PiecesValue(env.js, iri), open)
  {
    var text := IriText(iri) + open;
    SkipsAll(" ", text);
    ReadsFixedIri(env, iri, open);
    assert Skip(text) == text;
  }

  lemma SpaceApart(open: string)
    ensures " <x.prefix>" + open == " " + ("<x.prefix>" + open)
  {
  }

  lemma ReadsOddVerb(env: Env, open: string)
    requires env.base == ""
    ensures var s := Skip(" <x.prefix>" + open);
            HeadIs(s, '<') && ReadIriRef(env, s) == Got("x.prefix", open)
  {
    hide ReadIriRef, PiecesText, PiecesValue, ValidIri, IriText, Raws, Skip, HeadIs;
    PlainIri(env.js, "x.prefix");
    OddVerbText(env.js);
    SpaceApart(open);
    ReadsSpacedIri(env, Raws("x.prefix"), open);
  }

  lemma LastObject(env: Env, st: State, subj: Node, verb: string, open: string, o: Node)
    requires HeadIs(Skip(st.rest), '<') && ReadIriRef(env, Skip(st.rest)) == Got(verb, open)
    requires open != "" && open[0] == '"' && ReadQuoted(env, open) == Got(o, "")
    ensures ReadPredObjList(env, st, subj) == Done((), State("", st.bnode, st.out + [Statement(subj, verb, o)]))
  {
    SkipTwice(st.rest);
    assert ReadVerb(env, Skip(st.rest)) == Got(verb, open);
    assert Skip(open) == open;
    assert ReadObject(env, st.(rest := open)) == Done(o, st.(rest := ""));
  }

  lemma QuotedComment(env: Env, open: string)
    requires ReadsHex(env.js) && open == "\"" + (".#:<>. _:b <x.prefix" + "\\u03e\n")
    ensures ReadQuoted(env, open) == Got(Literal(".#:<>. _:b <x.prefix" + ">", None, None), "")
  {
    assert open[1..] == ".#:<>. _:b <x.prefix" + "\\u03e\n" && open[0] == '"' && open[1] == '.';
    CommentAsText(env.js, ".#:<>. _:b <x.prefix");
    assert [open[0]] == "\"";
  }

  /** A directive made of a predicate and a literal, and then the comment read as the object. */
  lemma CoincidenceTurtle(js: Js)
    requires ReadsHex(js)
    ensures ValidDoc(js, OddDoc()) && FixedDoc(Env(js, map[], ""), OddDoc()) && !AllSpaced(OddDoc())
    ensures ParseTurtle(js, DocText(OddDoc()), "") == Some(Untagged(DocLines(js, OddDoc())))
  {
    OddDocIsValid(js);
    OddDocLines(js);
    OddDocText(js);
    hide OddDoc, DocText, ParseStatements, ReadsHex;
    OddParse(Env(js, map[], ""), "\"" + (".#:<>. _:b <x.prefix" + "\\u03e\n"));
  }

  lemma OddDocText(js: Js)
    ensures DocText(OddDoc()) ==
            "_:" + ("b<x" + ("." + ("prefix" + (">\".#" + (":" + ("<>" + ("." + (" " + ("_:" + ("b" + (" <x.prefix>"
            + ("\"" + (".#:<>. _:b <x.prefix" + "\\u03e\n")))))))))))))
  {
    OddDocIs();
    hide DocText, OddTriple, OddDoc;
    OddText(js, ".#:<>. _:b <x.prefix", ":<>. _:b <x.prefix\\u03e");
    OddCuts();
  }

  lemma OddDocIs()
    ensures OddDoc() == [OddTriple(".#:<>. _:b <x.prefix"), Item.Comment(":<>. _:b <x.prefix\\u03e")]
  {
  }

  lemma OddParse(env: Env, open: string)
    requires env.prefixes == map[] && env.base == "" && ReadsHex(env.js)
    requires open == "\"" + (".#:<>. _:b <x.prefix" + "\\u03e\n")
    ensures ParseStatements(env, State(
              "_:" + ("b<x" + ("." + ("prefix" + (">\".#" + (":" + ("<>" + ("." + (" " + ("_:" + ("b" + (" <x.prefix>" + open)))))))))))
              , 0, [])) ==
            Some([Statement(BlankNode("_:b"), "x.prefix", Literal(".#:<>. _:b <x.prefix" + ">", None, None))])
  {
    var last := "_:" + ("b" + (" <x.prefix>" + open));
    var directive := "prefix" + (">\".#" + (":" + ("<>" + ("." + (" " + last)))));
    LabelStatement(env, "b<x", "." + directive, 0, []);
    DotEndsList(env, "", directive, 0, [], BlankNode("_:b<x"));
    assert End("", directive) == "." + directive;
    var after := OddDirective(env, " " + last);
    SkipsAll(" ", last);
    SameAfterSkip(after, " " + last, last, 0, []);
    QuotedComment(after, open);
    OddStatement(after, open, Literal(".#:<>. _:b <x.prefix" + ">", None, None), 0);
  }
}
