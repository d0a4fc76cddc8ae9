/**
 The two parsers in the form the client has them: readers whose cursor, counters and pushed
 triples are updated in place, each method against its function of the state.
 */
module Readers {
  import opened Options
  import opened Scanner
  import opened JsText
  import opened Turtle
  import opened Cursor

  // ------------------------------------------------------------------------- N-Triples

  class NTriplesReader {
    const js: Js
    const text: string
    var i: nat
    var out: seq<Line>

    constructor (js: Js, text: string)
      ensures this.js == js && this.text == text && i == 0 && out == []
    {
      this.js, this.text := js, text;
      i, out := 0, [];
    }

    function Rest(): string
      reads this
    {
      At(text, i)
    }

    method Advance(k: nat)
      requires k <= |Rest()|
      modifies this`i
      ensures Rest() == old(Rest())[k..]
    {
      AtDrop(text, i, k);
      i := i + k;
    }

    method ReadSuffix(value: string) returns (r: Option<Node>)
      modifies this`i
      ensures match ReadLineSuffix(js, value, old(Rest()))
              case Threw => r.None?
              case Got(node, rest) => r == Some(node) && Rest() == rest
    {
      if "^^" <= Rest() {
        Advance(2);
        i := SkipWsAt(text, i);
        if !HeadIs(Rest(), '<') {
          return Some(Literal(value, None, None));
        }
        var iri, next := ReadIriAt(js, text, i);
        i := next;
        r := if iri.Some? then Some(Literal(value, iri, None)) else None;
      } else if HeadIs(Rest(), '@') {
        ghost var at := Rest();
        Advance(1);
        var tag, end := TakeWhileAt(LangChar, text, i);
        i := end;
        assert at[1..][|tag|..] == at[1 + |tag|..];
        r := Some(Literal(value, None, Some(tag)));
      } else {
        r := Some(Literal(value, None, None));
      }
    }

    method ReadLiteral() returns (r: Option<Node>)
      requires Rest() != ""
      modifies this`i
      ensures match ReadLineLiteral(js, old(Rest()))
              case Threw => r.None?
              case Got(node, rest) => r == Some(node) && Rest() == rest
    {
      Advance(1);
      var body, next := ReadBodyAt(js, Unescape, "\"", text, i);
      i := next;
      if body.None? {
        return None;
      }
      r := ReadSuffix(body.value);
    }

    method ReadTerm() returns (raised: bool, r: Option<Node>)
      modifies this`i
      ensures match Turtle.ReadTerm(js, old(Rest()))
              case Threw => raised
              case Got(node, rest) => !raised && r == node && Rest() == rest
    {
      i := SkipWsAt(text, i);
      if HeadIs(Rest(), '<') {
        var iri, next := ReadIriAt(js, text, i);
        i := next;
        raised, r := iri.None?, if iri.Some? then Some(IriNode(iri.value)) else None;
      } else if HeadIs(Rest(), '_') {
        var name, next := TakeWhileAt(NotBlankEnd, text, i);
        i := next;
        raised, r := false, Some(BlankNode(name));
      } else if HeadIs(Rest(), '"') {
        r := ReadLiteral();
        raised := r.None?;
      } else {
        raised, r := false, None;
      }
    }

    method SkipSpace()
      modifies this`i
      ensures Rest() == SkipWs(old(Rest()))
    {
      i := SkipWsAt(text, i);
    }

    /** One comment or statement; false when a malformed escape raises. */
    method ParseLine() returns (ok: bool)
      requires Rest() != "" && !IsWs(Rest()[0])
      modifies this
      ensures match Turtle.ParseLine(js, old(Rest()), old(out))
              case None => !ok
              case Some(after) => ok && Rest() == after.0 && out == after.1
    {
      var start := i;
      AtDrop(text, start, 1);
      if text[i] == '#' {
        i := SkipLineAt(text, i + 1);
        return true;
      }
      var raised, s := ReadTerm();
      if raised {
        return false;
      }
      if s.None? {
        i := SkipLineAt(text, start + 1);
        return true;
      }
      var p, o;
      raised, p := ReadTerm();
      if raised {
        return false;
      }
      raised, o := ReadTerm();
      if raised {
        return false;
      }
      SkipSpace();
      if HeadIs(Rest(), '.') { Advance(1); }
      if s.Some? && p.Some? && o.Some? { out := out + [Line(s.value, p.value, o.value)]; }
      ok := true;
    }

    /** The whole document; None when a malformed escape raises. */
    method Parse() returns (r: Option<seq<Line>>)
      modifies this
      ensures r == ParseLines(js, old(Rest()), old(out))
    {
      hide Turtle.ParseLine, SkipWs;
      ghost var whole := ParseLines(js, Rest(), out);
      while true
        invariant whole == ParseLines(js, Rest(), out)
        decreases |Rest()|
      {
        SkipSpace();
        if Rest() == "" {
          return Some(out);
        }
        var ok := ParseLine();
        if !ok {
          return None;
        }
      }
    }
  }

  // ---------------------------------------------------------------------------- Turtle

  class TurtleReader {
    const js: Js
    const text: string
    var prefixes: map<string, string>
    var base: string
    var i: nat
    var bnode: nat
    var triples: seq<Statement>

    constructor (js: Js, text: string, base: string)
      ensures this.js == js && this.text == text && this.base == base && prefixes == map[]
      ensures i == 0 && bnode == 0 && triples == []
    {
      this.js, this.text := js, text;
      prefixes, this.base := map[], base;
      i, bnode, triples := 0, 0, [];
    }

    function Rest(): string
      reads this
    {
      At(text, i)
    }

    function Told(): Env
      reads this
    {
      Env(js, prefixes, base)
    }

    function Now(): State
      reads this
    {
      State(Rest(), bnode, triples)
    }

    method Advance(k: nat)
      requires k <= |Rest()|
      modifies this`i
      ensures Rest() == old(Rest())[k..]
    {
      AtDrop(text, i, k);
      i := i + k;
    }

    method SkipSpace()
      modifies this`i
      ensures Rest() == Skip(old(Rest()))
    {
      i := SkipAt(text, i);
    }

    method Take(p: char -> bool) returns (s: string)
      modifies this`i
      ensures s == TakeWhile(p, old(Rest())) && Rest() == old(Rest())[|s|..]
    {
      s, i := TakeWhileAt(p, text, i);
    }

    method ReadIriRef() returns (r: Option<string>)
      modifies this`i
      ensures match Turtle.ReadIriRef(Told(), old(Rest()))
              case Threw => r.None?
              case Got(iri, rest) => r == Some(iri) && Rest() == rest
    {
      var iri, next := ReadIriAt(js, text, i);
      i := next;
      r := if iri.Some? then Some(Resolve(Told(), iri.value)) else None;
    }

    method ReadPName() returns (r: Option<string>)
      modifies this`i
      ensures match Turtle.ReadPName(Told(), old(Rest()))
              case Threw => r.None?
              case Got(iri, rest) => r == Some(iri) && Rest() == rest
    {
      var name, next := TakeWhileAt(NameChar, text, i);
      i := next;
      var colon := FindChar(name, ':', 0);
      if colon == |name| || name[..colon] !in prefixes {
        return None;
      }
      r := Some(prefixes[name[..colon]] + UnescapeLocal(name[colon + 1..]));
    }

    method ReadSuffix(value: string) returns (r: Option<Node>)
      modifies this`i
      ensures match Turtle.ReadSuffix(Told(), value, old(Rest()))
              case Threw => r.None?
              case Got(node, rest) => r == Some(node) && Rest() == rest
    {
      if "^^" <= Rest() {
        Advance(2);
        var iri;
        if HeadIs(Rest(), '<') {
          iri := ReadIriRef();
        } else {
          iri := ReadPName();
        }
        r := if iri.Some? then Some(Literal(value, iri, None)) else None;
      } else if HeadIs(Rest(), '@') {
        ghost var at := Rest();
        Advance(1);
        var tag := Take(LangChar);
        assert at[1..][|tag|..] == at[1 + |tag|..];
        r := Some(Literal(value, None, Some(tag)));
      } else {
        r := Some(Literal(value, None, None));
      }
    }

    method ReadQuoted() returns (r: Option<Node>)
      requires Rest() != ""
      modifies this`i
      ensures match Turtle.ReadQuoted(Told(), old(Rest()))
              case Threw => r.None?
              case Got(node, rest) => r == Some(node) && Rest() == rest
    {
      var value, next := ReadStringAt(js, text, i);
      i := next;
      if value.None? {
        return None;
      }
      r := ReadSuffix(value.value);
    }

    method ReadVerb() returns (r: Option<string>)
      modifies this`i
      ensures match Turtle.ReadVerb(Told(), old(Rest()))
              case Threw => r.None?
              case Got(verb, rest) => r == Some(verb) && Rest() == rest
    {
      SkipSpace();
      if HeadIs(Rest(), 'a') && Boundary(Rest()[1..]) {
        Advance(1);
        r := Some(RDF_TYPE);
      } else if HeadIs(Rest(), '<') {
        r := ReadIriRef();
      } else {
        r := ReadPName();
      }
    }

    method ReadBlank() returns (node: Node)
      requires "_:" <= Rest()
      modifies this`i
      ensures ReadLabel(old(Rest())) == Got(node, Rest())
    {
      ghost var s := Rest();
      Advance(2);
      var name := Take(NameChar);
      node := BlankNode("_:" + name);
      assert s[2..][|name|..] == s[2 + |name|..];
    }

    /** A term that is neither quoted nor nested: by its first characters. */
    method ReadWord() returns (r: Option<Node>)
      requires Skip(Rest()) == Rest()
      requires !HeadIs(Rest(), '[') && !HeadIs(Rest(), '(') && !HeadIs(Rest(), '"') && !HeadIs(Rest(), '\'')
      modifies this`i
      ensures match Turtle.ReadObject(Told(), old(Now()))
              case Raised => r.None?
              case Done(node, state) => r == Some(node) && Now() == state
    {
      if HeadIs(Rest(), '<') {
        var iri := ReadIriRef();
        r := if iri.Some? then Some(IriNode(iri.value)) else None;
      } else if "_:" <= Rest() {
        var node := ReadBlank();
        r := Some(node);
      } else if Rest() != "" && NumberStart(Rest()[0]) {
        var literal, next := ReadNumericAt(text, i);
        i := next;
        r := Some(literal);
      } else if "true" <= Rest() && Boundary(Rest()[4..]) {
        Advance(4);
        r := Some(BooleanLiteral("true"));
      } else if "false" <= Rest() && Boundary(Rest()[5..]) {
        Advance(5);
        r := Some(BooleanLiteral("false"));
      } else {
        var iri := ReadPName();
        r := if iri.Some? then Some(IriNode(iri.value)) else None;
      }
    }

    method ReadObject() returns (r: Option<Node>)
      modifies this`i, this`bnode, this`triples
      ensures match Turtle.ReadObject(Told(), old(Now()))
              case Raised => r.None?
              case Done(node, state) => r == Some(node) && Now() == state
      decreases |Rest()|, 1
    {
      hide Skip, Turtle.ReadObject;
      ObjectAfterSkip(Told(), Now());
      SkipTwice(Rest());
      SkipSpace();
      ObjectByMark(Told(), Now());
      if HeadIs(Rest(), '[') {
        r := ReadBlankPropertyList();
      } else if HeadIs(Rest(), '(') {
        r := None;
      } else if HeadIs(Rest(), '"') || HeadIs(Rest(), '\'') {
        r := ReadQuoted();
      } else {
        r := ReadWord();
      }
    }

    method ReadBlankPropertyList() returns (r: Option<Node>)
      requires HeadIs(Rest(), '[')
      modifies this`i, this`bnode, this`triples
      ensures match Turtle.ReadBlankPropertyList(Told(), old(Now()))
              case Raised => r.None?
              case Done(node, state) => r == Some(node) && Now() == state
      decreases |Rest()|, 0
    {
      hide Skip, Minted;
      Advance(1);
      var b := Minted(bnode);
      bnode := bnode + 1;
      SkipSpace();
      if HeadIs(Rest(), ']') {
        Advance(1);
        return Some(b);
      }
      var ok := ReadPredObjList(b);
      if !ok {
        return None;
      }
      SkipSpace();
      if !HeadIs(Rest(), ']') {
        return None;
      }
      Advance(1);
      r := Some(b);
    }

    method ReadObjList(subj: Node, verb: string) returns (ok: bool)
      modifies this`i, this`bnode, this`triples
      ensures match Turtle.ReadObjList(Told(), old(Now()), subj, verb)
              case Raised => !ok
              case Done(_, state) => ok && Now() == state
      decreases |Rest()|, 2
    {
      ghost var whole := Turtle.ReadObjList(Told(), Now(), subj, verb);
      ghost var bound := |Rest()|;
      while true
        invariant Told() == old(Told()) && |Rest()| <= bound
        invariant whole == Turtle.ReadObjList(Told(), Now(), subj, verb)
        decreases |Rest()|
      {
        var o := ReadObject();
        if o.None? {
          return false;
        }
        triples := triples + [Statement(subj, verb, o.value)];
        SkipSpace();
        if !HeadIs(Rest(), ',') {
          return true;
        }
        Advance(1);
      }
    }

    method ReadPredObjList(subj: Node) returns (ok: bool)
      modifies this`i, this`bnode, this`triples
      ensures match Turtle.ReadPredObjList(Told(), old(Now()), subj)
              case Raised => !ok
              case Done(_, state) => ok && Now() == state
      decreases |Rest()|, 3
    {
      ghost var whole := Turtle.ReadPredObjList(Told(), Now(), subj);
      ghost var bound := |Rest()|;
      while true
        invariant Told() == old(Told()) && |Rest()| <= bound
        invariant whole == Turtle.ReadPredObjList(Told(), Now(), subj)
        decreases |Rest()|
      {
        SkipTwice(Rest());
        SkipSpace();
        if Rest() == "" || HeadIs(Rest(), ']') || HeadIs(Rest(), '.') {
          return true;
        }
        var verb := ReadVerb();
        if verb.None? {
          return false;
        }
        ok := ReadObjList(subj, verb.value);
        if !ok {
          return false;
        }
        SkipSpace();
        if !HeadIs(Rest(), ';') {
          return true;
        }
        Advance(1);
      }
    }

    method ReadSubject() returns (r: Option<Node>)
      modifies this`i, this`bnode, this`triples
      ensures match Turtle.ReadSubject(Told(), old(Now()))
              case Raised => r.None?
              case Done(node, state) => r == Some(node) && Now() == state
    {
      if HeadIs(Rest(), '[') {
        r := ReadBlankPropertyList();
      } else if HeadIs(Rest(), '<') {
        var iri := ReadIriRef();
        r := if iri.Some? then Some(IriNode(iri.value)) else None;
      } else if "_:" <= Rest() {
        var node := ReadBlank();
        r := Some(node);
      } else if HeadIs(Rest(), '(') {
        r := None;
      } else {
        var iri := ReadPName();
        r := if iri.Some? then Some(IriNode(iri.value)) else None;
      }
    }

    /** One character on, or still at the end. */
    method PassOne()
      modifies this`i
      ensures Rest() == Drop(old(Rest()), 1)
    {
      AtDrop(text, i, 1);
      i := i + 1;
    }

    method SkipDot()
      modifies this`i
      ensures Rest() == AfterDot(Skip(old(Rest())))
    {
      SkipSpace();
      if HeadIs(Rest(), '.') { Advance(1); }
    }

    method ReadPrefix() returns (ok: bool)
      modifies this`i, this`prefixes
      ensures match Turtle.ReadPrefix(old(Told()), old(Rest()))
              case None => !ok
              case Some(told) => ok && Told() == told.0 && Rest() == told.1
    {
      hide Skip, TrimStart, TrimEnd, AfterDot, TakeWhile;
      ghost var s := Rest();
      var name := Take(NotColon);
      DropOneMore(s, |name|);
      PassOne();
      SkipSpace();
      var iri := ReadIriRef();
      if iri.None? {
        return false;
      }
      prefixes := prefixes[TrimEnd(js, TrimStart(js, name)) := iri.value];
      SkipDot();
      ok := true;
    }

    method ReadBase() returns (ok: bool)
      modifies this`i, this`base
      ensures match Turtle.ReadBase(old(Told()), old(Rest()))
              case None => !ok
              case Some(told) => ok && Told() == told.0 && Rest() == told.1
    {
      var iri := ReadIriRef();
      if iri.None? {
        return false;
      }
      base := iri.value;
      i := SkipAt(text, i);
      ok := true;
    }

    method ReadDirective() returns (ok: bool)
      modifies this`i, this`prefixes, this`base
      ensures match Turtle.ReadDirective(old(Told()), old(Rest()))
              case None => !ok
              case Some(told) => ok && Told() == told.0 && Rest() == told.1
    {
      if "@prefix" <= Rest() {
        Advance(7);
        SkipSpace();
        ok := ReadPrefix();
      } else if StartsWithWord(Rest(), "prefix") {
        Advance(6);
        SkipSpace();
        ok := ReadPrefix();
      } else if "@base" <= Rest() {
        Advance(5);
        SkipSpace();
        ok := ReadBase();
        if ok && HeadIs(Rest(), '.') { Advance(1); }
      } else if StartsWithWord(Rest(), "base") {
        Advance(4);
        SkipSpace();
        ok := ReadBase();
      } else {
        ok := false;
      }
    }

    /** The whole document; None when the parser raises. */
    method Parse() returns (r: Option<seq<Statement>>)
      modifies this
      ensures r == ParseStatements(old(Told()), old(Now()))
    {
      hide Turtle.ReadDirective, Turtle.ReadSubject, Turtle.ReadPredObjList, Skip, AfterDot, IsDirective;
      ghost var whole := ParseStatements(Told(), Now());
      while true
        invariant whole == ParseStatements(Told(), Now())
        decreases |Rest()|
      {
        SkipSpace();
        if Rest() == "" {
          return Some(triples);
        }
        if IsDirective(Rest()) {
          var ok := ReadDirective();
          if !ok {
            return None;
          }
          continue;
        }
        var bracket := HeadIs(Rest(), '[');
        var subj := ReadSubject();
        if subj.None? {
          return None;
        }
        if bracket {
          SkipBeforeList(Told(), Now(), subj.value);
          SkipSpace();
          if HeadIs(Rest(), '.') {
            Advance(1);
            continue;
          }
        }
        var ok := ReadPredObjList(subj.value);
        if !ok {
          return None;
        }
        SkipDot();
      }
    }
  }

  lemma DropOneMore(s: string, k: nat)
    requires k <= |s|
    ensures Drop(s[k..], 1) == Drop(s, k + 1)
  {
  }

  /** Skipping before an object changes nothing it reads. */
  lemma ObjectAfterSkip(env: Env, st: State)
    ensures Turtle.ReadObject(env, st) == Turtle.ReadObject(env, st.(rest := Skip(st.rest)))
  {
    SkipTwice(st.rest);
  }

  /** Which reader an object's first mark calls for. */
  lemma ObjectByMark(env: Env, st: State)
    requires Skip(st.rest) == st.rest
    ensures HeadIs(st.rest, '[') ==> Turtle.ReadObject(env, st) == Turtle.ReadBlankPropertyList(env, st)
    ensures HeadIs(st.rest, '(') ==> Turtle.ReadObject(env, st) == Raised
    ensures HeadIs(st.rest, '"') || HeadIs(st.rest, '\'') ==>
      Turtle.ReadObject(env, st) == Lift(Turtle.ReadQuoted(env, st.rest), st)
  {
  }

  /** Skipping before a property list changes nothing it reads. */
  lemma SkipBeforeList(env: Env, st: State, subj: Node)
    ensures Turtle.ReadPredObjList(env, st.(rest := Skip(st.rest)), subj) == Turtle.ReadPredObjList(env, st, subj)
  {
    SkipTwice(st.rest);
  }

  method ParseNTriplesText(js: Js, text: string) returns (r: Option<seq<Line>>)
    ensures r == ParseNTriples(js, text)
  {
    var reader := new NTriplesReader(js, text);
    r := reader.Parse();
  }

  method ParseTurtleText(js: Js, text: string, base: string) returns (r: Option<seq<Statement>>)
    ensures r == ParseTurtle(js, text, base)
  {
    var reader := new TurtleReader(js, text, base);
    r := reader.Parse();
  }
}
