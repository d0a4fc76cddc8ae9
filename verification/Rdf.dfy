/**
 RDF terms, triples and graphs, and graph isomorphism as the RDF library decides it: two
 graphs are isomorphic when a bijective renaming of blank-node labels maps one onto the other.

 An ETag is a digest of the canonicalized graph.  The canonicalization and the digest are
 not part of this model; what the store relies on is that equal tags mean isomorphic graphs
 and conversely.  A tag is therefore taken to be the isomorphism class itself.
 */
module Rdf {
  import Vocabulary

  /**
   Num is a literal whose lexical form denotes an integer, Instant one whose lexical form is
   an xsd:dateTime (in microseconds since the Unix epoch), Text any other literal.
   */
  datatype Term =
    | Iri(iri: string)
    | Blank(id: nat)
    | Num(value: int)
    | Instant(micros: int)
    | Text(lexical: string, datatypeIri: string)

  datatype Triple = Triple(s: Term, p: Term, o: Term)

  type Graph = set<Triple>

  const RDF_TYPE := Iri(Vocabulary.RDF_TYPE_IRI)

  // ---------------------------------------------------------------- renaming blank nodes

  datatype Renaming = Renaming(to: nat -> nat, back: nat -> nat) {
    ghost predicate Valid() {
      && (forall n: nat :: back(to(n)) == n)
      && (forall n: nat :: to(back(n)) == n)
    }

    function Inverse(): Renaming {
      Renaming(back, to)
    }
  }

  function Compose(second: Renaming, first: Renaming): Renaming {
    Renaming(n => second.to(first.to(n)), n => first.back(second.back(n)))
  }

  function RenameTerm(r: Renaming, t: Term): Term {
    if t.Blank? then Blank(r.to(t.id)) else t
  }

  function RenameTriple(r: Renaming, t: Triple): Triple {
    Triple(RenameTerm(r, t.s), RenameTerm(r, t.p), RenameTerm(r, t.o))
  }

  function RenameGraph(r: Renaming, g: Graph): Graph {
    set t | t in g :: RenameTriple(r, t)
  }

  ghost predicate Iso(g: Graph, h: Graph) {
    exists r: Renaming :: r.Valid() && h == RenameGraph(r, g)
  }

  lemma RenameGraphMember(r: Renaming, g: Graph, t: Triple)
    requires r.Valid()
    ensures t in RenameGraph(r, g) <==> RenameTriple(r.Inverse(), t) in g
  {
    assert RenameTriple(r, RenameTriple(r.Inverse(), t)) == t;
    if t in RenameGraph(r, g) {
      var u :| u in g && t == RenameTriple(r, u);
      assert RenameTriple(r.Inverse(), t) == u;
    }
  }

  lemma IsoReflexive(g: Graph)
    ensures Iso(g, g)
  {
    var id := Renaming(n => n, n => n);
    forall t: Triple ensures RenameTriple(id, t) == t {
    }
    assert RenameGraph(id, g) == g;
    assert id.Valid();
  }

  lemma InverseTriple(r: Renaming, t: Triple)
    requires r.Valid()
    ensures RenameTriple(r.Inverse(), RenameTriple(r, t)) == t
  {
  }

  lemma InverseGraph(r: Renaming, g: Graph)
    requires r.Valid()
    ensures RenameGraph(r.Inverse(), RenameGraph(r, g)) == g
  {
    hide Renaming.Valid, Renaming.Inverse, RenameTriple;
    var q, h := r.Inverse(), RenameGraph(r, g);
    forall t | t in RenameGraph(q, h) ensures t in g {
      var u :| u in h && t == RenameTriple(q, u);
      var v :| v in g && u == RenameTriple(r, v);
      InverseTriple(r, v);
    }
    forall t | t in g ensures t in RenameGraph(q, h) {
      InverseTriple(r, t);
      assert RenameTriple(r, t) in h;
    }
  }

  lemma IsoSymmetric(g: Graph, h: Graph)
    requires Iso(g, h)
    ensures Iso(h, g)
  {
    var r: Renaming :| r.Valid() && h == RenameGraph(r, g);
    InverseGraph(r, g);
    assert r.Inverse().Valid();
  }

  lemma IsoTransitive(g: Graph, h: Graph, k: Graph)
    requires Iso(g, h) && Iso(h, k)
    ensures Iso(g, k)
  {
    var r1: Renaming :| r1.Valid() && h == RenameGraph(r1, g);
    var r2: Renaming :| r2.Valid() && k == RenameGraph(r2, h);
    ComposeValid(r2, r1);
    ComposeGraph(r2, r1, g);
  }

  lemma ComposeAt(second: Renaming, first: Renaming, n: nat)
    ensures Compose(second, first).to(n) == second.to(first.to(n))
    ensures Compose(second, first).back(n) == first.back(second.back(n))
  {
  }

  lemma Inverses(r: Renaming, n: nat)
    requires r.Valid()
    ensures r.back(r.to(n)) == n && r.to(r.back(n)) == n
  {
  }

  lemma ComposeValid(second: Renaming, first: Renaming)
    requires second.Valid() && first.Valid()
    ensures Compose(second, first).Valid()
  {
    hide Compose;
    var r := Compose(second, first);
    forall n: nat ensures r.back(r.to(n)) == n {
      hide Renaming.Valid;
      ComposeAt(second, first, n);
      ComposeAt(second, first, r.to(n));
      Inverses(second, first.to(n));
      Inverses(first, n);
    }
    forall n: nat ensures r.to(r.back(n)) == n {
      hide Renaming.Valid;
      ComposeAt(second, first, n);
      ComposeAt(second, first, r.back(n));
      Inverses(first, second.back(n));
      Inverses(second, n);
    }
  }

  lemma ComposeTriple(second: Renaming, first: Renaming, t: Triple)
    ensures RenameTriple(Compose(second, first), t) == RenameTriple(second, RenameTriple(first, t))
  {
  }

  lemma ComposeGraph(second: Renaming, first: Renaming, g: Graph)
    ensures RenameGraph(Compose(second, first), g) == RenameGraph(second, RenameGraph(first, g))
  {
    hide Compose, RenameTriple;
    var r, h := Compose(second, first), RenameGraph(first, g);
    forall t | t in RenameGraph(r, g) ensures t in RenameGraph(second, h) {
      var v :| v in g && t == RenameTriple(r, v);
      ComposeTriple(second, first, v);
      assert RenameTriple(first, v) in h;
    }
    forall t | t in RenameGraph(second, h) ensures t in RenameGraph(r, g) {
      var u :| u in h && t == RenameTriple(second, u);
      var v :| v in g && u == RenameTriple(first, v);
      ComposeTriple(second, first, v);
      assert RenameTriple(r, v) in RenameGraph(r, g);
    }
  }

  // ---------------------------------------------------------------------- entity tags

  type Etag = iset<Graph>

  ghost function EtagOf(g: Graph): Etag {
    iset h | Iso(g, h)
  }

  /** A tag identifies a graph exactly up to isomorphism. */
  lemma EtagIdentifiesUpToIso(g: Graph, h: Graph)
    ensures EtagOf(g) == EtagOf(h) <==> Iso(g, h)
  {
    IsoReflexive(h);
    assert h in EtagOf(h);
    if Iso(g, h) {
      IsoSymmetric(g, h);
      forall k ensures k in EtagOf(g) <==> k in EtagOf(h) {
        if Iso(g, k) { IsoTransitive(h, g, k); }
        if Iso(h, k) { IsoTransitive(g, h, k); }
      }
      assert EtagOf(g) == EtagOf(h);
    }
  }

  // ------------------------------------------------------------------ reading a graph

  function Objects(g: Graph, s: Term, p: Term): set<Term> {
    set t | t in g && t.s == s && t.p == p :: t.o
  }

  function WithoutFields(g: Graph, subject: Term, fields: set<Term>): Graph {
    set t | t in g && !(t.s == subject && t.p in fields)
  }

  /** Removing fields named by IRIs commutes with renaming, so it preserves isomorphism. */
  lemma WithoutFieldsIso(g: Graph, h: Graph, subject: Term, fields: set<Term>)
    requires Iso(g, h)
    requires subject.Iri? && forall f :: f in fields ==> f.Iri?
    ensures Iso(WithoutFields(g, subject, fields), WithoutFields(h, subject, fields))
  {
    var r: Renaming :| r.Valid() && h == RenameGraph(r, g);
    var g' := WithoutFields(g, subject, fields);
    var h' := WithoutFields(h, subject, fields);
    forall t ensures t in RenameGraph(r, g') <==> t in h' {
      RenameGraphMember(r, g', t);
      RenameGraphMember(r, g, t);
      var u := RenameTriple(r.Inverse(), t);
      assert u.s == subject <==> t.s == subject;
      assert u.p in fields <==> t.p in fields;
    }
    assert RenameGraph(r, g') == h';
  }

  /** A triple with no blank node belongs to every isomorphic copy. */
  lemma GroundTripleIso(g: Graph, h: Graph, t: Triple)
    requires Iso(g, h)
    requires !t.s.Blank? && !t.p.Blank? && !t.o.Blank?
    ensures t in g <==> t in h
  {
    var r: Renaming :| r.Valid() && h == RenameGraph(r, g);
    RenameGraphMember(r, g, t);
  }

  /** Objects of an IRI subject and predicate that are not blank agree in isomorphic copies. */
  lemma ObjectsIso(g: Graph, h: Graph, s: Term, p: Term, o: Term)
    requires Iso(g, h)
    requires s.Iri? && p.Iri? && Objects(g, s, p) == {o} && !o.Blank?
    ensures Objects(h, s, p) == {o}
  {
    var r: Renaming :| r.Valid() && h == RenameGraph(r, g);
    GroundTripleIso(g, h, Triple(s, p, o));
    assert Triple(s, p, o) in g by {
      assert o in Objects(g, s, p);
    }
    assert Triple(s, p, o) in h;
    forall x | x in Objects(h, s, p) ensures x == o {
      var t :| t in h && t.s == s && t.p == p && t.o == x;
      RenameGraphMember(r, g, t);
      var u := RenameTriple(r.Inverse(), t);
      assert u.o in Objects(g, s, p);
      assert u.o == o;
      assert RenameTerm(r, u.o) == t.o;
    }
    assert o in Objects(h, s, p);
  }
}
