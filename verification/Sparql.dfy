/**
 The fragment of SPARQL 1.1 that view templates use, from sections 10.2, 16.2, 18.2.2 and 18.5 of
 the SPARQL 1.1 Query Language: a CONSTRUCT whose WHERE group holds triple patterns, top-level
 FILTERs, and the inline data the engine injects.
 */
module Sparql {
  import opened Options
  import opened Rdf

  // ------------------------------------------------------------------------- syntax

  /** A variable, a blank-node label (a variable that is not reported), or a term. */
  datatype Slot = Var(name: string) | Label(id: nat) | Const(term: Term)

  datatype TriplePattern = TriplePattern(s: Slot, p: Slot, o: Slot)

  /** Every function and operator but BOUND is a call; a call sees the errors of its arguments. */
  datatype Expr = Ref(name: string) | Lit(value: Value) | Bound(name: string) | Call(op: string, args: seq<Expr>)

  datatype Value = Error | Is(term: Term)

  datatype Interpretation = Interpretation(call: (string, seq<Value>) -> Value, truth: Value -> bool, boolean: bool -> Term)

  type Row = map<string, Term>

  datatype Element = Triples(patterns: seq<TriplePattern>) | Filter(condition: Expr) | Values(row: Row)

  type Group = seq<Element>

  // ------------------------------------------------------- translation (section 18.2.2)

  datatype Algebra = Unit | Bgp(patterns: seq<TriplePattern>) | Table(row: Row)
                   | Join(left: Algebra, right: Algebra) | Restrict(conditions: seq<Expr>, of: Algebra)

  function Flushed(a: Algebra, pending: seq<TriplePattern>): Algebra {
    if pending == [] then a else Join(a, Bgp(pending))
  }

  /** Triple patterns are collected over FILTERs into one basic graph pattern; anything else ends it. */
  function TranslateFrom(a: Algebra, pending: seq<TriplePattern>, group: Group): Algebra
    decreases group
  {
    if group == [] then Flushed(a, pending)
    else
      match group[0]
      case Triples(patterns) => TranslateFrom(a, pending + patterns, group[1..])
      case Filter(_) => TranslateFrom(a, pending, group[1..])
      case Values(row) => TranslateFrom(Join(Flushed(a, pending), Table(row)), [], group[1..])
  }

  function Conditions(group: Group): seq<Expr> {
    if group == [] then []
    else (if group[0].Filter? then [group[0].condition] else []) + Conditions(group[1..])
  }

  function Translate(group: Group): Algebra {
    if Conditions(group) == [] then TranslateFrom(Unit, [], group)
    else Restrict(Conditions(group), TranslateFrom(Unit, [], group))
  }

  // -------------------------------------------------------------- evaluation (section 18.5)

  datatype Naming = Naming(of: nat -> Term)

  function Fill(slot: Slot, mu: Row, n: Naming): Option<Term> {
    match slot
    case Var(name) => if name in mu then Some(mu[name]) else None
    case Label(id) => Some(n.of(id))
    case Const(term) => Some(term)
  }

  function FillTriple(t: TriplePattern, mu: Row, n: Naming): Option<Triple> {
    var s, p, o := Fill(t.s, mu, n), Fill(t.p, mu, n), Fill(t.o, mu, n);
    if s.Some? && p.Some? && o.Some? then Some(Triple(s.value, p.value, o.value)) else None
  }

  function SlotVars(slot: Slot): set<string> {
    if slot.Var? then {slot.name} else {}
  }

  function TripleVars(t: TriplePattern): set<string> {
    SlotVars(t.s) + SlotVars(t.p) + SlotVars(t.o)
  }

  function Vars(patterns: seq<TriplePattern>): set<string> {
    set t, v | t in patterns && v in TripleVars(t) :: v
  }

  predicate Compatible(a: Row, b: Row) {
    forall v :: v in a && v in b ==> a[v] == b[v]
  }

  function EvalExpr(i: Interpretation, e: Expr, mu: Row): Value
    decreases e
  {
    match e
    case Ref(name) => if name in mu then Is(mu[name]) else Error
    case Lit(value) => value
    case Bound(name) => Is(i.boolean(name in mu))
    case Call(op, args) => i.call(op, EvalAll(i, args, mu))
  }

  function EvalAll(i: Interpretation, es: seq<Expr>, mu: Row): seq<Value>
    decreases es
  {
    if es == [] then [] else [EvalExpr(i, es[0], mu)] + EvalAll(i, es[1..], mu)
  }

  predicate Passes(i: Interpretation, conditions: seq<Expr>, mu: Row) {
    forall e :: e in conditions ==> i.truth(EvalExpr(i, e, mu))
  }

  ghost predicate MatchesBgp(patterns: seq<TriplePattern>, g: Graph, mu: Row) {
    mu.Keys == Vars(patterns) && exists n: Naming :: AllIn(patterns, g, mu, n)
  }

  predicate AllIn(patterns: seq<TriplePattern>, g: Graph, mu: Row, n: Naming) {
    forall t :: t in patterns ==> FillTriple(t, mu, n).Some? && FillTriple(t, mu, n).value in g
  }

  ghost predicate Solution(i: Interpretation, a: Algebra, g: Graph, mu: Row) {
    match a
    case Unit => mu == map[]
    case Bgp(patterns) => MatchesBgp(patterns, g, mu)
    case Table(row) => mu == row
    case Join(left, right) =>
      exists m1, m2 :: Solution(i, left, g, m1) && Solution(i, right, g, m2) && Compatible(m1, m2) && mu == m1 + m2
    case Restrict(conditions, of) => Solution(i, of, g, mu) && Passes(i, conditions, mu)
  }

  // ------------------------------------------------------------- CONSTRUCT (section 16.2)

  predicate NoLabels(head: seq<TriplePattern>) {
    forall t :: t in head ==> !t.s.Label? && !t.p.Label? && !t.o.Label?
  }

  /** A literal cannot be a subject, and only an IRI can be a predicate. */
  predicate LegalTriple(t: Triple) {
    (t.s.Iri? || t.s.Blank?) && t.p.Iri?
  }

  const NO_LABELS := Naming((n: nat) => Iri(""))

  /** t is built from the head pattern for the solution: all its slots filled, and legal. */
  predicate Builds(head: seq<TriplePattern>, mu: Row, t: Triple) {
    LegalTriple(t) && exists h :: h in head && FillTriple(h, mu, NO_LABELS) == Some(t)
  }

  ghost predicate InResult(i: Interpretation, head: seq<TriplePattern>, group: Group, g: Graph, t: Triple) {
    exists mu :: Solution(i, Translate(group), g, mu) && Builds(head, mu, t)
  }

  ghost function Construct(i: Interpretation, head: seq<TriplePattern>, group: Group, g: Graph): iset<Triple> {
    iset t | InResult(i, head, group, g, t)
  }

  // ---------------------------------------------------------------- injection, substitution

  /** The group with a one-row VALUES block put first; with nothing supplied, the group itself. */
  function Injected(group: Group, row: Row): Group {
    if row == map[] then group else [Values(row)] + group
  }

  function SubstSlot(slot: Slot, row: Row): Slot {
    if slot.Var? && slot.name in row then Const(row[slot.name]) else slot
  }

  function SubstTriple(t: TriplePattern, row: Row): TriplePattern {
    TriplePattern(SubstSlot(t.s, row), SubstSlot(t.p, row), SubstSlot(t.o, row))
  }

  function SubstTriples(patterns: seq<TriplePattern>, row: Row): (r: seq<TriplePattern>)
    ensures |r| == |patterns| && forall k :: 0 <= k < |r| ==> r[k] == SubstTriple(patterns[k], row)
  {
    seq(|patterns|, k requires 0 <= k < |patterns| => SubstTriple(patterns[k], row))
  }

  /** A parameter in an expression becomes its term; that it is bound becomes true. */
  function SubstExpr(i: Interpretation, e: Expr, row: Row): Expr
    decreases e
  {
    match e
    case Ref(name) => if name in row then Lit(Is(row[name])) else e
    case Lit(_) => e
    case Bound(name) => if name in row then Lit(Is(i.boolean(true))) else e
    case Call(op, args) => Call(op, SubstExprs(i, args, row))
  }

  function SubstExprs(i: Interpretation, es: seq<Expr>, row: Row): (r: seq<Expr>)
    ensures |r| == |es| && forall k :: 0 <= k < |es| ==> r[k] == SubstExpr(i, es[k], row)
    decreases es
  {
    if es == [] then [] else [SubstExpr(i, es[0], row)] + SubstExprs(i, es[1..], row)
  }

  function SubstGroup(i: Interpretation, group: Group, row: Row): (r: Group)
    ensures |r| == |group|
  {
    if group == [] then []
    else
      var first := match group[0]
        case Triples(patterns) => Triples(SubstTriples(patterns, row))
        case Filter(e) => Filter(SubstExpr(i, e, row))
        case Values(_) => group[0];
      [first] + SubstGroup(i, group[1..], row)
  }

  /** Triple patterns and FILTERs only. */
  predicate Plain(group: Group) {
    forall e :: e in group ==> !e.Values?
  }

  /** The triple patterns of a plain group, in order. */
  function Patterns(group: Group): seq<TriplePattern> {
    if group == [] then []
    else (if group[0].Triples? then group[0].patterns else []) + Patterns(group[1..])
  }

  // ------------------------------------------------------- solutions of a plain group

  lemma {:induction false} TranslatePlain(a: Algebra, pending: seq<TriplePattern>, group: Group)
    requires Plain(group)
    ensures TranslateFrom(a, pending, group) == Flushed(a, pending + Patterns(group))
    decreases group
  {
    if group == [] {
      assert pending + Patterns(group) == pending;
    } else {
      assert group[0] in group;
      assert Plain(group[1..]);
      match group[0] {
        case Triples(patterns) =>
          TranslatePlain(a, pending + patterns, group[1..]);
          assert pending + patterns + Patterns(group[1..]) == pending + Patterns(group);
        case Filter(_) =>
          TranslatePlain(a, pending, group[1..]);
          assert Patterns(group) == Patterns(group[1..]);
      }
    }
  }

  /** row extended by a match of the patterns that agrees with it. */
  ghost predicate Extends(row: Row, patterns: seq<TriplePattern>, g: Graph, mu: Row) {
    exists m :: MatchesBgp(patterns, g, m) && Compatible(row, m) && mu == row + m
  }

  lemma UnitThenTable(i: Interpretation, row: Row, g: Graph, mu: Row)
    ensures Solution(i, Join(Unit, Table(row)), g, mu) <==> mu == row
  {
    var empty: Row := map[];
    assert Solution(i, Unit, g, empty) && Solution(i, Table(row), g, row) && Compatible(empty, row) && empty + row == row;
  }

  lemma MatchesNothing(g: Graph, mu: Row)
    ensures MatchesBgp([], g, mu) <==> mu == map[]
  {
    assert AllIn([], g, mu, NO_LABELS);
  }

  lemma FlushedSolutions(i: Interpretation, a: Algebra, row: Row, patterns: seq<TriplePattern>, g: Graph, mu: Row)
    requires forall m :: Solution(i, a, g, m) <==> m == row
    ensures Solution(i, Flushed(a, patterns), g, mu) <==> Extends(row, patterns, g, mu)
  {
    if patterns == [] {
      var empty: Row := map[];
      MatchesNothing(g, empty);
      assert row + empty == row;
      if Extends(row, patterns, g, mu) {
        var m :| MatchesBgp(patterns, g, m) && Compatible(row, m) && mu == row + m;
        MatchesNothing(g, m);
      }
    } else {
      JoinSolutions(i, a, row, patterns, g, mu);
    }
  }

  lemma JoinSolutions(i: Interpretation, a: Algebra, row: Row, patterns: seq<TriplePattern>, g: Graph, mu: Row)
    requires forall m :: Solution(i, a, g, m) <==> m == row
    ensures Solution(i, Join(a, Bgp(patterns)), g, mu) <==> Extends(row, patterns, g, mu)
  {
    hide MatchesBgp, Compatible;
    if Extends(row, patterns, g, mu) {
      var m :| MatchesBgp(patterns, g, m) && Compatible(row, m) && mu == row + m;
      assert Solution(i, a, g, row) && Solution(i, Bgp(patterns), g, m);
    }
    if Solution(i, Join(a, Bgp(patterns)), g, mu) {
      var m1, m2 :| Solution(i, a, g, m1) && Solution(i, Bgp(patterns), g, m2) && Compatible(m1, m2) && mu == m1 + m2;
      assert m1 == row && MatchesBgp(patterns, g, m2);
    }
  }

  /** The solutions of an injected group: the row extended by matches of the patterns, filtered. */
  lemma GroupSolutions(i: Interpretation, group: Group, row: Row, g: Graph, mu: Row)
    requires Plain(group)
    ensures Solution(i, Translate(Injected(group, row)), g, mu) <==>
            Extends(row, Patterns(group), g, mu) && Passes(i, Conditions(group), mu)
  {
    TranslatePlain(Unit, [], group);
    assert [] + Patterns(group) == Patterns(group);
    if row == map[] {
      FlushedSolutions(i, Unit, row, Patterns(group), g, mu);
    } else {
      var injected := [Values(row)] + group;
      var a := Join(Unit, Table(row));
      assert injected[1..] == group;
      assert Conditions(injected) == Conditions(group);
      TranslatePlain(a, [], group);
      forall m ensures Solution(i, a, g, m) <==> m == row {
        UnitThenTable(i, row, g, m);
      }
      FlushedSolutions(i, a, row, Patterns(group), g, mu);
    }
  }

  /** The slot stands for the term: a variable for what it is bound to, a label for its node, a term for itself. */
  predicate StandsFor(slot: Slot, term: Term, mu: Row, n: Naming) {
    || (slot.Var? && slot.name in mu && mu[slot.name] == term)
    || (slot.Label? && n.of(slot.id) == term)
    || slot == Const(term)
  }

  predicate PatternStandsFor(p: TriplePattern, t: Triple, mu: Row, n: Naming) {
    StandsFor(p.s, t.s, mu, n) && StandsFor(p.p, t.p, mu, n) && StandsFor(p.o, t.o, mu, n)
  }

  lemma FillIff(p: TriplePattern, t: Triple, mu: Row, n: Naming)
    ensures FillTriple(p, mu, n) == Some(t) <==> PatternStandsFor(p, t, mu, n)
  {
  }

  /** mu binds the variables of the patterns, each of which stands for a triple of the graph. */
  ghost predicate Binds(patterns: seq<TriplePattern>, g: Graph, mu: Row) {
    && (forall v :: v in mu <==> exists p :: p in patterns && (p.s == Var(v) || p.p == Var(v) || p.o == Var(v)))
    && exists n: Naming :: EachMatched(patterns, g, mu, n)
  }

  ghost predicate EachMatched(patterns: seq<TriplePattern>, g: Graph, mu: Row, n: Naming) {
    forall p :: p in patterns ==> exists t :: t in g && PatternStandsFor(p, t, mu, n)
  }

  lemma BindsIff(patterns: seq<TriplePattern>, g: Graph, mu: Row)
    ensures MatchesBgp(patterns, g, mu) <==> Binds(patterns, g, mu)
  {
    hide AllIn, EachMatched;
    VarsAre(patterns);
    hide Vars;
    forall n: Naming ensures AllIn(patterns, g, mu, n) <==> EachMatched(patterns, g, mu, n) {
      AllInIff(patterns, g, mu, n);
    }
  }

  lemma VarsAre(patterns: seq<TriplePattern>)
    ensures forall v :: v in Vars(patterns) <==> exists p :: p in patterns && (p.s == Var(v) || p.p == Var(v) || p.o == Var(v))
  {
    forall v ensures v in Vars(patterns) <==> exists p :: p in patterns && (p.s == Var(v) || p.p == Var(v) || p.o == Var(v)) {
      if p :| p in patterns && (p.s == Var(v) || p.p == Var(v) || p.o == Var(v)) {
        assert v in TripleVars(p);
      }
      if v in Vars(patterns) {
        var p :| p in patterns && v in TripleVars(p);
      }
    }
  }

  lemma AllInIff(patterns: seq<TriplePattern>, g: Graph, mu: Row, n: Naming)
    ensures AllIn(patterns, g, mu, n) <==> EachMatched(patterns, g, mu, n)
  {
    forall p | p in patterns
      ensures (FillTriple(p, mu, n).Some? && FillTriple(p, mu, n).value in g) <==>
              exists t :: t in g && PatternStandsFor(p, t, mu, n)
    {
      if FillTriple(p, mu, n).Some? {
        FillIff(p, FillTriple(p, mu, n).value, mu, n);
      }
      if t :| t in g && PatternStandsFor(p, t, mu, n) {
        FillIff(p, t, mu, n);
      }
    }
  }

  /** Every FILTER's condition is true of the row. */
  ghost predicate AllTrue(i: Interpretation, group: Group, mu: Row) {
    forall e :: e in group && e.Filter? ==> i.truth(EvalExpr(i, e.condition, mu))
  }

  lemma ExtendsNothing(patterns: seq<TriplePattern>, g: Graph, m: Row)
    ensures Extends(map[], patterns, g, m) <==> MatchesBgp(patterns, g, m)
  {
    var empty: Row := map[];
    assert empty + m == m && Compatible(empty, m);
    if Extends(empty, patterns, g, m) {
      var k :| MatchesBgp(patterns, g, k) && Compatible(empty, k) && m == empty + k;
      assert empty + k == k;
    }
  }

  lemma {:induction false} ConditionsOf(group: Group)
    ensures forall e :: e in Conditions(group) <==> Filter(e) in group
  {
    if group != [] {
      ConditionsOf(group[1..]);
      assert group == [group[0]] + group[1..];
    }
  }

  /** The solutions of a template's group. */
  lemma PlainSolutions(i: Interpretation, group: Group, g: Graph, mu: Row)
    requires Plain(group)
    ensures Solution(i, Translate(group), g, mu) <==> Binds(Patterns(group), g, mu) && AllTrue(i, group, mu)
  {
    hide Binds, EvalExpr, Solution, Translate, Patterns, Extends, MatchesBgp;
    var empty: Row := map[];
    GroupSolutions(i, group, empty, g, mu);
    ExtendsNothing(Patterns(group), g, mu);
    BindsIff(Patterns(group), g, mu);
    ConditionsOf(group);
    assert forall e :: e in group && e.Filter? ==> Filter(e.condition) == e;
  }

  /**
   What a template of triple patterns and FILTERs builds: a legal triple that one of the head's patterns
   stands for, under a row that matches all patterns of the group and makes every condition true.
   */
  lemma PlainConstructIff(i: Interpretation, head: seq<TriplePattern>, group: Group, g: Graph, t: Triple)
    requires Plain(group) && NoLabels(head)
    ensures t in Construct(i, head, group, g) <==>
            && !t.s.Num? && !t.s.Instant? && !t.s.Text? && t.p.Iri?
            && exists mu :: && Binds(Patterns(group), g, mu)
                            && AllTrue(i, group, mu)
                            && exists h :: h in head && PatternStandsFor(h, t, mu, NO_LABELS)
  {
    hide Binds, EvalExpr, PatternStandsFor, Solution, Translate, Patterns, FillTriple;
    forall mu ensures Solution(i, Translate(group), g, mu) <==> Binds(Patterns(group), g, mu) && AllTrue(i, group, mu) {
      PlainSolutions(i, group, g, mu);
    }
    forall mu ensures Builds(head, mu, t) <==>
      LegalTriple(t) && exists h :: h in head && PatternStandsFor(h, t, mu, NO_LABELS)
    {
      forall h ensures FillTriple(h, mu, NO_LABELS) == Some(t) <==> PatternStandsFor(h, t, mu, NO_LABELS) {
        FillIff(h, t, mu, NO_LABELS);
      }
    }
    hide Builds;
  }

  // ------------------------------------------------------------------ substitution lemmas

  lemma {:induction false} FillSubst(slot: Slot, row: Row, m: Row, n: Naming)
    requires row.Keys !! m.Keys
    ensures Fill(SubstSlot(slot, row), m, n) == Fill(slot, row + m, n)
  {
  }

  lemma FillTripleSubst(t: TriplePattern, row: Row, m: Row, n: Naming)
    requires row.Keys !! m.Keys
    ensures FillTriple(SubstTriple(t, row), m, n) == FillTriple(t, row + m, n)
  {
    FillSubst(t.s, row, m, n);
    FillSubst(t.p, row, m, n);
    FillSubst(t.o, row, m, n);
  }

  lemma {:induction false} EvalSubst(i: Interpretation, e: Expr, row: Row, m: Row)
    requires row.Keys !! m.Keys
    ensures EvalExpr(i, SubstExpr(i, e, row), m) == EvalExpr(i, e, row + m)
    decreases e
  {
    if e.Call? {
      EvalAllSubst(i, e.args, row, m);
    }
  }

  lemma {:induction false} EvalAllSubst(i: Interpretation, es: seq<Expr>, row: Row, m: Row)
    requires row.Keys !! m.Keys
    ensures EvalAll(i, SubstExprs(i, es, row), m) == EvalAll(i, es, row + m)
    decreases es
  {
    if es != [] {
      EvalSubst(i, es[0], row, m);
      EvalAllSubst(i, es[1..], row, m);
      assert SubstExprs(i, es, row)[1..] == SubstExprs(i, es[1..], row);
    }
  }

  lemma SubstStep(i: Interpretation, e: Element, group: Group, row: Row)
    requires !e.Values?
    ensures var r := SubstGroup(i, [e] + group, row);
            && r == [if e.Triples? then Triples(SubstTriples(e.patterns, row)) else Filter(SubstExpr(i, e.condition, row))]
                    + SubstGroup(i, group, row)
            && r[1..] == SubstGroup(i, group, row)
  {
    assert ([e] + group)[1..] == group;
  }

  lemma {:induction false} SubstPatterns(i: Interpretation, group: Group, row: Row)
    requires Plain(group)
    ensures Plain(SubstGroup(i, group, row))
    ensures Patterns(SubstGroup(i, group, row)) == SubstTriples(Patterns(group), row)
    ensures Conditions(SubstGroup(i, group, row)) == SubstExprs(i, Conditions(group), row)
  {
    if group != [] {
      var e, rest := group[0], group[1..];
      assert e in group && Plain(rest);
      assert group == [e] + rest;
      SubstPatterns(i, rest, row);
      SubstStep(i, e, rest, row);
      if e.Triples? {
        assert Conditions(group) == Conditions(rest);
        assert SubstTriples(e.patterns + Patterns(rest), row) ==
               SubstTriples(e.patterns, row) + SubstTriples(Patterns(rest), row);
      } else {
        var cs := [e.condition] + Conditions(rest);
        assert cs[1..] == Conditions(rest);
        assert Patterns(group) == Patterns(rest);
      }
    }
  }

  lemma PassesSubst(i: Interpretation, conditions: seq<Expr>, row: Row, m: Row)
    requires row.Keys !! m.Keys
    ensures Passes(i, SubstExprs(i, conditions, row), m) <==> Passes(i, conditions, row + m)
  {
    var subst := SubstExprs(i, conditions, row);
    forall k | 0 <= k < |conditions|
      ensures EvalExpr(i, subst[k], m) == EvalExpr(i, conditions[k], row + m)
    {
      EvalSubst(i, conditions[k], row, m);
    }
    if Passes(i, subst, m) {
      forall e | e in conditions ensures i.truth(EvalExpr(i, e, row + m)) {
        var k :| 0 <= k < |conditions| && conditions[k] == e;
        assert subst[k] in subst;
      }
    }
    if Passes(i, conditions, row + m) {
      forall e | e in subst ensures i.truth(EvalExpr(i, e, m)) {
        var k :| 0 <= k < |subst| && subst[k] == e;
        assert conditions[k] in conditions;
      }
    }
  }

  lemma BuildsSubst(head: seq<TriplePattern>, row: Row, m: Row, t: Triple)
    requires row.Keys !! m.Keys
    ensures Builds(SubstTriples(head, row), m, t) <==> Builds(head, row + m, t)
  {
    var subst := SubstTriples(head, row);
    forall k | 0 <= k < |head|
      ensures FillTriple(subst[k], m, NO_LABELS) == FillTriple(head[k], row + m, NO_LABELS)
    {
      FillTripleSubst(head[k], row, m, NO_LABELS);
    }
    if h :| h in subst && FillTriple(h, m, NO_LABELS) == Some(t) {
      var k :| 0 <= k < |subst| && subst[k] == h;
      assert head[k] in head;
    }
    if h :| h in head && FillTriple(h, row + m, NO_LABELS) == Some(t) {
      var k :| 0 <= k < |head| && head[k] == h;
      assert subst[k] in subst;
    }
  }

  lemma SubstTripleVars(t: TriplePattern, row: Row)
    ensures TripleVars(SubstTriple(t, row)) == TripleVars(t) - row.Keys
  {
  }

  lemma SubstVars(patterns: seq<TriplePattern>, row: Row)
    ensures Vars(SubstTriples(patterns, row)) == Vars(patterns) - row.Keys
  {
    hide SubstTriple, TripleVars;
    forall t: TriplePattern ensures TripleVars(SubstTriple(t, row)) == TripleVars(t) - row.Keys {
      SubstTripleVars(t, row);
    }
    var subst := SubstTriples(patterns, row);
    forall v | v in Vars(patterns) - row.Keys ensures v in Vars(subst) {
      var t :| t in patterns && v in TripleVars(t);
      var k :| 0 <= k < |patterns| && patterns[k] == t;
      assert subst[k] in subst && v in TripleVars(subst[k]);
    }
    forall v | v in Vars(subst) ensures v in Vars(patterns) - row.Keys {
      var t :| t in subst && v in TripleVars(t);
      var k :| 0 <= k < |subst| && subst[k] == t;
      assert patterns[k] in patterns && v in TripleVars(patterns[k]);
    }
  }

  /** Two rows that agree on the pattern's variables fill it alike. */
  lemma FillAgrees(t: TriplePattern, a: Row, b: Row, n: Naming)
    requires forall v :: v in TripleVars(t) ==> (v in a <==> v in b) && (v in a ==> a[v] == b[v])
    ensures FillTriple(t, a, n) == FillTriple(t, b, n)
  {
    assert SlotVars(t.s) <= TripleVars(t) && SlotVars(t.p) <= TripleVars(t) && SlotVars(t.o) <= TripleVars(t);
    assert t.s.Var? ==> t.s.name in SlotVars(t.s);
    assert t.p.Var? ==> t.p.name in SlotVars(t.p);
    assert t.o.Var? ==> t.o.name in SlotVars(t.o);
  }

  lemma AllInAgrees(patterns: seq<TriplePattern>, g: Graph, a: Row, b: Row, n: Naming)
    requires forall v :: v in Vars(patterns) ==> (v in a <==> v in b) && (v in a ==> a[v] == b[v])
    ensures AllIn(patterns, g, a, n) <==> AllIn(patterns, g, b, n)
  {
    forall t | t in patterns ensures FillTriple(t, a, n) == FillTriple(t, b, n) {
      assert forall v :: v in TripleVars(t) ==> v in Vars(patterns);
      FillAgrees(t, a, b, n);
    }
  }

  lemma AllInSubst(patterns: seq<TriplePattern>, g: Graph, row: Row, m: Row, n: Naming)
    requires row.Keys !! m.Keys
    ensures AllIn(SubstTriples(patterns, row), g, m, n) <==> AllIn(patterns, g, row + m, n)
  {
    var subst := SubstTriples(patterns, row);
    forall k | 0 <= k < |patterns| ensures FillTriple(subst[k], m, n) == FillTriple(patterns[k], row + m, n) {
      FillTripleSubst(patterns[k], row, m, n);
    }
    if AllIn(subst, g, m, n) {
      forall t | t in patterns ensures FillTriple(t, row + m, n).Some? && FillTriple(t, row + m, n).value in g {
        var k :| 0 <= k < |patterns| && patterns[k] == t;
        assert subst[k] in subst;
      }
    }
    if AllIn(patterns, g, row + m, n) {
      forall t | t in subst ensures FillTriple(t, m, n).Some? && FillTriple(t, m, n).value in g {
        var k :| 0 <= k < |subst| && subst[k] == t;
        assert patterns[k] in patterns;
      }
    }
  }

  lemma RowPart(row: Row, m: Row)
    requires Compatible(row, m)
    ensures row.Keys !! ((row + m) - row.Keys).Keys
    ensures row + ((row + m) - row.Keys) == row + m
  {
    var rest := (row + m) - row.Keys;
    assert forall v :: v in row + m ==> v in row || v in rest;
    assert forall v :: v in row ==> (row + m)[v] == row[v];
  }

  lemma ExtendsHasRow(row: Row, patterns: seq<TriplePattern>, g: Graph, mu: Row)
    requires Extends(row, patterns, g, mu)
    ensures mu == row + (mu - row.Keys)
  {
    var m :| MatchesBgp(patterns, g, m) && Compatible(row, m) && mu == row + m;
    RowPart(row, m);
  }

  /** A match agreeing with the row, without the row's variables, matches the substituted patterns. */
  lemma MatchIsSubst(row: Row, patterns: seq<TriplePattern>, g: Graph, m: Row, full: Row)
    requires row.Keys !! m.Keys && full.Keys == Vars(patterns) && m.Keys == Vars(patterns) - row.Keys
    requires forall v :: v in full ==> (row + m)[v] == full[v]
    ensures MatchesBgp(patterns, g, full) <==> MatchesBgp(SubstTriples(patterns, row), g, m)
  {
    SubstVars(patterns, row);
    forall n: Naming ensures AllIn(patterns, g, full, n) <==> AllIn(SubstTriples(patterns, row), g, m, n) {
      AllInAgrees(patterns, g, full, row + m, n);
      AllInSubst(patterns, g, row, m, n);
    }
  }

  /** Extending the row by a match is matching the substituted patterns. */
  lemma ExtendsIsSubst(row: Row, patterns: seq<TriplePattern>, g: Graph, m: Row)
    requires row.Keys !! m.Keys
    ensures Extends(row, patterns, g, row + m) <==> MatchesBgp(SubstTriples(patterns, row), g, m)
  {
    if Extends(row, patterns, g, row + m) {
      var full :| MatchesBgp(patterns, g, full) && Compatible(row, full) && row + m == row + full;
      DisjointPart(row, m, full);
      MatchIsSubst(row, patterns, g, m, full);
    }
    if MatchesBgp(SubstTriples(patterns, row), g, m) {
      SubstMatchExtends(row, patterns, g, m);
    }
  }

  lemma SubstMatchExtends(row: Row, patterns: seq<TriplePattern>, g: Graph, m: Row)
    requires row.Keys !! m.Keys && MatchesBgp(SubstTriples(patterns, row), g, m)
    ensures Extends(row, patterns, g, row + m)
  {
    SubstVars(patterns, row);
    var full := Covering(row, m, Vars(patterns));
    MatchIsSubst(row, patterns, g, m, full);
    CoveringPart(row, m, full);
  }

  function Covering(row: Row, m: Row, vars: set<string>): (full: Row)
    requires vars <= row.Keys + m.Keys
    ensures full.Keys == vars && forall v :: v in vars ==> full[v] == (row + m)[v]
  {
    map v | v in vars :: (row + m)[v]
  }

  lemma DisjointPart(row: Row, m: Row, full: Row)
    requires row.Keys !! m.Keys && Compatible(row, full) && row + m == row + full
    ensures m.Keys == full.Keys - row.Keys && forall v :: v in full ==> (row + m)[v] == full[v]
  {
    assert (row + m).Keys == row.Keys + m.Keys && (row + full).Keys == row.Keys + full.Keys;
  }

  lemma CoveringPart(row: Row, m: Row, full: Row)
    requires row.Keys !! m.Keys && m.Keys <= full.Keys <= row.Keys + m.Keys
    requires forall v :: v in full ==> full[v] == (row + m)[v]
    ensures Compatible(row, full) && row + full == row + m
  {
    assert (row + full).Keys == (row + m).Keys;
  }

  lemma SameUnion(few: Row, many: Row, m: Row)
    requires SubRow(few, many) && Compatible(many, m) && many.Keys - few.Keys <= m.Keys
    ensures Compatible(few, m) && few + m == many + m
  {
    assert forall v :: v in many ==> v in few || v in m;
    assert (few + m).Keys == (many + m).Keys;
  }

  predicate SubRow(a: Row, b: Row) {
    forall v :: v in a ==> v in b && a[v] == b[v]
  }

  lemma ExtendsFewer(few: Row, many: Row, patterns: seq<TriplePattern>, g: Graph, mu: Row)
    requires SubRow(few, many) && many.Keys - few.Keys <= Vars(patterns)
    requires Extends(many, patterns, g, mu)
    ensures Extends(few, patterns, g, mu)
  {
    var m :| MatchesBgp(patterns, g, m) && Compatible(many, m) && mu == many + m;
    SameUnion(few, many, m);
  }

  // ----------------------------------------------------------------------- the theorems

  /** A solution of the injected group is the row and a solution of the substituted group. */
  lemma SolutionsCorrespond(i: Interpretation, group: Group, row: Row, g: Graph, m: Row)
    requires Plain(group) && row.Keys !! m.Keys
    ensures Solution(i, Translate(Injected(group, row)), g, row + m) <==>
            Solution(i, Translate(SubstGroup(i, group, row)), g, m)
  {
    var subst := SubstGroup(i, group, row);
    SubstPatterns(i, group, row);
    GroupSolutions(i, group, row, g, row + m);
    GroupSolutions(i, subst, map[], g, m);
    ExtendsIsSubst(row, Patterns(group), g, m);
    PassesSubst(i, Conditions(group), row, m);
    ExtendsNothing(Patterns(subst), g, m);
  }

  /** Every solution of the injected group contains the row. */
  lemma SolutionHasRow(i: Interpretation, group: Group, row: Row, g: Graph, mu: Row)
    requires Plain(group) && Solution(i, Translate(Injected(group, row)), g, mu)
    ensures mu == row + (mu - row.Keys)
  {
    GroupSolutions(i, group, row, g, mu);
    ExtendsHasRow(row, Patterns(group), g, mu);
  }

  /**
   The injected query builds exactly the triples of the template with each supplied parameter
   replaced by its term, in head, patterns and filters alike.
   */
  lemma InjectionIsSubstitution(i: Interpretation, head: seq<TriplePattern>, group: Group, row: Row, g: Graph)
    requires Plain(group) && NoLabels(head)
    ensures Construct(i, head, Injected(group, row), g) ==
            Construct(i, SubstTriples(head, row), SubstGroup(i, group, row), g)
  {
    var left := Construct(i, head, Injected(group, row), g);
    var right := Construct(i, SubstTriples(head, row), SubstGroup(i, group, row), g);
    forall t | t in left ensures t in right {
      var mu :| Solution(i, Translate(Injected(group, row)), g, mu) && Builds(head, mu, t);
      var m := mu - row.Keys;
      SolutionHasRow(i, group, row, g, mu);
      SolutionsCorrespond(i, group, row, g, m);
      BuildsSubst(head, row, m, t);
    }
    forall t | t in right ensures t in left {
      var m :| Solution(i, Translate(SubstGroup(i, group, row)), g, m) && Builds(SubstTriples(head, row), m, t);
      SubstPatterns(i, group, row);
      SubstVars(Patterns(group), row);
      GroupSolutions(i, SubstGroup(i, group, row), map[], g, m);
      ExtendsNothing(Patterns(SubstGroup(i, group, row)), g, m);
      SolutionsCorrespond(i, group, row, g, m);
      BuildsSubst(head, row, m, t);
    }
  }

  // ---------------------------------------------------------------------------- narrowing

  /** When the extra parameters occur in the triple patterns, every solution with them is one without them. */
  lemma MoreParamsFewerSolutions(i: Interpretation, group: Group, few: Row, many: Row, g: Graph, mu: Row)
    requires Plain(group) && SubRow(few, many)
    requires many.Keys - few.Keys <= Vars(Patterns(group))
    requires Solution(i, Translate(Injected(group, many)), g, mu)
    ensures Solution(i, Translate(Injected(group, few)), g, mu)
  {
    GroupSolutions(i, group, many, g, mu);
    GroupSolutions(i, group, few, g, mu);
    ExtendsFewer(few, many, Patterns(group), g, mu);
  }

  /** Supplying more parameters can only narrow the result, for every head and every graph. */
  ghost predicate AlwaysNarrows(i: Interpretation, group: Group, few: Row, many: Row) {
    forall head, g :: NoLabels(head) ==>
      Construct(i, head, Injected(group, many), g) <= Construct(i, head, Injected(group, few), g)
  }

  ghost predicate Satisfiable(i: Interpretation, group: Group, row: Row) {
    exists g, mu :: Solution(i, Translate(Injected(group, row)), g, mu)
  }

  /** A variable neither supplied nor in the patterns is bound in no solution. */
  lemma NeverBound(i: Interpretation, group: Group, row: Row, g: Graph, mu: Row, v: string)
    requires Plain(group) && v !in row && v !in Vars(Patterns(group))
    requires Solution(i, Translate(Injected(group, row)), g, mu)
    ensures v !in mu
  {
    GroupSolutions(i, group, row, g, mu);
  }

  /** A head that reports one variable. */
  function Reporting(v: string): seq<TriplePattern> {
    [TriplePattern(Const(Iri("s")), Const(Iri("p")), Var(v))]
  }

  /** An extra parameter outside the triple patterns widens the result: the triple reporting it appears. */
  lemma OutsideParamWidens(i: Interpretation, group: Group, few: Row, many: Row, v: string)
    requires Plain(group) && SubRow(few, many) && v in many && v !in few && v !in Vars(Patterns(group))
    requires Satisfiable(i, group, many)
    ensures !AlwaysNarrows(i, group, few, many)
  {
    var g, mu :| Solution(i, Translate(Injected(group, many)), g, mu);
    var head := Reporting(v);
    var t := Triple(Iri("s"), Iri("p"), many[v]);
    SolutionHasRow(i, group, many, g, mu);
    assert mu[v] == (many + (mu - many.Keys))[v] == many[v];
    assert head[0] in head && FillTriple(head[0], mu, NO_LABELS) == Some(t);
    assert Builds(head, mu, t);
    assert t in Construct(i, head, Injected(group, many), g);
    if t in Construct(i, head, Injected(group, few), g) {
      var nu :| Solution(i, Translate(Injected(group, few)), g, nu) && Builds(head, nu, t);
      NeverBound(i, group, few, g, nu, v);
    }
    assert NoLabels(head);
  }

  /**
   Supplying more parameters narrows the result of every head on every graph exactly when each
   extra one occurs in the triple patterns, or the group with them is satisfied by no graph.
   */
  lemma NarrowsIff(i: Interpretation, group: Group, few: Row, many: Row)
    requires Plain(group) && SubRow(few, many)
    ensures AlwaysNarrows(i, group, few, many) <==>
            many.Keys - few.Keys <= Vars(Patterns(group)) || !Satisfiable(i, group, many)
  {
    if many.Keys - few.Keys <= Vars(Patterns(group)) || !Satisfiable(i, group, many) {
      forall head, g, t | NoLabels(head) && t in Construct(i, head, Injected(group, many), g)
        ensures t in Construct(i, head, Injected(group, few), g)
      {
        var mu :| Solution(i, Translate(Injected(group, many)), g, mu) && Builds(head, mu, t);
        MoreParamsFewerSolutions(i, group, few, many, g, mu);
      }
    } else {
      var v :| v in many.Keys - few.Keys && v !in Vars(Patterns(group));
      OutsideParamWidens(i, group, few, many, v);
    }
  }

  // ------------------------------------------------------------- groups without filters

  /** Everything not supplied is one IRI. */
  function OneIri(row: Row, vars: set<string>): (m: Row)
    ensures m.Keys == vars && Compatible(row, m)
  {
    map v | v in vars :: if v in row then row[v] else Iri("x")
  }

  /** The graph that the patterns make of it. */
  function Image(patterns: seq<TriplePattern>, m: Row): (g: Graph)
    requires Vars(patterns) <= m.Keys
    ensures AllIn(patterns, g, m, NO_LABELS)
  {
    forall t | t in patterns ensures FillTriple(t, m, NO_LABELS).Some? {
      assert forall v :: v in TripleVars(t) ==> v in Vars(patterns);
      FillsAll(t, m);
    }
    set t | t in patterns :: FillTriple(t, m, NO_LABELS).value
  }

  lemma FillsAll(t: TriplePattern, m: Row)
    ensures FillTriple(t, m, NO_LABELS).Some? <==> TripleVars(t) <= m.Keys
  {
    assert SlotVars(t.s) <= TripleVars(t) && SlotVars(t.p) <= TripleVars(t) && SlotVars(t.o) <= TripleVars(t);
    assert t.s.Var? ==> t.s.name in SlotVars(t.s);
    assert t.p.Var? ==> t.p.name in SlotVars(t.p);
    assert t.o.Var? ==> t.o.name in SlotVars(t.o);
  }

  /** Without filters some graph satisfies the group, with the parameters as they are and an IRI for the rest. */
  lemma ImageSatisfies(i: Interpretation, group: Group, row: Row)
    requires Plain(group) && Conditions(group) == []
    ensures var m := OneIri(row, Vars(Patterns(group)));
            Solution(i, Translate(Injected(group, row)), Image(Patterns(group), m), row + m)
  {
    var m := OneIri(row, Vars(Patterns(group)));
    var g := Image(Patterns(group), m);
    assert MatchesBgp(Patterns(group), g, m);
    assert Extends(row, Patterns(group), g, row + m);
    GroupSolutions(i, group, row, g, row + m);
  }

  /** So in such a group more parameters narrow every head exactly when they occur in the patterns. */
  lemma UnfilteredNarrowsIff(i: Interpretation, group: Group, few: Row, many: Row)
    requires Plain(group) && Conditions(group) == [] && SubRow(few, many)
    ensures AlwaysNarrows(i, group, few, many) <==> many.Keys - few.Keys <= Vars(Patterns(group))
  {
    ImageSatisfies(i, group, many);
    assert Satisfiable(i, group, many);
    NarrowsIff(i, group, few, many);
  }

  /** Supplying more parameters can only narrow the result for this head, on every graph. */
  ghost predicate HeadNarrows(i: Interpretation, head: seq<TriplePattern>, group: Group, few: Row, many: Row) {
    forall g :: Construct(i, head, Injected(group, many), g) <= Construct(i, head, Injected(group, few), g)
  }

  /** The head's triple pattern can be filled, and to a legal triple: the subject is no literal, the predicate an IRI. */
  predicate CanBuild(h: TriplePattern, row: Row, vars: set<string>) {
    var s, p := Fill(h.s, row, NO_LABELS), Fill(h.p, row, NO_LABELS);
    && TripleVars(h) <= row.Keys + vars
    && (s.Some? ==> s.value.Iri? || s.value.Blank?) && (p.Some? ==> p.value.Iri?)
  }

  lemma BuildsIfLegal(h: TriplePattern, row: Row, vars: set<string>)
    requires NoLabels([h]) && CanBuild(h, row, vars)
    ensures exists t :: Builds([h], row + OneIri(row, vars), t)
  {
    var mu := row + OneIri(row, vars);
    assert forall v :: v in row ==> mu[v] == row[v];
    assert h in [h];
    FillsAll(h, mu);
    var t := FillTriple(h, mu, NO_LABELS).value;
    assert h.s.Var? ==> h.s.name in TripleVars(h);
    assert h.p.Var? ==> h.p.name in TripleVars(h);
    assert LegalTriple(t);
    assert Builds([h], mu, t);
  }

  lemma OnlyIfLegal(h: TriplePattern, row: Row, m: Row, t: Triple)
    requires NoLabels([h]) && Compatible(row, m) && Builds([h], row + m, t)
    ensures CanBuild(h, row, m.Keys)
  {
    assert h in [h];
    var k :| k in [h] && FillTriple(k, row + m, NO_LABELS) == Some(t);
    FillsAll(h, row + m);
    assert forall v :: v in row ==> (row + m)[v] == row[v];
  }

  /**
   One triple pattern of a head, over a group without filters: supplying more parameters narrows
   what it builds, on every graph, exactly when the extra ones in it occur in the patterns, or it
   builds nothing even with them.
   */
  lemma PatternNarrowsIff(i: Interpretation, h: TriplePattern, group: Group, few: Row, many: Row)
    requires Plain(group) && Conditions(group) == [] && SubRow(few, many) && NoLabels([h])
    ensures HeadNarrows(i, [h], group, few, many) <==>
            || TripleVars(h) * (many.Keys - few.Keys) <= Vars(Patterns(group))
            || !CanBuild(h, many, Vars(Patterns(group)))
  {
    var vars := Vars(Patterns(group));
    if !CanBuild(h, many, vars) {
      forall g, t ensures t !in Construct(i, [h], Injected(group, many), g) {
        BuildsNothing(i, h, group, many, g, t);
      }
    } else if TripleVars(h) * (many.Keys - few.Keys) <= vars {
      forall g, t | t in Construct(i, [h], Injected(group, many), g)
        ensures t in Construct(i, [h], Injected(group, few), g)
      {
        PatternNarrowed(i, h, group, few, many, g, t);
      }
    } else {
      PatternWidens(i, h, group, few, many);
    }
  }

  lemma BuildsNothing(i: Interpretation, h: TriplePattern, group: Group, many: Row, g: Graph, t: Triple)
    requires Plain(group) && Conditions(group) == [] && NoLabels([h]) && !CanBuild(h, many, Vars(Patterns(group)))
    ensures t !in Construct(i, [h], Injected(group, many), g)
  {
    if t in Construct(i, [h], Injected(group, many), g) {
      var mu :| Solution(i, Translate(Injected(group, many)), g, mu) && Builds([h], mu, t);
      GroupSolutions(i, group, many, g, mu);
      var m :| MatchesBgp(Patterns(group), g, m) && Compatible(many, m) && mu == many + m;
      OnlyIfLegal(h, many, m, t);
    }
  }

  /** The extra parameters make no difference to a pattern that has them from the match. */
  lemma SameFill(h: TriplePattern, few: Row, many: Row, m: Row)
    requires SubRow(few, many) && Compatible(many, m) && TripleVars(h) * (many.Keys - few.Keys) <= m.Keys
    ensures Compatible(few, m) && FillTriple(h, many + m, NO_LABELS) == FillTriple(h, few + m, NO_LABELS)
  {
    forall v | v in TripleVars(h)
      ensures (v in many + m <==> v in few + m) && (v in many + m ==> (many + m)[v] == (few + m)[v])
    {
      assert v in many && v !in few ==> v in TripleVars(h) * (many.Keys - few.Keys);
    }
    FillAgrees(h, many + m, few + m, NO_LABELS);
  }

  lemma PatternNarrowed(i: Interpretation, h: TriplePattern, group: Group, few: Row, many: Row, g: Graph, t: Triple)
    requires Plain(group) && Conditions(group) == [] && SubRow(few, many)
    requires TripleVars(h) * (many.Keys - few.Keys) <= Vars(Patterns(group))
    requires t in Construct(i, [h], Injected(group, many), g)
    ensures t in Construct(i, [h], Injected(group, few), g)
  {
    hide Solution, Translate, Injected, FillTriple, TripleVars, Vars, Plain, Conditions, SubRow, AllIn, LegalTriple;
    var mu :| Solution(i, Translate(Injected(group, many)), g, mu) && Builds([h], mu, t);
    GroupSolutions(i, group, many, g, mu);
    var m :| MatchesBgp(Patterns(group), g, m) && Compatible(many, m) && mu == many + m;
    var nu := few + m;
    SameFill(h, few, many, m);
    assert Extends(few, Patterns(group), g, nu);
    GroupSolutions(i, group, few, g, nu);
    var k :| k in [h] && FillTriple(k, mu, NO_LABELS) == Some(t);
    assert Builds([h], nu, t);
  }

  /** A pattern with a variable that is never bound builds nothing. */
  lemma UnboundBuildsNothing(i: Interpretation, h: TriplePattern, group: Group, few: Row, g: Graph, t: Triple, v: string)
    requires Plain(group) && v in TripleVars(h) && v !in few && v !in Vars(Patterns(group))
    ensures t !in Construct(i, [h], Injected(group, few), g)
  {
    hide Solution, Translate, Injected, FillTriple, TripleVars, Vars, Plain, LegalTriple;
    if t in Construct(i, [h], Injected(group, few), g) {
      var nu :| Solution(i, Translate(Injected(group, few)), g, nu) && Builds([h], nu, t);
      NeverBound(i, group, few, g, nu, v);
      var k :| k in [h] && FillTriple(k, nu, NO_LABELS) == Some(t);
      FillsAll(h, nu);
    }
  }

  lemma PatternWidens(i: Interpretation, h: TriplePattern, group: Group, few: Row, many: Row)
    requires Plain(group) && Conditions(group) == [] && SubRow(few, many) && NoLabels([h])
    requires CanBuild(h, many, Vars(Patterns(group)))
    requires !(TripleVars(h) * (many.Keys - few.Keys) <= Vars(Patterns(group)))
    ensures !HeadNarrows(i, [h], group, few, many)
  {
    var vars := Vars(Patterns(group));
    var v :| v in TripleVars(h) && v in many.Keys - few.Keys && v !in vars;
    hide Construct, TripleVars, Vars, Plain, Conditions, CanBuild, NoLabels;
    var g, t := ImageBuilds(i, h, group, many);
    UnboundBuildsNothing(i, h, group, few, g, t, v);
  }

  /** What can be built is, on some graph. */
  lemma ImageBuilds(i: Interpretation, h: TriplePattern, group: Group, row: Row) returns (g: Graph, t: Triple)
    requires Plain(group) && Conditions(group) == [] && NoLabels([h]) && CanBuild(h, row, Vars(Patterns(group)))
    ensures t in Construct(i, [h], Injected(group, row), g)
  {
    hide Solution, Translate, Injected, Vars, Plain, Conditions, Builds, CanBuild, NoLabels, AllIn;
    var m := OneIri(row, Vars(Patterns(group)));
    g := Image(Patterns(group), m);
    ImageSatisfies(i, group, row);
    BuildsIfLegal(h, row, Vars(Patterns(group)));
    t :| Builds([h], row + m, t);
  }

  /** A head narrows if each of its triple patterns does. */
  lemma HeadNarrowsByPatterns(i: Interpretation, head: seq<TriplePattern>, group: Group, few: Row, many: Row)
    requires forall h :: h in head ==> HeadNarrows(i, [h], group, few, many)
    ensures HeadNarrows(i, head, group, few, many)
  {
    forall g, t | t in Construct(i, head, Injected(group, many), g)
      ensures t in Construct(i, head, Injected(group, few), g)
    {
      var mu :| Solution(i, Translate(Injected(group, many)), g, mu) && Builds(head, mu, t);
      var h :| h in head && FillTriple(h, mu, NO_LABELS) == Some(t);
      assert h in [h] && Builds([h], mu, t);
      assert t in Construct(i, [h], Injected(group, many), g);
      assert t in Construct(i, [h], Injected(group, few), g);
      var nu :| Solution(i, Translate(Injected(group, few)), g, nu) && Builds([h], nu, t);
      assert Builds(head, nu, t);
    }
  }

  /** A parameter used in the head alone: unsupplied the view is empty, supplied it is not. */
  lemma HeadOnlyParam(i: Interpretation, term: Term)
    ensures Construct(i, Reporting("p"), Injected([], map[]), {}) == iset{}
    ensures Construct(i, Reporting("p"), Injected([], map["p" := term]), {}) == iset{Triple(Iri("s"), Iri("p"), term)}
  {
    var head, row: Row, none: Row := Reporting("p"), map["p" := term], map[];
    var t := Triple(Iri("s"), Iri("p"), term);
    forall mu ensures Solution(i, Translate(Injected([], none)), {}, mu) <==> mu == none {
      GroupSolutions(i, [], none, {}, mu);
      ExtendsNothing([], {}, mu);
      MatchesNothing({}, mu);
    }
    forall mu ensures Solution(i, Translate(Injected([], row)), {}, mu) <==> mu == row {
      GroupSolutions(i, [], row, {}, mu);
      MatchesNothing({}, none);
      assert row + none == row;
      if Extends(row, [], {}, mu) {
        var m :| MatchesBgp([], {}, m) && Compatible(row, m) && mu == row + m;
        MatchesNothing({}, m);
      }
    }
    assert head[0] in head && FillTriple(head[0], row, NO_LABELS) == Some(t) && Builds(head, row, t);
  }
}
