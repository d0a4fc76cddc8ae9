/**
 Container representations and the GET-then-PUT round trip: whatever part of a container a
 client asked to see, putting it back with the ETag it came with never changes containment,
 stores the old graph plus the three synthesized LDP types, and changes nothing the second time.
 */
module LdpRoundTrip {
  import opened Rdf
  import opened Containers
  import opened Preconditions
  import opened Ldp
  import opened LdpContainment
  import opened LdpReachability
  import Storage

  // -------------------------------------------------------------------- Prefer header

  const PREFER_CONTAINMENT := LDP + "PreferContainment"
  const PREFER_MEMBERSHIP := LDP + "PreferMembership"
  const PREFER_MINIMAL_CONTAINER := LDP + "PreferMinimalContainer"

  /** One include="..." or omit="..." parameter of the header, its value split at white space. */
  datatype PreferParam = PreferParam(isInclude: bool, tokens: set<string>)

  datatype Flags = Flags(containment: bool, membership: bool, applied: bool)

  function Tokens(params: seq<PreferParam>, isInclude: bool): set<string> {
    set i, token | 0 <= i < |params| && params[i].isInclude == isInclude && token in params[i].tokens :: token
  }

  function Resolved(included: set<string>, omitted: set<string>): Flags {
    var applied := {PREFER_CONTAINMENT, PREFER_MEMBERSHIP, PREFER_MINIMAL_CONTAINER} * (included + omitted) != {};
    if PREFER_MINIMAL_CONTAINER in included
    then Flags(PREFER_CONTAINMENT in included, PREFER_MEMBERSHIP in included, applied)
    else Flags(PREFER_CONTAINMENT !in omitted, PREFER_MEMBERSHIP !in omitted, applied)
  }

  /** Some include, or some omit, parameter of the header has this LDP preference among its tokens. */
  ghost predicate Asks(params: seq<PreferParam>, isInclude: bool, preference: string) {
    exists i :: 0 <= i < |params| && params[i].isInclude == isInclude
                && "http://www.w3.org/ns/ldp#" + preference in params[i].tokens
  }

  /**
   Accumulates the tokens of all parameters, then resolves them.  A minimal container is one with
   what else is included; otherwise all that is not omitted is wanted.
   */
  method ContainerPrefer(params: seq<PreferParam>) returns (flags: Flags)
    ensures flags == Resolved(Tokens(params, true), Tokens(params, false))
    ensures Asks(params, true, "PreferMinimalContainer") ==>
              && (flags.containment <==> Asks(params, true, "PreferContainment"))
              && (flags.membership <==> Asks(params, true, "PreferMembership"))
    ensures !Asks(params, true, "PreferMinimalContainer") ==>
              && (flags.containment <==> !Asks(params, false, "PreferContainment"))
              && (flags.membership <==> !Asks(params, false, "PreferMembership"))
    ensures flags.applied <==>
              exists isInclude, preference ::
                && preference in {"PreferContainment", "PreferMembership", "PreferMinimalContainer"}
                && Asks(params, isInclude, preference)
  {
    var included, omitted := {}, {};
    var i := 0;
    while i < |params|
      invariant 0 <= i <= |params|
      invariant included == Tokens(params[..i], true)
      invariant omitted == Tokens(params[..i], false)
    {
      TokensAppend(params, i, true);
      TokensAppend(params, i, false);
      if params[i].isInclude {
        included := included + params[i].tokens;
      } else {
        omitted := omitted + params[i].tokens;
      }
      i := i + 1;
    }
    assert params[..i] == params;
    flags := Resolved(included, omitted);
    AskedTokens(params, true);
    AskedTokens(params, false);
    PreferenceNames();
    AppliedIff(params);
  }

  lemma PreferenceNames()
    ensures PREFER_CONTAINMENT == "http://www.w3.org/ns/ldp#" + "PreferContainment"
    ensures PREFER_MEMBERSHIP == "http://www.w3.org/ns/ldp#" + "PreferMembership"
    ensures PREFER_MINIMAL_CONTAINER == "http://www.w3.org/ns/ldp#" + "PreferMinimalContainer"
  {
  }

  lemma AskedTokens(params: seq<PreferParam>, isInclude: bool)
    ensures forall preference :: "http://www.w3.org/ns/ldp#" + preference in Tokens(params, isInclude) <==>
                                 Asks(params, isInclude, preference)
  {
    forall preference
      ensures "http://www.w3.org/ns/ldp#" + preference in Tokens(params, isInclude) <==> Asks(params, isInclude, preference)
    {
    }
  }

  lemma AppliedIff(params: seq<PreferParam>)
    ensures Resolved(Tokens(params, true), Tokens(params, false)).applied <==>
              exists isInclude, preference ::
                && preference in {"PreferContainment", "PreferMembership", "PreferMinimalContainer"}
                && Asks(params, isInclude, preference)
  {
    AskedTokens(params, true);
    AskedTokens(params, false);
    PreferenceNames();
    hide Asks, Tokens;
    var included, omitted := Tokens(params, true), Tokens(params, false);
    var recognized := {PREFER_CONTAINMENT, PREFER_MEMBERSHIP, PREFER_MINIMAL_CONTAINER};
    assert recognized * (included + omitted) != {} <==>
           exists t :: t in recognized && (t in included || t in omitted) by {
      if t :| t in recognized && (t in included || t in omitted) {
        assert t in recognized * (included + omitted);
      }
      if recognized * (included + omitted) != {} {
        var t :| t in recognized * (included + omitted);
      }
    }
    forall preference | preference in {"PreferContainment", "PreferMembership", "PreferMinimalContainer"}
      ensures "http://www.w3.org/ns/ldp#" + preference in recognized
    {
    }
  }

  lemma TokensAppend(params: seq<PreferParam>, i: nat, isInclude: bool)
    requires i < |params|
    ensures Tokens(params[..i + 1], isInclude) ==
            Tokens(params[..i], isInclude) + (if params[i].isInclude == isInclude then params[i].tokens else {})
  {
    var longer, shorter := params[..i + 1], params[..i];
    forall t ensures t in Tokens(longer, isInclude) <==>
                     t in Tokens(shorter, isInclude) || (params[i].isInclude == isInclude && t in params[i].tokens)
    {
      if t in Tokens(shorter, isInclude) {
        var k :| 0 <= k < |shorter| && shorter[k].isInclude == isInclude && t in shorter[k].tokens;
        assert longer[k] == shorter[k];
      }
      if t in Tokens(longer, isInclude) {
        var k :| 0 <= k < |longer| && longer[k].isInclude == isInclude && t in longer[k].tokens;
        assert k < i ==> shorter[k] == longer[k];
      }
      assert longer[i] == params[i];
    }
  }

  // ------------------------------------------------------------------- representation

  function Types(uri: string): Graph {
    {Triple(Iri(uri), RDF_TYPE, LDP_RESOURCE), Triple(Iri(uri), RDF_TYPE, LDP_RDF_SOURCE),
     Triple(Iri(uri), RDF_TYPE, LDP_CONTAINER)}
  }

  function Members(g: Graph, uri: string): set<Term> {
    Objects(g, Iri(uri), LDP_CONTAINS)
  }

  /** The membership triples synthesized for a Direct Container. */
  function Membership(pick: Choice, g: Graph, uri: string): Graph {
    var resource := ValueOf(pick, g, Iri(uri), LDP_MEMBERSHIP_RESOURCE);
    if resource.NoValue? then {}
    else
      var hasMember := ValueOf(pick, g, Iri(uri), LDP_HAS_MEMBER_RELATION);
      var isMemberOf := ValueOf(pick, g, Iri(uri), LDP_IS_MEMBER_OF_RELATION);
      if hasMember.Value? then set m | m in Members(g, uri) :: Triple(resource.term, hasMember.term, m)
      else if isMemberOf.Value? then set m | m in Members(g, uri) :: Triple(m, isMemberOf.term, resource.term)
      else {}
  }

  function Representation(pick: Choice, g: Graph, uri: string, flags: Flags): Graph {
    (if flags.containment then g else g - ContainsTriples(g, uri))
    + Types(uri)
    + (if flags.membership then Membership(pick, g, uri) else {})
  }

  /** What a client is sent, triple by triple. */
  lemma RepresentationIff(pick: Choice, g: Graph, uri: string, flags: Flags, t: Triple)
    ensures var c := Iri(uri);
            var contains := Iri("http://www.w3.org/ns/ldp#" + "contains");
            var resources := Objects(g, c, Iri("http://www.w3.org/ns/ldp#" + "membershipResource"));
            var hasMember := Objects(g, c, Iri("http://www.w3.org/ns/ldp#" + "hasMemberRelation"));
            var isMemberOf := Objects(g, c, Iri("http://www.w3.org/ns/ldp#" + "isMemberOfRelation"));
            t in Representation(pick, g, uri, flags) <==>
            || (t in g && (flags.containment || t.s != c || t.p != contains))
            || (t.s == c && t.p == Iri("http://www.w3.org/1999/02/22-rdf-syntax-ns#type")
                && t.o in {Iri("http://www.w3.org/ns/ldp#" + "Resource"), Iri("http://www.w3.org/ns/ldp#" + "RDFSource"),
                           Iri("http://www.w3.org/ns/ldp#" + "Container")})
            || (flags.membership && resources != {}
                && if hasMember != {} then
                     t.s == pick(resources) && t.p == pick(hasMember) && Triple(c, contains, t.o) in g
                   else
                     isMemberOf != {} && t.o == pick(resources) && t.p == pick(isMemberOf) && Triple(c, contains, t.s) in g)
  {
    MemberIff(g, uri, t.o);
    MemberIff(g, uri, t.s);
    hide Members;
  }

  lemma MemberIff(g: Graph, uri: string, m: Term)
    ensures m in Members(g, uri) <==> Triple(Iri(uri), LDP_CONTAINS, m) in g
  {
    if Triple(Iri(uri), LDP_CONTAINS, m) in g {
      assert Triple(Iri(uri), LDP_CONTAINS, m).o in Members(g, uri);
    }
  }

  /** The response copy, triple by triple, then the types, then one membership triple per member. */
  method ContainerRepresentation(pick: Choice, g: Graph, uri: string, flags: Flags) returns (result: Graph)
    ensures result == Representation(pick, g, uri, flags)
  {
    result := {};
    var rest := g;
    while rest != {}
      invariant rest <= g
      invariant result == (g - rest) - (if flags.containment then {} else ContainsTriples(g, uri))
      decreases rest
    {
      var triple :| triple in rest;
      rest := rest - {triple};
      if flags.containment || triple.s != Iri(uri) || triple.p != LDP_CONTAINS {
        result := result + {triple};
      }
    }
    result := result + Types(uri);
    ghost var typed := result;
    var resource := ValueOf(pick, g, Iri(uri), LDP_MEMBERSHIP_RESOURCE);
    if flags.membership && resource.Value? {
      var hasMember := ValueOf(pick, g, Iri(uri), LDP_HAS_MEMBER_RELATION);
      var isMemberOf := ValueOf(pick, g, Iri(uri), LDP_IS_MEMBER_OF_RELATION);
      var members := Members(g, uri);
      ghost var done: set<Term> := {};
      while members != {}
        invariant done + members == Members(g, uri)
        invariant result == typed + (
          if hasMember.Value? then set m | m in done :: Triple(resource.term, hasMember.term, m)
          else if isMemberOf.Value? then set m | m in done :: Triple(m, isMemberOf.term, resource.term)
          else {})
        decreases members
      {
        var member :| member in members;
        if hasMember.Value? {
          result := result + {Triple(resource.term, hasMember.term, member)};
        } else if isMemberOf.Value? {
          result := result + {Triple(member, isMemberOf.term, resource.term)};
        }
        members := members - {member};
        done := done + {member};
      }
    }
  }

  // ----------------------------------------------------------------------- round trip

  /** The configuration has at most one value, and no relation the server or LDP gives a meaning. */
  predicate PlainMembership(g: Graph, uri: string) {
    && |Objects(g, Iri(uri), LDP_MEMBERSHIP_RESOURCE)| <= 1
    && |Objects(g, Iri(uri), LDP_HAS_MEMBER_RELATION)| <= 1
    && |Objects(g, Iri(uri), LDP_IS_MEMBER_OF_RELATION)| <= 1
    && forall r :: r in Objects(g, Iri(uri), LDP_HAS_MEMBER_RELATION) + Objects(g, Iri(uri), LDP_IS_MEMBER_OF_RELATION)
         ==> PlainRelation(r)
  }

  predicate PlainRelation(r: Term) {
    r !in {LDP_CONTAINS, RDF_TYPE, LDP_MEMBERSHIP_RESOURCE, LDP_HAS_MEMBER_RELATION, LDP_IS_MEMBER_OF_RELATION}
  }

  /** No membership triple is stored. */
  predicate StoresNoMembership(g: Graph, uri: string) {
    forall resource :: resource in Objects(g, Iri(uri), LDP_MEMBERSHIP_RESOURCE) ==>
      && (forall t :: t in g && t.s == resource ==> t.p !in Objects(g, Iri(uri), LDP_HAS_MEMBER_RELATION))
      && (forall t :: t in g && t.o == resource ==> t.p !in Objects(g, Iri(uri), LDP_IS_MEMBER_OF_RELATION))
  }

  predicate OwnContainment(g: Graph, uri: string) {
    forall t :: t in g && t.p == LDP_CONTAINS ==> t.s == Iri(uri)
  }

  /** A container as PUT leaves it. */
  predicate CleanContainer(g: Graph, uri: string) {
    IsContainer(g, uri) && PlainMembership(g, uri) && StoresNoMembership(g, uri) && OwnContainment(g, uri)
  }

  lemma ConfigurationVocabulary()
    ensures RDF_TYPE !in {LDP_CONTAINS, LDP_MEMBERSHIP_RESOURCE, LDP_HAS_MEMBER_RELATION, LDP_IS_MEMBER_OF_RELATION}
    ensures LDP_CONTAINS !in {LDP_MEMBERSHIP_RESOURCE, LDP_HAS_MEMBER_RELATION, LDP_IS_MEMBER_OF_RELATION}
    ensures LDP_MEMBERSHIP_RESOURCE !in {LDP_HAS_MEMBER_RELATION, LDP_IS_MEMBER_OF_RELATION}
    ensures LDP_HAS_MEMBER_RELATION != LDP_IS_MEMBER_OF_RELATION
  {
    assert LDP_CONTAINS.iri[|LDP|] == 'c' && LDP_MEMBERSHIP_RESOURCE.iri[|LDP|] == 'm';
    assert LDP_HAS_MEMBER_RELATION.iri[|LDP|] == 'h' && LDP_IS_MEMBER_OF_RELATION.iri[|LDP|] == 'i';
    assert RDF_TYPE.iri[18] == '1' && LDP_CONTAINS.iri[18] == 'n' && LDP_MEMBERSHIP_RESOURCE.iri[18] == 'n';
    assert LDP_HAS_MEMBER_RELATION.iri[18] == 'n' && LDP_IS_MEMBER_OF_RELATION.iri[18] == 'n';
  }

  lemma SameValue(pick1: Choice, pick2: Choice, g: Graph, h: Graph, s: Term, p: Term)
    requires Picks(pick1) && Picks(pick2)
    requires Objects(g, s, p) == Objects(h, s, p) && |Objects(g, s, p)| <= 1
    ensures ValueOf(pick1, g, s, p) == ValueOf(pick2, h, s, p)
    ensures ValueOf(pick1, g, s, p).Value? ==> Objects(g, s, p) == {ValueOf(pick1, g, s, p).term}
    ensures ValueOf(pick1, g, s, p).NoValue? ==> Objects(g, s, p) == {}
  {
    var os := Objects(g, s, p);
    if os != {} {
      var a, b := pick1(os), pick2(os);
      assert a in os && b in os;
      assert os == {a} by {
        assert |os - {a}| == 0;
      }
    }
  }

  /** Every synthesized triple uses one of the container's relations. */
  lemma MembershipRelation(pick: Choice, g: Graph, uri: string, t: Triple)
    requires Picks(pick) && PlainMembership(g, uri) && t in Membership(pick, g, uri)
    ensures PlainRelation(t.p)
  {
    SameValue(pick, pick, g, g, Iri(uri), LDP_HAS_MEMBER_RELATION);
    SameValue(pick, pick, g, g, Iri(uri), LDP_IS_MEMBER_OF_RELATION);
  }

  lemma ObjectsAdd(g: Graph, extra: Graph, s: Term, p: Term)
    requires forall t :: t in extra ==> t.p != p
    ensures Objects(g + extra, s, p) == Objects(g, s, p)
  {
  }

  /** Types and membership triples leave the configuration readable as before. */
  lemma ConfigurationKept(pick: Choice, g: Graph, uri: string, m: Graph)
    requires Picks(pick) && PlainMembership(g, uri) && m <= Membership(pick, g, uri)
    ensures forall p :: p in {LDP_MEMBERSHIP_RESOURCE, LDP_HAS_MEMBER_RELATION, LDP_IS_MEMBER_OF_RELATION} ==>
              Objects(g + (Types(uri) + m), Iri(uri), p) == Objects(g, Iri(uri), p)
  {
    ConfigurationVocabulary();
    forall p | p in {LDP_MEMBERSHIP_RESOURCE, LDP_HAS_MEMBER_RELATION, LDP_IS_MEMBER_OF_RELATION}
      ensures Objects(g + (Types(uri) + m), Iri(uri), p) == Objects(g, Iri(uri), p)
    {
      forall t | t in Types(uri) + m ensures t.p != p {
        if t in m {
          MembershipRelation(pick, g, uri, t);
        }
      }
      ObjectsAdd(g, Types(uri) + m, Iri(uri), p);
    }
  }

  /** Re-inserting the stored containment undoes whatever the representation left out. */
  lemma ContainmentRestored(pick: Choice, g: Graph, uri: string, flags: Flags)
    requires Picks(pick) && CleanContainer(g, uri)
    ensures DropPredicate(Representation(pick, g, uri, flags), LDP_CONTAINS) + ContainsTriples(g, uri)
            == g + (Types(uri) + (if flags.membership then Membership(pick, g, uri) else {}))
  {
    ConfigurationVocabulary();
    var m := if flags.membership then Membership(pick, g, uri) else {};
    forall t | t in Types(uri) + m ensures t.p != LDP_CONTAINS {
      if t in m {
        MembershipRelation(pick, g, uri, t);
      }
    }
    var left := DropPredicate(Representation(pick, g, uri, flags), LDP_CONTAINS) + ContainsTriples(g, uri);
    forall t ensures t in left <==> t in g + (Types(uri) + m) {
    }
  }

  /** The two removals, on a graph that holds none of those triples apart from extra. */
  lemma RemovalsExact(g: Graph, extra: Graph, resource: Term, hasMember: Value, isMemberOf: Value)
    requires hasMember.Value? ==> forall t :: t in g && t.s == resource ==> t.p != hasMember.term
    requires isMemberOf.Value? ==> forall t :: t in g && t.o == resource ==> t.p != isMemberOf.term
    requires forall t :: t in extra ==>
               || (hasMember.Value? && t.s == resource && t.p == hasMember.term)
               || (isMemberOf.Value? && t.o == resource && t.p == isMemberOf.term)
    ensures var all := g + extra;
            var g1 := if hasMember.Value? then DropSubjectPredicate(all, resource, hasMember.term) else all;
            (if isMemberOf.Value? then DropPredicateObject(g1, isMemberOf.term, resource) else g1) == g
  {
  }

  lemma MembershipShape(pick: Choice, g: Graph, uri: string, t: Triple)
    requires t in Membership(pick, g, uri)
    ensures var resource := ValueOf(pick, g, Iri(uri), LDP_MEMBERSHIP_RESOURCE);
            var hasMember := ValueOf(pick, g, Iri(uri), LDP_HAS_MEMBER_RELATION);
            var isMemberOf := ValueOf(pick, g, Iri(uri), LDP_IS_MEMBER_OF_RELATION);
            && resource.Value?
            && (|| (hasMember.Value? && t.s == resource.term && t.p == hasMember.term)
                || (isMemberOf.Value? && t.o == resource.term && t.p == isMemberOf.term))
  {
  }

  /** Dropping membership with the configuration's values at hand. */
  lemma DropWithValues(pick: Choice, g: Graph, extra: Graph, uri: string, resource: Value, hasMember: Value, isMemberOf: Value)
    requires var all := g + extra;
             && ValueOf(pick, all, Iri(uri), LDP_MEMBERSHIP_RESOURCE) == resource
             && ValueOf(pick, all, Iri(uri), LDP_HAS_MEMBER_RELATION) == hasMember
             && ValueOf(pick, all, Iri(uri), LDP_IS_MEMBER_OF_RELATION) == isMemberOf
    requires resource.NoValue? ==> extra == {}
    requires resource.Value? ==>
               && (hasMember.Value? ==> forall t :: t in g && t.s == resource.term ==> t.p != hasMember.term)
               && (isMemberOf.Value? ==> forall t :: t in g && t.o == resource.term ==> t.p != isMemberOf.term)
               && forall t :: t in extra ==>
                    || (hasMember.Value? && t.s == resource.term && t.p == hasMember.term)
                    || (isMemberOf.Value? && t.o == resource.term && t.p == isMemberOf.term)
    ensures DropMembership(pick, g + extra, uri) == g
  {
    if resource.Value? {
      RemovalsExact(g, extra, resource.term, hasMember, isMemberOf);
    }
  }

  /** Dropping membership removes exactly what was synthesized. */
  lemma MembershipDropped(pick1: Choice, pick2: Choice, g: Graph, uri: string, m: Graph)
    requires Picks(pick1) && Picks(pick2) && CleanContainer(g, uri)
    requires m <= Membership(pick1, g, uri)
    ensures DropMembership(pick2, g + (Types(uri) + m), uri) == g + Types(uri)
  {
    var all := g + (Types(uri) + m);
    ConfigurationKept(pick1, g, uri, m);
    SameValue(pick1, pick2, g, all, Iri(uri), LDP_MEMBERSHIP_RESOURCE);
    SameValue(pick1, pick2, g, all, Iri(uri), LDP_HAS_MEMBER_RELATION);
    SameValue(pick1, pick2, g, all, Iri(uri), LDP_IS_MEMBER_OF_RELATION);
    var resource := ValueOf(pick1, g, Iri(uri), LDP_MEMBERSHIP_RESOURCE);
    var hasMember := ValueOf(pick1, g, Iri(uri), LDP_HAS_MEMBER_RELATION);
    var isMemberOf := ValueOf(pick1, g, Iri(uri), LDP_IS_MEMBER_OF_RELATION);
    assert resource.NoValue? ==> m == {};
    forall t | t in m
      ensures resource.Value?
      ensures || (hasMember.Value? && t.s == resource.term && t.p == hasMember.term)
              || (isMemberOf.Value? && t.o == resource.term && t.p == isMemberOf.term)
    {
      MembershipShape(pick1, g, uri, t);
    }
    if resource.Value? {
      RelationsAbsent(g, uri, resource.term, hasMember, isMemberOf);
    }
    assert all == (g + Types(uri)) + m;
    DropWithValues(pick2, g + Types(uri), m, uri, resource, hasMember, isMemberOf);
  }

  lemma RelationsAbsent(g: Graph, uri: string, resource: Term, hasMember: Value, isMemberOf: Value)
    requires CleanContainer(g, uri) && resource in Objects(g, Iri(uri), LDP_MEMBERSHIP_RESOURCE)
    requires hasMember.Value? ==> hasMember.term in Objects(g, Iri(uri), LDP_HAS_MEMBER_RELATION)
    requires isMemberOf.Value? ==> isMemberOf.term in Objects(g, Iri(uri), LDP_IS_MEMBER_OF_RELATION)
    ensures hasMember.Value? ==>
              forall t :: t in g + Types(uri) && t.s == resource ==> t.p != hasMember.term
    ensures isMemberOf.Value? ==>
              forall t :: t in g + Types(uri) && t.o == resource ==> t.p != isMemberOf.term
  {
    assert hasMember.Value? ==> PlainRelation(hasMember.term);
    assert isMemberOf.Value? ==> PlainRelation(isMemberOf.term);
  }

  lemma RepresentedContainment(pick: Choice, g: Graph, uri: string, flags: Flags)
    requires Picks(pick) && CleanContainer(g, uri)
    ensures !AltersContainment(Representation(pick, g, uri, flags), g, uri)
  {
    ConfigurationVocabulary();
    var body := Representation(pick, g, uri, flags);
    var m := if flags.membership then Membership(pick, g, uri) else {};
    forall t | t in Types(uri) + m ensures t.p != LDP_CONTAINS {
      if t in m {
        MembershipRelation(pick, g, uri, t);
      }
    }
    if flags.containment {
      assert ContainsTriples(body, uri) == ContainsTriples(g, uri);
    } else {
      assert ContainsTriples(body, uri) == {};
    }
  }

  /**
   Putting back what was got, with its ETag and under any Prefer flags, is accepted and stores
   the old graph plus the three types; the two reads of the configuration need not agree on how
   they choose among values, since there is at most one.
   */
  lemma GetThenPut(
      base: string, pick1: Choice, pick2: Choice, etagOf: Graph -> string, pod: Pod, uri: string, flags: Flags)
    requires Picks(pick1) && Picks(pick2)
    requires uri in pod.graphs && CleanContainer(pod.graphs[uri], uri) && !Storage.Reserved(base, uri)
    ensures var g := pod.graphs[uri];
            AfterPutRdf(base, pick2, etagOf, pod, uri, Representation(pick1, g, uri, flags), Tag(etagOf(g)), false)
            == (WithGraph(pod, uri, g + Types(uri)), Ok200)
  {
    var g := pod.graphs[uri];
    RepresentedContainment(pick1, g, uri, flags);
    ContainmentRestored(pick1, g, uri, flags);
    MembershipDropped(pick1, pick2, g, uri, if flags.membership then Membership(pick1, g, uri) else {});
  }

  predicate SameConfiguration(g: Graph, h: Graph, uri: string) {
    && Objects(g, Iri(uri), LDP_MEMBERSHIP_RESOURCE) == Objects(h, Iri(uri), LDP_MEMBERSHIP_RESOURCE)
    && Objects(g, Iri(uri), LDP_HAS_MEMBER_RELATION) == Objects(h, Iri(uri), LDP_HAS_MEMBER_RELATION)
    && Objects(g, Iri(uri), LDP_IS_MEMBER_OF_RELATION) == Objects(h, Iri(uri), LDP_IS_MEMBER_OF_RELATION)
  }

  lemma AddKeepsConfiguration(g: Graph, extra: Graph, uri: string)
    requires forall t :: t in extra ==> t.p == RDF_TYPE || t.p == LDP_CONTAINS
    ensures SameConfiguration(g, g + extra, uri)
  {
    ConfigurationVocabulary();
    ObjectsAdd(g, extra, Iri(uri), LDP_MEMBERSHIP_RESOURCE);
    ObjectsAdd(g, extra, Iri(uri), LDP_HAS_MEMBER_RELATION);
    ObjectsAdd(g, extra, Iri(uri), LDP_IS_MEMBER_OF_RELATION);
  }

  /** New types and new containment do not make a clean container unclean. */
  lemma CleanKept(g: Graph, h: Graph, uri: string)
    requires CleanContainer(g, uri) && IsContainer(h, uri) && SameConfiguration(g, h, uri)
    requires forall t :: t in h && t !in g ==> t.p == RDF_TYPE || (t.p == LDP_CONTAINS && t.s == Iri(uri))
    ensures CleanContainer(h, uri)
  {
    ConfigurationVocabulary();
    assert OwnContainment(h, uri);
    assert PlainMembership(h, uri);
    forall resource, t | resource in Objects(h, Iri(uri), LDP_MEMBERSHIP_RESOURCE) && t in h
      ensures t.s == resource ==> t.p !in Objects(h, Iri(uri), LDP_HAS_MEMBER_RELATION)
      ensures t.o == resource ==> t.p !in Objects(h, Iri(uri), LDP_IS_MEMBER_OF_RELATION)
    {
      assert resource in Objects(g, Iri(uri), LDP_MEMBERSHIP_RESOURCE);
      if t !in g {
        assert !PlainRelation(t.p);
      }
    }
  }

  /** What is stored is again such a container, with the same containment. */
  lemma RoundTripStaysClean(g: Graph, uri: string)
    requires CleanContainer(g, uri)
    ensures CleanContainer(g + Types(uri), uri)
    ensures ContainsTriples(g + Types(uri), uri) == ContainsTriples(g, uri)
  {
    ConfigurationVocabulary();
    AddKeepsConfiguration(g, Types(uri), uri);
    CleanKept(g, g + Types(uri), uri);
  }

  /** From the second round on nothing changes. */
  lemma SecondRoundIsFixpoint(
      base: string, pick1: Choice, pick2: Choice, etagOf: Graph -> string, pod: Pod, uri: string, flags: Flags)
    requires Picks(pick1) && Picks(pick2)
    requires uri in pod.graphs && CleanContainer(pod.graphs[uri], uri) && !Storage.Reserved(base, uri)
    requires Types(uri) <= pod.graphs[uri]
    ensures var g := pod.graphs[uri];
            AfterPutRdf(base, pick2, etagOf, pod, uri, Representation(pick1, g, uri, flags), Tag(etagOf(g)), false)
            == (pod, Ok200)
  {
    GetThenPut(base, pick1, pick2, etagOf, pod, uri, flags);
    var g := pod.graphs[uri];
    assert g + Types(uri) == g;
    assert WithGraph(pod, uri, g) == pod;
  }

  /** A PUT leaves a container of this kind, provided its body configures a plain membership. */
  lemma PutLeavesClean(pick: Choice, body: Graph, stored: Graph, uri: string)
    requires Picks(pick) && IsContainer(body, uri)
    requires PlainMembership(DropPredicate(body, LDP_CONTAINS) + ContainsTriples(stored, uri), uri)
    ensures CleanContainer(ManagedBody(pick, body, stored, uri), uri)
  {
    ConfigurationVocabulary();
    var all := DropPredicate(body, LDP_CONTAINS) + ContainsTriples(stored, uri);
    var g := ManagedBody(pick, body, stored, uri);
    SameValue(pick, pick, all, all, Iri(uri), LDP_MEMBERSHIP_RESOURCE);
    SameValue(pick, pick, all, all, Iri(uri), LDP_HAS_MEMBER_RELATION);
    SameValue(pick, pick, all, all, Iri(uri), LDP_IS_MEMBER_OF_RELATION);
    var hasMember := ValueOf(pick, all, Iri(uri), LDP_HAS_MEMBER_RELATION);
    var isMemberOf := ValueOf(pick, all, Iri(uri), LDP_IS_MEMBER_OF_RELATION);
    assert hasMember.Value? ==> PlainRelation(hasMember.term);
    assert isMemberOf.Value? ==> PlainRelation(isMemberOf.term);
    forall t | t in all && (t.p == RDF_TYPE || t.p in {LDP_MEMBERSHIP_RESOURCE, LDP_HAS_MEMBER_RELATION, LDP_IS_MEMBER_OF_RELATION})
      ensures t in g
    {
    }
    forall p | p in {LDP_MEMBERSHIP_RESOURCE, LDP_HAS_MEMBER_RELATION, LDP_IS_MEMBER_OF_RELATION}
      ensures Objects(g, Iri(uri), p) == Objects(all, Iri(uri), p)
    {
    }
    assert Triple(Iri(uri), RDF_TYPE, LDP_BASIC_CONTAINER) in body ==> Triple(Iri(uri), RDF_TYPE, LDP_BASIC_CONTAINER) in all;
    assert Triple(Iri(uri), RDF_TYPE, LDP_DIRECT_CONTAINER) in body ==> Triple(Iri(uri), RDF_TYPE, LDP_DIRECT_CONTAINER) in all;
  }

  /** Members created or deleted since keep it so. */
  lemma AttachKeepsClean(g: Graph, uri: string, member: Term)
    requires CleanContainer(g, uri)
    ensures CleanContainer(g + {Triple(Iri(uri), LDP_CONTAINS, member)}, uri)
    ensures CleanContainer(g - {Triple(Iri(uri), LDP_CONTAINS, member)}, uri)
  {
    ConfigurationVocabulary();
    var t := Triple(Iri(uri), LDP_CONTAINS, member);
    AddKeepsConfiguration(g, {t}, uri);
    CleanKept(g, g + {t}, uri);
    assert g - {t} + {t} == g + {t};
    AddKeepsConfiguration(g - {t}, {t}, uri);
    CleanKept(g, g - {t}, uri);
  }

  // ------------------------------------------------------------------- other requests

  ghost predicate CleanAt(pod: Pod, uri: string) {
    uri in pod.graphs ==> CleanContainer(pod.graphs[uri], uri)
  }

  lemma CleanAttached(base: string, pod: Pod, member: string, uri: string)
    requires CleanAt(pod, uri)
    ensures CleanAt(Attached(base, pod, member).0, uri)
    ensures CleanAt(Detached(base, pod, member).0, uri)
  {
    hide ParentContainerUri, Storage.Reserved, CleanContainer;
    if uri in pod.graphs {
      AttachKeepsClean(pod.graphs[uri], uri, Iri(member));
    }
  }

  /** A PUT on the container itself sends a container with a plain configuration. */
  predicate PlainBody(pod: Pod, r: Request, uri: string) {
    r.PutRdf? && r.uri == uri ==>
      && IsContainer(r.graph, uri)
      && PlainMembership(DropPredicate(r.graph, LDP_CONTAINS) + ContainsTriples(GraphOf(pod, uri), uri), uri)
  }

  lemma CleanPutRdf(server: Server, pod: Pod, r: Request, uri: string)
    requires Picks(server.pick) && CleanAt(pod, uri) && PlainBody(pod, r, uri) && r.PutRdf?
    ensures CleanAt(Serve(server, pod, r), uri)
  {
    PutRdfCases(server, pod, r);
    var g := PutGraph(server, pod, r.uri, r.graph);
    var written := WithGraph(pod, r.uri, g);
    if r.uri == uri {
      PutLeavesClean(server.pick, r.graph, GraphOf(pod, uri), uri);
    }
    hide CleanContainer, Serve, Attached, PutGraph;
    assert CleanAt(written, uri);
    CleanAttached(server.base, written, r.uri, uri);
  }

  lemma CleanPost(base: string, pod: Pod, container: string, member: string, body: Body, uri: string)
    requires CleanAt(pod, uri) && member != uri && member + Storage.META != uri
    ensures CleanAt(AfterPost(base, pod, container, member, body).0, uri)
  {
    hide CleanContainer, Storage.Reserved;
    if uri in pod.graphs {
      AttachKeepsClean(pod.graphs[uri], uri, Iri(member));
    }
  }

  lemma CleanDelete(base: string, pod: Pod, target: string, uri: string)
    requires CleanAt(pod, uri)
    ensures CleanAt(Ldp.AfterDelete(base, pod, target).0, uri)
  {
    DeleteCases(base, pod, target);
    hide CleanContainer, Detached, Ldp.AfterDelete;
    CleanAttached(base, Without(pod, target), target, uri);
  }

  /** No request makes a container unclean, but a PUT of its own that configures it otherwise. */
  lemma CleanServe(server: Server, pod: Pod, r: Request, uri: string)
    requires Picks(server.pick) && uri != "" && uri[|uri| - 1] == '/'
    requires CleanAt(pod, uri) && PlainBody(pod, r, uri)
    ensures CleanAt(Serve(server, pod, r), uri)
  {
    hide CleanAt, PlainBody, AfterPutRdf, AfterPost, Ldp.AfterDelete, MintMemberUri;
    match r
    case PutRdf(_, _, _, _) => CleanPutRdf(server, pod, r, uri);
    case PutBinary(_, _, _, _) => CleanPutBinary(server, pod, r, uri);
    case Post(container, slug, uuid, body) =>
      MintedIsNoContainer(container, slug, uuid, uri);
      CleanPost(server.base, pod, container, MintMemberUri(container, slug, uuid), body, uri);
    case Delete(target) => CleanDelete(server.base, pod, target, uri);
  }

  lemma CleanPutBinary(server: Server, pod: Pod, r: Request, uri: string)
    requires r.PutBinary? && CleanAt(pod, uri) && uri != "" && uri[|uri| - 1] == '/'
    ensures CleanAt(Serve(server, pod, r), uri)
  {
    PutBinaryCases(server, pod, r);
    hide CleanContainer, Attached, Serve;
    assert (r.uri + Storage.META)[|r.uri + Storage.META| - 1] == 'a';
    CleanAttached(server.base, WithBinary(pod, r.uri, r.stored), r.uri, uri);
  }

  lemma MintedIsNoContainer(container: string, slug: Slug, uuid: Uuid, uri: string)
    requires uri != "" && uri[|uri| - 1] == '/'
    ensures MintMemberUri(container, slug, uuid) != uri && MintMemberUri(container, slug, uuid) + Storage.META != uri
  {
    var segment := MintSegment(slug, uuid);
    SegmentIsPlain(slug, uuid);
    var member := container + segment;
    assert member[|member| - 1] == segment[|segment| - 1] && segment[|segment| - 1] in segment;
    assert (member + Storage.META)[|member + Storage.META| - 1] == 'a';
  }
}
