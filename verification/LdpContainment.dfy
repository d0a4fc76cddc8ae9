/**
 Soundness of containment: every stored containment triple is about the resource it is stored
 with and names an existing child of it.  Each PUT, POST and DELETE on a pod keeps it.
 */
module LdpContainment {
  import opened Rdf
  import opened Containers
  import opened Preconditions
  import opened Paths
  import opened Ldp
  import Storage

  predicate WellFormed(server: Server, r: Request) {
    match r
    case PutRdf(uri, _, _, _) => server.base <= uri
    case PutBinary(uri, _, _, _) => server.base <= uri
    case Post(container, _, _, _) => server.base <= container
    case Delete(uri) => server.base <= uri
  }

  // ----------------------------------------------------------------------- soundness

  predicate Resource(pod: Pod, uri: string) {
    uri in pod.graphs || uri in pod.binaries
  }

  /** The triple says that uri contains an existing child of it, which is no sidecar. */
  predicate SoundTriple(base: string, pod: Pod, uri: string, t: Triple) {
    && t.s == Iri(uri) && t.o.Iri?
    && Resource(pod, t.o.iri)
    && ParentContainerUri(t.o.iri, base) == uri
    && !EndsWith(t.o.iri, Storage.META)
  }

  ghost predicate ContainmentSound(base: string, pod: Pod) {
    forall uri, t :: uri in pod.graphs && t in pod.graphs[uri] && t.p == LDP_CONTAINS ==>
      SoundTriple(base, pod, uri, t)
  }

  predicate CarriesNoContainment(g: Graph) {
    forall t :: t in g ==> t.p != LDP_CONTAINS
  }

  /** What a client must respect for the soundness of containment. */
  predicate RespectsContainment(server: Server, pod: Pod, r: Request) {
    && WellFormed(server, r)
    && match r
       case PutRdf(uri, graph, _, _) =>
         && !EndsWith(uri, Storage.META)
         && (IsStoredContainer(pod, uri) || IsContainer(graph, uri) || CarriesNoContainment(graph))
       case PutBinary(uri, _, _, _) => !EndsWith(uri, Storage.META)
       case Post(container, _, _, body) =>
         ContainerUri(server.base, container) && (body.RdfBody? ==> CarriesNoContainment(body.graph))
       case Delete(_) => true
  }

  lemma VocabularyDistinct()
    ensures LDP_CONTAINS != RDF_TYPE && LDP_CONTAINS != Storage.DC_FORMAT
    ensures LDP_CONTAINS != LDP_MEMBERSHIP_RESOURCE
  {
    assert LDP_CONTAINS.iri[|LDP|] == 'c';
    assert LDP_MEMBERSHIP_RESOURCE.iri[|LDP|] == 'm';
    assert LDP_CONTAINS.iri[18] == 'n' && RDF_TYPE.iri[18] == '1';
    assert LDP_CONTAINS.iri[7] == 'w' && Storage.DC_FORMAT.iri[7] == 'p';
  }

  lemma DescriptionHasNoContainment(uri: string, contentType: string)
    ensures CarriesNoContainment(Storage.Description(uri, contentType))
  {
    VocabularyDistinct();
  }

  /** A managed body's containment is the stored one. */
  lemma ManagedBodyContainment(pick: Choice, body: Graph, stored: Graph, uri: string, t: Triple)
    requires t in ManagedBody(pick, body, stored, uri) && t.p == LDP_CONTAINS
    ensures t in ContainsTriples(stored, uri)
  {
  }

  /** Storing a graph whose containment triples are sound where it is stored. */
  lemma SoundWithGraph(base: string, pod: Pod, uri: string, g: Graph)
    requires ContainmentSound(base, pod)
    requires forall t :: t in g && t.p == LDP_CONTAINS ==> SoundTriple(base, WithGraph(pod, uri, g), uri, t)
    ensures ContainmentSound(base, WithGraph(pod, uri, g))
  {
    var pod' := WithGraph(pod, uri, g);
    forall v, t | v in pod'.graphs && t in pod'.graphs[v] && t.p == LDP_CONTAINS
      ensures SoundTriple(base, pod', v, t)
    {
      if v != uri {
        assert SoundTriple(base, pod, v, t);
      }
    }
  }

  lemma SoundWithBinary(base: string, pod: Pod, uri: string, b: Stored)
    requires ContainmentSound(base, pod)
    ensures ContainmentSound(base, WithBinary(pod, uri, b))
  {
    var pod' := WithBinary(pod, uri, b);
    DescriptionHasNoContainment(uri, b.contentType);
    forall v, t | v in pod'.graphs && t in pod'.graphs[v] && t.p == LDP_CONTAINS
      ensures SoundTriple(base, pod', v, t)
    {
      assert v != uri + Storage.META;
      assert SoundTriple(base, pod, v, t);
    }
  }

  lemma SoundAttached(base: string, pod: Pod, member: string)
    requires ContainmentSound(base, pod) && Resource(pod, member) && !EndsWith(member, Storage.META)
    ensures ContainmentSound(base, Attached(base, pod, member).0)
  {
    var parent := ParentContainerUri(member, base);
    var t := Triple(Iri(parent), LDP_CONTAINS, Iri(member));
    if parent != member && IsStoredContainer(pod, parent) && !Storage.Reserved(base, parent) {
      var g := pod.graphs[parent] + {t};
      forall u | u in g && u.p == LDP_CONTAINS
        ensures SoundTriple(base, WithGraph(pod, parent, g), parent, u)
      {
        if u != t {
          assert SoundTriple(base, pod, parent, u);
        }
      }
      SoundWithGraph(base, pod, parent, g);
    }
  }

  /** The graph a PUT stores. */
  function PutGraph(server: Server, pod: Pod, uri: string, body: Graph): Graph {
    if IsStoredContainer(pod, uri) || IsContainer(body, uri)
    then ManagedBody(server.pick, body, GraphOf(pod, uri), uri)
    else body
  }

  lemma PutRdfCases(server: Server, pod: Pod, r: Request)
    requires r.PutRdf?
    ensures var pod' := Serve(server, pod, r);
            var written := WithGraph(pod, r.uri, PutGraph(server, pod, r.uri, r.graph));
            || pod' == pod
            || (!Storage.Reserved(server.base, r.uri) && r.uri in pod.graphs && pod' == written)
            || (!Storage.Reserved(server.base, r.uri) && r.uri !in pod.graphs
                && pod' == Attached(server.base, written, r.uri).0)
  {
  }

  lemma SoundLater(base: string, pod: Pod, uri: string, g: Graph, t: Triple)
    requires SoundTriple(base, pod, uri, t)
    ensures SoundTriple(base, WithGraph(pod, uri, g), uri, t)
  {
  }

  /** What a PUT stores claims no containment but the stored one. */
  lemma PutGraphSound(server: Server, pod: Pod, r: Request, t: Triple)
    requires ContainmentSound(server.base, pod) && r.PutRdf? && RespectsContainment(server, pod, r)
    requires t in PutGraph(server, pod, r.uri, r.graph) && t.p == LDP_CONTAINS
    ensures SoundTriple(server.base, pod, r.uri, t)
  {
    hide ManagedBody, IsContainer;
    ManagedBodyContainment(server.pick, r.graph, GraphOf(pod, r.uri), r.uri, t);
  }

  lemma SoundPutRdf(server: Server, pod: Pod, r: Request)
    requires ContainmentSound(server.base, pod) && r.PutRdf? && RespectsContainment(server, pod, r)
    ensures ContainmentSound(server.base, Serve(server, pod, r))
  {
    PutRdfCases(server, pod, r);
    var g := PutGraph(server, pod, r.uri, r.graph);
    assert Resource(WithGraph(pod, r.uri, g), r.uri) && !EndsWith(r.uri, Storage.META);
    hide ContainmentSound, SoundTriple, PutGraph, Attached, WithGraph, RespectsContainment, Serve, Resource;
    forall t | t in g && t.p == LDP_CONTAINS ensures SoundTriple(server.base, WithGraph(pod, r.uri, g), r.uri, t) {
      PutGraphSound(server, pod, r, t);
      SoundLater(server.base, pod, r.uri, g, t);
    }
    SoundWithGraph(server.base, pod, r.uri, g);
    SoundAttached(server.base, WithGraph(pod, r.uri, g), r.uri);
  }

  lemma SoundPost(server: Server, pod: Pod, container: string, member: string, body: Body)
    requires ContainmentSound(server.base, pod)
    requires ParentContainerUri(member, server.base) == container && !EndsWith(member, Storage.META) && member != container
    requires body.RdfBody? ==> CarriesNoContainment(body.graph)
    ensures ContainmentSound(server.base, AfterPost(server.base, pod, container, member, body).0)
  {
    hide ParentContainerUri;
    if container in pod.graphs {
      var written := match body
        case RdfBody(graph) => WithGraph(pod, member, graph)
        case BinaryBody(stored) => WithBinary(pod, member, stored);
      match body {
        case RdfBody(graph) => SoundWithGraph(server.base, pod, member, graph);
        case BinaryBody(stored) => SoundWithBinary(server.base, pod, member, stored);
      }
      var t := Triple(Iri(container), LDP_CONTAINS, Iri(member));
      var g := pod.graphs[container] + {t};
      forall u | u in g && u.p == LDP_CONTAINS
        ensures SoundTriple(server.base, WithGraph(written, container, g), container, u)
      {
        if u != t {
          assert SoundTriple(server.base, pod, container, u);
        }
      }
      SoundWithGraph(server.base, written, container, g);
    }
  }

  lemma FirstSegment(p: string)
    ensures Split(p)[0] == p[..FirstSlash(p)]
  {
  }

  lemma FirstSlashUnique(p: string, i: nat)
    requires i < |p| && p[i] == '/' && forall k :: 0 <= k < i ==> p[k] != '/'
    ensures FirstSlash(p) == i
  {
  }

  lemma EmptySegment()
    ensures Split("")[0] !in Storage.RESERVED
  {
  }

  /** The parent of a resource under a public name is under a public name. */
  lemma PublicParent(base: string, uri: string)
    requires base <= uri && !Storage.Reserved(base, uri)
    ensures !Storage.Reserved(base, ParentContainerUri(uri, base))
  {
    var rel := uri[|base|..];
    var stripped := RStripSlashes(rel);
    var i := AfterLastSlash(stripped);
    var parent := base + stripped[..i];
    assert RemovePrefix(uri, base) == rel && RemovePrefix(parent, base) == stripped[..i];
    assert stripped[..i] <= rel;
    SameFirstSegment(stripped[..i], rel);
  }

  /** A prefix that is empty or ends in a slash starts with the same segment. */
  lemma SameFirstSegment(p: string, rel: string)
    requires p <= rel && (p != "" ==> p[|p| - 1] == '/')
    ensures Split(p)[0] == Split(rel)[0] || Split(p)[0] !in Storage.RESERVED
  {
    EmptySegment();
    if p != "" {
      var k := FirstSlash(p);
      FirstSegment(rel);
      FirstSegment(p);
      hide Split;
      assert k < |p|;
      assert rel[k] == p[k];
      FirstSlashUnique(rel, k);
      assert p[..k] == rel[..k];
    }
  }

  lemma NotOwnSidecar(uri: string, other: string)
    requires !EndsWith(other, Storage.META)
    ensures other != uri + Storage.META
  {
    assert EndsWith(uri + Storage.META, Storage.META) by {
      assert (uri + Storage.META)[|uri|..] == Storage.META;
    }
  }

  /** After the delete no containment triple names what was deleted. */
  lemma DeletedIsDetached(base: string, pod: Pod, uri: string, v: string, t: Triple)
    requires ContainmentSound(base, pod) && base <= uri
    requires AfterDelete(base, pod, uri).1.NoContent204? || AfterDelete(base, pod, uri).0 != pod
    requires var pod' := AfterDelete(base, pod, uri).0;
             v in pod'.graphs && t in pod'.graphs[v] && t.p == LDP_CONTAINS && t.o == Iri(uri)
    ensures false
  {
    var parent := ParentContainerUri(uri, base);
    assert SoundTriple(base, pod, v, t);
    PublicParent(base, uri);
  }

  lemma SoundDelete(base: string, pod: Pod, uri: string)
    requires ContainmentSound(base, pod) && base <= uri
    ensures ContainmentSound(base, AfterDelete(base, pod, uri).0)
  {
    hide ParentContainerUri;
    var pod' := AfterDelete(base, pod, uri).0;
    if pod' != pod {
      forall v, t | v in pod'.graphs && t in pod'.graphs[v] && t.p == LDP_CONTAINS
        ensures SoundTriple(base, pod', v, t)
      {
        assert SoundTriple(base, pod, v, t);
        if t.o == Iri(uri) {
          DeletedIsDetached(base, pod, uri, v, t);
        }
        NotOwnSidecar(uri, t.o.iri);
      }
    }
  }

  lemma SoundServe(server: Server, pod: Pod, r: Request)
    requires ContainmentSound(server.base, pod) && RespectsContainment(server, pod, r)
    ensures ContainmentSound(server.base, Serve(server, pod, r))
  {
    match r
    case PutRdf(_, _, _, _) => SoundPutRdf(server, pod, r);
    case PutBinary(uri, stored, ifMatch, any) =>
      SoundWithBinary(server.base, pod, uri, stored);
      SoundAttached(server.base, WithBinary(pod, uri, stored), uri);
    case Post(container, slug, uuid, body) =>
      MintedInContainer(server.base, container, slug, uuid);
      SegmentIsPlain(slug, uuid);
      SoundPost(server, pod, container, MintMemberUri(container, slug, uuid), body);
    case Delete(uri) => SoundDelete(server.base, pod, uri);
  }
}
