/**
 Every resource hangs from the pod root by a chain of containment triples.  Each PUT, POST and
 DELETE on a pod keeps it; the delete by its guard, which refuses containers that have members.
 */
module LdpReachability {
  import opened Rdf
  import opened Containers
  import opened Paths
  import opened Ldp
  import opened LdpContainment
  import Storage

  /** The base URI ends in a slash, as the settings normalize it. */
  predicate RootBase(base: string) {
    base != "" && base[|base| - 1] == '/'
  }

  /** Resources that belong in the tree: not the root, not a sidecar, not under a reserved name. */
  predicate InTree(base: string, uri: string) {
    base <= uri && uri != base && !EndsWith(uri, Storage.META) && !Storage.Reserved(base, uri)
  }

  predicate Lists(pod: Pod, parent: string, uri: string) {
    IsStoredContainer(pod, parent) && Triple(Iri(parent), LDP_CONTAINS, Iri(uri)) in pod.graphs[parent]
  }

  ghost predicate TreeInv(base: string, pod: Pod) {
    && (forall uri :: Resource(pod, uri) && InTree(base, uri) ==> Lists(pod, ParentContainerUri(uri, base), uri))
    && NoDualForms(pod)
  }

  /** No URI holds both an RDF and a binary form, and no binary has a sidecar's name. */
  ghost predicate NoDualForms(pod: Pod) {
    && (forall uri :: uri in pod.graphs ==> uri !in pod.binaries)
    && (forall uri :: uri in pod.binaries ==> !EndsWith(uri, Storage.META))
  }

  predicate NamesContainsAsMembership(g: Graph, uri: string) {
    || Triple(Iri(uri), LDP_HAS_MEMBER_RELATION, LDP_CONTAINS) in g
    || Triple(Iri(uri), LDP_IS_MEMBER_OF_RELATION, LDP_CONTAINS) in g
  }

  /** What a client must respect, beyond soundness, for the tree to hold together. */
  predicate RespectsTree(server: Server, pod: Pod, r: Request) {
    && WellFormed(server, r)
    && match r
       case PutRdf(uri, graph, _, _) =>
         && uri !in pod.binaries
         && (uri !in pod.graphs ==> uri == server.base || IsStoredContainer(pod, ParentContainerUri(uri, server.base)))
         && (IsStoredContainer(pod, uri) ==>
               && IsContainer(ManagedBody(server.pick, graph, pod.graphs[uri], uri), uri)
               && !NamesContainsAsMembership(graph, uri))
       case PutBinary(uri, _, _, _) =>
         && uri !in pod.graphs
         && (uri !in pod.binaries ==> IsStoredContainer(pod, ParentContainerUri(uri, server.base)))
       case Post(container, slug, uuid, body) =>
         var member := MintMemberUri(container, slug, uuid);
         && ContainerUri(server.base, container)
         && !Resource(pod, member)
       case Delete(_) => true
  }

  // ------------------------------------------------------------------------- parents

  lemma ParentEndsInSlash(base: string, uri: string)
    requires RootBase(base)
    ensures var parent := ParentContainerUri(uri, base);
            base <= parent && parent[|parent| - 1] == '/'
  {
    ParentIsContainerUri(uri, base);
  }

  lemma SidecarIsNoParent(base: string, uri: string, other: string)
    requires RootBase(base)
    ensures ParentContainerUri(other, base) != uri + Storage.META
  {
    ParentEndsInSlash(base, other);
    assert (uri + Storage.META)[|uri + Storage.META| - 1] == 'a';
  }

  lemma NotSidecarName(uri: string)
    requires uri != "" && uri[|uri| - 1] == '/'
    ensures !EndsWith(uri, Storage.META)
  {
    assert |uri| >= |Storage.META| ==> uri[|uri| - |Storage.META|..][|Storage.META| - 1] == '/';
    assert Storage.META[|Storage.META| - 1] == 'a';
  }

  lemma MembershipVocabulary()
    ensures LDP_CONTAINS != LDP_HAS_MEMBER_RELATION && LDP_CONTAINS != LDP_IS_MEMBER_OF_RELATION
  {
    assert LDP_CONTAINS.iri[|LDP|] == 'c';
    assert LDP_HAS_MEMBER_RELATION.iri[|LDP|] == 'h';
    assert LDP_IS_MEMBER_OF_RELATION.iri[|LDP|] == 'i';
  }

  lemma PickedObject(pick: Choice, g: Graph, s: Term, p: Term)
    requires Picks(pick)
    ensures ValueOf(pick, g, s, p).Value? ==> Triple(s, p, ValueOf(pick, g, s, p).term) in g
  {
    var os := Objects(g, s, p);
    if os != {} {
      assert pick(os) in os;
    }
  }

  /** A managed body keeps every stored containment triple. */
  lemma ManagedBodyKeeps(pick: Choice, body: Graph, stored: Graph, uri: string, t: Triple)
    requires Picks(pick) && !NamesContainsAsMembership(body, uri)
    requires t in ContainsTriples(stored, uri)
    ensures t in ManagedBody(pick, body, stored, uri)
  {
    MembershipVocabulary();
    var g := DropPredicate(body, LDP_CONTAINS) + ContainsTriples(stored, uri);
    PickedObject(pick, g, Iri(uri), LDP_HAS_MEMBER_RELATION);
    PickedObject(pick, g, Iri(uri), LDP_IS_MEMBER_OF_RELATION);
  }

  // --------------------------------------------------------------------------- steps

  /** Growing a listed container's graph, or adding a resource nothing else depends on. */
  lemma ListsKept(base: string, pod: Pod, pod': Pod, uri: string)
    requires TreeInv(base, pod)
    requires forall v :: Resource(pod', v) && InTree(base, v) ==> Resource(pod, v) || v == uri
    requires forall p, v :: Lists(pod, p, v) && Resource(pod', v) ==> Lists(pod', p, v)
    requires Resource(pod', uri) && InTree(base, uri) ==> Lists(pod', ParentContainerUri(uri, base), uri)
    requires NoDualForms(pod')
    ensures TreeInv(base, pod')
  {
    forall v | Resource(pod', v) && InTree(base, v) ensures Lists(pod', ParentContainerUri(v, base), v) {
      if v != uri {
        assert Lists(pod, ParentContainerUri(v, base), v);
      }
    }
  }

  lemma TreeAttached(base: string, pod: Pod, written: Pod, uri: string)
    requires TreeInv(base, pod) && base <= uri && uri != base && !Storage.Reserved(base, uri)
    requires forall v :: Resource(written, v) && InTree(base, v) ==> Resource(pod, v) || v == uri
    requires forall p, v :: Lists(pod, p, v) ==> Lists(written, p, v)
    requires NoDualForms(written)
    requires IsStoredContainer(written, ParentContainerUri(uri, base))
    ensures TreeInv(base, Attached(base, written, uri).0)
  {
    ParentIsShorter(uri, base);
    PublicParent(base, uri);
    var pod' := Attached(base, written, uri).0;
    var parent := ParentContainerUri(uri, base);
    forall p, v | Lists(pod, p, v) && Resource(pod', v) ensures Lists(pod', p, v) {
      assert Lists(written, p, v);
    }
    ListsKept(base, pod, pod', uri);
  }

  lemma PutGraphKeepsLists(server: Server, pod: Pod, uri: string, body: Graph)
    requires Picks(server.pick)
    requires IsStoredContainer(pod, uri) ==>
               && IsContainer(ManagedBody(server.pick, body, pod.graphs[uri], uri), uri)
               && !NamesContainsAsMembership(body, uri)
    ensures var written := WithGraph(pod, uri, PutGraph(server, pod, uri, body));
            forall p, v :: Lists(pod, p, v) ==> Lists(written, p, v)
  {
    var written := WithGraph(pod, uri, PutGraph(server, pod, uri, body));
    forall p, v | Lists(pod, p, v) ensures Lists(written, p, v) {
      if p == uri {
        ManagedBodyKeeps(server.pick, body, pod.graphs[uri], uri, Triple(Iri(uri), LDP_CONTAINS, Iri(v)));
      }
    }
  }

  /** A new graph takes nothing from the lists. */
  lemma NewGraphKeeps(base: string, pod: Pod, written: Pod, uri: string, g: Graph)
    requires TreeInv(base, pod) && uri !in pod.binaries && uri !in pod.graphs && written == WithGraph(pod, uri, g)
    ensures forall p, v :: Lists(pod, p, v) ==> Lists(written, p, v)
    ensures forall v :: Resource(written, v) && InTree(base, v) ==> Resource(pod, v) || v == uri
    ensures NoDualForms(written)
  {
  }

  lemma TreeCreateRdf(base: string, pod: Pod, written: Pod, uri: string, g: Graph)
    requires RootBase(base) && TreeInv(base, pod) && base <= uri && !Storage.Reserved(base, uri)
    requires uri !in pod.binaries && uri !in pod.graphs && written == WithGraph(pod, uri, g)
    requires uri == base || IsStoredContainer(pod, ParentContainerUri(uri, base))
    ensures TreeInv(base, Attached(base, written, uri).0)
  {
    NewGraphKeeps(base, pod, written, uri, g);
    if uri == base {
      RootIsItsOwnParent(base);
      assert !InTree(base, uri);
      hide TreeInv, Lists, NoDualForms, InTree, Resource, WithGraph, IsStoredContainer, ParentContainerUri;
      assert Attached(base, written, uri).0 == written;
      ListsKept(base, pod, written, uri);
    } else {
      ParentIsShorter(uri, base);
      assert IsStoredContainer(written, ParentContainerUri(uri, base));
      hide TreeInv, Lists, NoDualForms, InTree, Resource, WithGraph, IsStoredContainer, ParentContainerUri;
      TreeAttached(base, pod, written, uri);
    }
  }

  lemma TreePutRdf(server: Server, pod: Pod, r: Request)
    requires RootBase(server.base) && Picks(server.pick) && r.PutRdf?
    requires TreeInv(server.base, pod) && RespectsTree(server, pod, r)
    ensures TreeInv(server.base, Serve(server, pod, r))
  {
    var written := WithGraph(pod, r.uri, PutGraph(server, pod, r.uri, r.graph));
    PutRdfCases(server, pod, r);
    PutGraphKeepsLists(server, pod, r.uri, r.graph);
    var pod' := Serve(server, pod, r);
    if pod' == pod {
    } else if r.uri in pod.graphs {
      ListsKept(server.base, pod, written, r.uri);
    } else {
      TreeCreateRdf(server.base, pod, written, r.uri, PutGraph(server, pod, r.uri, r.graph));
    }
  }

  lemma ListsWithBinary(base: string, pod: Pod, uri: string, b: Stored, p: string, v: string)
    requires ContainmentSound(base, pod) && RootBase(base) && Lists(pod, p, v)
    ensures Lists(WithBinary(pod, uri, b), p, v)
  {
    assert SoundTriple(base, pod, p, Triple(Iri(p), LDP_CONTAINS, Iri(v)));
    SidecarIsNoParent(base, uri, v);
  }

  lemma SidecarNotInTree(base: string, uri: string)
    ensures !InTree(base, uri + Storage.META)
  {
    assert (uri + Storage.META)[|uri|..] == Storage.META;
  }

  lemma PutBinaryCases(server: Server, pod: Pod, r: Request)
    requires r.PutBinary?
    ensures var pod' := Serve(server, pod, r);
            var written := WithBinary(pod, r.uri, r.stored);
            || pod' == pod
            || (!Storage.Reserved(server.base, r.uri) && r.uri in pod.binaries && pod' == written)
            || (!Storage.Reserved(server.base, r.uri) && r.uri !in pod.binaries
                && pod' == Attached(server.base, written, r.uri).0)
  {
  }

  lemma WithBinaryNoDual(pod: Pod, uri: string, b: Stored)
    requires NoDualForms(pod) && uri !in pod.graphs && !EndsWith(uri, Storage.META)
    ensures NoDualForms(WithBinary(pod, uri, b))
  {
    NotOwnSidecar(uri, uri);
    assert EndsWith(uri + Storage.META, Storage.META) by {
      assert (uri + Storage.META)[|uri|..] == Storage.META;
    }
  }

  lemma TreePutBinary(server: Server, pod: Pod, r: Request)
    requires RootBase(server.base) && r.PutBinary? && !EndsWith(r.uri, Storage.META)
    requires ContainmentSound(server.base, pod) && TreeInv(server.base, pod) && RespectsTree(server, pod, r)
    ensures TreeInv(server.base, Serve(server, pod, r))
  {
    var base, uri := server.base, r.uri;
    var written := WithBinary(pod, uri, r.stored);
    SidecarNotInTree(base, uri);
    WithBinaryNoDual(pod, uri, r.stored);
    forall p, v | Lists(pod, p, v) ensures Lists(written, p, v) {
      ListsWithBinary(base, pod, uri, r.stored, p, v);
    }
    PutBinaryCases(server, pod, r);
    if Serve(server, pod, r) == pod {
    } else if uri in pod.binaries {
      ListsKept(base, pod, written, uri);
    } else {
      RootIsItsOwnParent(base);
      ParentIsShorter(uri, base);
      SidecarIsNoParent(base, uri, uri);
      TreeAttached(base, pod, written, uri);
    }
  }

  function Written(pod: Pod, member: string, body: Body): Pod {
    match body
    case RdfBody(graph) => WithGraph(pod, member, graph)
    case BinaryBody(stored) => WithBinary(pod, member, stored)
  }

  lemma PostCases(base: string, pod: Pod, container: string, member: string, body: Body)
    requires ParentContainerUri(member, base) == container && base <= member && member != container
    requires container != member + Storage.META
    ensures var pod' := AfterPost(base, pod, container, member, body).0;
            || pod' == pod
            || (!Storage.Reserved(base, member) && IsStoredContainer(pod, container)
                && pod' == Attached(base, Written(pod, member, body), member).0)
  {
    hide ParentContainerUri, Storage.Reserved, IsContainer, Storage.Description;
    if !Storage.Reserved(base, member) {
      PublicParent(base, member);
    }
  }

  lemma TreePost(server: Server, pod: Pod, container: string, member: string, body: Body)
    requires RootBase(server.base) && ContainmentSound(server.base, pod) && TreeInv(server.base, pod)
    requires ParentContainerUri(member, server.base) == container && server.base <= member && member != server.base
    requires !Resource(pod, member) && !EndsWith(member, Storage.META)
    ensures TreeInv(server.base, AfterPost(server.base, pod, container, member, body).0)
  {
    hide AfterPost, Attached, ParentContainerUri, Storage.Reserved;
    var base, written := server.base, Written(pod, member, body);
    ParentIsShorter(member, base);
    SidecarNotInTree(base, member);
    SidecarIsNoParent(base, member, member);
    PostCases(base, pod, container, member, body);
    if AfterPost(base, pod, container, member, body).0 != pod {
      if body.BinaryBody? {
        WithBinaryNoDual(pod, member, body.stored);
      }
      forall p, v | Lists(pod, p, v) ensures Lists(written, p, v) {
        if body.BinaryBody? {
          ListsWithBinary(base, pod, member, body.stored, p, v);
        }
      }
      TreeAttached(base, pod, written, member);
    }
  }

  lemma DeleteCases(base: string, pod: Pod, uri: string)
    ensures var pod' := AfterDelete(base, pod, uri).0;
            || pod' == pod
            || (pod' == Detached(base, Without(pod, uri), uri).0
                && (IsStoredContainer(pod, uri) ==> ContainsTriples(pod.graphs[uri], uri) == {}))
  {
    hide ParentContainerUri, Detached, Storage.Reserved, Without;
  }

  /** The guard: what can be deleted has no children. */
  lemma DeletableHasNoChildren(pod: Pod, uri: string, v: string)
    requires IsStoredContainer(pod, uri) ==> ContainsTriples(pod.graphs[uri], uri) == {}
    ensures !Lists(pod, uri, v)
  {
    if IsStoredContainer(pod, uri) {
      assert Triple(Iri(uri), LDP_CONTAINS, Iri(v)) !in ContainsTriples(pod.graphs[uri], uri);
    }
  }

  lemma WithoutKeepsLists(base: string, pod: Pod, uri: string, p: string, v: string)
    requires Lists(pod, p, v) && p != uri && p != uri + Storage.META
    ensures Lists(Without(pod, uri), p, v)
  {
  }

  lemma DetachKeepsOthers(base: string, pod: Pod, uri: string, parent: string, v: string)
    requires Lists(pod, parent, v) && v != uri
    ensures Lists(Detached(base, pod, uri).0, parent, v)
  {
    VocabularyDistinct();
  }

  lemma DetachedKeys(base: string, pod: Pod, uri: string)
    ensures Detached(base, pod, uri).0.graphs.Keys == pod.graphs.Keys
    ensures Detached(base, pod, uri).0.binaries == pod.binaries
  {
  }

  lemma DetachedResources(base: string, pod: Pod, uri: string, v: string)
    requires Resource(Detached(base, Without(pod, uri), uri).0, v) && NoDualForms(pod)
    ensures Resource(pod, v) && v != uri
  {
    var parent := ParentContainerUri(uri, base);
    assert Detached(base, Without(pod, uri), uri).0.graphs.Keys == Without(pod, uri).graphs.Keys;
  }

  lemma TreeDelete(base: string, pod: Pod, uri: string)
    requires RootBase(base) && base <= uri && TreeInv(base, pod)
    ensures TreeInv(base, AfterDelete(base, pod, uri).0)
  {
    hide AfterDelete, Detached, ParentContainerUri;
    var pod' := AfterDelete(base, pod, uri).0;
    DeleteCases(base, pod, uri);
    if pod' != pod {
      DetachedKeys(base, Without(pod, uri), uri);
      assert pod'.graphs.Keys <= pod.graphs.Keys && pod'.binaries.Keys <= pod.binaries.Keys;
      forall v | Resource(pod', v) && InTree(base, v) ensures Lists(pod', ParentContainerUri(v, base), v) {
        var parent := ParentContainerUri(v, base);
        DetachedResources(base, pod, uri, v);
        DeletableHasNoChildren(pod, uri, v);
        SidecarIsNoParent(base, uri, v);
        assert Lists(pod, parent, v);
        WithoutKeepsLists(base, pod, uri, parent, v);
        DetachKeepsOthers(base, Without(pod, uri), uri, parent, v);
      }
    }
  }

  lemma TreeServe(server: Server, pod: Pod, r: Request)
    requires RootBase(server.base) && Picks(server.pick)
    requires ContainmentSound(server.base, pod) && TreeInv(server.base, pod)
    requires RespectsContainment(server, pod, r) && RespectsTree(server, pod, r)
    ensures TreeInv(server.base, Serve(server, pod, r))
  {
    match r
    case PutRdf(_, _, _, _) => TreePutRdf(server, pod, r);
    case PutBinary(_, _, _, _) => TreePutBinary(server, pod, r);
    case Post(container, slug, uuid, body) =>
      MintedInContainer(server.base, container, slug, uuid);
      TreePost(server, pod, container, MintMemberUri(container, slug, uuid), body);
    case Delete(uri) => TreeDelete(server.base, pod, uri);
  }

  // -------------------------------------------------------------------------- chains

  /** URIs from the root to uri, each listed by the one before it. */
  ghost predicate Chain(base: string, pod: Pod, chain: seq<string>, uri: string) {
    && chain != [] && chain[0] == base && chain[|chain| - 1] == uri
    && forall k :: 0 < k < |chain| ==> Lists(pod, chain[k - 1], chain[k])
  }

  lemma ParentInTree(base: string, uri: string)
    requires RootBase(base) && InTree(base, uri)
    ensures var parent := ParentContainerUri(uri, base);
            |parent| < |uri| && (parent == base || InTree(base, parent))
  {
    hide ParentContainerUri, Storage.Reserved, EndsWith;
    ParentIsShorter(uri, base);
    PublicParent(base, uri);
    ParentEndsInSlash(base, uri);
    NotSidecarName(ParentContainerUri(uri, base));
  }

  lemma ExtendChain(base: string, pod: Pod, chain: seq<string>, parent: string, uri: string)
    requires Chain(base, pod, chain, parent) && Lists(pod, parent, uri)
    ensures Chain(base, pod, chain + [uri], uri)
  {
  }

  lemma {:induction false} ChainToRoot(base: string, pod: Pod, uri: string)
    requires TreeInv(base, pod) && RootBase(base)
    requires Resource(pod, uri) && (uri == base || InTree(base, uri))
    ensures exists chain :: Chain(base, pod, chain, uri)
    decreases |uri|
  {
    if uri == base {
      assert Chain(base, pod, [base], base);
    } else {
      var parent := ParentContainerUri(uri, base);
      assert Lists(pod, parent, uri);
      ParentInTree(base, uri);
      ChainToRoot(base, pod, parent);
      var chain :| Chain(base, pod, chain, parent);
      ExtendChain(base, pod, chain, parent, uri);
    }
  }

  function RootGraph(base: string): Graph {
    {Triple(Iri(base), RDF_TYPE, LDP_RESOURCE), Triple(Iri(base), RDF_TYPE, LDP_RDF_SOURCE),
     Triple(Iri(base), RDF_TYPE, LDP_BASIC_CONTAINER)}
  }

  /** The seeded pod, an empty Basic Container at the root, is a state to start from. */
  lemma SeededPod(base: string)
    ensures ContainmentSound(base, Pod(map[base := RootGraph(base)], map[]))
    ensures TreeInv(base, Pod(map[base := RootGraph(base)], map[]))
  {
    VocabularyDistinct();
    var pod := Pod(map[base := RootGraph(base)], map[]);
    assert CarriesNoContainment(RootGraph(base));
    forall uri | Resource(pod, uri) ensures uri == base {
    }
  }
}
