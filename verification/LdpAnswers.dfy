/**
 The answers to PUT, POST and DELETE and what each of them stores, said over the triples
 themselves: when a container's PUT clashes with the containment the server manages, what becomes
 of a container's body, which parent lists what is created, and which names are refused.
 */
module LdpAnswers {
  import opened Options
  import opened Rdf
  import opened Containers
  import opened Preconditions
  import opened Paths
  import opened Ldp
  import Disk = LdpOnDisk
  import Storage

  // ------------------------------------------------------------------ what a graph says

  const TYPE := Iri("http://www.w3.org/1999/02/22-rdf-syntax-ns#type")
  const CONTAINS := Iri("http://www.w3.org/ns/ldp#" + "contains")

  ghost predicate SaysContainer(g: Graph, uri: string) {
    || Triple(Iri(uri), TYPE, Iri("http://www.w3.org/ns/ldp#" + "BasicContainer")) in g
    || Triple(Iri(uri), TYPE, Iri("http://www.w3.org/ns/ldp#" + "DirectContainer")) in g
  }

  lemma SaysContainerIff(g: Graph, uri: string)
    ensures IsContainer(g, uri) <==> SaysContainer(g, uri)
  {
  }

  /** What the graph lists as the members of uri. */
  function Listed(g: Graph, uri: string): set<Term> {
    Objects(g, Iri(uri), CONTAINS)
  }

  /** The body lists members, and not those that are stored. */
  ghost predicate Clashes(body: Graph, stored: Graph, uri: string) {
    Listed(body, uri) != {} && Listed(body, uri) != Listed(stored, uri)
  }

  lemma ListedIs(g: Graph, uri: string)
    ensures ContainsTriples(g, uri) == set m | m in Listed(g, uri) :: Triple(Iri(uri), CONTAINS, m)
    ensures Listed(g, uri) == set t | t in ContainsTriples(g, uri) :: t.o
  {
    forall t | t in ContainsTriples(g, uri) ensures t.o in Listed(g, uri) && t == Triple(Iri(uri), CONTAINS, t.o) {
    }
    forall m | m in Listed(g, uri) ensures Triple(Iri(uri), CONTAINS, m) in ContainsTriples(g, uri) {
    }
    var listed := set m | m in Listed(g, uri) :: Triple(Iri(uri), CONTAINS, m);
    forall t ensures t in ContainsTriples(g, uri) <==> t in listed {
    }
    var os := set t | t in ContainsTriples(g, uri) :: t.o;
    forall m ensures m in Listed(g, uri) <==> m in os {
      if m in Listed(g, uri) {
        assert Triple(Iri(uri), CONTAINS, m).o in os;
      }
    }
  }

  lemma ClashesIff(body: Graph, stored: Graph, uri: string)
    ensures AltersContainment(body, stored, uri) <==> Clashes(body, stored, uri)
  {
    ListedIs(body, uri);
    ListedIs(stored, uri);
    hide ContainsTriples, Listed;
    if Listed(body, uri) != {} {
      var m :| m in Listed(body, uri);
      assert Triple(Iri(uri), CONTAINS, m) in ContainsTriples(body, uri);
    }
    if ContainsTriples(body, uri) != {} {
      var t :| t in ContainsTriples(body, uri);
      assert t.o in Listed(body, uri);
    }
  }

  /** t states the membership that the container configures, with one value picked of each kind. */
  ghost predicate StatesMembership(pick: Choice, g: Graph, uri: string, t: Triple) {
    var resources := Objects(g, Iri(uri), Iri("http://www.w3.org/ns/ldp#" + "membershipResource"));
    var hasMember := Objects(g, Iri(uri), Iri("http://www.w3.org/ns/ldp#" + "hasMemberRelation"));
    var isMemberOf := Objects(g, Iri(uri), Iri("http://www.w3.org/ns/ldp#" + "isMemberOfRelation"));
    && resources != {}
    && (|| (hasMember != {} && t.s == pick(resources) && t.p == pick(hasMember))
        || (isMemberOf != {} && t.p == pick(isMemberOf) && t.o == pick(resources)))
  }

  /** What a PUT stores: of a container the server's containment, not the client's, and no membership. */
  ghost predicate StoredAs(pick: Choice, body: Graph, before: Graph, uri: string, g: Graph) {
    if SaysContainer(before, uri) || SaysContainer(body, uri) then
      var managed := set t | t in body + before && if t.p == CONTAINS then t in before && t.s == Iri(uri) else t in body;
      forall t :: t in g <==> t in managed && !StatesMembership(pick, managed, uri, t)
    else g == body
  }

  lemma ManagedIs(pick: Choice, body: Graph, before: Graph, uri: string)
    requires SaysContainer(before, uri) || SaysContainer(body, uri)
    ensures StoredAs(pick, body, before, uri, ManagedBody(pick, body, before, uri))
  {
    var managed := set t | t in body + before && if t.p == CONTAINS then t in before && t.s == Iri(uri) else t in body;
    assert managed == DropPredicate(body, LDP_CONTAINS) + ContainsTriples(before, uri);
    var g := DropMembership(pick, managed, uri);
    forall t ensures t in g <==> t in managed && !StatesMembership(pick, managed, uri, t) {
    }
  }

  // --------------------------------------------------------------------- reserved names

  /** The names kept for the server itself, and everything below them. */
  lemma ReservedIff(base: string, rel: string)
    ensures Storage.Reserved(base, base + rel) <==>
            exists name :: && name in {".system", ".engine", "sparql", "health"}
                           && (rel == name || name + "/" <= rel)
  {
    assert (base + rel)[|base|..] == rel;
    var first := Split(rel)[0];
    FirstSegment(rel);
    forall name | name in {".system", ".engine", "sparql", "health"}
      ensures first == name <==> rel == name || name + "/" <= rel
    {
      assert '/' !in name;
      if name + "/" <= rel {
        assert rel[|name|] == '/';
        FirstSegmentIs(rel, name);
      } else if rel == name {
        FirstSegmentIs(rel, name);
      }
    }
  }

  lemma FirstSegment(rel: string)
    ensures '/' !in Split(rel)[0]
    ensures rel == Split(rel)[0] || Split(rel)[0] + "/" <= rel
  {
  }

  lemma FirstSegmentIs(rel: string, name: string)
    requires '/' !in name && (rel == name || name + "/" <= rel)
    ensures Split(rel)[0] == name
  {
    if rel == name {
      FirstSlashOf(name, "");
    } else {
      FirstSlashOf(name, rel[|name| + 1..]);
      assert rel == name + "/" + rel[|name| + 1..];
      assert rel[..|name|] == name;
    }
  }

  // ---------------------------------------------------------------------------- parents

  /** What is stored at member is listed by its parent, when that is a stored container. */
  ghost predicate Lists(base: string, before: Pod, member: string, after: Pod, status: Status) {
    var parent := ParentContainerUri(member, base);
    if parent == member || parent !in before.graphs || !SaysContainer(before.graphs[parent], parent) then
      after == before && status == Created201
    else if Storage.Reserved(base, parent) then
      after == before && status == Forbidden403
    else
      && after == before.(graphs := before.graphs[parent := before.graphs[parent] + {Triple(Iri(parent), CONTAINS, Iri(member))}])
      && status == Created201
  }

  lemma AttachedLists(base: string, pod: Pod, member: string)
    ensures var (after, ok) := Attached(base, pod, member);
            Lists(base, pod, member, after, if ok then Created201 else Forbidden403)
  {
    hide ParentContainerUri, Storage.Reserved;
  }

  // ------------------------------------------------------------------------------ PUT

  /** The PUT of a graph: what is refused and why, and what is stored. */
  lemma PutRdfAnswer(
      base: string, pick: Choice, tagOf: Graph -> string, pod: Pod,
      uri: string, body: Graph, ifMatch: IfMatch<string>, ifNoneMatchAny: bool)
    ensures var (after, status) := AfterPutRdf(base, pick, tagOf, pod, uri, body, ifMatch, ifNoneMatchAny);
            if uri in pod.graphs then
              var stored := pod.graphs[uri];
              if ifMatch.NoIfMatch? && !ifNoneMatchAny then after == pod && status.Required428?
              else if ifNoneMatchAny || (ifMatch.Tag? && ifMatch.etag != tagOf(stored)) then after == pod && status.Failed412?
              else if SaysContainer(stored, uri) && Clashes(body, stored, uri) then after == pod && status.Conflict409?
              else if Storage.Reserved(base, uri) then after == pod && status.Forbidden403?
              else exists g :: StoredAs(pick, body, stored, uri, g) && after == pod.(graphs := pod.graphs[uri := g])
                               && status.Ok200?
            else
              if !ifMatch.NoIfMatch? then after == pod && status.Failed412?
              else if Storage.Reserved(base, uri) then after == pod && status.Forbidden403?
              else exists g :: StoredAs(pick, body, {}, uri, g)
                               && Lists(base, pod.(graphs := pod.graphs[uri := g]), uri, after, status)
  {
    hide Storage.Reserved, AltersContainment, ManagedBody, StoredAs, Clashes, IsContainer, SaysContainer, Attached, Lists,
         ContainsTriples;
    var before := GraphOf(pod, uri);
    SaysContainerIff(before, uri);
    SaysContainerIff(body, uri);
    ClashesIff(body, before, uri);
    var g := if SaysContainer(before, uri) || SaysContainer(body, uri) then ManagedBody(pick, body, before, uri) else body;
    assert StoredAs(pick, body, before, uri, g) by { StoredIs(pick, body, before, uri); }
    NothingSaysContainer(uri);
    AttachedLists(base, pod.(graphs := pod.graphs[uri := g]), uri);
  }

  lemma NothingSaysContainer(uri: string)
    ensures !SaysContainer({}, uri) && !IsContainer({}, uri)
  {
  }

  lemma StoredIs(pick: Choice, body: Graph, before: Graph, uri: string)
    ensures StoredAs(pick, body, before, uri,
                     if SaysContainer(before, uri) || SaysContainer(body, uri) then ManagedBody(pick, body, before, uri) else body)
  {
    hide ManagedBody, SaysContainer;
    if SaysContainer(before, uri) || SaysContainer(body, uri) {
      ManagedIs(pick, body, before, uri);
    }
  }

  /** A graph's PUT is answered 409, and changes nothing, exactly when its preconditions pass and it clashes. */
  lemma PutConflictsIff(
      server: Server, s: Storage.Snapshot,
      uri: string, body: Graph, ifMatch: IfMatch<string>, ifNoneMatchAny: bool)
    ensures var (stored, read) := Storage.AfterRead(server.base, s, uri);
            var (after, status) := Disk.PutRdfOnDisk(server, s, uri, body, ifMatch, ifNoneMatchAny);
            && (status.Conflict409? <==>
                  && read.Done? && !ifNoneMatchAny && (ifMatch.AnyTag? || ifMatch == Tag(server.graphTag(stored)))
                  && SaysContainer(stored, uri) && Clashes(body, stored, uri))
            && (status.Conflict409? ==> after == s)
  {
    var (stored, read) := Storage.AfterRead(server.base, s, uri);
    SaysContainerIff(stored, uri);
    ClashesIff(body, stored, uri);
    hide AltersContainment, Clashes, IsContainer, SaysContainer, ManagedBody, Storage.AfterRead, Storage.RdfPath,
         Storage.Reserved, Storage.CanWrite, ParentContainerUri;
    if read.Done? {
      SatisfiedIff(ifMatch, ifNoneMatchAny, Present(server.graphTag(stored)));
    }
    ReadOutcomes(server.base, s, uri);
    forall g ensures !Storage.AfterPublicWrite(server.base, s, uri, g).1.NotABinary? {
    }
    forall w: Storage.Snapshot ensures !Disk.Created(server.base, w, uri).1.Conflict409? {
      CreatedOutcomes(server.base, w, uri);
    }
  }

  lemma ReadOutcomes(base: string, s: Storage.Snapshot, uri: string)
    ensures !Storage.AfterRead(base, s, uri).1.NotABinary?
  {
  }

  lemma CreatedOutcomes(base: string, s: Storage.Snapshot, uri: string)
    ensures !Disk.Created(base, s, uri).1.Conflict409?
  {
    hide ParentContainerUri, Storage.RdfPath, IsContainer, Storage.AfterRead, Storage.Reserved, Storage.CanWrite;
    ReadOutcomes(base, s, ParentContainerUri(uri, base));
  }

  /** The PUT of a binary: its description says what it is and of which type. */
  lemma PutBinaryAnswer(
      base: string, tagOf: Bytes -> string, pod: Pod,
      uri: string, body: Stored, ifMatch: IfMatch<string>, ifNoneMatchAny: bool)
    ensures var (after, status) := AfterPutBinary(base, tagOf, pod, uri, body, ifMatch, ifNoneMatchAny);
            var written := WithDescribed(pod, uri, body);
            if uri in pod.binaries then
              if ifMatch.NoIfMatch? && !ifNoneMatchAny then after == pod && status.Required428?
              else if ifNoneMatchAny || (ifMatch.Tag? && ifMatch.etag != tagOf(pod.binaries[uri])) then
                after == pod && status.Failed412?
              else if Storage.Reserved(base, uri) then after == pod && status.Forbidden403?
              else after == written && status.Ok200?
            else
              if !ifMatch.NoIfMatch? then after == pod && status.Failed412?
              else if Storage.Reserved(base, uri) then after == pod && status.Forbidden403?
              else Lists(base, written, uri, after, status)
  {
    hide Storage.Reserved, Attached, Lists;
    WithBinaryIs(pod, uri, body);
    AttachedLists(base, WithBinary(pod, uri, body), uri);
  }

  /** The bytes under their URI, and two triples about them under the URI with .meta. */
  function WithDescribed(pod: Pod, uri: string, body: Stored): Pod {
    Pod(pod.graphs[uri + ".meta" := {
          Triple(Iri(uri), TYPE, Iri("http://www.w3.org/ns/ldp#NonRDFSource")),
          Triple(Iri(uri), Iri("http://purl.org/dc/terms/format"), Text(body.contentType, ""))}],
        pod.binaries[uri := body.data])
  }

  lemma WithBinaryIs(pod: Pod, uri: string, body: Stored)
    ensures WithBinary(pod, uri, body) == WithDescribed(pod, uri, body)
  {
  }

  // ------------------------------------------------------------------- POST and DELETE

  /** A POST is for containers; what it stores is listed there at once. */
  lemma PostAnswer(base: string, pod: Pod, container: string, member: string, body: Body)
    ensures var (after, status) := AfterPost(base, pod, container, member, body);
            if container !in pod.graphs then after == pod && status.NotFound404?
            else if !SaysContainer(pod.graphs[container], container) then after == pod && status.MethodNotAllowed405?
            else if Storage.Reserved(base, member) then after == pod && status.Forbidden403?
            else
              var written := match body
                case RdfBody(graph) => pod.(graphs := pod.graphs[member := graph])
                case BinaryBody(stored) => WithDescribed(pod, member, stored);
              if Storage.Reserved(base, container) then after == written && status.Forbidden403?
              else
                && after == written.(graphs := written.graphs[container :=
                     pod.graphs[container] + {Triple(Iri(container), CONTAINS, Iri(member))}])
                && status.Created201?
  {
    hide Storage.Reserved;
    if body.BinaryBody? {
      WithBinaryIs(pod, member, body.stored);
    }
  }

  /** A container is deleted only when it lists no member; a deleted resource is listed no more by its parent. */
  lemma DeleteAnswer(base: string, pod: Pod, uri: string)
    ensures var (after, status) := AfterDelete(base, pod, uri);
            if uri in pod.graphs && SaysContainer(pod.graphs[uri], uri) && Listed(pod.graphs[uri], uri) != {} then
              after == pod && status.Conflict409?
            else if Storage.Reserved(base, uri) then after == pod && status.Forbidden403?
            else if uri !in pod.graphs && uri !in pod.binaries then after == pod && status.NotFound404?
            else
              var gone := if uri in pod.graphs then pod.(graphs := pod.graphs - {uri})
                          else Pod(pod.graphs - {uri + ".meta"}, pod.binaries - {uri});
              var parent := ParentContainerUri(uri, base);
              if parent == uri || parent !in gone.graphs then after == gone && status.NoContent204?
              else if Storage.Reserved(base, parent) then after == gone && status.Forbidden403?
              else
                && after == gone.(graphs := gone.graphs[parent :=
                     gone.graphs[parent] - {Triple(Iri(parent), CONTAINS, Iri(uri))}])
                && status.NoContent204?
  {
    hide Storage.Reserved, ParentContainerUri;
    var g := GraphOf(pod, uri);
    ListedIs(g, uri);
    SaysContainerIff(g, uri);
    assert Listed(g, uri) == {} <==> ContainsTriples(g, uri) == {} by {
      if ContainsTriples(g, uri) != {} {
        var t :| t in ContainsTriples(g, uri);
        assert t.o in Listed(g, uri);
      }
      if Listed(g, uri) != {} {
        var m :| m in Listed(g, uri);
        assert Triple(Iri(uri), CONTAINS, m) in ContainsTriples(g, uri);
      }
    }
    hide ContainsTriples, Listed, IsContainer, SaysContainer;
  }
}
