/**
 The request handlers of the LDP data plane, as they read, edit and write graphs through the
 filesystem backend; each is shown to do what LdpOnDisk says the request makes of the files.
 */
module LdpServer {
  import opened Options
  import opened Rdf
  import opened Containers
  import opened Preconditions
  import opened Storage
  import opened Ldp
  import opened LdpOnDisk
  import LdpAnswers

  /** graph.remove((None, ldp:contains, None)), then the stored members are added back. */
  method ManageContainment(body: Graph, stored: Graph, uri: string) returns (graph: Graph)
    ensures graph == DropPredicate(body, LDP_CONTAINS) + ContainsTriples(stored, uri)
  {
    graph := DropPredicate(body, LDP_CONTAINS);
    var members := Objects(stored, Iri(uri), LDP_CONTAINS);
    ghost var all := members;
    ghost var added: set<Term> := {};
    while members != {}
      invariant members + added == all
      invariant graph == DropPredicate(body, LDP_CONTAINS)
                         + set m | m in added :: Triple(Iri(uri), LDP_CONTAINS, m)
      decreases members
    {
      var member :| member in members;
      graph := graph + {Triple(Iri(uri), LDP_CONTAINS, member)};
      members := members - {member};
      added := added + {member};
    }
    assert ContainsTriples(stored, uri) == set m | m in all :: Triple(Iri(uri), LDP_CONTAINS, m) by {
      forall t | t in ContainsTriples(stored, uri) ensures t.o in all && t == Triple(Iri(uri), LDP_CONTAINS, t.o) {
      }
    }
  }

  method StripMembership(pick: Choice, body: Graph, uri: string) returns (graph: Graph)
    ensures graph == DropMembership(pick, body, uri)
  {
    graph := body;
    var resource := ValueOf(pick, graph, Iri(uri), LDP_MEMBERSHIP_RESOURCE);
    if resource.Value? {
      var hasMember := ValueOf(pick, graph, Iri(uri), LDP_HAS_MEMBER_RELATION);
      var isMemberOf := ValueOf(pick, graph, Iri(uri), LDP_IS_MEMBER_OF_RELATION);
      if hasMember.Value? {
        graph := DropSubjectPredicate(graph, resource.term, hasMember.term);
      }
      if isMemberOf.Value? {
        graph := DropPredicateObject(graph, isMemberOf.term, resource.term);
      }
    }
  }

  method AttachToParent(backend: FilesystemBackend, member: string) returns (outcome: Outcome)
    modifies backend
    ensures (backend.Snap(), outcome) == AttachOnDisk(backend.baseUri, old(backend.Snap()), member)
  {
    var parent := ParentContainerUri(member, backend.baseUri);
    if parent == member {
      return Done;
    }
    var parentGraph, read := backend.Read(parent);
    if read.NotFound? {
      return Done;
    }
    if !read.Done? {
      return read;
    }
    if !IsContainer(parentGraph, parent) {
      return Done;
    }
    parentGraph := parentGraph + {Triple(Iri(parent), LDP_CONTAINS, Iri(member))};
    outcome := backend.Write(parent, parentGraph);
  }

  method DetachFromParent(backend: FilesystemBackend, member: string) returns (outcome: Outcome)
    modifies backend
    ensures (backend.Snap(), outcome) == DetachOnDisk(backend.baseUri, old(backend.Snap()), member)
  {
    var parent := ParentContainerUri(member, backend.baseUri);
    if parent == member {
      return Done;
    }
    var parentGraph, read := backend.Read(parent);
    if read.NotFound? {
      return Done;
    }
    if !read.Done? {
      return read;
    }
    parentGraph := parentGraph - {Triple(Iri(parent), LDP_CONTAINS, Iri(member))};
    outcome := backend.Write(parent, parentGraph);
  }

  /** From the graph read and the body sent to the answer, or to the graph to store. */
  method Decide(
      server: Server, found: bool, stored: Graph,
      uri: string, body: Graph, ifMatch: IfMatch<string>, ifNoneMatchAny: bool) returns (decision: Decision)
    ensures decision == DecidePut(server.pick, server.graphTag, if found then Some(stored) else None,
                                  uri, body, ifMatch, ifNoneMatchAny)
  {
    match CheckPreconditions(ifMatch, ifNoneMatchAny, if found then Present(server.graphTag(stored)) else Absent) {
      case Failed412 => return Answer(Status.Failed412);
      case Required428 => return Answer(Status.Required428);
      case Satisfied =>
    }
    var graph := body;
    var storedIsContainer := found && IsContainer(stored, uri);
    if storedIsContainer || IsContainer(graph, uri) {
      if storedIsContainer {
        if AltersContainment(graph, stored, uri) {
          return Answer(Conflict409);
        }
      }
      graph := ManageContainment(graph, if found then stored else {}, uri);
      graph := StripMembership(server.pick, graph, uri);
    }
    decision := Store(graph);
  }

  method PutRdfResource(
      backend: FilesystemBackend, server: Server,
      uri: string, body: Graph, ifMatch: IfMatch<string>, ifNoneMatchAny: bool) returns (status: Status)
    requires server.base == backend.baseUri
    modifies backend
    ensures (backend.Snap(), status) == PutRdfOnDisk(server, old(backend.Snap()), uri, body, ifMatch, ifNoneMatchAny)
    ensures var (stored, read) := AfterRead(server.base, old(backend.Snap()), uri);
            && (status.Conflict409? <==>
                  && read.Done? && !ifNoneMatchAny && (ifMatch.AnyTag? || ifMatch == Tag(server.graphTag(stored)))
                  && LdpAnswers.SaysContainer(stored, uri) && LdpAnswers.Clashes(body, stored, uri))
            && (status.Conflict409? ==> backend.Snap() == old(backend.Snap()))
  {
    hide LdpAnswers.SaysContainer, LdpAnswers.Clashes;
    LdpAnswers.PutConflictsIff(server, backend.Snap(), uri, body, ifMatch, ifNoneMatchAny);
    var stored, read := backend.Read(uri);
    if !read.Done? && !read.NotFound? {
      return ErrorStatus(read);
    }
    var decision := Decide(server, read.Done?, stored, uri, body, ifMatch, ifNoneMatchAny);
    match decision {
      case Answer(answer) => return answer;
      case Store(graph) =>
        var outcome := backend.Write(uri, graph);
        if !outcome.Done? {
          return ErrorStatus(outcome);
        }
        if read.Done? {
          return Ok200;
        }
        outcome := AttachToParent(backend, uri);
        status := if outcome.Done? then Created201 else ErrorStatus(outcome);
    }
  }

  method PutBinaryResource(
      backend: FilesystemBackend, server: Server,
      uri: string, body: Stored, ifMatch: IfMatch<string>, ifNoneMatchAny: bool) returns (status: Status)
    requires server.base == backend.baseUri
    modifies backend
    ensures (backend.Snap(), status) ==
            PutBinaryOnDisk(server, old(backend.Snap()), uri, body, ifMatch, ifNoneMatchAny)
  {
    var data, read := backend.StreamBinary(uri, server.textOf);
    if !read.Done? && !read.NotFound? && !read.NotABinary? {
      return ErrorStatus(read);
    }
    match CheckPreconditions(
        ifMatch, ifNoneMatchAny, if read.Done? then Present(server.binaryTag(data)) else Absent) {
      case Failed412 => return Status.Failed412;
      case Required428 => return Status.Required428;
      case Satisfied =>
    }
    var outcome := backend.WriteBinary(uri, body.data, body.contentType);
    if !outcome.Done? {
      return ErrorStatus(outcome);
    }
    if read.Done? {
      return Ok200;
    }
    outcome := AttachToParent(backend, uri);
    status := if outcome.Done? then Created201 else ErrorStatus(outcome);
  }

  method PostMember(backend: FilesystemBackend, container: string, slug: Slug, uuid: string, body: Body)
    returns (status: Status)
    requires |uuid| >= 8
    modifies backend
    ensures (backend.Snap(), status) ==
            PostOnDisk(backend.baseUri, old(backend.Snap()), container, MintMemberUri(container, slug, uuid), body)
  {
    var containerGraph, read := backend.Read(container);
    if !read.Done? {
      return ErrorStatus(read);
    }
    if !IsContainer(containerGraph, container) {
      return MethodNotAllowed405;
    }
    var member := MintMemberUri(container, slug, uuid);
    var outcome: Outcome;
    match body {
      case RdfBody(graph) => outcome := backend.Write(member, graph);
      case BinaryBody(stored) => outcome := backend.WriteBinary(member, stored.data, stored.contentType);
    }
    if !outcome.Done? {
      return ErrorStatus(outcome);
    }
    containerGraph := containerGraph + {Triple(Iri(container), LDP_CONTAINS, Iri(member))};
    outcome := backend.Write(container, containerGraph);
    status := if outcome.Done? then Created201 else ErrorStatus(outcome);
  }

  method DeleteResource(backend: FilesystemBackend, uri: string) returns (status: Status)
    modifies backend
    ensures (backend.Snap(), status) == DeleteOnDisk(backend.baseUri, old(backend.Snap()), uri)
  {
    var target, read := backend.Read(uri);
    if !read.Done? && !read.NotFound? {
      return ErrorStatus(read);
    }
    if read.Done? && IsContainer(target, uri) && ContainsTriples(target, uri) != {} {
      return Conflict409;
    }
    var outcome := backend.Delete(uri);
    if !outcome.Done? {
      return ErrorStatus(outcome);
    }
    outcome := DetachFromParent(backend, uri);
    status := if outcome.Done? then NoContent204 else ErrorStatus(outcome);
  }
}
