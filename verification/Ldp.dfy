/**
 What PUT, POST and DELETE make of a pod, with server-managed containment kept by separate
 writes to the member and to its parent.  A pod is what reads find: the graphs and the binaries
 by URI.  The handlers themselves work on the files, in LdpOnDisk and LdpServer; LdpRefinement
 shows that what they do there shows as what is said here.

 Requests are served one at a time.  Bodies arrive parsed; a status stands for the response.
 */
module Ldp {
  import opened Options
  import opened Rdf
  import opened Containers
  import opened Preconditions
  import opened Paths
  import Storage

  type Bytes = Storage.Bytes

  /** A binary as it is sent; its content type is kept in the graph of its sidecar. */
  datatype Stored = Stored(data: Bytes, contentType: string)

  datatype Pod = Pod(graphs: map<string, Graph>, binaries: map<string, Bytes>)

  datatype Status =
    | Ok200 | Created201 | NoContent204
    | Forbidden403 | NotFound404 | MethodNotAllowed405 | Conflict409 | Failed412 | Required428
    | ServerError500

  function WithGraph(pod: Pod, uri: string, g: Graph): Pod {
    pod.(graphs := pod.graphs[uri := g])
  }

  function WithBinary(pod: Pod, uri: string, b: Stored): Pod {
    Pod(pod.graphs[uri + Storage.META := Storage.Description(uri, b.contentType)], pod.binaries[uri := b.data])
  }

  function Without(pod: Pod, uri: string): Pod {
    if uri in pod.graphs then pod.(graphs := pod.graphs - {uri})
    else if uri in pod.binaries then Pod(pod.graphs - {uri + Storage.META}, pod.binaries - {uri})
    else pod
  }

  // ---------------------------------------------------------- reading one property

  datatype Value = NoValue | Value(term: Term)

  /** Which of several values the RDF library happens to return. */
  type Choice = set<Term> -> Term

  ghost predicate Picks(pick: Choice) {
    forall os: set<Term> :: os != {} ==> pick(os) in os
  }

  function ValueOf(pick: Choice, g: Graph, s: Term, p: Term): Value {
    var os := Objects(g, s, p);
    if os == {} then NoValue else Value(pick(os))
  }

  // ------------------------------------------------------------------ managed bodies

  function ContainsTriples(g: Graph, uri: string): Graph {
    set t | t in g && t.s == Iri(uri) && t.p == LDP_CONTAINS
  }

  function DropPredicate(g: Graph, p: Term): Graph {
    set t | t in g && t.p != p
  }

  /** graph.remove((s, p, None)) and graph.remove((None, p, o)). */
  function DropSubjectPredicate(g: Graph, s: Term, p: Term): Graph {
    set t | t in g && !(t.s == s && t.p == p)
  }

  function DropPredicateObject(g: Graph, p: Term, o: Term): Graph {
    set t | t in g && !(t.p == p && t.o == o)
  }

  /** Membership triples are derived from containment and never stored. */
  function DropMembership(pick: Choice, g: Graph, uri: string): Graph {
    var subject := Iri(uri);
    var resource := ValueOf(pick, g, subject, LDP_MEMBERSHIP_RESOURCE);
    if resource.NoValue? then g
    else
      var hasMember := ValueOf(pick, g, subject, LDP_HAS_MEMBER_RELATION);
      var isMemberOf := ValueOf(pick, g, subject, LDP_IS_MEMBER_OF_RELATION);
      var g1 := if hasMember.Value? then DropSubjectPredicate(g, resource.term, hasMember.term) else g;
      if isMemberOf.Value? then DropPredicateObject(g1, isMemberOf.term, resource.term) else g1
  }

  /** The stored graph for a container PUT: client containment out, stored containment in. */
  function ManagedBody(pick: Choice, body: Graph, stored: Graph, uri: string): Graph {
    DropMembership(pick, DropPredicate(body, LDP_CONTAINS) + ContainsTriples(stored, uri), uri)
  }

  predicate AltersContainment(body: Graph, stored: Graph, uri: string) {
    && ContainsTriples(body, uri) != {}
    && ContainsTriples(body, uri) != ContainsTriples(stored, uri)
  }

  /** What a PUT of a graph answers or stores, once it has read what is there. */
  datatype Decision = Answer(status: Status) | Store(graph: Graph)

  function DecidePut(
      pick: Choice, etagOf: Graph -> string, stored: Option<Graph>,
      uri: string, body: Graph, ifMatch: IfMatch<string>, ifNoneMatchAny: bool): Decision {
    var current := if stored.Some? then Present(etagOf(stored.value)) else Absent;
    match CheckPreconditions(ifMatch, ifNoneMatchAny, current)
    case Failed412 => Answer(Status.Failed412)
    case Required428 => Answer(Status.Required428)
    case Satisfied =>
      var storedIsContainer := stored.Some? && IsContainer(stored.value, uri);
      if storedIsContainer && AltersContainment(body, stored.value, uri) then Answer(Conflict409)
      else if storedIsContainer || IsContainer(body, uri) then
        Store(ManagedBody(pick, body, if stored.Some? then stored.value else {}, uri))
      else Store(body)
  }

  // --------------------------------------------------------------- what requests make

  function Lookup<T>(m: map<string, T>, uri: string): Option<T> {
    if uri in m then Some(m[uri]) else None
  }

  function GraphOf(pod: Pod, uri: string): Graph {
    if uri in pod.graphs then pod.graphs[uri] else {}
  }

  predicate IsStoredContainer(pod: Pod, uri: string) {
    uri in pod.graphs && IsContainer(pod.graphs[uri], uri)
  }

  function Attached(base: string, pod: Pod, member: string): (Pod, bool) {
    var parent := ParentContainerUri(member, base);
    if parent == member || !IsStoredContainer(pod, parent) then (pod, true)
    else if Storage.Reserved(base, parent) then (pod, false)
    else (WithGraph(pod, parent, pod.graphs[parent] + {Triple(Iri(parent), LDP_CONTAINS, Iri(member))}), true)
  }

  function Detached(base: string, pod: Pod, member: string): (Pod, bool) {
    var parent := ParentContainerUri(member, base);
    if parent == member || parent !in pod.graphs then (pod, true)
    else if Storage.Reserved(base, parent) then (pod, false)
    else (WithGraph(pod, parent, pod.graphs[parent] - {Triple(Iri(parent), LDP_CONTAINS, Iri(member))}), true)
  }

  function AfterPutRdf(
      base: string, pick: Choice, etagOf: Graph -> string, pod: Pod,
      uri: string, body: Graph, ifMatch: IfMatch<string>, ifNoneMatchAny: bool): (Pod, Status) {
    match DecidePut(pick, etagOf, Lookup(pod.graphs, uri), uri, body, ifMatch, ifNoneMatchAny)
    case Answer(status) => (pod, status)
    case Store(graph) =>
      if Storage.Reserved(base, uri) then (pod, Forbidden403)
      else
        var written := WithGraph(pod, uri, graph);
        if uri in pod.graphs then (written, Ok200)
        else
          var (attached, ok) := Attached(base, written, uri);
          (attached, if ok then Created201 else Forbidden403)
  }

  function AfterPutBinary(
      base: string, etagOf: Bytes -> string, pod: Pod,
      uri: string, body: Stored, ifMatch: IfMatch<string>, ifNoneMatchAny: bool): (Pod, Status) {
    var current := if uri in pod.binaries then Present(etagOf(pod.binaries[uri])) else Absent;
    match CheckPreconditions(ifMatch, ifNoneMatchAny, current)
    case Failed412 => (pod, Status.Failed412)
    case Required428 => (pod, Status.Required428)
    case Satisfied =>
      if Storage.Reserved(base, uri) then (pod, Forbidden403)
      else
        var written := WithBinary(pod, uri, body);
        if uri in pod.binaries then (written, Ok200)
        else
          var (attached, ok) := Attached(base, written, uri);
          (attached, if ok then Created201 else Forbidden403)
  }

  datatype Body = RdfBody(graph: Graph) | BinaryBody(stored: Stored)

  /** member is the URI minted below the container. */
  function AfterPost(base: string, pod: Pod, container: string, member: string, body: Body): (Pod, Status) {
    if container !in pod.graphs then (pod, NotFound404)
    else if !IsContainer(pod.graphs[container], container) then (pod, MethodNotAllowed405)
    else if Storage.Reserved(base, member) then (pod, Forbidden403)
    else
      var containerGraph := pod.graphs[container];
      var written := match body
        case RdfBody(graph) => WithGraph(pod, member, graph)
        case BinaryBody(stored) => WithBinary(pod, member, stored);
      if Storage.Reserved(base, container) then (written, Forbidden403)
      else (WithGraph(written, container, containerGraph + {Triple(Iri(container), LDP_CONTAINS, Iri(member))}),
            Created201)
  }

  function AfterDelete(base: string, pod: Pod, uri: string): (Pod, Status) {
    if IsStoredContainer(pod, uri) && ContainsTriples(pod.graphs[uri], uri) != {} then (pod, Conflict409)
    else if Storage.Reserved(base, uri) then (pod, Forbidden403)
    else if uri !in pod.graphs && uri !in pod.binaries then (pod, NotFound404)
    else
      var (detached, ok) := Detached(base, Without(pod, uri), uri);
      (detached, if ok then NoContent204 else Forbidden403)
  }

  // ------------------------------------------------------------------------- requests

  /** A random identifier in its hexadecimal form. */
  type Uuid = u: string | |u| == 32 && Hex(u) witness "00000000000000000000000000000000"

  datatype Request =
    | PutRdf(uri: string, graph: Graph, ifMatch: IfMatch<string>, ifNoneMatchAny: bool)
    | PutBinary(uri: string, stored: Stored, ifMatch: IfMatch<string>, ifNoneMatchAny: bool)
    | Post(container: string, slug: Slug, uuid: Uuid, body: Body)
    | Delete(uri: string)

  /** What is fixed for a server: its base URI, the library's choices, the ETags, Turtle as text. */
  datatype Server = Server(
    base: string, pick: Choice, graphTag: Graph -> string, binaryTag: Bytes -> string, textOf: Graph -> Bytes)

  function Respond(server: Server, pod: Pod, r: Request): (Pod, Status) {
    match r
    case PutRdf(uri, graph, ifMatch, any) =>
      AfterPutRdf(server.base, server.pick, server.graphTag, pod, uri, graph, ifMatch, any)
    case PutBinary(uri, stored, ifMatch, any) =>
      AfterPutBinary(server.base, server.binaryTag, pod, uri, stored, ifMatch, any)
    case Post(container, slug, uuid, body) =>
      AfterPost(server.base, pod, container, MintMemberUri(container, slug, uuid), body)
    case Delete(uri) => AfterDelete(server.base, pod, uri)
  }

  function Serve(server: Server, pod: Pod, r: Request): Pod {
    Respond(server, pod, r).0
  }

  function ServeAll(server: Server, pod: Pod, rs: seq<Request>): Pod {
    if rs == [] then pod
    else Serve(server, ServeAll(server, pod, rs[..|rs| - 1]), rs[|rs| - 1])
  }
}
