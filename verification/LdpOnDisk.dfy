/**
 What the request handlers make of the files and the dataset: reads, writes and deletes of the
 filesystem backend in the handlers' order, with every way each of them can fail.
 */
module LdpOnDisk {
  import opened Options
  import opened Rdf
  import opened Containers
  import opened Preconditions
  import opened Storage
  import opened Ldp

  /** How a storage error is answered; what the operating system refuses is an internal error. */
  function ErrorStatus(outcome: Outcome): Status {
    match outcome
    case NotFound => NotFound404
    case PrefixViolation => Forbidden403
    case NotABinary => Conflict409
    case _ => ServerError500
  }

  function AttachOnDisk(base: string, s: Snapshot, member: string): (Snapshot, Outcome) {
    var parent := ParentContainerUri(member, base);
    if parent == member then (s, Done)
    else
      var (graph, read) := AfterRead(base, s, parent);
      if read.NotFound? then (s, Done)
      else if !read.Done? then (s, read)
      else if !IsContainer(graph, parent) then (s, Done)
      else AfterPublicWrite(base, s, parent, graph + {Triple(Iri(parent), LDP_CONTAINS, Iri(member))})
  }

  function DetachOnDisk(base: string, s: Snapshot, member: string): (Snapshot, Outcome) {
    var parent := ParentContainerUri(member, base);
    if parent == member then (s, Done)
    else
      var (graph, read) := AfterRead(base, s, parent);
      if read.NotFound? then (s, Done)
      else if !read.Done? then (s, read)
      else AfterPublicWrite(base, s, parent, graph - {Triple(Iri(parent), LDP_CONTAINS, Iri(member))})
  }

  /** What a member's creation still does, once the member is written. */
  function Created(base: string, written: Snapshot, member: string): (Snapshot, Status) {
    var (attached, outcome) := AttachOnDisk(base, written, member);
    (attached, if outcome.Done? then Created201 else ErrorStatus(outcome))
  }

  function PutRdfOnDisk(
      server: Server, s: Snapshot,
      uri: string, body: Graph, ifMatch: IfMatch<string>, ifNoneMatchAny: bool): (Snapshot, Status) {
    var (stored, read) := AfterRead(server.base, s, uri);
    if !read.Done? && !read.NotFound? then (s, ErrorStatus(read))
    else
      var current := if read.Done? then Some(stored) else None;
      match DecidePut(server.pick, server.graphTag, current, uri, body, ifMatch, ifNoneMatchAny)
      case Answer(status) => (s, status)
      case Store(graph) =>
        var (written, outcome) := AfterPublicWrite(server.base, s, uri, graph);
        if !outcome.Done? then (written, ErrorStatus(outcome))
        else if read.Done? then (written, Ok200)
        else Created(server.base, written, uri)
  }

  function PutBinaryOnDisk(
      server: Server, s: Snapshot,
      uri: string, body: Stored, ifMatch: IfMatch<string>, ifNoneMatchAny: bool): (Snapshot, Status) {
    var (data, read) := AfterStream(server.base, s, uri, server.textOf);
    if !read.Done? && !read.NotFound? && !read.NotABinary? then (s, ErrorStatus(read))
    else
      match CheckPreconditions(ifMatch, ifNoneMatchAny, if read.Done? then Present(server.binaryTag(data)) else Absent)
      case Failed412 => (s, Status.Failed412)
      case Required428 => (s, Status.Required428)
      case Satisfied =>
        var (written, outcome) := AfterWriteBinary(server.base, s, uri, body.data, body.contentType);
        if !outcome.Done? then (written, ErrorStatus(outcome))
        else if read.Done? then (written, Ok200)
        else Created(server.base, written, uri)
  }

  function WriteBody(base: string, s: Snapshot, uri: string, body: Body): (Snapshot, Outcome) {
    match body
    case RdfBody(graph) => AfterPublicWrite(base, s, uri, graph)
    case BinaryBody(stored) => AfterWriteBinary(base, s, uri, stored.data, stored.contentType)
  }

  function PostOnDisk(base: string, s: Snapshot, container: string, member: string, body: Body): (Snapshot, Status) {
    var (graph, read) := AfterRead(base, s, container);
    if !read.Done? then (s, ErrorStatus(read))
    else if !IsContainer(graph, container) then (s, MethodNotAllowed405)
    else
      var (written, outcome) := WriteBody(base, s, member, body);
      if !outcome.Done? then (written, ErrorStatus(outcome))
      else
        var (listed, listing) :=
          AfterPublicWrite(base, written, container, graph + {Triple(Iri(container), LDP_CONTAINS, Iri(member))});
        (listed, if listing.Done? then Created201 else ErrorStatus(listing))
  }

  function DeleteOnDisk(base: string, s: Snapshot, uri: string): (Snapshot, Status) {
    var (target, read) := AfterRead(base, s, uri);
    if !read.Done? && !read.NotFound? then (s, ErrorStatus(read))
    else if read.Done? && IsContainer(target, uri) && ContainsTriples(target, uri) != {} then (s, Conflict409)
    else
      var (deleted, outcome) := AfterPublicDelete(base, s, uri);
      if !outcome.Done? then (deleted, ErrorStatus(outcome))
      else
        var (detached, detaching) := DetachOnDisk(base, deleted, uri);
        (detached, if detaching.Done? then NoContent204 else ErrorStatus(detaching))
  }

  function RespondOnDisk(server: Server, s: Snapshot, r: Request): (Snapshot, Status) {
    match r
    case PutRdf(uri, graph, ifMatch, any) => PutRdfOnDisk(server, s, uri, graph, ifMatch, any)
    case PutBinary(uri, stored, ifMatch, any) => PutBinaryOnDisk(server, s, uri, stored, ifMatch, any)
    case Post(container, slug, uuid, body) =>
      PostOnDisk(server.base, s, container, MintMemberUri(container, slug, uuid), body)
    case Delete(uri) => DeleteOnDisk(server.base, s, uri)
  }

  function RunOnDisk(server: Server, s: Snapshot, rs: seq<Request>): Snapshot {
    if rs == [] then s
    else RespondOnDisk(server, RunOnDisk(server, s, rs[..|rs| - 1]), rs[|rs| - 1]).0
  }
}
