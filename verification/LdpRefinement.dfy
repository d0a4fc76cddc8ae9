/**
 The handlers on files refine the Ldp module's requests on pods: whatever a request whose name
 is its own makes of the files shows as what it makes of the pod, unless the file system
 refuses it, and then nothing changes.  A whole run on the files shows as the run of the
 requests that were not refused.
 */
module LdpRefinement {
  import opened Options
  import opened Paths
  import opened Rdf
  import opened Containers
  import opened Preconditions
  import opened Storage
  import opened StorageAgreement
  import opened StorageRefinesPod
  import opened Ldp
  import opened LdpOnDisk
  import LdpContainment

  /** The dataset mirrors the files, and they are as the operations leave them. */
  ghost predicate Kept(base: string, s: Snapshot) {
    Mirrors(base, s) && WellKept(s)
  }

  /** A binary's name, and no directory where its sidecar goes. */
  predicate OwnBinaryName(base: string, s: Snapshot, uri: string) {
    CanonicalBin(base, uri) && !EndsWith(uri[|base|..], TTL) && uri[|base|..] + META_TTL !in s.dirs
  }

  /** What a delete would unlink is what is stored under its own URI. */
  predicate DeletesItsOwn(base: string, s: Snapshot, uri: string) {
    CanonicalRdf(base, uri) && (TakesBinaryBranch(base, s, uri) ==> OwnBinaryName(base, s, uri))
  }

  /** The name a request uses is canonical, and is its own in the state the request meets. */
  predicate NamesOwn(server: Server, s: Snapshot, r: Request) {
    match r
    case PutRdf(uri, _, _, _) => CanonicalRdf(server.base, uri)
    case PutBinary(uri, _, _, _) => OwnBinaryName(server.base, s, uri)
    case Post(container, slug, uuid, body) =>
      && CanonicalRdf(server.base, container) && ContainerUri(server.base, container)
      && (body.BinaryBody? ==> MintMemberUri(container, slug, uuid)[|server.base|..] + META_TTL !in s.dirs)
    case Delete(uri) => DeletesItsOwn(server.base, s, uri)
  }

  /** The file a body goes to. */
  function BodyPath(rel: string, body: Body): string {
    if body.RdfBody? then rel + TTL else rel
  }

  /** A directory has the file's name, or a file that of a directory on the way. */
  predicate Blocked(server: Server, s: Snapshot, r: Request)
    requires NamesOwn(server, s, r)
  {
    match r
    case PutRdf(uri, _, _, _) => !CanWrite(s, uri[|server.base|..] + TTL)
    case PutBinary(uri, _, _, _) => !CanWrite(s, uri[|server.base|..])
    case Post(container, slug, uuid, body) =>
      || container[|server.base|..] + TTL in s.dirs
      || !CanWrite(s, BodyPath(MintMemberUri(container, slug, uuid)[|server.base|..], body))
    case Delete(uri) => DeleteBlocked(server.base, s, uri)
  }

  /** Nothing is stored under the name, and a directory stands where it would be looked for. */
  predicate DeleteBlocked(base: string, s: Snapshot, uri: string)
    requires base <= uri
  {
    var rdf, bin := uri[|base|..] + TTL, BinPath(base, uri);
    bin.Escapes? || (rdf !in s.files && (rdf in s.dirs || bin.value in s.dirs))
  }

  // --------------------------------------------------------------------------- names

  lemma CanonicalIsUnder(base: string, uri: string)
    requires CanonicalRdf(base, uri)
    ensures base <= uri
  {
  }

  /** The parent of a canonical name is canonical. */
  lemma ParentIsCanonical(base: string, uri: string, path: string)
    requires base <= uri && IsResolved(path) && path != "" && uri[|base|..] <= path
    ensures CanonicalRdf(base, ParentContainerUri(uri, base))
  {
    hide IsResolved;
    RelativeOf(base, uri);
    var relative := RStripSlashes(uri[|base|..]);
    var i := AfterLastSlash(relative);
    var parent := base + relative[..i];
    assert relative[..i] == path[..i];
    MetaTtlHasNoSlash();
    assert CleanSegment(TTL);
    ResolvedBeside(path, i, TTL);
    assert parent[|base|..] == relative[..i];
  }

  lemma ParentOfDocument(base: string, uri: string)
    requires CanonicalRdf(base, uri)
    ensures CanonicalRdf(base, ParentContainerUri(uri, base))
  {
    ParentIsCanonical(base, uri, uri[|base|..] + TTL);
  }

  lemma ParentOfBinary(base: string, uri: string)
    requires CanonicalBin(base, uri) && uri[|base|..] != ""
    ensures CanonicalRdf(base, ParentContainerUri(uri, base))
  {
    ParentIsCanonical(base, uri, uri[|base|..]);
  }

  /** So is the name minted in a container. */
  lemma MintedIsCanonical(base: string, container: string, slug: Slug, uuid: Uuid)
    requires CanonicalRdf(base, container) && ContainerUri(base, container)
    ensures var member := MintMemberUri(container, slug, uuid);
            && CanonicalRdf(base, member) && CanonicalBin(base, member) && !EndsWith(member[|base|..], TTL)
  {
    hide IsResolved, EndsWith;
    var rel, segment := container[|base|..], MintSegment(slug, uuid);
    SegmentIsPlain(slug, uuid);
    hide MintSegment;
    assert rel != "" ==> rel[|rel| - 1] == '/' by {
      assert rel != "" ==> rel[|rel| - 1] == container[|container| - 1];
    }
    PlainBeside(rel, segment);
    assert (container + segment)[|base|..] == rel + segment;
  }

  /** A segment without dots and slashes, put in the place of a container's own file. */
  lemma PlainBeside(rel: string, segment: string)
    requires IsResolved(rel + TTL) && (rel != "" ==> rel[|rel| - 1] == '/')
    requires |segment| >= 8 && forall c :: c in segment ==> c != '/' && c != '.'
    ensures IsResolved(rel + segment + TTL) && IsResolved(rel + segment) && !EndsWith(rel + segment, TTL)
  {
    hide IsResolved;
    assert CleanSegment(segment) && CleanSegment(segment + TTL);
    assert (rel + TTL)[..|rel|] == rel;
    ResolvedBeside(rel + TTL, |rel|, segment);
    ResolvedBeside(rel + TTL, |rel|, segment + TTL);
    assert rel + segment + TTL == rel + (segment + TTL);
    var i := |segment| - |TTL|;
    assert (rel + segment)[|rel + segment| - |TTL|..] == segment[i..];
    assert segment[i] in segment && segment[i..][0] == segment[i];
  }

  // --------------------------------------------------------------------- parent updates

  /** Writing over what is stored is refused for reserved names only. */
  lemma RewriteRefines(base: string, s: Snapshot, uri: string, g: Graph)
    requires Kept(base, s) && CanonicalRdf(base, uri) && uri in Shown(base, s).graphs
    ensures var (s', outcome) := AfterPublicWrite(base, s, uri, g);
            && Kept(base, s')
            && Shown(base, s') == (if Reserved(base, uri) then Shown(base, s) else WithGraph(Shown(base, s), uri, g))
            && (if Reserved(base, uri) then outcome.PrefixViolation? else outcome.Done?)
  {
    RelativeOf(base, uri);
    StoredCanWrite(s, uri[|base|..] + TTL);
    WriteKept(base, s, uri, g);
    assert AfterWrite(base, s, uri, g).1.Done?;
    WriteRefines(base, s, uri, g);
  }

  /** Writing where a directory is changes nothing. */
  lemma DirectoryRefuses(base: string, s: Snapshot, uri: string, g: Graph)
    requires CanonicalRdf(base, uri) && uri[|base|..] + TTL in s.dirs
    ensures var (s', outcome) := AfterPublicWrite(base, s, uri, g);
            s' == s && (outcome.OsError? || outcome.PrefixViolation?)
  {
    RelativeOf(base, uri);
  }

  lemma ReadOfKept(base: string, s: Snapshot, uri: string)
    requires Kept(base, s) && CanonicalRdf(base, uri)
    ensures base <= uri
    ensures uri in Shown(base, s).graphs ==> uri[|base|..] + TTL !in s.dirs
    ensures var (graph, read) := AfterRead(base, s, uri);
            if uri in Shown(base, s).graphs then graph == Shown(base, s).graphs[uri] && read.Done?
            else graph == {} && (if uri[|base|..] + TTL in s.dirs then read.Done? else read.NotFound?)
  {
    ReadRefines(base, s, uri);
    MirrorsIff(base, s);
    assert uri in Shown(base, s).graphs ==> FileKept(s, uri[|base|..] + TTL);
  }

  lemma AttachRefines(base: string, s: Snapshot, member: string)
    requires Kept(base, s) && CanonicalRdf(base, ParentContainerUri(member, base))
    ensures var (s', outcome) := AttachOnDisk(base, s, member);
            var (pod', ok) := Attached(base, Shown(base, s), member);
            && Kept(base, s') && Shown(base, s') == pod'
            && (if ok then outcome.Done? else outcome.PrefixViolation?)
  {
    hide Kept, Shown, CanonicalRdf, ParentContainerUri, AfterRead, AfterPublicWrite, Reserved;
    var parent := ParentContainerUri(member, base);
    ReadOfKept(base, s, parent);
    if parent in Shown(base, s).graphs {
      RewriteRefines(base, s, parent,
                     Shown(base, s).graphs[parent] + {Triple(Iri(parent), LDP_CONTAINS, Iri(member))});
    }
  }

  lemma DetachRefines(base: string, s: Snapshot, member: string)
    requires Kept(base, s) && CanonicalRdf(base, ParentContainerUri(member, base))
    requires !Reserved(base, ParentContainerUri(member, base))
    ensures var (s', outcome) := DetachOnDisk(base, s, member);
            var (pod', ok) := Detached(base, Shown(base, s), member);
            && Kept(base, s') && Shown(base, s') == pod'
            && ok && (outcome.Done? || ErrorStatus(outcome).ServerError500?)
  {
    hide Kept, Shown, CanonicalRdf, ParentContainerUri, AfterRead;
    var parent := ParentContainerUri(member, base);
    ReadOfKept(base, s, parent);
    if parent in Shown(base, s).graphs {
      RewriteRefines(base, s, parent,
                     Shown(base, s).graphs[parent] - {Triple(Iri(parent), LDP_CONTAINS, Iri(member))});
    } else if parent[|base|..] + TTL in s.dirs {
      DirectoryRefuses(base, s, parent, {} - {Triple(Iri(parent), LDP_CONTAINS, Iri(member))});
    }
    hide AfterWrite, Reserved;
  }

  // ------------------------------------------------------------------------- requests

  /** What a request leaves, answered as the Ldp module says, or refused with nothing changed. */
  ghost predicate StepShows(server: Server, s: Snapshot, r: Request)
    requires NamesOwn(server, s, r)
  {
    var (s', status) := RespondOnDisk(server, s, r);
    && Kept(server.base, s')
    && (if Blocked(server, s, r) then s' == s
        else
          && Shown(server.base, s') == Serve(server, Shown(server.base, s), r)
          && (status == Respond(server, Shown(server.base, s), r).1 || (r.Delete? && status.ServerError500?)))
  }

  lemma CreatedRefines(base: string, s: Snapshot, member: string)
    requires Kept(base, s) && CanonicalRdf(base, ParentContainerUri(member, base))
    ensures var (pod', ok) := Attached(base, Shown(base, s), member);
            && Kept(base, Created(base, s, member).0) && Shown(base, Created(base, s, member).0) == pod'
            && Created(base, s, member).1 == (if ok then Created201 else Forbidden403)
  {
    hide Kept, Shown, CanonicalRdf, ParentContainerUri, Attached, AttachOnDisk;
    AttachRefines(base, s, member);
  }

  /** A graph written where nothing blocks it. */
  lemma NewGraphRefines(base: string, s: Snapshot, uri: string, g: Graph)
    requires Kept(base, s) && CanonicalRdf(base, uri) && !Reserved(base, uri)
    requires CanWrite(s, uri[|base|..] + TTL)
    ensures var (s', outcome) := AfterPublicWrite(base, s, uri, g);
            outcome.Done? && Kept(base, s') && Shown(base, s') == WithGraph(Shown(base, s), uri, g)
  {
    RelativeOf(base, uri);
    assert AfterWrite(base, s, uri, g).1.Done?;
    WriteRefines(base, s, uri, g);
    WriteKept(base, s, uri, g);
  }

  lemma BlockedGraph(base: string, s: Snapshot, uri: string, g: Graph)
    requires CanonicalRdf(base, uri) && !CanWrite(s, uri[|base|..] + TTL)
    ensures AfterPublicWrite(base, s, uri, g).0 == s && !AfterPublicWrite(base, s, uri, g).1.Done?
  {
    RelativeOf(base, uri);
  }

  /** What storing a graph under its name makes of the files, once the handler has decided to. */
  function StoreOnDisk(base: string, s: Snapshot, uri: string, g: Graph, existed: bool): (Snapshot, Status) {
    var (written, outcome) := AfterPublicWrite(base, s, uri, g);
    if !outcome.Done? then (written, ErrorStatus(outcome))
    else if existed then (written, Ok200)
    else Created(base, written, uri)
  }

  lemma StoreRefines(server: Server, s: Snapshot, uri: string, g: Graph, existed: bool)
    requires Kept(server.base, s) && CanonicalRdf(server.base, uri) && CanWrite(s, uri[|server.base|..] + TTL)
    ensures var base, (s', status) := server.base, StoreOnDisk(server.base, s, uri, g, existed);
            var written := WithGraph(Shown(base, s), uri, g);
            && Kept(base, s')
            && (Shown(base, s'), status) ==
               if Reserved(base, uri) then (Shown(base, s), Forbidden403)
               else if existed then (written, Ok200)
               else
                 var (attached, ok) := Attached(base, written, uri);
                 (attached, if ok then Created201 else Forbidden403)
  {
    var base := server.base;
    ParentOfDocument(base, uri);
    hide Kept, Shown, CanonicalRdf, Attached, Created, ParentContainerUri, AfterPublicWrite, Reserved, CanWrite, WithGraph;
    if Reserved(base, uri) {
      ReservedGraph(base, s, uri, g);
    } else {
      NewGraphRefines(base, s, uri, g);
      CreatedRefines(base, AfterPublicWrite(base, s, uri, g).0, uri);
    }
  }

  lemma StoreBlocked(base: string, s: Snapshot, uri: string, g: Graph, existed: bool)
    requires CanonicalRdf(base, uri) && !CanWrite(s, uri[|base|..] + TTL)
    ensures StoreOnDisk(base, s, uri, g, existed).0 == s
  {
    hide AfterPublicWrite, CanonicalRdf, CanWrite, Created;
    BlockedGraph(base, s, uri, g);
  }

  /** The handler reads, decides, and stores. */
  lemma PutRdfSteps(server: Server, s: Snapshot, uri: string, body: Graph, ifMatch: IfMatch<string>, any: bool)
    requires Kept(server.base, s) && CanonicalRdf(server.base, uri)
    ensures var base := server.base;
            var existed := uri in Shown(base, s).graphs || uri[|base|..] + TTL in s.dirs;
            var stored := if existed then Some(GraphOf(Shown(base, s), uri)) else None;
            PutRdfOnDisk(server, s, uri, body, ifMatch, any) ==
            match DecidePut(server.pick, server.graphTag, stored, uri, body, ifMatch, any)
            case Answer(status) => (s, status)
            case Store(graph) => StoreOnDisk(base, s, uri, graph, existed)
  {
    hide Kept, DecidePut, Shown, CanonicalRdf, Created, AfterRead, AfterPublicWrite;
    ReadOfKept(server.base, s, uri);
  }

  lemma PutRdfRequestRefines(server: Server, s: Snapshot, uri: string, body: Graph, ifMatch: IfMatch<string>, any: bool)
    requires Kept(server.base, s) && CanonicalRdf(server.base, uri)
    ensures var (s', status) := PutRdfOnDisk(server, s, uri, body, ifMatch, any);
            && Kept(server.base, s')
            && (if !CanWrite(s, uri[|server.base|..] + TTL) then s' == s
                else (Shown(server.base, s'), status) ==
                     AfterPutRdf(server.base, server.pick, server.graphTag, Shown(server.base, s), uri, body, ifMatch, any))
  {
    var base, path := server.base, uri[|server.base|..] + TTL;
    PutRdfSteps(server, s, uri, body, ifMatch, any);
    var existed := uri in Shown(base, s).graphs || path in s.dirs;
    var stored := if existed then Some(GraphOf(Shown(base, s), uri)) else None;
    var decision := DecidePut(server.pick, server.graphTag, stored, uri, body, ifMatch, any);
    hide Kept, DecidePut, Shown, CanonicalRdf, Attached, PutRdfOnDisk, StoreOnDisk, Reserved, CanWrite, WithGraph;
    if !CanWrite(s, path) {
      if decision.Store? {
        StoreBlocked(base, s, uri, decision.graph, existed);
      }
    } else {
      DirectoryBlocks(s, path);
      assert stored == Lookup(Shown(base, s).graphs, uri);
      if decision.Store? {
        StoreRefines(server, s, uri, decision.graph, existed);
      }
    }
  }

  lemma DirectoryBlocks(s: Snapshot, path: string)
    requires CanWrite(s, path)
    ensures path !in s.dirs
  {
  }

  lemma ReservedGraph(base: string, s: Snapshot, uri: string, g: Graph)
    requires Reserved(base, uri)
    ensures AfterPublicWrite(base, s, uri, g) == (s, PrefixViolation)
  {
  }

  lemma StreamRefines(base: string, s: Snapshot, uri: string, textOf: Graph -> Bytes)
    requires Kept(base, s) && OwnBinaryName(base, s, uri)
    ensures var (data, read) := AfterStream(base, s, uri, textOf);
            && (read.Done? || read.NotFound? || read.NotABinary?)
            && (read.Done? <==> uri in Shown(base, s).binaries)
            && (read.Done? ==> data == Shown(base, s).binaries[uri])
  {
    RelativeOf(base, uri);
    var rel := uri[|base|..];
    BinaryUriIff(base, s, uri);
    assert rel in s.files ==> FileKept(s, rel);
  }

  /** Bytes and sidecar written where nothing blocks them. */
  lemma NewBinaryRefines(base: string, s: Snapshot, uri: string, b: Stored)
    requires Kept(base, s) && OwnBinaryName(base, s, uri) && !Reserved(base, uri)
    requires CanWrite(s, uri[|base|..])
    ensures var (s', outcome) := AfterWriteBinary(base, s, uri, b.data, b.contentType);
            outcome.Done? && Kept(base, s') && Shown(base, s') == WithBinary(Shown(base, s), uri, b)
    ensures uri[|base|..] != ""
  {
    RelativeOf(base, uri);
    assert AfterWriteBinary(base, s, uri, b.data, b.contentType).1.Done?;
    WriteBinaryRefines(base, s, uri, b);
    WriteBinaryKept(base, s, uri, b.data, b.contentType);
  }

  lemma NoBinaryWritten(base: string, s: Snapshot, uri: string, b: Stored)
    requires CanonicalBin(base, uri) && (Reserved(base, uri) || !CanWrite(s, uri[|base|..]))
    ensures var (s', outcome) := AfterWriteBinary(base, s, uri, b.data, b.contentType);
            s' == s && !outcome.Done? && (Reserved(base, uri) ==> outcome.PrefixViolation?)
  {
    RelativeOf(base, uri);
  }

  lemma PutBinaryRequestRefines(
      server: Server, s: Snapshot, uri: string, b: Stored, ifMatch: IfMatch<string>, any: bool)
    requires Kept(server.base, s) && OwnBinaryName(server.base, s, uri)
    ensures var (s', status) := PutBinaryOnDisk(server, s, uri, b, ifMatch, any);
            && Kept(server.base, s')
            && (if !CanWrite(s, uri[|server.base|..]) then s' == s
                else (Shown(server.base, s'), status) ==
                     AfterPutBinary(server.base, server.binaryTag, Shown(server.base, s), uri, b, ifMatch, any))
  {
    var base := server.base;
    hide Kept, Shown, Attached, Created, ParentContainerUri, AfterStream, AfterWriteBinary, Reserved, CanWrite,
         WithBinary, EndsWith, CanonicalRdf, IsResolved;
    StreamRefines(base, s, uri, server.textOf);
    if Reserved(base, uri) || !CanWrite(s, uri[|base|..]) {
      NoBinaryWritten(base, s, uri, b);
    } else {
      NewBinaryRefines(base, s, uri, b);
      ParentOfBinary(base, uri);
      CreatedRefines(base, AfterWriteBinary(base, s, uri, b.data, b.contentType).0, uri);
    }
  }

  lemma WriteBodyRefines(base: string, s: Snapshot, uri: string, body: Body)
    requires Kept(base, s) && !Reserved(base, uri)
    requires CanonicalRdf(base, uri) && CanonicalBin(base, uri) && !EndsWith(uri[|base|..], TTL)
    requires body.BinaryBody? ==> uri[|base|..] + META_TTL !in s.dirs
    requires CanWrite(s, BodyPath(uri[|base|..], body))
    ensures var (s', outcome) := WriteBody(base, s, uri, body);
            && outcome.Done? && Kept(base, s')
            && Shown(base, s') == match body
               case RdfBody(graph) => WithGraph(Shown(base, s), uri, graph)
               case BinaryBody(stored) => WithBinary(Shown(base, s), uri, stored)
  {
    RelativeOf(base, uri);
    match body
    case RdfBody(graph) =>
      assert AfterWrite(base, s, uri, graph).1.Done?;
      WriteRefines(base, s, uri, graph);
      WriteKept(base, s, uri, graph);
    case BinaryBody(stored) =>
      assert AfterWriteBinary(base, s, uri, stored.data, stored.contentType).1.Done?;
      WriteBinaryRefines(base, s, uri, stored);
      WriteBinaryKept(base, s, uri, stored.data, stored.contentType);
  }

  lemma WriteBodyBlocked(base: string, s: Snapshot, uri: string, body: Body)
    requires CanonicalRdf(base, uri) && CanonicalBin(base, uri) && !CanWrite(s, BodyPath(uri[|base|..], body))
    ensures var (s', outcome) := WriteBody(base, s, uri, body);
            s' == s && !outcome.Done?
  {
    RelativeOf(base, uri);
  }

  lemma PostRequestRefines(base: string, s: Snapshot, container: string, member: string, body: Body)
    requires Kept(base, s) && CanonicalRdf(base, container)
    requires CanonicalRdf(base, member) && CanonicalBin(base, member) && !EndsWith(member[|base|..], TTL)
    requires body.BinaryBody? ==> member[|base|..] + META_TTL !in s.dirs
    ensures var (s', status) := PostOnDisk(base, s, container, member, body);
            && Kept(base, s')
            && (if container[|base|..] + TTL in s.dirs || !CanWrite(s, BodyPath(member[|base|..], body)) then s' == s
                else (Shown(base, s'), status) == AfterPost(base, Shown(base, s), container, member, body))
  {
    hide Kept, Shown, CanonicalRdf, CanonicalBin, WriteBody, AfterPublicWrite, EndsWith, AfterRead, Reserved, CanWrite,
         WithGraph, WithBinary, BodyPath, IsContainer;
    EmptyIsNoContainer(container);
    CanonicalIsUnder(base, member);
    ReadOfKept(base, s, container);
    if IsStoredContainer(Shown(base, s), container) {
      if !CanWrite(s, BodyPath(member[|base|..], body)) {
        WriteBodyBlocked(base, s, member, body);
      } else if Reserved(base, member) {
        ReservedBody(base, s, member, body);
      } else {
        PostWritten(base, s, container, member, body);
      }
    }
  }

  lemma EmptyIsNoContainer(uri: string)
    ensures !IsContainer({}, uri)
  {
  }

  lemma PostWritten(base: string, s: Snapshot, container: string, member: string, body: Body)
    requires Kept(base, s) && CanonicalRdf(base, container) && !Reserved(base, member)
    requires CanonicalRdf(base, member) && CanonicalBin(base, member) && !EndsWith(member[|base|..], TTL)
    requires body.BinaryBody? ==> member[|base|..] + META_TTL !in s.dirs
    requires CanWrite(s, BodyPath(member[|base|..], body))
    requires IsStoredContainer(Shown(base, s), container)
    ensures var (s', status) := PostOnDisk(base, s, container, member, body);
            && Kept(base, s')
            && (Shown(base, s'), status) == AfterPost(base, Shown(base, s), container, member, body)
  {
    hide Kept, Shown, CanonicalRdf, CanonicalBin, WriteBody, AfterPublicWrite, EndsWith, AfterRead, Reserved, CanWrite,
         WithGraph, WithBinary, BodyPath, IsContainer;
    var pod := Shown(base, s);
    ReadOfKept(base, s, container);
    WriteBodyRefines(base, s, member, body);
    WrittenKeepsGraphs(pod, container, member, body);
    ListedRefines(base, s, container, member, body, pod.graphs[container]);
  }

  lemma WrittenKeepsGraphs(pod: Pod, container: string, member: string, body: Body)
    requires container in pod.graphs
    ensures match body
            case RdfBody(graph) => container in WithGraph(pod, member, graph).graphs
            case BinaryBody(stored) => container in WithBinary(pod, member, stored).graphs
  {
  }

  /** The container's graph, read before the member was written, is written after it. */
  lemma ListedRefines(base: string, s: Snapshot, container: string, member: string, body: Body, g: Graph)
    requires Kept(base, WriteBody(base, s, member, body).0) && CanonicalRdf(base, container)
    requires container in Shown(base, WriteBody(base, s, member, body).0).graphs
    ensures var written := WriteBody(base, s, member, body).0;
            var listing := g + {Triple(Iri(container), LDP_CONTAINS, Iri(member))};
            var (s', outcome) := AfterPublicWrite(base, written, container, listing);
            && Kept(base, s')
            && Shown(base, s') == (if Reserved(base, container) then Shown(base, written)
                                   else WithGraph(Shown(base, written), container, listing))
            && (if Reserved(base, container) then outcome.PrefixViolation? else outcome.Done?)
  {
    RewriteRefines(base, WriteBody(base, s, member, body).0, container,
                   g + {Triple(Iri(container), LDP_CONTAINS, Iri(member))});
  }

  lemma ReservedBody(base: string, s: Snapshot, uri: string, body: Body)
    requires Reserved(base, uri)
    ensures WriteBody(base, s, uri, body) == (s, PrefixViolation)
  {
  }

  lemma DeleteRequestRefines(base: string, s: Snapshot, uri: string)
    requires Kept(base, s) && DeletesItsOwn(base, s, uri)
    ensures var (s', status) := DeleteOnDisk(base, s, uri);
            && Kept(base, s')
            && (if DeleteBlocked(base, s, uri) then s' == s
                else
                  var (pod', answer) := Ldp.AfterDelete(base, Shown(base, s), uri);
                  Shown(base, s') == pod' && (status == answer || status.ServerError500?))
  {
    hide Kept, Shown, CanonicalRdf, Storage.AfterDelete, Detached, DetachOnDisk, ParentContainerUri, OwnBinaryName, Reserved,
         AfterRead, TakesBinaryBranch, Without, DeleteBlocked, IsContainer, ContainsTriples;
    EmptyIsNoContainer(uri);
    ParentOfDocument(base, uri);
    DeleteOutcome(base, s, uri);
    ReadOfKept(base, s, uri);
    if Storage.AfterDelete(base, s, uri).1.Done? && !Reserved(base, uri) {
      LdpContainment.PublicParent(base, uri);
      DetachRefines(base, Storage.AfterDelete(base, s, uri).0, uri);
    }
  }

  /** What is stored under a URI, in the files and in the pod they show. */
  lemma StoredUnder(base: string, s: Snapshot, uri: string)
    requires Kept(base, s) && base <= uri
    ensures uri in Shown(base, s).graphs <==> uri[|base|..] + TTL in s.files
    ensures uri in Shown(base, s).binaries <==>
            uri[|base|..] in s.files && !EndsWith(uri[|base|..], TTL)
  {
    ShownIff(base, s, Shown(base, s));
    MirrorsIff(base, s);
    BinaryUriIff(base, s, uri);
    assert uri[|base|..] in s.files ==> FileKept(s, uri[|base|..]);
  }

  /** The branches of a delete of one's own, by the files it finds. */
  lemma DeleteBranches(base: string, s: Snapshot, uri: string)
    requires WellKept(s) && DeletesItsOwn(base, s, uri)
    ensures base <= uri
    ensures var (rel, (s', outcome)) := (uri[|base|..], Storage.AfterDelete(base, s, uri));
            && (outcome.Done? ==> rel + TTL in s.files || (rel in s.files && !EndsWith(rel, TTL)))
            && (!outcome.Done? ==> s' == s)
            && (outcome.NotFound? ==> rel + TTL !in s.files && (EndsWith(rel, TTL) || rel !in s.files))
            && (outcome.Done? || outcome.NotFound? ||
                (ErrorStatus(outcome).ServerError500? && DeleteBlocked(base, s, uri)))
            && (DeleteBlocked(base, s, uri) ==> !outcome.Done?)
            && (outcome.Done? && rel + TTL !in s.files ==> OwnBinaryName(base, s, uri))
  {
    assert uri[|base|..] in s.files ==> FileKept(s, uri[|base|..]);
    hide EndsWith, Unlink, WellKept, Resolve;
    RelativeOf(base, uri);
  }

  /** A delete of one's own either finds something or changes nothing. */
  lemma DeleteOutcome(base: string, s: Snapshot, uri: string)
    requires Kept(base, s) && DeletesItsOwn(base, s, uri)
    ensures var (s', outcome) := Storage.AfterDelete(base, s, uri);
            var pod := Shown(base, s);
            && (outcome.Done? ==> Kept(base, s') && Shown(base, s') == Without(pod, uri))
            && (outcome.Done? ==> uri in pod.graphs || uri in pod.binaries)
            && (!outcome.Done? ==> s' == s)
            && (outcome.NotFound? ==> uri !in pod.graphs && uri !in pod.binaries)
            && (outcome.Done? || outcome.NotFound? ||
                (ErrorStatus(outcome).ServerError500? && DeleteBlocked(base, s, uri)))
            && (DeleteBlocked(base, s, uri) ==> !outcome.Done?)
  {
    hide Shown, Mirrors, WellKept, Storage.AfterDelete, Without, EndsWith, DeleteBlocked, TakesBinaryBranch, Resolve, IsResolved;
    DeleteBranches(base, s, uri);
    StoredUnder(base, s, uri);
    DeleteKept(base, s, uri);
    if Storage.AfterDelete(base, s, uri).1.Done? {
      DeleteRefines(base, s, uri);
    }
  }

  /** Every request of one's own on the files shows as the request on the pod. */
  lemma StepRefines(server: Server, s: Snapshot, r: Request)
    requires Kept(server.base, s) && NamesOwn(server, s, r)
    ensures StepShows(server, s, r)
  {
    hide Kept, Shown, CanonicalRdf, CanonicalBin, PutRdfOnDisk, PutBinaryOnDisk, PostOnDisk, DeleteOnDisk, CanWrite,
         AfterPutRdf, AfterPutBinary, AfterPost, Ldp.AfterDelete, DeleteBlocked, EndsWith, MintMemberUri, BodyPath, ContainerUri,
         TakesBinaryBranch;
    match r
    case PutRdf(uri, graph, ifMatch, any) => PutRdfRequestRefines(server, s, uri, graph, ifMatch, any);
    case PutBinary(uri, stored, ifMatch, any) => PutBinaryRequestRefines(server, s, uri, stored, ifMatch, any);
    case Post(container, slug, uuid, body) =>
      MintedIsCanonical(server.base, container, slug, uuid);
      PostRequestRefines(server.base, s, container, MintMemberUri(container, slug, uuid), body);
    case Delete(uri) => DeleteRequestRefines(server.base, s, uri);
  }

  // ----------------------------------------------------------------------------- runs

  predicate AllNamesOwn(server: Server, s: Snapshot, rs: seq<Request>) {
    forall n :: 0 <= n < |rs| ==> NamesOwn(server, RunOnDisk(server, s, rs[..n]), rs[n])
  }

  lemma AllNamesOwnPrefix(server: Server, s: Snapshot, rs: seq<Request>)
    requires AllNamesOwn(server, s, rs) && rs != []
    ensures AllNamesOwn(server, s, rs[..|rs| - 1])
    ensures NamesOwn(server, RunOnDisk(server, s, rs[..|rs| - 1]), rs[|rs| - 1])
  {
    var earlier := rs[..|rs| - 1];
    forall n | 0 <= n < |earlier| ensures NamesOwn(server, RunOnDisk(server, s, earlier[..n]), earlier[n]) {
      assert earlier[..n] == rs[..n];
    }
  }

  /** The requests of a run that the file system did not refuse. */
  function Completed(server: Server, s: Snapshot, rs: seq<Request>): seq<Request>
    requires AllNamesOwn(server, s, rs)
  {
    if rs == [] then []
    else
      AllNamesOwnPrefix(server, s, rs);
      var earlier := rs[..|rs| - 1];
      Completed(server, s, earlier)
      + if Blocked(server, RunOnDisk(server, s, earlier), rs[|rs| - 1]) then [] else [rs[|rs| - 1]]
  }

  lemma StepShown(server: Server, s: Snapshot, r: Request)
    requires Kept(server.base, s) && NamesOwn(server, s, r)
    ensures var s' := RespondOnDisk(server, s, r).0;
            && Kept(server.base, s')
            && Shown(server.base, s') ==
               if Blocked(server, s, r) then Shown(server.base, s) else Serve(server, Shown(server.base, s), r)
  {
    hide Kept, Shown, NamesOwn, Blocked, Respond, RespondOnDisk;
    StepRefines(server, s, r);
  }

  /** At the end of every run the files show the pod that the completed requests make. */
  lemma {:induction false} RunRefines(server: Server, s: Snapshot, rs: seq<Request>)
    requires Kept(server.base, s) && AllNamesOwn(server, s, rs)
    ensures Kept(server.base, RunOnDisk(server, s, rs))
    ensures Shown(server.base, RunOnDisk(server, s, rs)) ==
            ServeAll(server, Shown(server.base, s), Completed(server, s, rs))
  {
    hide Kept, Shown, NamesOwn, Blocked, Serve, RespondOnDisk;
    if rs != [] {
      var m := |rs| - 1;
      AllNamesOwnPrefix(server, s, rs);
      hide AllNamesOwn;
      RunRefines(server, s, rs[..m]);
      StepShown(server, RunOnDisk(server, s, rs[..m]), rs[m]);
      ServeOneMore(server, Shown(server.base, s), Completed(server, s, rs[..m]), rs[m]);
    }
  }

  lemma ServeOneMore(server: Server, pod: Pod, rs: seq<Request>, r: Request)
    ensures ServeAll(server, pod, rs + [r]) == Serve(server, ServeAll(server, pod, rs), r)
    ensures rs + [] == rs
  {
    assert (rs + [r])[..|rs|] == rs;
  }
}
