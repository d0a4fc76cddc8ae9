/**
 Restarts after requests.  Whatever PUT, POST and DELETE do under names of their own, the dataset
 goes on mirroring the files; the backend comes up again from them exactly when no request that
 was answered 201 stored anything below a directory called *.ttl.
 */
module LdpRestarts {
  import opened Options
  import opened Rdf
  import opened Containers
  import opened Preconditions
  import opened Paths
  import opened Storage
  import opened StorageAgreement
  import opened StorageRefinesPod
  import opened Ldp
  import opened LdpOnDisk
  import opened LdpRefinement
  import opened LdpRuns
  import LdpContainment

  /** The file a request that creates something creates. */
  function CreatedPath(server: Server, s: Snapshot, r: Request): string
    requires NamesOwn(server, s, r)
  {
    match r
    case PutRdf(uri, _, _, _) => uri[|server.base|..] + TTL
    case PutBinary(uri, _, _, _) => uri[|server.base|..]
    case Post(container, slug, uuid, body) =>
      CanonicalIsUnder(server.base, container);
      BodyPath(MintMemberUri(container, slug, uuid)[|server.base|..], body)
    case Delete(_) => ""
  }

  /** Directories are made for what is created, and for nothing else. */
  predicate MakesDirs(before: Snapshot, after: Snapshot, status: Status, path: string) {
    after.dirs == if status.Created201? then before.dirs + Ancestors(path) else before.dirs
  }

  // -------------------------------------------------------------------- parents and writes

  lemma WriteDirs(base: string, s: Snapshot, uri: string, g: Graph)
    requires CanonicalRdf(base, uri)
    ensures base <= uri
    ensures var (s', outcome) := AfterPublicWrite(base, s, uri, g);
            s'.dirs == if outcome.Done? then s.dirs + Ancestors(uri[|base|..] + TTL) else s.dirs
  {
    RelativeOf(base, uri);
  }

  /** Writing again what is stored makes no directory. */
  lemma RewriteDirs(base: string, s: Snapshot, uri: string, g: Graph)
    requires Kept(base, s) && CanonicalRdf(base, uri) && uri in Shown(base, s).graphs
    ensures AfterPublicWrite(base, s, uri, g).0.dirs == s.dirs
  {
    WriteDirs(base, s, uri, g);
    StoredUnder(base, s, uri);
    assert FileKept(s, uri[|base|..] + TTL);
  }

  lemma AttachDirs(base: string, s: Snapshot, member: string)
    requires Kept(base, s) && CanonicalRdf(base, ParentContainerUri(member, base))
    ensures AttachOnDisk(base, s, member).0.dirs == s.dirs
  {
    hide Kept, Shown, CanonicalRdf, ParentContainerUri, AfterRead, AfterPublicWrite, Ancestors;
    var parent := ParentContainerUri(member, base);
    ReadOfKept(base, s, parent);
    EmptyIsNoContainer(parent);
    if parent in Shown(base, s).graphs {
      RewriteDirs(base, s, parent, Shown(base, s).graphs[parent] + {Triple(Iri(parent), LDP_CONTAINS, Iri(member))});
    }
  }

  lemma DetachDirs(base: string, s: Snapshot, member: string)
    requires Kept(base, s) && CanonicalRdf(base, ParentContainerUri(member, base))
    ensures DetachOnDisk(base, s, member).0.dirs == s.dirs
  {
    hide Kept, Shown, CanonicalRdf, ParentContainerUri, AfterRead, AfterPublicWrite, Ancestors;
    var parent := ParentContainerUri(member, base);
    var t := Triple(Iri(parent), LDP_CONTAINS, Iri(member));
    ReadOfKept(base, s, parent);
    if parent in Shown(base, s).graphs {
      RewriteDirs(base, s, parent, Shown(base, s).graphs[parent] - {t});
    } else if parent[|base|..] + TTL in s.dirs {
      DirectoryRefuses(base, s, parent, {} - {t});
    }
  }

  /** What is attached under a public name is answered 201. */
  lemma CreatedDirs(base: string, s: Snapshot, member: string)
    requires Kept(base, s) && CanonicalRdf(base, ParentContainerUri(member, base))
    requires base <= member && !Reserved(base, member)
    ensures Created(base, s, member).0.dirs == s.dirs && Created(base, s, member).1 == Created201
  {
    hide Kept, Shown, CanonicalRdf, ParentContainerUri, AttachOnDisk, Reserved, IsContainer;
    AttachDirs(base, s, member);
    LdpContainment.PublicParent(base, member);
    AttachRefines(base, s, member);
  }

  // ------------------------------------------------------------------------- requests

  lemma StoreDirs(base: string, s: Snapshot, uri: string, g: Graph, existed: bool)
    requires Kept(base, s) && CanonicalRdf(base, uri)
    requires existed <==> uri in Shown(base, s).graphs || uri[|base|..] + TTL in s.dirs
    ensures var (s', status) := StoreOnDisk(base, s, uri, g, existed);
            MakesDirs(s, s', status, uri[|base|..] + TTL)
  {
    hide Kept, Shown, CanonicalRdf, ParentContainerUri, AfterPublicWrite, Ancestors, Reserved, Created, CanWrite;
    ParentOfDocument(base, uri);
    WriteDirs(base, s, uri, g);
    if uri in Shown(base, s).graphs {
      RewriteDirs(base, s, uri, g);
    }
    if uri[|base|..] + TTL in s.dirs {
      DirectoryRefuses(base, s, uri, g);
    }
    if AfterPublicWrite(base, s, uri, g).1.Done? {
      DoneWrite(base, s, uri, g);
      CreatedDirs(base, AfterPublicWrite(base, s, uri, g).0, uri);
    }
  }

  lemma DoneWrite(base: string, s: Snapshot, uri: string, g: Graph)
    requires Kept(base, s) && CanonicalRdf(base, uri) && AfterPublicWrite(base, s, uri, g).1.Done?
    ensures Kept(base, AfterPublicWrite(base, s, uri, g).0) && !Reserved(base, uri)
  {
    RelativeOf(base, uri);
    NewGraphRefines(base, s, uri, g);
  }

  lemma PutRdfDirs(server: Server, s: Snapshot, uri: string, body: Graph, ifMatch: IfMatch<string>, any: bool)
    requires Kept(server.base, s) && CanonicalRdf(server.base, uri)
    ensures var (s', status) := PutRdfOnDisk(server, s, uri, body, ifMatch, any);
            MakesDirs(s, s', status, uri[|server.base|..] + TTL)
  {
    var base := server.base;
    PutRdfSteps(server, s, uri, body, ifMatch, any);
    var existed := uri in Shown(base, s).graphs || uri[|base|..] + TTL in s.dirs;
    var stored := if existed then Some(GraphOf(Shown(base, s), uri)) else None;
    var decision := DecidePut(server.pick, server.graphTag, stored, uri, body, ifMatch, any);
    AnswerIsNot201(server, stored, uri, body, ifMatch, any);
    hide Kept, DecidePut, Shown, CanonicalRdf, PutRdfOnDisk, StoreOnDisk, Ancestors;
    if decision.Store? {
      StoreDirs(base, s, uri, decision.graph, existed);
    }
  }

  lemma AnswerIsNot201(
      server: Server, stored: Option<Graph>, uri: string, body: Graph, ifMatch: IfMatch<string>, any: bool)
    ensures var d := DecidePut(server.pick, server.graphTag, stored, uri, body, ifMatch, any);
            d.Answer? ==> !d.status.Created201?
  {
  }

  lemma BinaryDirs(base: string, s: Snapshot, uri: string, b: Stored)
    requires Kept(base, s) && OwnBinaryName(base, s, uri)
    ensures var (s', outcome) := AfterWriteBinary(base, s, uri, b.data, b.contentType);
            && s'.dirs == (if outcome.Done? then s.dirs + Ancestors(uri[|base|..]) else s.dirs)
            && (outcome.Done? ==> !Reserved(base, uri) && Kept(base, s') && uri[|base|..] != "")
            && (outcome.Done? && uri in Shown(base, s).binaries ==> s'.dirs == s.dirs)
  {
    hide Kept, Shown;
    if Reserved(base, uri) || !CanWrite(s, uri[|base|..]) {
      NoBinaryWritten(base, s, uri, b);
    } else {
      NewBinaryRefines(base, s, uri, b);
      RelativeOf(base, uri);
      SidecarBeside(s, uri[|base|..]);
      StoredBytes(base, s, uri);
    }
  }

  lemma StoredBytes(base: string, s: Snapshot, uri: string)
    requires Kept(base, s) && base <= uri
    ensures uri in Shown(base, s).binaries ==> Ancestors(uri[|base|..]) <= s.dirs
  {
    StoredUnder(base, s, uri);
    assert uri[|base|..] in s.files ==> FileKept(s, uri[|base|..]);
  }

  lemma PutBinaryDirs(server: Server, s: Snapshot, uri: string, b: Stored, ifMatch: IfMatch<string>, any: bool)
    requires Kept(server.base, s) && OwnBinaryName(server.base, s, uri)
    ensures var (s', status) := PutBinaryOnDisk(server, s, uri, b, ifMatch, any);
            MakesDirs(s, s', status, uri[|server.base|..])
  {
    var base := server.base;
    hide Kept, Shown, Created, ParentContainerUri, AfterStream, AfterWriteBinary, Reserved, EndsWith, CanonicalRdf, IsResolved,
         Ancestors;
    StreamRefines(base, s, uri, server.textOf);
    BinaryDirs(base, s, uri, b);
    if AfterWriteBinary(base, s, uri, b.data, b.contentType).1.Done? {
      ParentOfBinary(base, uri);
      CreatedDirs(base, AfterWriteBinary(base, s, uri, b.data, b.contentType).0, uri);
    }
  }

  /** What is posted, and then the container's listing. */
  lemma PostDirs(base: string, s: Snapshot, container: string, member: string, body: Body)
    requires Kept(base, s) && CanonicalRdf(base, container) && ParentContainerUri(member, base) == container
    requires CanonicalRdf(base, member) && CanonicalBin(base, member) && !EndsWith(member[|base|..], TTL)
    requires body.BinaryBody? ==> member[|base|..] + META_TTL !in s.dirs
    ensures var (s', status) := PostOnDisk(base, s, container, member, body);
            MakesDirs(s, s', status, BodyPath(member[|base|..], body))
  {
    hide Kept, Shown, CanonicalRdf, CanonicalBin, WriteBody, AfterPublicWrite, EndsWith, AfterRead, Reserved, CanWrite,
         BodyPath, IsContainer, ParentContainerUri, Ancestors;
    BodyDirs(base, s, member, body);
    ReadOfKept(base, s, container);
    EmptyIsNoContainer(container);
    if IsStoredContainer(Shown(base, s), container) && WriteBody(base, s, member, body).1.Done? {
      var written := WriteBody(base, s, member, body).0;
      var g := Shown(base, s).graphs[container] + {Triple(Iri(container), LDP_CONTAINS, Iri(member))};
      CanonicalIsUnder(base, member);
      LdpContainment.PublicParent(base, member);
      RewriteRefines(base, written, container, g);
      RewriteDirs(base, written, container, g);
    }
  }

  lemma BodyDirs(base: string, s: Snapshot, uri: string, body: Body)
    requires Kept(base, s)
    requires CanonicalRdf(base, uri) && CanonicalBin(base, uri) && !EndsWith(uri[|base|..], TTL)
    requires body.BinaryBody? ==> uri[|base|..] + META_TTL !in s.dirs
    ensures var (s', outcome) := WriteBody(base, s, uri, body);
            && s'.dirs == (if outcome.Done? then s.dirs + Ancestors(BodyPath(uri[|base|..], body)) else s.dirs)
            && (outcome.Done? ==> !Reserved(base, uri) && Kept(base, s'))
            && (outcome.Done? ==> forall v :: v in Shown(base, s).graphs ==> v in Shown(base, s').graphs)
  {
    match body
    case RdfBody(graph) =>
      WriteDirs(base, s, uri, graph);
      if AfterPublicWrite(base, s, uri, graph).1.Done? {
        RelativeOf(base, uri);
        DoneWrite(base, s, uri, graph);
        NewGraphRefines(base, s, uri, graph);
      }
    case BinaryBody(stored) =>
      BinaryDirs(base, s, uri, stored);
      if AfterWriteBinary(base, s, uri, stored.data, stored.contentType).1.Done? {
        RelativeOf(base, uri);
        NewBinaryRefines(base, s, uri, stored);
      }
  }

  lemma UnlinkingMakesNoDirs(base: string, s: Snapshot, uri: string)
    ensures Storage.AfterDelete(base, s, uri).0.dirs == s.dirs
  {
    hide Resolve;
  }

  lemma DeleteDirs(base: string, s: Snapshot, uri: string)
    requires Kept(base, s) && DeletesItsOwn(base, s, uri)
    ensures DeleteOnDisk(base, s, uri).0.dirs == s.dirs && !DeleteOnDisk(base, s, uri).1.Created201?
  {
    hide Kept, Shown, CanonicalRdf, Storage.AfterDelete, DetachOnDisk, ParentContainerUri, OwnBinaryName, Reserved,
         AfterRead, TakesBinaryBranch, IsContainer, ContainsTriples, DeleteBlocked;
    UnlinkingMakesNoDirs(base, s, uri);
    ParentOfDocument(base, uri);
    DeleteOutcome(base, s, uri);
    if Storage.AfterDelete(base, s, uri).1.Done? {
      DetachDirs(base, Storage.AfterDelete(base, s, uri).0, uri);
    }
  }

  lemma RequestDirs(server: Server, s: Snapshot, r: Request)
    requires Kept(server.base, s) && NamesOwn(server, s, r)
    ensures var (s', status) := RespondOnDisk(server, s, r);
            MakesDirs(s, s', status, CreatedPath(server, s, r))
  {
    hide Kept, Shown, CanonicalRdf, CanonicalBin, PutRdfOnDisk, PutBinaryOnDisk, PostOnDisk, DeleteOnDisk, EndsWith,
         BodyPath, TakesBinaryBranch, Ancestors, ParentContainerUri;
    match r
    case PutRdf(uri, graph, ifMatch, any) => PutRdfDirs(server, s, uri, graph, ifMatch, any);
    case PutBinary(uri, stored, ifMatch, any) => PutBinaryDirs(server, s, uri, stored, ifMatch, any);
    case Post(container, slug, uuid, body) =>
      MintedIsCanonical(server.base, container, slug, uuid);
      MintedInContainer(server.base, container, slug, uuid);
      PostDirs(server.base, s, container, MintMemberUri(container, slug, uuid), body);
    case Delete(uri) => DeleteDirs(server.base, s, uri);
  }

  // ------------------------------------------------------------------------- restarts

  /** If the request created something, no directory on the way to it is called *.ttl. */
  predicate CreatesPlainly(server: Server, s: Snapshot, r: Request)
    requires NamesOwn(server, s, r)
  {
    RespondOnDisk(server, s, r).1.Created201? ==> PlainAbove(CreatedPath(server, s, r))
  }

  lemma RestartStepIff(server: Server, s: Snapshot, r: Request)
    requires Kept(server.base, s) && NamesOwn(server, s, r)
    ensures Agrees(server.base, RespondOnDisk(server, s, r).0) <==>
            Agrees(server.base, s) && CreatesPlainly(server, s, r)
  {
    hide NamesOwn, WellKept, RespondOnDisk, Mirrors, Blocked, CreatedPath, Shown, EndsWith;
    StepShown(server, s, r);
    RequestDirs(server, s, r);
    AgreesParts(server.base, s);
    AgreesParts(server.base, RespondOnDisk(server, s, r).0);
  }

  predicate AllPlainly(server: Server, s: Snapshot, rs: seq<Request>)
    requires AllNamesOwn(server, s, rs)
  {
    forall n :: 0 <= n < |rs| ==> CreatesPlainly(server, RunOnDisk(server, s, rs[..n]), rs[n])
  }

  lemma AllPlainlyStep(server: Server, s: Snapshot, rs: seq<Request>)
    requires AllNamesOwn(server, s, rs) && rs != []
    ensures var earlier := rs[..|rs| - 1];
            && AllNamesOwn(server, s, earlier) && NamesOwn(server, RunOnDisk(server, s, earlier), rs[|rs| - 1])
            && (AllPlainly(server, s, rs) <==>
                AllPlainly(server, s, earlier) && CreatesPlainly(server, RunOnDisk(server, s, earlier), rs[|rs| - 1]))
  {
    hide NamesOwn, CreatesPlainly, RunOnDisk;
    AllNamesOwnPrefix(server, s, rs);
    var m := |rs| - 1;
    var earlier := rs[..m];
    if AllPlainly(server, s, rs) {
      forall n | 0 <= n < m ensures CreatesPlainly(server, RunOnDisk(server, s, earlier[..n]), earlier[n]) {
        assert earlier[..n] == rs[..n];
        assert CreatesPlainly(server, RunOnDisk(server, s, rs[..n]), rs[n]);
      }
      assert CreatesPlainly(server, RunOnDisk(server, s, rs[..m]), rs[m]);
    } else {
      var n :| 0 <= n < |rs| && !CreatesPlainly(server, RunOnDisk(server, s, rs[..n]), rs[n]);
      assert n < m ==> earlier[..n] == rs[..n] && earlier[n] == rs[n];
    }
  }

  /**
   After any run of requests under names of their own a restart comes up with the dataset there is,
   exactly when it would have before and nothing was created below a directory called *.ttl.
   */
  lemma {:induction false} RestartsIff(server: Server, s: Snapshot, rs: seq<Request>)
    requires Kept(server.base, s) && AllNamesOwn(server, s, rs)
    ensures Agrees(server.base, RunOnDisk(server, s, rs)) <==> Agrees(server.base, s) && AllPlainly(server, s, rs)
  {
    hide Kept, Agrees, NamesOwn, CreatesPlainly, RespondOnDisk;
    if rs != [] {
      var earlier := rs[..|rs| - 1];
      AllPlainlyStep(server, s, rs);
      hide AllNamesOwn, AllPlainly;
      RestartsIff(server, s, earlier);
      RunRefines(server, s, earlier);
      RestartStepIff(server, RunOnDisk(server, s, earlier), rs[|rs| - 1]);
    }
  }

  /** The state a first startup leaves is one to restart from. */
  lemma SeededRestarts(server: Server)
    ensures Agrees(server.base, Seeded(server.base))
  {
    hide Mirrors, WellKept, Shown, SYSTEM_DIRS, EndsWith;
    SeededIsHealthy(server);
    SystemDirsArePlain();
    AgreesParts(server.base, Seeded(server.base));
  }

  lemma SystemDirsArePlain()
    ensures PlainDirs(SYSTEM_DIRS)
  {
    forall d | d in SYSTEM_DIRS ensures !EndsWith(d, TTL) {
      assert d == "" || d[|d| - 1] in "msg";
      assert TTL[|TTL| - 1] == 'l';
      assert |d| >= |TTL| ==> d[|d| - |TTL|..][|TTL| - 1] == d[|d| - 1];
    }
  }
}
