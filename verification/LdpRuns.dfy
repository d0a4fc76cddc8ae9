/**
 Whole runs of PUT, POST and DELETE on the files: containment stays sound, every resource stays
 reachable from the root, and a container can be got and put back at any point.
 */
module LdpRuns {
  import opened Rdf
  import opened Containers
  import opened Preconditions
  import opened Paths
  import opened Storage
  import opened StorageAgreement
  import opened StorageRefinesPod
  import opened Ldp
  import opened LdpOnDisk
  import opened LdpRefinement
  import opened LdpContainment
  import opened LdpReachability
  import opened LdpRoundTrip

  /** The request uses a name of its own, and respects containment in what the files show. */
  ghost predicate Sound(server: Server, s: Snapshot, r: Request) {
    NamesOwn(server, s, r) && RespectsContainment(server, Shown(server.base, s), r)
  }

  ghost predicate AllSound(server: Server, s: Snapshot, rs: seq<Request>) {
    forall n :: 0 <= n < |rs| ==> Sound(server, RunOnDisk(server, s, rs[..n]), rs[n])
  }

  lemma AllSoundPrefix(server: Server, s: Snapshot, rs: seq<Request>)
    requires AllSound(server, s, rs) && rs != []
    ensures AllSound(server, s, rs[..|rs| - 1])
    ensures Sound(server, RunOnDisk(server, s, rs[..|rs| - 1]), rs[|rs| - 1])
  {
    hide Sound, RunOnDisk;
    var earlier := rs[..|rs| - 1];
    forall n | 0 <= n < |earlier| ensures Sound(server, RunOnDisk(server, s, earlier[..n]), earlier[n]) {
      assert earlier[..n] == rs[..n];
    }
  }

  lemma SoundStep(server: Server, s: Snapshot, r: Request)
    requires Kept(server.base, s) && ContainmentSound(server.base, Shown(server.base, s)) && Sound(server, s, r)
    ensures var s' := RespondOnDisk(server, s, r).0;
            Kept(server.base, s') && ContainmentSound(server.base, Shown(server.base, s'))
  {
    hide Kept, Shown, ContainmentSound, NamesOwn, Blocked, RespectsContainment, Serve, RespondOnDisk;
    StepShown(server, s, r);
    SoundServe(server, Shown(server.base, s), r);
  }

  /** Containment stays sound over every run of requests. */
  lemma {:induction false} ContainmentStaysSound(server: Server, s: Snapshot, rs: seq<Request>)
    requires Kept(server.base, s) && ContainmentSound(server.base, Shown(server.base, s)) && AllSound(server, s, rs)
    ensures Kept(server.base, RunOnDisk(server, s, rs))
    ensures ContainmentSound(server.base, Shown(server.base, RunOnDisk(server, s, rs)))
  {
    hide Kept, Shown, ContainmentSound, Sound, RespondOnDisk;
    if rs != [] {
      AllSoundPrefix(server, s, rs);
      hide AllSound;
      ContainmentStaysSound(server, s, rs[..|rs| - 1]);
      SoundStep(server, RunOnDisk(server, s, rs[..|rs| - 1]), rs[|rs| - 1]);
    }
  }

  // -------------------------------------------------------------------- reachability

  ghost predicate Planted(server: Server, s: Snapshot, r: Request) {
    Sound(server, s, r) && RespectsTree(server, Shown(server.base, s), r)
  }

  ghost predicate AllPlanted(server: Server, s: Snapshot, rs: seq<Request>) {
    forall n :: 0 <= n < |rs| ==> Planted(server, RunOnDisk(server, s, rs[..n]), rs[n])
  }

  lemma AllPlantedPrefix(server: Server, s: Snapshot, rs: seq<Request>)
    requires AllPlanted(server, s, rs) && rs != []
    ensures AllPlanted(server, s, rs[..|rs| - 1])
    ensures Planted(server, RunOnDisk(server, s, rs[..|rs| - 1]), rs[|rs| - 1])
  {
    hide Planted, RunOnDisk;
    var earlier := rs[..|rs| - 1];
    forall n | 0 <= n < |earlier| ensures Planted(server, RunOnDisk(server, s, earlier[..n]), earlier[n]) {
      assert earlier[..n] == rs[..n];
    }
  }

  /** The files are kept, containment is sound, and every resource is listed by its parent. */
  ghost predicate Healthy(server: Server, s: Snapshot) {
    && Kept(server.base, s)
    && ContainmentSound(server.base, Shown(server.base, s))
    && TreeInv(server.base, Shown(server.base, s))
  }

  lemma HealthyStep(server: Server, s: Snapshot, r: Request)
    requires RootBase(server.base) && Picks(server.pick) && Healthy(server, s) && Planted(server, s, r)
    ensures Healthy(server, RespondOnDisk(server, s, r).0)
  {
    SoundStep(server, s, r);
    hide Kept, Shown, ContainmentSound, TreeInv, NamesOwn, Blocked, RespectsContainment, RespectsTree, Serve, RespondOnDisk;
    StepShown(server, s, r);
    TreeServe(server, Shown(server.base, s), r);
  }

  lemma {:induction false} StaysHealthy(server: Server, s: Snapshot, rs: seq<Request>)
    requires RootBase(server.base) && Picks(server.pick) && Healthy(server, s) && AllPlanted(server, s, rs)
    ensures Healthy(server, RunOnDisk(server, s, rs))
  {
    hide Healthy, Planted, RespondOnDisk;
    if rs != [] {
      AllPlantedPrefix(server, s, rs);
      hide AllPlanted;
      StaysHealthy(server, s, rs[..|rs| - 1]);
      HealthyStep(server, RunOnDisk(server, s, rs[..|rs| - 1]), rs[|rs| - 1]);
    }
  }

  /** In every state of such a run every resource of the tree is reached from the root. */
  lemma EveryResourceReachable(server: Server, s: Snapshot, rs: seq<Request>, uri: string)
    requires RootBase(server.base) && Picks(server.pick) && Healthy(server, s) && AllPlanted(server, s, rs)
    requires Resource(Shown(server.base, RunOnDisk(server, s, rs)), uri) && InTree(server.base, uri)
    ensures exists chain :: Chain(server.base, Shown(server.base, RunOnDisk(server, s, rs)), chain, uri)
  {
    hide RunOnDisk, AllPlanted, Shown, TreeInv, Chain, Resource, InTree;
    StaysHealthy(server, s, rs);
    ChainToRoot(server.base, Shown(server.base, RunOnDisk(server, s, rs)), uri);
  }

  // ------------------------------------------------------------------- the first state

  const SYSTEM_DIRS: set<string> :=
    {"", ".system", ".system/views", ".system/tokens", ".system/tokens/policies", ".system/access-log"}

  /** An empty storage root after startup, once the root container is seeded. */
  function Seeded(base: string): Snapshot {
    Snapshot(map[TTL := Turtle(RootGraph(base))], SYSTEM_DIRS, map[base := RootGraph(base)])
  }

  lemma RootPath(base: string)
    ensures RdfPath(base, base) == Within(TTL) && CanonicalRdf(base, base) && Ancestors(TTL) == {}
    ensures !Reserved(base, base)
  {
    assert RemovePrefix(base, base) == "" && base[|base|..] == "" && "" + TTL == TTL;
    SegmentIsResolved(TTL);
    EmptySegment();
  }

  lemma NoSystemDirAtRoot()
    ensures TTL !in SYSTEM_DIRS
  {
    assert TTL[1] == 't';
    assert forall d :: d in SYSTEM_DIRS ==> |d| < 2 || d[1] == 's';
  }

  lemma EmptyIsKept(base: string)
    ensures var s := Snapshot(map[], SYSTEM_DIRS, map[]);
            Kept(base, s) && Shown(base, s) == Pod(map[], map[])
  {
    MirrorsIff(base, Snapshot(map[], SYSTEM_DIRS, map[]));
  }

  /** Startup leaves a state the theorems start from. */
  lemma SeededIsHealthy(server: Server)
    ensures var s := Seeded(server.base);
            AfterPublicWrite(server.base, Snapshot(map[], SYSTEM_DIRS, map[]), server.base, RootGraph(server.base))
            == (s, Done)
    ensures Healthy(server, Seeded(server.base))
  {
    var base, empty, root := server.base, Snapshot(map[], SYSTEM_DIRS, map[]), RootGraph(server.base);
    RootPath(base);
    NoSystemDirAtRoot();
    EmptyIsKept(base);
    SeededPod(base);
    hide RootGraph, CanonicalRdf, RdfPath, Reserved, Mirrors, Shown, SYSTEM_DIRS, TTL, Ancestors, WellKept, ContainmentSound, TreeInv;
    assert empty.dirs + Ancestors(TTL) == empty.dirs;
    assert CanWrite(empty, TTL);
    assert AfterWrite(base, empty, base, root) == (Seeded(base), Done);
    WriteRefines(base, empty, base, root);
    WriteKept(base, empty, base, root);
  }

  // ------------------------------------------------------------- round trips at any time

  /** Names of their own, and no PUT that configures the container at uri otherwise. */
  ghost predicate AllPlain(server: Server, s: Snapshot, rs: seq<Request>, uri: string) {
    forall n :: 0 <= n < |rs| ==>
      && NamesOwn(server, RunOnDisk(server, s, rs[..n]), rs[n])
      && PlainBody(Shown(server.base, RunOnDisk(server, s, rs[..n])), rs[n], uri)
  }

  lemma AllPlainPrefix(server: Server, s: Snapshot, rs: seq<Request>, uri: string)
    requires AllPlain(server, s, rs, uri) && rs != []
    ensures AllPlain(server, s, rs[..|rs| - 1], uri)
    ensures NamesOwn(server, RunOnDisk(server, s, rs[..|rs| - 1]), rs[|rs| - 1])
    ensures PlainBody(Shown(server.base, RunOnDisk(server, s, rs[..|rs| - 1])), rs[|rs| - 1], uri)
  {
    hide NamesOwn, PlainBody, Shown, RunOnDisk;
    var earlier := rs[..|rs| - 1];
    forall n | 0 <= n < |earlier|
      ensures NamesOwn(server, RunOnDisk(server, s, earlier[..n]), earlier[n])
      ensures PlainBody(Shown(server.base, RunOnDisk(server, s, earlier[..n])), earlier[n], uri)
    {
      assert earlier[..n] == rs[..n];
    }
  }

  /** Members come and go, and the container stays as a PUT left it. */
  lemma {:induction false} StaysClean(server: Server, s: Snapshot, rs: seq<Request>, uri: string)
    requires Picks(server.pick) && uri != "" && uri[|uri| - 1] == '/'
    requires Kept(server.base, s) && CleanAt(Shown(server.base, s), uri) && AllPlain(server, s, rs, uri)
    ensures Kept(server.base, RunOnDisk(server, s, rs))
    ensures CleanAt(Shown(server.base, RunOnDisk(server, s, rs)), uri)
  {
    hide Kept, CleanAt, Shown, NamesOwn, PlainBody, RespondOnDisk, Serve, Blocked;
    if rs != [] {
      AllPlainPrefix(server, s, rs, uri);
      hide AllPlain;
      StaysClean(server, s, rs[..|rs| - 1], uri);
      var before := RunOnDisk(server, s, rs[..|rs| - 1]);
      StepShown(server, before, rs[|rs| - 1]);
      CleanServe(server, Shown(server.base, before), rs[|rs| - 1], uri);
    }
  }

  lemma StoredIsWritable(base: string, s: Snapshot, uri: string)
    requires Kept(base, s) && uri in Shown(base, s).graphs
    ensures base <= uri && CanWrite(s, uri[|base|..] + TTL)
  {
    StoredCanWrite(s, uri[|base|..] + TTL);
  }

  /** What was got of the container at uri under these flags, put back with its tag. */
  function PutBack(server: Server, s: Snapshot, uri: string, flags: Flags): (Snapshot, Status) {
    var g := GraphOf(Shown(server.base, s), uri);
    PutRdfOnDisk(server, s, uri, Representation(server.pick, g, uri, flags), Tag(server.graphTag(g)), false)
  }

  lemma RoundTripOnDisk(server: Server, s: Snapshot, uri: string, flags: Flags)
    requires Picks(server.pick) && CanonicalRdf(server.base, uri) && !Reserved(server.base, uri)
    requires Kept(server.base, s) && CleanAt(Shown(server.base, s), uri) && uri in Shown(server.base, s).graphs
    ensures var pod, (after, status) := Shown(server.base, s), PutBack(server, s, uri, flags);
            && status == Ok200 && Kept(server.base, after)
            && Shown(server.base, after) == WithGraph(pod, uri, pod.graphs[uri] + Types(uri))
  {
    StoredIsWritable(server.base, s, uri);
    hide Shown, Kept, CleanContainer, CanWrite, PutRdfOnDisk, AfterPutRdf, Representation, CanonicalRdf, Types, Reserved;
    var pod := Shown(server.base, s);
    var g := pod.graphs[uri];
    GetThenPut(server.base, server.pick, server.pick, server.graphTag, pod, uri, flags);
    PutRdfRequestRefines(server, s, uri, Representation(server.pick, g, uri, flags), Tag(server.graphTag(g)), false);
  }

  /**
   After any such run a GET of the container under any Prefer flags, put back with its ETag, is
   answered 200, and the files then show the old graph plus the three LDP types, whatever was
   created or deleted in the container before; a second round trip changes nothing.
   */
  lemma RoundTripAtAnyTime(server: Server, s: Snapshot, rs: seq<Request>, uri: string, flags: Flags, again: Flags)
    requires Picks(server.pick) && uri != "" && uri[|uri| - 1] == '/'
    requires CanonicalRdf(server.base, uri) && !Reserved(server.base, uri)
    requires Kept(server.base, s) && CleanAt(Shown(server.base, s), uri) && AllPlain(server, s, rs, uri)
    requires uri in Shown(server.base, RunOnDisk(server, s, rs)).graphs
    ensures var before := RunOnDisk(server, s, rs);
            var pod, (after, status) := Shown(server.base, before), PutBack(server, before, uri, flags);
            var (later, second) := PutBack(server, after, uri, again);
            && status == Ok200 && Shown(server.base, after) == WithGraph(pod, uri, pod.graphs[uri] + Types(uri))
            && second == Ok200 && Shown(server.base, later) == Shown(server.base, after)
  {
    hide Shown, Kept, CleanContainer, PutBack, CanonicalRdf, AllPlain, RunOnDisk, Types, Reserved;
    StaysClean(server, s, rs, uri);
    var before := RunOnDisk(server, s, rs);
    RoundTripOnDisk(server, before, uri, flags);
    var g := Shown(server.base, before).graphs[uri];
    RoundTripStaysClean(g, uri);
    var after := PutBack(server, before, uri, flags).0;
    RoundTripOnDisk(server, after, uri, again);
    assert g + Types(uri) + Types(uri) == g + Types(uri);
    SameGraph(Shown(server.base, after), uri);
  }

  lemma SameGraph(pod: Pod, uri: string)
    requires uri in pod.graphs
    ensures WithGraph(pod, uri, pod.graphs[uri]) == pod
  {
  }
}
