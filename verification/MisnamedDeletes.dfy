/**
 A DELETE whose name resolves to somebody else's file.  The backend looks for the RDF file of
 the URI first and, not finding it, takes whatever file has the URI itself as its path: "y.ttl"
 is the file of the document "y", "a/.ttl" that of the container "a/", and "a/" the binary "a".
 Such a delete passes the guard that protects non-empty containers, and detaches nothing.  It is
 shown exactly when containment stays sound under a delete, and when the tree holds together.
 */
module MisnamedDeletes {
  import opened Rdf
  import opened Containers
  import opened Paths
  import opened Storage
  import opened StorageAgreement
  import opened StorageRefinesPod
  import opened Ldp
  import opened LdpOnDisk
  import opened LdpRefinement
  import opened LdpContainment
  import opened LdpReachability

  /** The delete unlinks a file that is not the URI's own, or bytes whose sidecar it cannot unlink. */
  predicate Astray(base: string, s: Snapshot, uri: string) {
    !Reserved(base, uri) && TakesBinaryBranch(base, s, uri) && !OwnBinaryName(base, s, uri)
  }

  /** The URI of what is kept in the file. */
  function Keeper(base: string, path: string): string {
    if EndsWith(path, TTL) then PathToUri(base, path) else base + path
  }

  /** What the delete unlinks. */
  function Victim(base: string, s: Snapshot, uri: string): string
    requires Astray(base, s, uri)
  {
    Keeper(base, BinPath(base, uri).value)
  }

  // ------------------------------------------------------------- what goes and what stays

  /** The pods differ by the victim, and by sidecars. */
  ghost predicate Bereft(before: Pod, after: Pod, victim: string, document: bool) {
    && (forall v :: v in after.graphs ==> v in before.graphs && after.graphs[v] == before.graphs[v])
    && (forall v :: v in before.graphs ==> v in after.graphs || (document && v == victim) || EndsWith(v, META))
    && (document ==> victim !in after.graphs && victim in before.graphs && after.binaries == before.binaries)
    && (!document ==> victim in before.binaries && after.binaries == before.binaries - {victim})
  }

  /** The file is gone, and its sidecar's too if it could be unlinked. */
  ghost predicate Unlinked(s: Snapshot, s': Snapshot, bin: string, sidecar: bool) {
    && (forall p :: p in s'.files <==> p in s.files && p != bin && !(sidecar && p == bin + META_TTL))
    && (forall p :: p in s'.files ==> s'.files[p] == s.files[p])
  }

  /** Of the dataset, at most sidecars are gone. */
  ghost predicate DatasetKept(s: Snapshot, s': Snapshot) {
    && (forall v :: v in s'.dataset ==> v in s.dataset && s'.dataset[v] == s.dataset[v])
    && (forall v :: v in s.dataset && v !in s'.dataset ==> EndsWith(v, META))
  }

  lemma GraphsShown(base: string, s: Snapshot, v: string)
    ensures v in Shown(base, s).graphs <==> v in s.dataset && base <= v && v[|base|..] + TTL in s.files
    ensures v in Shown(base, s).graphs ==> Shown(base, s).graphs[v] == s.dataset[v]
  {
  }

  lemma GraphsBereft(base: string, s: Snapshot, s': Snapshot, bin: string, sidecar: bool)
    requires Unlinked(s, s', bin, sidecar) && DatasetKept(s, s')
    ensures var before, after := Shown(base, s).graphs, Shown(base, s').graphs;
            && (forall v :: v in after ==> v in before && after[v] == before[v])
            && (forall v :: v in before ==>
                  v in after || (EndsWith(bin, TTL) && v == Keeper(base, bin)) || EndsWith(v, META))
  {
    var before, after := Shown(base, s).graphs, Shown(base, s').graphs;
    hide Shown, EndsWith, Keeper;
    forall v | v in after ensures v in before && after[v] == before[v] {
      GraphsShown(base, s, v);
      GraphsShown(base, s', v);
    }
    forall v | v in before ensures v in after || (EndsWith(bin, TTL) && v == Keeper(base, bin)) || EndsWith(v, META) {
      GraphsShown(base, s, v);
      GraphsShown(base, s', v);
      GraphGone(base, v, bin);
    }
  }

  lemma DocumentGone(base: string, s: Snapshot, s': Snapshot, bin: string, sidecar: bool)
    requires Kept(base, s) && bin in s.files && Unlinked(s, s', bin, sidecar) && EndsWith(bin, TTL)
    ensures var victim := Keeper(base, bin);
            victim in Shown(base, s).graphs && victim !in Shown(base, s').graphs
  {
    UriOfPath(base, bin);
    RelativeOf(base, Keeper(base, bin));
    MirrorsIff(base, s);
  }

  /** Both unlinkings, as the reads see them. */
  lemma UnlinkedShown(base: string, s: Snapshot, bin: string, sidecar: bool, s': Snapshot)
    requires Kept(base, s) && bin in s.files && Unlinked(s, s', bin, sidecar) && DatasetKept(s, s')
    ensures Bereft(Shown(base, s), Shown(base, s'), Keeper(base, bin), EndsWith(bin, TTL))
  {
    hide Shown, EndsWith, Keeper, Kept, Unlinked, DatasetKept;
    GraphsBereft(base, s, s', bin, sidecar);
    BinariesGone(base, s, s', bin, sidecar);
    KeeperOfBinary(base, bin);
    if EndsWith(bin, TTL) {
      DocumentGone(base, s, s', bin, sidecar);
    }
  }

  lemma KeeperOfBinary(base: string, bin: string)
    ensures !EndsWith(bin, TTL) ==> Keeper(base, bin) == base + bin
  {
  }

  lemma GraphGone(base: string, v: string, bin: string)
    requires base <= v
    ensures v[|base|..] + TTL == bin ==> EndsWith(bin, TTL) && v == Keeper(base, bin)
    ensures v[|base|..] + TTL == bin + META_TTL ==> EndsWith(v, META)
  {
    RelativeOf(base, v);
    var rel := v[|base|..];
    if rel + TTL == bin {
      assert bin[|bin| - |TTL|..] == TTL && bin[..|bin| - |TTL|] == rel;
    }
    if rel + TTL == bin + META_TTL {
      assert META_TTL == META + TTL;
      assert rel == (rel + TTL)[..|rel|] == (bin + META_TTL)[..|bin| + |META|] == bin + META;
      assert v == (base + bin) + META;
      assert v[|v| - |META|..] == META;
    }
  }

  lemma BinaryFile(base: string, s: Snapshot, v: string)
    ensures v in Shown(base, s).binaries <==> base <= v && v[|base|..] in s.files && s.files[v[|base|..]].Binary?
    ensures v in Shown(base, s).binaries ==> Binary(Shown(base, s).binaries[v]) == s.files[v[|base|..]]
  {
    BinaryUriIff(base, s, v);
  }

  lemma FormOfFile(base: string, s: Snapshot, p: string)
    requires Kept(base, s) && p in s.files
    ensures EndsWith(p, TTL) <==> s.files[p].Turtle?
  {
    assert FileKept(s, p);
  }

  lemma BinariesGone(base: string, s: Snapshot, s': Snapshot, bin: string, sidecar: bool)
    requires Kept(base, s) && bin in s.files && Unlinked(s, s', bin, sidecar)
    ensures var before, after := Shown(base, s).binaries, Shown(base, s').binaries;
            if EndsWith(bin, TTL) then after == before
            else base + bin in before && after == before - {base + bin}
  {
    hide Shown, EndsWith, Kept;
    var before, after := Shown(base, s).binaries, Shown(base, s').binaries;
    MetaEndsInTtl(bin);
    FormOfFile(base, s, bin);
    if bin + META_TTL in s.files {
      FormOfFile(base, s, bin + META_TTL);
    }
    forall v ensures v in after <==> v in before && (EndsWith(bin, TTL) || v != base + bin)
             ensures v in after ==> after[v] == before[v]
    {
      BinaryFile(base, s, v);
      BinaryFile(base, s', v);
      if base <= v {
        RelativeOf(base, v);
      }
    }
    BinaryFile(base, s, base + bin);
    assert (base + bin)[|base|..] == bin;
    assert EndsWith(bin, TTL) ==> after == before;
  }

  /** The name itself is no resource: its document is not there, and the file is another's. */
  lemma NotResource(base: string, s: Snapshot, uri: string)
    requires Kept(base, s) && CanonicalRdf(base, uri)
    requires TakesBinaryBranch(base, s, uri) && !(CanonicalBin(base, uri) && !EndsWith(uri[|base|..], TTL))
    ensures !Resource(Shown(base, s), uri)
  {
    RelativeOf(base, uri);
    var rel := uri[|base|..];
    BinaryFile(base, s, uri);
    GraphsShown(base, s, uri);
    if rel in s.files {
      FormOfFile(base, s, rel);
      assert FileKept(s, rel);
    }
  }

  /** So it is listed nowhere. */
  lemma NotListed(base: string, pod: Pod, uri: string, v: string, t: Triple)
    requires ContainmentSound(base, pod) && !Resource(pod, uri) && v in pod.graphs
    requires t.p == LDP_CONTAINS && t.o == Iri(uri)
    ensures t !in pod.graphs[v]
  {
    assert t in pod.graphs[v] ==> SoundTriple(base, pod, v, t);
  }

  /** Writing again what is stored changes nothing. */
  lemma RewriteIdle(base: string, s: Snapshot, uri: string, g: Graph)
    requires CanonicalRdf(base, uri)
    requires var path := uri[|base|..] + TTL;
             path in s.files && s.files[path] == Turtle(g) && uri in s.dataset && s.dataset[uri] == g && Ancestors(path) <= s.dirs
    ensures AfterPublicWrite(base, s, uri, g).0 == s
  {
    RelativeOf(base, uri);
    var path := uri[|base|..] + TTL;
    assert s.files[path := Turtle(g)] == s.files;
    assert s.dataset[uri := g] == s.dataset;
    assert s.dirs + Ancestors(path) == s.dirs;
  }

  /** What a read finds where only some files are gone. */
  lemma ReadLater(base: string, s: Snapshot, s1: Snapshot, uri: string)
    requires Kept(base, s) && CanonicalRdf(base, uri) && s1.dirs == s.dirs
    requires forall p :: p in s1.files ==> p in s.files && s1.files[p] == s.files[p]
    requires uri in s.dataset ==> uri in s1.dataset && s1.dataset[uri] == s.dataset[uri]
    requires uri in s1.dataset ==> uri in s.dataset
    ensures base <= uri
    ensures var path, (g, read) := uri[|base|..] + TTL, AfterRead(base, s1, uri);
            if path in s1.files then
              && uri in Shown(base, s).graphs && g == Shown(base, s).graphs[uri] && read.Done?
              && s1.files[path] == Turtle(g) && uri in s1.dataset && s1.dataset[uri] == g && Ancestors(path) <= s1.dirs
            else (read.Done? && path in s1.dirs) || read.NotFound?
  {
    RelativeOf(base, uri);
    MirrorsIff(base, s);
    var path := uri[|base|..] + TTL;
    assert path in s.files ==> FileKept(s, path);
  }

  /** Detaching after such a delete writes the parent as it was, or not at all. */
  lemma DetachIdle(base: string, s: Snapshot, s1: Snapshot, uri: string)
    requires Kept(base, s) && CanonicalRdf(base, ParentContainerUri(uri, base))
    requires s1.dirs == s.dirs
    requires forall p :: p in s1.files ==> p in s.files && s1.files[p] == s.files[p]
    requires var parent := ParentContainerUri(uri, base);
             && (parent in s.dataset ==> parent in s1.dataset && s1.dataset[parent] == s.dataset[parent])
             && (parent in s1.dataset ==> parent in s.dataset)
             && (parent in Shown(base, s).graphs ==>
                   Triple(Iri(parent), LDP_CONTAINS, Iri(uri)) !in Shown(base, s).graphs[parent])
    ensures DetachOnDisk(base, s1, uri).0 == s1
  {
    hide ParentContainerUri, Kept, CanonicalRdf, Shown, AfterRead, AfterPublicWrite, Ancestors;
    var parent := ParentContainerUri(uri, base);
    ReadLater(base, s, s1, parent);
    var g, t := AfterRead(base, s1, parent).0, Triple(Iri(parent), LDP_CONTAINS, Iri(uri));
    if parent[|base|..] + TTL in s1.files {
      assert g - {t} == g;
      RewriteIdle(base, s1, parent, g);
    } else if parent[|base|..] + TTL in s1.dirs {
      DirectoryRefuses(base, s1, parent, g - {t});
    }
  }

  lemma AstrayUnlinks(base: string, s: Snapshot, uri: string)
    requires CanonicalRdf(base, uri) && Astray(base, s, uri)
    ensures var bin, (s1, outcome) := BinPath(base, uri).value, AfterPublicDelete(base, s, uri);
            && s1.dirs == s.dirs && Unlinked(s, s1, bin, bin + META_TTL !in s.dirs) && DatasetKept(s, s1)
            && s1.dataset.Keys >= s.dataset.Keys - {uri + META}
            && (outcome.Done? <==> bin + META_TTL !in s.dirs)
            && DeleteOnDisk(base, s, uri).0 == (if outcome.Done? then DetachOnDisk(base, s1, uri).0 else s1)
  {
    RelativeOf(base, uri);
    hide DetachOnDisk;
    assert EndsWith(uri + META, META) by {
      assert (uri + META)[|uri|..] == META;
    }
  }

  lemma AstrayFile(base: string, s: Snapshot, uri: string)
    requires CanonicalRdf(base, uri) && Astray(base, s, uri)
    ensures base <= uri && BinPath(base, uri).Within? && BinPath(base, uri).value in s.files
    ensures BinPath(base, uri).value + META_TTL !in s.dirs ==>
              TakesBinaryBranch(base, s, uri) && !(CanonicalBin(base, uri) && !EndsWith(uri[|base|..], TTL))
  {
    RelativeOf(base, uri);
  }

  lemma SidecarIsLonger(uri: string, v: string)
    requires |v| <= |uri|
    ensures v != uri + META
  {
  }

  /** Everything a delete astray does: the victim's file is gone, and nothing is detached. */
  lemma AstrayShown(base: string, s: Snapshot, uri: string)
    requires Kept(base, s) && ContainmentSound(base, Shown(base, s))
    requires CanonicalRdf(base, uri) && Astray(base, s, uri)
    ensures Bereft(Shown(base, s), Shown(base, DeleteOnDisk(base, s, uri).0), Victim(base, s, uri),
                   EndsWith(BinPath(base, uri).value, TTL))
  {
    hide ParentContainerUri, Kept, CanonicalRdf, Shown, DeleteOnDisk, AfterPublicDelete, Ancestors, DetachOnDisk, Astray,
         TakesBinaryBranch, EndsWith, CanonicalBin, ContainmentSound, Bereft, BinPath, Keeper;
    AstrayFile(base, s, uri);
    var bin := BinPath(base, uri).value;
    AstrayUnlinks(base, s, uri);
    var (s1, outcome) := AfterPublicDelete(base, s, uri);
    UnlinkedShown(base, s, bin, bin + META_TTL !in s.dirs, s1);
    if outcome.Done? {
      ParentOfDocument(base, uri);
      ParentIsNoLonger(base, uri);
      var parent := ParentContainerUri(uri, base);
      SidecarIsLonger(uri, parent);
      NotResource(base, s, uri);
      if parent in Shown(base, s).graphs {
        NotListed(base, Shown(base, s), uri, parent, Triple(Iri(parent), LDP_CONTAINS, Iri(uri)));
      }
      DetachIdle(base, s, s1, uri);
    }
  }

  lemma ParentIsNoLonger(base: string, uri: string)
    requires base <= uri
    ensures |ParentContainerUri(uri, base)| <= |uri|
  {
    if uri == base {
      RootIsItsOwnParent(base);
    } else {
      ParentIsShorter(uri, base);
    }
  }

  // ------------------------------------------------------------------ exact conditions

  /** The parent of what is unlinked lists it, and it has no other form to be found in. */
  predicate LosesListed(base: string, s: Snapshot, uri: string)
    requires Astray(base, s, uri)
  {
    var pod, victim := Shown(base, s), Victim(base, s, uri);
    var parent := ParentContainerUri(victim, base);
    && victim != base
    && (if EndsWith(BinPath(base, uri).value, TTL) then victim !in pod.binaries else victim !in pod.graphs)
    && parent in pod.graphs && Triple(Iri(parent), LDP_CONTAINS, Iri(victim)) in pod.graphs[parent]
  }

  lemma VictimUnderBase(base: string, s: Snapshot, uri: string)
    requires Astray(base, s, uri)
    ensures base <= Victim(base, s, uri)
  {
  }

  /** A delete that is not astray leaves containment sound, and the tree whole. */
  lemma OwnDeleteIsSound(base: string, s: Snapshot, uri: string)
    requires Kept(base, s) && CanonicalRdf(base, uri) && !Astray(base, s, uri)
    requires ContainmentSound(base, Shown(base, s))
    ensures ContainmentSound(base, Shown(base, DeleteOnDisk(base, s, uri).0))
    ensures RootBase(base) && TreeInv(base, Shown(base, s)) ==>
              TreeInv(base, Shown(base, DeleteOnDisk(base, s, uri).0))
  {
    CanonicalIsUnder(base, uri);
    var pod := Shown(base, s);
    if Reserved(base, uri) {
      ReservedDelete(base, s, uri);
    } else {
      DeleteRequestRefines(base, s, uri);
      hide Kept, Shown, ContainmentSound, TreeInv, DeleteOnDisk, Ldp.AfterDelete, CanonicalRdf, TakesBinaryBranch;
      SoundDelete(base, pod, uri);
      if RootBase(base) && TreeInv(base, pod) {
        TreeDelete(base, pod, uri);
      }
    }
  }

  lemma ReservedDelete(base: string, s: Snapshot, uri: string)
    requires Reserved(base, uri)
    ensures DeleteOnDisk(base, s, uri).0 == s
  {
  }

  /** Containment stays sound under a delete exactly when it does not unlink what another parent lists. */
  lemma DeleteSoundIff(base: string, s: Snapshot, uri: string)
    requires RootBase(base) && Kept(base, s) && CanonicalRdf(base, uri)
    requires ContainmentSound(base, Shown(base, s))
    ensures ContainmentSound(base, Shown(base, DeleteOnDisk(base, s, uri).0)) <==>
            (Astray(base, s, uri) ==> !LosesListed(base, s, uri))
  {
    if !Astray(base, s, uri) {
      OwnDeleteIsSound(base, s, uri);
    } else {
      AstrayShown(base, s, uri);
      VictimUnderBase(base, s, uri);
      var victim := Victim(base, s, uri);
      BereftSoundIff(base, Shown(base, s), Shown(base, DeleteOnDisk(base, s, uri).0), victim,
                     EndsWith(BinPath(base, uri).value, TTL));
    }
  }

  lemma BereftSoundIff(base: string, before: Pod, after: Pod, victim: string, document: bool)
    requires RootBase(base) && ContainmentSound(base, before) && Bereft(before, after, victim, document) && base <= victim
    ensures ContainmentSound(base, after) <==>
            !(var parent := ParentContainerUri(victim, base);
              && victim != base
              && (if document then victim !in before.binaries else victim !in before.graphs)
              && parent in before.graphs && Triple(Iri(parent), LDP_CONTAINS, Iri(victim)) in before.graphs[parent])
  {
    var parent := ParentContainerUri(victim, base);
    var t := Triple(Iri(parent), LDP_CONTAINS, Iri(victim));
    ParentEndsInSlash(base, victim);
    NotSidecarName(parent);
    if victim == base {
      RootIsItsOwnParent(base);
      if !document {
        NotSidecarName(base);
      }
    } else {
      ParentIsShorter(victim, base);
    }
    hide ParentContainerUri, EndsWith;
    if parent in before.graphs && t in before.graphs[parent] && victim != base {
      assert SoundTriple(base, before, parent, t);
      assert parent in after.graphs && t in after.graphs[parent];
      assert ContainmentSound(base, after) ==> SoundTriple(base, after, parent, t);
    }
    if !(victim != base
         && (if document then victim !in before.binaries else victim !in before.graphs)
         && parent in before.graphs && t in before.graphs[parent])
    {
      forall v, u | v in after.graphs && u in after.graphs[v] && u.p == LDP_CONTAINS
        ensures SoundTriple(base, after, v, u)
      {
        assert SoundTriple(base, before, v, u);
        if u.o == Iri(victim) {
          assert u == t && v == parent;
        }
      }
    }
  }

  /** What is unlinked is a document that lists a resource of the tree: the guard would have refused it. */
  ghost predicate OrphansListed(base: string, s: Snapshot, uri: string)
    requires Astray(base, s, uri)
  {
    && EndsWith(BinPath(base, uri).value, TTL)
    && exists v :: InTree(base, v) && Lists(Shown(base, s), Victim(base, s, uri), v)
  }

  /** The tree holds together under a delete exactly when it does not unlink a container that lists something. */
  lemma DeleteTreeIff(base: string, s: Snapshot, uri: string)
    requires RootBase(base) && Kept(base, s) && CanonicalRdf(base, uri)
    requires ContainmentSound(base, Shown(base, s)) && TreeInv(base, Shown(base, s))
    ensures TreeInv(base, Shown(base, DeleteOnDisk(base, s, uri).0)) <==>
            (Astray(base, s, uri) ==> !OrphansListed(base, s, uri))
  {
    hide Kept, Shown, DeleteOnDisk, Astray, CanonicalRdf, ContainmentSound, TreeInv, Bereft, InTree, Lists, Keeper;
    if !Astray(base, s, uri) {
      OwnDeleteIsSound(base, s, uri);
    } else {
      AstrayFile(base, s, uri);
      AstrayShown(base, s, uri);
      BereftTreeIff(base, Shown(base, s), Shown(base, DeleteOnDisk(base, s, uri).0), Victim(base, s, uri),
                    EndsWith(BinPath(base, uri).value, TTL));
    }
  }

  lemma BereftTreeIff(base: string, before: Pod, after: Pod, victim: string, document: bool)
    requires RootBase(base) && ContainmentSound(base, before) && TreeInv(base, before)
    requires Bereft(before, after, victim, document)
    ensures TreeInv(base, after) <==> !(document && exists v :: InTree(base, v) && Lists(before, victim, v))
  {
    hide ParentContainerUri, EndsWith;
    if document {
      forall v | InTree(base, v) && Lists(before, victim, v) ensures !TreeInv(base, after) {
        OrphanStays(base, before, after, victim, v);
        assert !Lists(after, ParentContainerUri(v, base), v);
      }
    }
    if !(document && exists v :: InTree(base, v) && Lists(before, victim, v)) {
      forall v | Resource(after, v) && InTree(base, v) ensures Lists(after, ParentContainerUri(v, base), v) {
        assert Lists(before, ParentContainerUri(v, base), v);
        ParentEndsInSlash(base, v);
        NotSidecarName(ParentContainerUri(v, base));
      }
    }
  }

  /** What the unlinked container listed is still there, and its parent is not. */
  lemma OrphanStays(base: string, before: Pod, after: Pod, victim: string, v: string)
    requires ContainmentSound(base, before) && Bereft(before, after, victim, true)
    requires InTree(base, v) && Lists(before, victim, v)
    ensures Resource(after, v) && ParentContainerUri(v, base) == victim && victim !in after.graphs
  {
    assert SoundTriple(base, before, victim, Triple(Iri(victim), LDP_CONTAINS, Iri(v)));
    ParentIsShorter(v, base);
  }

  /** And nothing leads to it from the root any more. */
  lemma OrphanUnreachable(base: string, before: Pod, after: Pod, victim: string, v: string, chain: seq<string>)
    requires ContainmentSound(base, before) && Bereft(before, after, victim, true)
    requires InTree(base, v) && Lists(before, victim, v)
    ensures !Chain(base, after, chain, v)
  {
    OrphanStays(base, before, after, victim, v);
    hide ParentContainerUri;
    if |chain| > 1 {
      var p := chain[|chain| - 2];
      assert Chain(base, after, chain, v) ==> Lists(after, p, v);
      assert Lists(after, p, v) ==> SoundTriple(base, before, p, Triple(Iri(p), LDP_CONTAINS, Iri(v)));
    }
  }

  // --------------------------------------------------------------------- failing inputs

  function Listing(container: string, member: string): Graph {
    {Triple(Iri(container), RDF_TYPE, LDP_BASIC_CONTAINER), Triple(Iri(container), LDP_CONTAINS, Iri(member))}
  }

  /** A plain name at the top of the pod. */
  predicate TopName(seg: string) {
    CleanSegment(seg) && seg !in RESERVED && !EndsWith(seg, TTL) && !EndsWith(seg, META)
  }

  /** A root that lists the document y. */
  function DocumentInRoot(base: string, y: string, g: Graph): Snapshot {
    var bare := AfterWrite(base, Snapshot(map[], {""}, map[]), base + y, g).0;
    AfterWrite(base, bare, base, Listing(base, base + y)).0
  }

  lemma TopNames(base: string, y: string)
    requires RootBase(base) && CleanSegment(y)
    ensures var uri := base + y;
            && base <= uri && uri[|base|..] == y && CanonicalRdf(base, uri) && CanonicalRdf(base, base)
            && RdfPath(base, uri) == Within(y + TTL) && RdfPath(base, base) == Within(TTL)
            && Ancestors(y + TTL) == {} && Ancestors(TTL) == {} && y + TTL != TTL && y + TTL != ""
            && ParentContainerUri(uri, base) == base && uri != base
  {
    var uri := base + y;
    RelativeOf(base, uri);
    RelativeOf(base, base);
    assert uri[|base|..] == y && base[|base|..] == "" && "" + TTL == TTL;
    MetaTtlHasNoSlash();
    SuffixedSegment(y, TTL);
    SegmentIsResolved(TTL);
    ParentOfMember(base, base, y);
    assert |y + TTL| != |TTL|;
  }

  lemma DocumentInRootIsKept(base: string, y: string, g: Graph)
    requires RootBase(base) && TopName(y)
    ensures var s := DocumentInRoot(base, y, g);
            && Kept(base, s)
            && s.files == map[y + TTL := Turtle(g), TTL := Turtle(Listing(base, base + y))] && s.dirs == {""}
            && Shown(base, s) == Pod(map[base + y := g, base := Listing(base, base + y)], map[])
  {
    TopNames(base, y);
    hide RdfPath, CanonicalRdf, Ancestors, ParentContainerUri, Mirrors, WellKept, Shown, TTL;
    var empty, uri := Snapshot(map[], {""}, map[]), base + y;
    EmptyRootIsKept(base);
    var bare := AfterWrite(base, empty, uri, g);
    assert bare == (Snapshot(map[y + TTL := Turtle(g)], {""}, map[uri := g]), Done) by {
      assert {""} + {} == {""};
    }
    WriteRefines(base, empty, uri, g);
    WriteKept(base, empty, uri, g);
    var root := Listing(base, uri);
    assert {""} + {} == {""};
    assert AfterWrite(base, bare.0, base, root).1 == Done;
    WriteRefines(base, bare.0, base, root);
    WriteKept(base, bare.0, base, root);
  }

  lemma DocumentSprouts(base: string, y: string, g: Graph)
    requires RootBase(base) && TopName(y) && CarriesNoContainment(g)
    ensures var pod := Pod(map[base + y := g, base := Listing(base, base + y)], map[]);
            ContainmentSound(base, pod) && TreeInv(base, pod)
  {
    hide ContainmentSound, TreeInv, CanonicalRdf, RdfPath, ParentContainerUri, Listing, Ancestors;
    TopNames(base, y);
    NotMetaName(base, y);
    SproutIsSound(base, Pod(map[base + y := g, base := Listing(base, base + y)], map[]), base + y);
  }

  /** DELETE of "y.ttl" beside the document "y": the root goes on listing what is gone. */
  lemma DeletingTtlNameUnsound(base: string, y: string, g: Graph)
    requires RootBase(base) && TopName(y) && CarriesNoContainment(g)
    ensures var s, uri := DocumentInRoot(base, y, g), base + (y + TTL);
            && Kept(base, s) && ContainmentSound(base, Shown(base, s)) && TreeInv(base, Shown(base, s))
            && CanonicalRdf(base, uri)
            && !ContainmentSound(base, Shown(base, DeleteOnDisk(base, s, uri).0))
  {
    DocumentInRootIsKept(base, y, g);
    DocumentSprouts(base, y, g);
    TtlNameIsAstray(base, y, g);
    hide Kept, Shown, DocumentInRoot, DeleteOnDisk, ContainmentSound, TreeInv, Listing, RdfPath, BinPath, CanonicalRdf;
    DeleteSoundIff(base, DocumentInRoot(base, y, g), base + (y + TTL));
  }

  lemma TtlNameNotReserved(y: string)
    requires CleanSegment(y)
    ensures Split(y + TTL)[0] !in RESERVED
  {
    var seg := y + TTL;
    MetaTtlHasNoSlash();
    SplitOne(seg);
    assert seg[|seg| - 1] == TTL[3] == 'l' && seg[|seg| - 2] == TTL[2] == 't';
  }

  lemma TtlName(base: string, y: string)
    requires CleanSegment(y)
    ensures var uri := base + (y + TTL);
            && CanonicalRdf(base, uri) && uri[|base|..] == y + TTL && EndsWith(y + TTL, TTL)
            && RdfPath(base, uri) == Within(y + TTL + TTL) && BinPath(base, uri) == Within(y + TTL)
            && Keeper(base, y + TTL) == base + y
            && y + TTL + TTL != y + TTL && y + TTL + TTL != TTL && y + TTL + TTL != ""
            && !Reserved(base, uri)
  {
    var uri := base + (y + TTL);
    TtlNameNotReserved(y);
    MetaTtlHasNoSlash();
    SuffixedSegment(y, TTL);
    SuffixedSegment(y + TTL, TTL);
    RelativeOf(base, uri);
    assert uri[|base|..] == y + TTL;
    assert |y + TTL + TTL| > |y + TTL| > |TTL|;
  }

  lemma TtlNameIsAstray(base: string, y: string, g: Graph)
    requires RootBase(base) && TopName(y)
    ensures var s, uri := DocumentInRoot(base, y, g), base + (y + TTL);
            CanonicalRdf(base, uri) && Astray(base, s, uri) && LosesListed(base, s, uri)
  {
    hide Kept, Shown, DocumentInRoot, Listing, Resolve, RdfPath, BinPath, Keeper, ParentContainerUri, CanonicalRdf, CanonicalBin,
         EndsWith, TTL, Reserved, TopName, Ancestors;
    DocumentInRootIsKept(base, y, g);
    TopNameIsClean(y);
    TopNames(base, y);
    TtlName(base, y);
    ListingLists(base, base + y);
  }

  lemma TopNameIsClean(y: string)
    requires TopName(y)
    ensures CleanSegment(y)
  {
  }

  lemma EmptyRootIsKept(base: string)
    ensures var s := Snapshot(map[], {""}, map[]);
            Kept(base, s) && Shown(base, s) == Pod(map[], map[])
  {
    MirrorsIff(base, Snapshot(map[], {""}, map[]));
  }

  lemma ListingContains(container: string, member: string, t: Triple)
    ensures t in Listing(container, member) && t.p == LDP_CONTAINS ==> t == Triple(Iri(container), LDP_CONTAINS, Iri(member))
    ensures IsContainer(Listing(container, member), container)
  {
    VocabularyDistinct();
  }

  /** A root that lists one resource, and that resource. */
  ghost predicate Sprout(base: string, pod: Pod, uri: string) {
    && base in pod.graphs && pod.graphs[base] == Listing(base, uri)
    && (forall v :: v in pod.graphs && v != base ==> (v == uri || EndsWith(v, META)) && CarriesNoContainment(pod.graphs[v]))
    && (forall v :: Resource(pod, v) ==> v == base || v == uri || EndsWith(v, META))
    && Resource(pod, uri) && NoDualForms(pod)
  }

  lemma SproutIsSound(base: string, pod: Pod, uri: string)
    requires Sprout(base, pod, uri) && uri != base && ParentContainerUri(uri, base) == base && !EndsWith(uri, META)
    ensures ContainmentSound(base, pod) && TreeInv(base, pod)
  {
    hide ParentContainerUri, EndsWith, Listing, IsContainer, Reserved, LDP_CONTAINS;
    forall v, t | v in pod.graphs && t in pod.graphs[v] && t.p == LDP_CONTAINS ensures SoundTriple(base, pod, v, t) {
      ListingContains(base, uri, t);
    }
    ListingContains(base, uri, Triple(Iri(base), LDP_CONTAINS, Iri(uri)));
    ListingLists(base, uri);
  }

  lemma ListingLists(container: string, member: string)
    ensures Triple(Iri(container), LDP_CONTAINS, Iri(member)) in Listing(container, member)
  {
  }

  lemma NotMetaName(base: string, y: string)
    requires RootBase(base) && !EndsWith(y, META)
    ensures !EndsWith(base + y, META)
  {
    var uri := base + y;
    if |y| >= |META| {
      assert uri[|uri| - |META|..] == y[|y| - |META|..];
    } else {
      var k := |META| - |y| - 1;
      if |uri| >= |META| {
        assert uri[|uri| - |META|..][k] == uri[|base| - 1] == '/';
        assert META[k] != '/';
      }
    }
  }

  // ---------------------------------------------------- a binary, named with a slash

  /** A root that lists the binary a. */
  function BinaryInRoot(base: string, a: string, b: Stored): Snapshot {
    var bare := AfterWriteBinary(base, Snapshot(map[], {""}, map[]), base + a, b.data, b.contentType).0;
    AfterWrite(base, bare, base, Listing(base, base + a)).0
  }

  lemma BinaryNames(base: string, a: string)
    requires RootBase(base) && TopName(a)
    ensures var uri := base + a;
            && BinPath(base, uri) == Within(a) && CanonicalBin(base, uri) && uri[|base|..] == a && !Reserved(base, uri)
            && Ancestors(a) == {} && Ancestors(a + META_TTL) == {} && a != "" && a + META_TTL != ""
            && a + META_TTL != TTL && a != TTL
  {
    var uri := base + a;
    RelativeOf(base, uri);
    assert uri[|base|..] == a;
    SegmentIsResolved(a);
    SplitOne(a);
    MetaTtlHasNoSlash();
    SuffixedSegment(a, META_TTL);
    assert |a + META_TTL| > |TTL|;
  }

  lemma BinaryInRootIsKept(base: string, a: string, b: Stored)
    requires RootBase(base) && TopName(a)
    ensures var s, meta := BinaryInRoot(base, a, b), Description(base + a, b.contentType);
            && Kept(base, s)
            && s.files == map[a := Binary(b.data), a + META_TTL := Turtle(meta), TTL := Turtle(Listing(base, base + a))]
            && s.dirs == {""}
            && Shown(base, s) == Pod(map[base + a + META := meta, base := Listing(base, base + a)], map[base + a := b.data])
  {
    TopNames(base, a);
    BinaryNames(base, a);
    hide RdfPath, BinPath, CanonicalRdf, CanonicalBin, Ancestors, ParentContainerUri, Mirrors, WellKept, Shown, TTL, META_TTL, Reserved,
         Description, Listing;
    var empty, uri := Snapshot(map[], {""}, map[]), base + a;
    EmptyRootIsKept(base);
    assert {""} + {} == {""};
    var bare := AfterWriteBinary(base, empty, uri, b.data, b.contentType);
    assert bare.1 == Done;
    WriteBinaryRefines(base, empty, uri, b);
    WriteBinaryKept(base, empty, uri, b.data, b.contentType);
    var root := Listing(base, uri);
    assert AfterWrite(base, bare.0, base, root).1 == Done;
    WriteRefines(base, bare.0, base, root);
    WriteKept(base, bare.0, base, root);
  }

  lemma BinarySprouts(base: string, a: string, b: Stored)
    requires RootBase(base) && TopName(a)
    ensures var meta := Description(base + a, b.contentType);
            var pod := Pod(map[base + a + META := meta, base := Listing(base, base + a)], map[base + a := b.data]);
            ContainmentSound(base, pod) && TreeInv(base, pod)
  {
    hide ContainmentSound, TreeInv, CanonicalRdf, RdfPath, ParentContainerUri, Listing, Ancestors;
    TopNames(base, a);
    NotMetaName(base, a);
    DescriptionHasNoContainment(base + a, b.contentType);
    assert EndsWith(base + a + META, META) by {
      assert (base + a + META)[|base + a|..] == META;
    }
    assert base + a + META != base;
    var meta := Description(base + a, b.contentType);
    SproutIsSound(base, Pod(map[base + a + META := meta, base := Listing(base, base + a)], map[base + a := b.data]), base + a);
  }

  lemma SlashName(base: string, a: string)
    requires RootBase(base) && TopName(a)
    ensures var uri := base + (a + "/");
            && CanonicalRdf(base, uri) && uri[|base|..] == a + "/" && !Reserved(base, uri)
            && RdfPath(base, uri) == Within(a + "/" + TTL) && BinPath(base, uri) == Within(a)
            && Keeper(base, a) == base + a && a != a + "/"
            && a + "/" + TTL != a && a + "/" + TTL != a + META_TTL && a + "/" + TTL != TTL && a + "/" + TTL != ""
  {
    var uri := base + (a + "/");
    RelativeOf(base, uri);
    assert uri[|base|..] == a + "/";
    TrailingSlash(a);
    SplitFirst(a, "");
    assert a + "/" + "" == a + "/";
    assert |a + "/" + TTL| > |TTL|;
  }

  lemma SlashNameIsAstray(base: string, a: string, b: Stored)
    requires RootBase(base) && TopName(a)
    ensures var s, uri := BinaryInRoot(base, a, b), base + (a + "/");
            CanonicalRdf(base, uri) && Astray(base, s, uri) && LosesListed(base, s, uri)
  {
    hide Kept, Shown, BinaryInRoot, Listing, Resolve, RdfPath, BinPath, Keeper, ParentContainerUri, CanonicalRdf,
         EndsWith, TTL, META_TTL, Reserved, TopName, Ancestors, Description, LosesListed, CanonicalBin;
    BinaryInRootIsKept(base, a, b);
    SlashName(base, a);
    assert Astray(base, BinaryInRoot(base, a, b), base + (a + "/")) by {
      assert BinaryInRoot(base, a, b).files.Keys == {a, a + META_TTL, TTL};
      NotCanonicalSlash(base, a);
    }
    BinaryListed(base, a, b);
  }

  lemma NotCanonicalSlash(base: string, a: string)
    requires BinPath(base, base + (a + "/")) == Within(a) && (base + (a + "/"))[|base|..] == a + "/"
    ensures !CanonicalBin(base, base + (a + "/"))
  {
    RelativeOf(base, base + (a + "/"));
    assert |a + "/"| != |a|;
  }

  lemma BinaryListed(base: string, a: string, b: Stored)
    requires RootBase(base) && TopName(a)
    requires BinPath(base, base + (a + "/")) == Within(a) && Astray(base, BinaryInRoot(base, a, b), base + (a + "/"))
    ensures LosesListed(base, BinaryInRoot(base, a, b), base + (a + "/"))
  {
    NotTtlName(a);
    TopNameIsClean(a);
    hide Kept, Shown, BinaryInRoot, Listing, BinPath, ParentContainerUri, CanonicalRdf, Astray, RdfPath,
         EndsWith, TTL, META_TTL, TopName, Ancestors, Description;
    BinaryInRootIsKept(base, a, b);
    TopNames(base, a);
    ListingLists(base, base + a);
    assert base + a != base && base + a != base + a + META;
  }

  lemma NotTtlName(a: string)
    requires TopName(a)
    ensures !EndsWith(a, TTL)
  {
  }

  /** DELETE of "a/" beside the binary "a": the root goes on listing what is gone. */
  lemma DeletingSlashNameUnsound(base: string, a: string, b: Stored)
    requires RootBase(base) && TopName(a)
    ensures var s, uri := BinaryInRoot(base, a, b), base + (a + "/");
            && Kept(base, s) && ContainmentSound(base, Shown(base, s)) && TreeInv(base, Shown(base, s))
            && CanonicalRdf(base, uri)
            && !ContainmentSound(base, Shown(base, DeleteOnDisk(base, s, uri).0))
  {
    BinaryInRootIsKept(base, a, b);
    BinarySprouts(base, a, b);
    SlashNameIsAstray(base, a, b);
    hide Kept, Shown, BinaryInRoot, DeleteOnDisk, ContainmentSound, TreeInv, Listing, RdfPath, BinPath, CanonicalRdf, Description;
    DeleteSoundIff(base, BinaryInRoot(base, a, b), base + (a + "/"));
  }

  // --------------------------------------- a container, named by its own file

  /** The container "a/", which lists "a/x". */
  function ContainerAlone(base: string, a: string, x: string): Snapshot {
    var c := base + (a + "/");
    var leaf := AfterWrite(base, Snapshot(map[], {""}, map[]), c + x, {}).0;
    AfterWrite(base, leaf, c, Listing(c, c + x)).0
  }

  /** A root that lists it. */
  function ContainerInRoot(base: string, a: string, x: string): Snapshot {
    AfterWrite(base, ContainerAlone(base, a, x), base, Listing(base, base + (a + "/"))).0
  }

  lemma InnerNames(base: string, a: string, x: string)
    requires RootBase(base) && TopName(a) && TopName(x)
    ensures var c := base + (a + "/");
            && CanonicalRdf(base, c) && RdfPath(base, c) == Within(a + "/" + TTL)
            && CanonicalRdf(base, c + x) && RdfPath(base, c + x) == Within(a + "/" + (x + TTL))
            && Ancestors(a + "/" + TTL) == {a} && Ancestors(a + "/" + (x + TTL)) == {a}
            && ParentContainerUri(c, base) == base && ParentContainerUri(c + x, base) == c
            && c != base && c + x != base && c + x != c && base <= c
            && a + "/" + TTL != a + "/" + (x + TTL)
  {
    var c := base + (a + "/");
    MetaTtlHasNoSlash();
    InnerPath(base, a, TTL);
    InnerPath(base, a, x + TTL);
    RelativeOf(base, c);
    RelativeOf(base, c + x);
    assert c[|base|..] == a + "/" && (c + x)[|base|..] == a + "/" + x;
    assert a + "/" + x + TTL == a + "/" + (x + TTL);
    assert (a + "/" + TTL)[|a| + 1] == '.' ;
    assert |a + "/" + (x + TTL)| > |a + "/" + TTL|;
    ParentOfMember(base, c, x);
    ParentOfMember(base, base, a);
    ParentOfSlashed(base, a);
  }

  lemma InnerPath(base: string, a: string, file: string)
    requires CleanSegment(a) && CleanSegment(file)
    ensures IsResolved(a + "/" + file) && Ancestors(a + "/" + file) == {a}
  {
    CleanIsResolved([a, file]);
    assert Join([a, file]) == a + "/" + file;
    var p := a + "/" + file;
    forall i | 0 <= i < |a| ensures p[i] != '/' {
      assert p[i] == a[i] && a[i] in a;
    }
    forall i | |a| < i < |p| ensures p[i] != '/' {
      assert p[i] == file[i - |a| - 1] && file[i - |a| - 1] in file;
    }
    assert p[|a|] == '/' && p[..|a|] == a;
  }

  lemma ParentOfSlashed(base: string, a: string)
    requires RootBase(base) && CleanSegment(a)
    ensures ParentContainerUri(base + (a + "/"), base) == base
  {
    var uri := base + (a + "/");
    assert RemovePrefix(uri, base) == a + "/";
    assert (a + "/")[..|a|] == a;
    assert a[|a| - 1] in a;
    assert RStripSlashes(a + "/") == RStripSlashes(a) == a;
    forall k | 0 <= k < |a| ensures a[k] != '/' {
      assert a[k] in a;
    }
    assert AfterLastSlash(a) == 0;
  }

  /** One more document, where nothing blocks it. */
  lemma Placed(base: string, s: Snapshot, uri: string, path: string, g: Graph)
    requires Kept(base, s) && CanonicalRdf(base, uri) && RdfPath(base, uri) == Within(path)
    requires path !in s.dirs && Ancestors(path) !! s.files.Keys
    ensures var s' := AfterWrite(base, s, uri, g).0;
            && Kept(base, s') && Shown(base, s') == WithGraph(Shown(base, s), uri, g)
            && s'.files == s.files[path := Turtle(g)] && s'.dirs == s.dirs + Ancestors(path)
  {
    assert AfterWrite(base, s, uri, g).1.Done?;
    WriteRefines(base, s, uri, g);
    WriteKept(base, s, uri, g);
  }

  lemma ContainerAloneIsKept(base: string, a: string, x: string)
    requires RootBase(base) && TopName(a) && TopName(x)
    ensures var s, c := ContainerAlone(base, a, x), base + (a + "/");
            && Kept(base, s)
            && s.files == map[a + "/" + (x + TTL) := Turtle({}), a + "/" + TTL := Turtle(Listing(c, c + x))]
            && s.dirs == {"", a}
            && Shown(base, s) == Pod(map[c + x := {}, c := Listing(c, c + x)], map[])
  {
    hide RdfPath, CanonicalRdf, Ancestors, ParentContainerUri, Kept, Shown, TTL, Listing, TopName, AfterWrite;
    InnerNames(base, a, x);
    InnerPathsDiffer(a, x);
    var empty, c := Snapshot(map[], {""}, map[]), base + (a + "/");
    EmptyRootIsKept(base);
    Placed(base, empty, c + x, a + "/" + (x + TTL), {});
    Placed(base, AfterWrite(base, empty, c + x, {}).0, c, a + "/" + TTL, Listing(c, c + x));
    assert {""} + {a} + {a} == {"", a};
  }

  lemma RootPathIsFree(base: string, a: string, x: string)
    requires RootBase(base) && TopName(a)
    ensures CanonicalRdf(base, base) && RdfPath(base, base) == Within(TTL) && Ancestors(TTL) == {}
  {
    TopNames(base, a);
  }

  lemma ContainerInRootIsKept(base: string, a: string, x: string)
    requires RootBase(base) && TopName(a) && TopName(x)
    ensures var s, c := ContainerInRoot(base, a, x), base + (a + "/");
            && Kept(base, s)
            && s.files == map[a + "/" + (x + TTL) := Turtle({}), a + "/" + TTL := Turtle(Listing(c, c + x)),
                              TTL := Turtle(Listing(base, c))]
            && s.dirs == {"", a}
            && Shown(base, s) == Pod(map[c + x := {}, c := Listing(c, c + x), base := Listing(base, c)], map[])
  {
    hide RdfPath, CanonicalRdf, Ancestors, ParentContainerUri, Kept, Shown, Listing, TopName, AfterWrite, ContainerAlone, TTL;
    ContainerAloneIsKept(base, a, x);
    InnerPathsDiffer(a, x);
    RootPathIsFree(base, a, x);
    Placed(base, ContainerAlone(base, a, x), base, TTL, Listing(base, base + (a + "/")));
    assert {"", a} + {} == {"", a};
  }

  lemma InnerPathsDiffer(a: string, x: string)
    requires TopName(a)
    ensures a + "/" + TTL != "" && a + "/" + TTL != a && a + "/" + TTL != TTL
    ensures a + "/" + (x + TTL) != "" && a + "/" + (x + TTL) != a && a + "/" + (x + TTL) != TTL
    ensures a != TTL && a != "" && TTL != ""
  {
    assert |a + "/" + TTL| > |TTL| && |a + "/" + (x + TTL)| > |TTL|;
  }

  lemma ContainerPodIsSound(base: string, a: string, x: string)
    requires RootBase(base) && TopName(a) && TopName(x)
    ensures var c := base + (a + "/");
            var pod := Pod(map[c + x := {}, c := Listing(c, c + x), base := Listing(base, c)], map[]);
            && ContainmentSound(base, pod) && TreeInv(base, pod) && Lists(pod, c, c + x) && InTree(base, c + x)
  {
    hide ContainmentSound, TreeInv, ParentContainerUri, Listing, RdfPath, CanonicalRdf, Ancestors, Lists, InTree;
    InnerNames(base, a, x);
    var c := base + (a + "/");
    assert !EndsWith(x, META);
    hide TopName, EndsWith;
    NotMetaName(c, x);
    NotSidecarName(c);
    assert InTree(base, c + x) by {
      InnerInTree(base, a, x);
    }
    var pod := Pod(map[c + x := {}, c := Listing(c, c + x), base := Listing(base, c)], map[]);
    TwoLevels(base, pod, c, c + x);
  }

  lemma InnerInTree(base: string, a: string, x: string)
    requires RootBase(base) && TopName(a) && TopName(x)
    ensures InTree(base, base + (a + "/") + x)
  {
    hide CanonicalRdf, RdfPath, ParentContainerUri, Ancestors, Reserved;
    InnerNames(base, a, x);
    InnerNotReserved(base, a, x);
    NotMetaName(base + (a + "/"), x);
  }

  lemma InnerNotReserved(base: string, a: string, x: string)
    requires RootBase(base) && TopName(a)
    ensures !Reserved(base, base + (a + "/") + x)
  {
    var uri := base + (a + "/") + x;
    assert uri == base + (a + "/" + x);
    assert RemovePrefix(uri, base) == a + "/" + x;
    SplitFirst(a, x);
  }

  /** Two listings, one below the other. */
  lemma TwoLevels(base: string, pod: Pod, c: string, m: string)
    requires pod.binaries == map[] && pod.graphs.Keys == {base, c, m} && c != base && m != base && c != m
    requires pod.graphs[base] == Listing(base, c) && pod.graphs[c] == Listing(c, m) && pod.graphs[m] == {}
    requires ParentContainerUri(c, base) == base && ParentContainerUri(m, base) == c
    requires !EndsWith(c, META) && !EndsWith(m, META)
    ensures ContainmentSound(base, pod) && TreeInv(base, pod) && Lists(pod, c, m)
  {
    hide ParentContainerUri, EndsWith, Listing, IsContainer, LDP_CONTAINS, Reserved;
    forall v, t | v in pod.graphs && t in pod.graphs[v] && t.p == LDP_CONTAINS ensures SoundTriple(base, pod, v, t) {
      ListingContains(base, c, t);
      ListingContains(c, m, t);
    }
    ListingContains(base, c, Triple(Iri(base), LDP_CONTAINS, Iri(c)));
    ListingContains(c, m, Triple(Iri(c), LDP_CONTAINS, Iri(m)));
    ListingLists(base, c);
    ListingLists(c, m);
  }

  lemma OwnFileName(base: string, a: string)
    requires RootBase(base) && TopName(a)
    ensures var uri := base + (a + "/" + TTL);
            && CanonicalRdf(base, uri) && uri[|base|..] == a + "/" + TTL && !Reserved(base, uri)
            && RdfPath(base, uri) == Within(a + "/" + (TTL + TTL)) && BinPath(base, uri) == Within(a + "/" + TTL)
            && EndsWith(a + "/" + TTL, TTL)
  {
    var uri := base + (a + "/" + TTL);
    RelativeOf(base, uri);
    assert uri[|base|..] == a + "/" + TTL;
    MetaTtlHasNoSlash();
    assert CleanSegment(TTL) && CleanSegment(TTL + TTL);
    hide Resolve;
    InnerPath(base, a, TTL);
    InnerPath(base, a, TTL + TTL);
    assert a + "/" + TTL + TTL == a + "/" + (TTL + TTL);
    SplitFirst(a, TTL);
    assert (a + "/" + TTL)[|a| + 1..] == TTL;
  }

  lemma OwnFileKeeper(base: string, a: string)
    ensures EndsWith(a + "/" + TTL, TTL) && Keeper(base, a + "/" + TTL) == base + (a + "/")
  {
    assert (a + "/" + TTL)[|a + "/"|..] == TTL && (a + "/" + TTL)[..|a + "/"|] == a + "/";
  }

  lemma OwnFileIsAnother(a: string, x: string)
    requires TopName(a) && TopName(x)
    ensures var rdf := a + "/" + (TTL + TTL);
            rdf != a + "/" + (x + TTL) && rdf != a + "/" + TTL && rdf != TTL && rdf != "" && rdf != a
  {
    var rdf := a + "/" + (TTL + TTL);
    assert |rdf| > |a + "/" + TTL| > |TTL|;
    assert rdf[|a| + 1..] == TTL + TTL && (a + "/" + (x + TTL))[|a| + 1..] == x + TTL;
    assert (TTL + TTL)[..|TTL|] == TTL;
    assert EndsWith(TTL, TTL) && (x + TTL)[..|x|] == x;
  }

  lemma OwnFileIsAstray(base: string, a: string, x: string)
    requires RootBase(base) && TopName(a) && TopName(x)
    ensures var s, uri := ContainerInRoot(base, a, x), base + (a + "/" + TTL);
            && CanonicalRdf(base, uri) && Astray(base, s, uri)
            && BinPath(base, uri) == Within(a + "/" + TTL) && Victim(base, s, uri) == base + (a + "/")
  {
    hide Kept, Shown, ContainerInRoot, Listing, Resolve, RdfPath, BinPath, Keeper, ParentContainerUri, CanonicalRdf,
         EndsWith, TTL, Reserved, TopName, Ancestors;
    ContainerInRootIsKept(base, a, x);
    OwnFileName(base, a);
    OwnFileKeeper(base, a);
    OwnFileIsAnother(a, x);
  }

  lemma OwnFileListed(base: string, a: string, x: string)
    requires RootBase(base) && TopName(a) && TopName(x)
    requires Astray(base, ContainerInRoot(base, a, x), base + (a + "/" + TTL))
    requires Victim(base, ContainerInRoot(base, a, x), base + (a + "/" + TTL)) == base + (a + "/")
    ensures LosesListed(base, ContainerInRoot(base, a, x), base + (a + "/" + TTL))
  {
    hide Kept, Shown, ContainerInRoot, Listing, BinPath, ParentContainerUri, CanonicalRdf, Astray, RdfPath,
         EndsWith, TTL, TopName, Ancestors, Victim;
    ContainerInRootIsKept(base, a, x);
    InnerNames(base, a, x);
    OwnFileName(base, a);
    ListingLists(base, base + (a + "/"));
  }

  /**
   DELETE of "a/.ttl", the container's own file: the guard that protects a non-empty container
   is passed, the root lists what is gone, and no chain leads to what the container listed.
   */
  lemma DeletingOwnFileOrphans(base: string, a: string, x: string)
    requires RootBase(base) && TopName(a) && TopName(x)
    ensures var s, uri, leaf := ContainerInRoot(base, a, x), base + (a + "/" + TTL), base + (a + "/") + x;
            var after := Shown(base, DeleteOnDisk(base, s, uri).0);
            && Kept(base, s) && ContainmentSound(base, Shown(base, s)) && TreeInv(base, Shown(base, s))
            && CanonicalRdf(base, uri)
            && !ContainmentSound(base, after) && !TreeInv(base, after)
            && Resource(after, leaf) && forall chain :: !Chain(base, after, chain, leaf)
  {
    hide Kept, Shown, ContainerInRoot, Listing, BinPath, ParentContainerUri, CanonicalRdf, Astray, RdfPath, LosesListed,
         EndsWith, TTL, TopName, Ancestors, Victim, ContainmentSound, TreeInv, Bereft, DeleteOnDisk, Chain, InTree, Lists, Resource;
    var s, uri, c := ContainerInRoot(base, a, x), base + (a + "/" + TTL), base + (a + "/");
    ContainerInRootIsKept(base, a, x);
    ContainerPodIsSound(base, a, x);
    OwnFileIsAstray(base, a, x);
    OwnFileKeeper(base, a);
    OwnFileListed(base, a, x);
    DeleteSoundIff(base, s, uri);
    DeleteTreeIff(base, s, uri);
    AstrayShown(base, s, uri);
    var before, after := Shown(base, s), Shown(base, DeleteOnDisk(base, s, uri).0);
    OrphanStays(base, before, after, c, c + x);
    forall chain ensures !Chain(base, after, chain, c + x) {
      OrphanUnreachable(base, before, after, c, c + x, chain);
    }
  }
}
