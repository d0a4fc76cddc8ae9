/**
 The filesystem backend seen as a pod: what its reads find, as graphs and binaries by URI.  Each
 of its operations on a canonical URI that goes through makes of that pod what the Ldp module
 says the operation makes of a pod.
 */
module StorageRefinesPod {
  import opened Paths
  import opened Rdf
  import opened Storage
  import opened StorageAgreement
  import Ldp

  /** The URIs of the binary files. */
  function BinaryUris(base: string, s: Snapshot): set<string> {
    set p | p in s.files && s.files[p].Binary? :: base + p
  }

  /** A graph is found when its file is there; a binary is its file. */
  function Shown(base: string, s: Snapshot): Ldp.Pod {
    Ldp.Pod(
      map uri | uri in s.dataset && base <= uri && uri[|base|..] + TTL in s.files :: s.dataset[uri],
      map uri | uri in BinaryUris(base, s) :: DataAt(base, s, uri))
  }

  function DataAt(base: string, s: Snapshot, uri: string): Bytes
    requires uri in BinaryUris(base, s)
  {
    BinaryUriIff(base, s, uri);
    s.files[uri[|base|..]].data
  }

  /** The pod has the dataset's graphs, and a binary for each file of bytes. */
  ghost predicate Shows(base: string, s: Snapshot, pod: Ldp.Pod) {
    && pod.graphs == s.dataset
    && (forall uri :: uri in pod.binaries <==> uri in BinaryUris(base, s))
    && (forall uri :: uri in pod.binaries ==>
          base <= uri && s.files[uri[|base|..]] == Binary(pod.binaries[uri]))
  }

  lemma BinaryUriIff(base: string, s: Snapshot, uri: string)
    ensures uri in BinaryUris(base, s) <==>
            base <= uri && uri[|base|..] in s.files && s.files[uri[|base|..]].Binary?
  {
    if uri in BinaryUris(base, s) {
      var p :| p in s.files && s.files[p].Binary? && base + p == uri;
      assert uri[|base|..] == p;
    }
    if base <= uri && uri[|base|..] in s.files && s.files[uri[|base|..]].Binary? {
      assert uri == base + uri[|base|..];
    }
  }

  lemma ShowsIff(base: string, s: Snapshot, pod: Ldp.Pod)
    ensures Shows(base, s, pod) <==>
            && pod.graphs == s.dataset
            && (forall uri :: uri in pod.binaries <==>
                  base <= uri && uri[|base|..] in s.files && s.files[uri[|base|..]].Binary?)
            && (forall uri :: uri in pod.binaries ==>
                  base <= uri && uri[|base|..] in s.files && s.files[uri[|base|..]] == Binary(pod.binaries[uri]))
  {
    forall uri ensures uri in BinaryUris(base, s) <==>
                       base <= uri && uri[|base|..] in s.files && s.files[uri[|base|..]].Binary?
    {
      BinaryUriIff(base, s, uri);
    }
  }

  /** When the dataset mirrors the disk, reads find the dataset. */
  lemma ShownIff(base: string, s: Snapshot, pod: Ldp.Pod)
    requires Mirrors(base, s)
    ensures pod == Shown(base, s) <==> Shows(base, s, pod)
    ensures Shown(base, s).graphs == s.dataset
  {
    MirrorsIff(base, s);
    var shown := Shown(base, s);
    assert shown.graphs == s.dataset;
    forall uri | uri in shown.binaries ensures base <= uri && s.files[uri[|base|..]] == Binary(shown.binaries[uri]) {
      BinaryUriIff(base, s, uri);
    }
    if Shows(base, s, pod) {
      forall uri | uri in pod.binaries ensures pod.binaries[uri] == shown.binaries[uri] {
        assert uri in BinaryUris(base, s);
      }
      assert pod.binaries == shown.binaries;
    }
  }

  /** No file of bytes sits at a Turtle path: the dataset could not mirror it. */
  lemma TurtleIsNotBinary(base: string, s: Snapshot, uri: string)
    requires Mirrors(base, s) && base <= uri && uri[|base|..] + TTL in s.files
    ensures s.files[uri[|base|..] + TTL].Turtle?
  {
    assert EndsWith(uri[|base|..] + TTL, TTL);
  }

  lemma WriteRefines(base: string, s: Snapshot, uri: string, g: Graph)
    requires Mirrors(base, s) && CanonicalRdf(base, uri)
    requires AfterWrite(base, s, uri, g).1.Done?
    ensures var s' := AfterWrite(base, s, uri, g).0;
            Mirrors(base, s') && Shown(base, s') == Ldp.WithGraph(Shown(base, s), uri, g)
  {
    RelativeOf(base, uri);
    var pod, s' := Shown(base, s), AfterWrite(base, s, uri, g).0;
    var path := uri[|base|..] + TTL;
    ShownIff(base, s, pod);
    PutTurtle(base, s, uri, g);
    ShowsIff(base, s, pod);
    if path in s.files {
      TurtleIsNotBinary(base, s, uri);
    }
    ShowsIff(base, s', Ldp.WithGraph(pod, uri, g));
    ShownIff(base, s', Ldp.WithGraph(pod, uri, g));
  }

  /** Storing or removing bytes at a path shows as storing or removing the binary. */
  lemma BytesShow(base: string, s: Snapshot, pod: Ldp.Pod, uri: string, data: Bytes)
    requires Shows(base, s, pod) && base <= uri
    ensures Shows(base, Put(s, uri[|base|..], Binary(data)), pod.(binaries := pod.binaries[uri := data]))
  {
    var path := uri[|base|..];
    ShowsIff(base, s, pod);
    forall v: string | base <= v && v[|base|..] == path ensures v == uri {
      RelativeOf(base, v);
      RelativeOf(base, uri);
    }
    ShowsIff(base, Put(s, path, Binary(data)), pod.(binaries := pod.binaries[uri := data]));
  }

  lemma BytesUnlinked(base: string, s: Snapshot, pod: Ldp.Pod, uri: string)
    requires Shows(base, s, pod) && base <= uri
    ensures Shows(base, Unlink(s, uri[|base|..]), pod.(binaries := pod.binaries - {uri}))
  {
    var path := uri[|base|..];
    ShowsIff(base, s, pod);
    forall v: string | base <= v && v[|base|..] == path ensures v == uri {
      RelativeOf(base, v);
      RelativeOf(base, uri);
    }
    ShowsIff(base, Unlink(s, path), pod.(binaries := pod.binaries - {uri}));
  }

  /** Turtle files do not show among the binaries. */
  lemma TurtleShows(base: string, s: Snapshot, pod: Ldp.Pod, path: string, g: Graph, d: map<string, Graph>)
    requires Shows(base, s, pod) && (path in s.files ==> s.files[path].Turtle?)
    ensures Shows(base, Put(s, path, Turtle(g)).(dataset := d), pod.(graphs := d))
    ensures Shows(base, Unlink(s, path).(dataset := d), pod.(graphs := d))
  {
    ShowsIff(base, s, pod);
    ShowsIff(base, Put(s, path, Turtle(g)).(dataset := d), pod.(graphs := d));
    ShowsIff(base, Unlink(s, path).(dataset := d), pod.(graphs := d));
  }

  lemma WriteBinaryRefines(base: string, s: Snapshot, uri: string, b: Ldp.Stored)
    requires Mirrors(base, s) && CanonicalBin(base, uri) && !EndsWith(uri[|base|..], TTL)
    requires AfterWriteBinary(base, s, uri, b.data, b.contentType).1.Done?
    ensures var s' := AfterWriteBinary(base, s, uri, b.data, b.contentType).0;
            Mirrors(base, s') && Shown(base, s') == Ldp.WithBinary(Shown(base, s), uri, b)
  {
    RelativeOf(base, uri);
    BinaryKeepsMirror(base, s, uri, b.data, b.contentType);
    var pod, s' := Shown(base, s), AfterWriteBinary(base, s, uri, b.data, b.contentType).0;
    ShownIff(base, s, pod);
    SidecarShows(base, s, pod, uri, b);
    ShownIff(base, s', Ldp.WithBinary(pod, uri, b));
  }

  lemma SidecarShows(base: string, s: Snapshot, pod: Ldp.Pod, uri: string, b: Ldp.Stored)
    requires Mirrors(base, s) && Shows(base, s, pod) && base <= uri
    ensures var path, meta := uri[|base|..], Description(uri, b.contentType);
            Shows(base, Put(Put(s, path, Binary(b.data)), path + META_TTL, Turtle(meta)).(dataset := s.dataset[uri + META := meta]),
                  Ldp.WithBinary(pod, uri, b))
  {
    MetaPath(base, uri);
    var path := uri[|base|..];
    BytesShow(base, s, pod, uri, b.data);
    if path + META_TTL in s.files {
      TurtleIsNotBinary(base, s, uri + META);
    }
    assert |path| != |path + META_TTL|;
    var meta := Description(uri, b.contentType);
    TurtleShows(base, Put(s, path, Binary(b.data)), pod.(binaries := pod.binaries[uri := b.data]), path + META_TTL, meta,
                s.dataset[uri + META := meta]);
  }

  lemma DeleteOfDocument(base: string, s: Snapshot, pod: Ldp.Pod, uri: string)
    requires Mirrors(base, s) && Shows(base, s, pod) && base <= uri && uri[|base|..] + TTL in s.files
    ensures uri in pod.graphs
    ensures Shows(base, Unlink(s, uri[|base|..] + TTL).(dataset := s.dataset - {uri}), Ldp.Without(pod, uri))
  {
    MirrorsIff(base, s);
    TurtleIsNotBinary(base, s, uri);
    TurtleShows(base, s, pod, uri[|base|..] + TTL, {}, s.dataset - {uri});
  }

  lemma DeleteOfBinary(base: string, s: Snapshot, pod: Ldp.Pod, uri: string)
    requires Mirrors(base, s) && Shows(base, s, pod) && base <= uri
    requires uri[|base|..] + TTL !in s.files
    requires uri[|base|..] in s.files && s.files[uri[|base|..]].Binary?
    ensures uri in pod.binaries
    ensures Shows(base, Unlink(Unlink(s, uri[|base|..]), uri[|base|..] + META_TTL).(dataset := s.dataset - {uri + META}),
                  Ldp.Without(pod, uri))
  {
    var rel := uri[|base|..];
    ShowsIff(base, s, pod);
    MirrorsIff(base, s);
    assert uri !in pod.graphs;
    BytesUnlinked(base, s, pod, uri);
    MetaPath(base, uri);
    if rel + META_TTL in s.files {
      TurtleIsNotBinary(base, s, uri + META);
    }
    TurtleShows(base, Unlink(s, rel), pod.(binaries := pod.binaries - {uri}), rel + META_TTL, {}, s.dataset - {uri + META});
  }

  /** A completed delete removed a document, or a binary with its sidecar. */
  lemma DeletedWhat(base: string, s: Snapshot, uri: string)
    requires NamesItsOwn(base, s, uri) && AfterDelete(base, s, uri).1.Done?
    ensures base <= uri
    ensures var rel, after := uri[|base|..], AfterDelete(base, s, uri).0;
            if rel + TTL in s.files then after == Unlink(s, rel + TTL).(dataset := s.dataset - {uri})
            else rel in s.files && !EndsWith(rel, TTL)
                 && after == Unlink(Unlink(s, rel), rel + META_TTL).(dataset := s.dataset - {uri + META})
  {
    hide Unlink;
    RelativeOf(base, uri);
  }

  /** What a delete finds under the URI is the URI's own: its document, or a binary not named *.ttl. */
  predicate NamesItsOwn(base: string, s: Snapshot, uri: string) {
    && CanonicalRdf(base, uri)
    && (uri[|base|..] + TTL in s.files || (CanonicalBin(base, uri) && !EndsWith(uri[|base|..], TTL)))
  }

  lemma DeleteRefines(base: string, s: Snapshot, uri: string)
    requires Mirrors(base, s) && WellKept(s) && NamesItsOwn(base, s, uri)
    requires AfterDelete(base, s, uri).1.Done?
    ensures uri in Shown(base, s).graphs || uri in Shown(base, s).binaries
    ensures var s' := AfterDelete(base, s, uri).0;
            Mirrors(base, s') && Shown(base, s') == Ldp.Without(Shown(base, s), uri)
  {
    var pod, s' := Shown(base, s), AfterDelete(base, s, uri).0;
    DeletedWhat(base, s, uri);
    var rel := uri[|base|..];
    assert rel in s.files ==> FileKept(s, rel);
    assert rel + TTL !in s.files ==> s.files[rel].Binary?;
    hide AfterDelete, Unlink, Shown, Shows, Mirrors, EndsWith, CanonicalRdf, CanonicalBin, WellKept, Ldp.Without;
    ShownIff(base, s, pod);
    if rel + TTL in s.files {
      DeleteOfDocument(base, s, pod, uri);
      UnlinkTurtle(base, s, uri);
    } else {
      DeleteOfBinary(base, s, pod, uri);
      OwnDeleteMirrors(base, s, uri);
    }
    ShownIff(base, s', Ldp.Without(pod, uri));
  }

  lemma OwnDeleteMirrors(base: string, s: Snapshot, uri: string)
    requires Mirrors(base, s) && WellKept(s) && NamesItsOwn(base, s, uri)
    ensures Mirrors(base, AfterDelete(base, s, uri).0)
  {
    RelativeOf(base, uri);
    DeleteMirrorsIff(base, s, uri);
  }

  /** A read finds exactly what the pod holds, unless a directory has the document's file name. */
  lemma ReadRefines(base: string, s: Snapshot, uri: string)
    requires Mirrors(base, s) && CanonicalRdf(base, uri)
    ensures AfterRead(base, s, uri).1.Done? || AfterRead(base, s, uri).1.NotFound?
    ensures uri in Shown(base, s).graphs ==> AfterRead(base, s, uri) == (Shown(base, s).graphs[uri], Done)
    ensures uri !in Shown(base, s).graphs ==> AfterRead(base, s, uri).0 == {}
    ensures uri !in Shown(base, s).graphs ==> (AfterRead(base, s, uri).1.Done? <==> uri[|base|..] + TTL in s.dirs)
  {
    RelativeOf(base, uri);
    MirrorsIff(base, s);
    ShownIff(base, s, Shown(base, s));
  }

  /**
   A conditional replace stores the graph exactly when one is stored whose tag is the expected one, and
   changes nothing otherwise; only a directory of the document's file name is an exception.
   */
  lemma ReplaceRefines<E>(base: string, s: Snapshot, uri: string, g: Graph, expected: E, etagOf: Graph -> E)
    requires Mirrors(base, s) && WellKept(s) && CanonicalRdf(base, uri) && uri[|base|..] + TTL !in s.dirs
    ensures var (s', outcome) := AfterReplace(base, s, uri, g, expected, etagOf);
            var pod := Shown(base, s);
            if uri in pod.graphs && etagOf(pod.graphs[uri]) == expected
            then outcome.Done? && Shown(base, s') == pod.(graphs := pod.graphs[uri := g])
            else outcome.Stale? && s' == s
  {
    ReadRefines(base, s, uri);
    ReplaceReads(base, s, uri, g, expected, etagOf);
    ShownFile(base, s, uri);
    hide AfterReplace, AfterRead, AfterWrite, Shown, Mirrors, CanonicalRdf, WellKept;
    if uri in Shown(base, s).graphs && etagOf(Shown(base, s).graphs[uri]) == expected {
      WritesOver(base, s, uri, g);
      WriteRefines(base, s, uri, g);
    }
  }

  lemma ShownFile(base: string, s: Snapshot, uri: string)
    requires CanonicalRdf(base, uri)
    ensures uri in Shown(base, s).graphs ==> uri[|base|..] + TTL in s.files
  {
  }

  lemma ReplaceReads<E>(base: string, s: Snapshot, uri: string, g: Graph, expected: E, etagOf: Graph -> E)
    requires CanonicalRdf(base, uri)
    ensures AfterReplace(base, s, uri, g, expected, etagOf) ==
            var (current, read) := AfterRead(base, s, uri);
            if !read.Done? || etagOf(current) != expected then (s, Stale) else AfterWrite(base, s, uri, g)
  {
    RelativeOf(base, uri);
    hide AfterWrite, Resolve;
  }

  /** A file may be written over. */
  lemma WritesOver(base: string, s: Snapshot, uri: string, g: Graph)
    requires CanonicalRdf(base, uri) && WellKept(s) && uri[|base|..] + TTL in s.files
    ensures AfterWrite(base, s, uri, g).1.Done?
  {
    RelativeOf(base, uri);
    hide Resolve, Ancestors;
    assert FileKept(s, uri[|base|..] + TTL);
    assert forall a :: a in Ancestors(uri[|base|..] + TTL) ==> a in s.dirs;
    assert forall a :: a in s.files ==> FileKept(s, a);
  }
}
