/**
 The in-memory dataset and the disk.  Each operation is shown to keep them in agreement exactly
 when a condition on its URI and on the state it meets holds, and so does a whole run: dataset
 and disk agree after every operation exactly when every operation met its condition.  Three
 requests a client can make break it: deleting "y.ttl" when the RDF document "y" is stored,
 deleting "a/" when the binary "a" is, and writing below a name such as "x.ttl".
 */
module StorageAgreement {
  import opened Paths
  import opened Rdf
  import opened Storage

  /** A file as the operations leave it: a resolved path in directories, Turtle under a *.ttl name. */
  predicate FileKept(s: Snapshot, p: string)
    requires p in s.files
  {
    && IsResolved(p) && p !in s.dirs && Ancestors(p) <= s.dirs
    && (s.files[p].Turtle? ==> EndsWith(p, TTL))
  }

  /** What the storage root looks like: the root is a directory, and every file is kept well. */
  ghost predicate WellKept(s: Snapshot) {
    "" in s.dirs && forall p :: p in s.files ==> FileKept(s, p)
  }

  // ------------------------------------------------------------------ kept by everything

  lemma PutKept(s: Snapshot, path: string, file: File)
    requires WellKept(s) && CanWrite(s, path) && IsResolved(path)
    requires file.Turtle? ==> EndsWith(path, TTL)
    ensures WellKept(Put(s, path, file))
  {
    hide IsResolved, EndsWith;
    var s' := Put(s, path, file);
    assert path !in Ancestors(path);
    forall p | p in s'.files ensures FileKept(s', p) {
      if p != path {
        assert FileKept(s, p);
      }
    }
  }

  lemma UnlinkKept(s: Snapshot, path: string)
    requires WellKept(s)
    ensures WellKept(Unlink(s, path))
  {
    forall p | p in Unlink(s, path).files ensures FileKept(Unlink(s, path), p) {
      assert FileKept(s, p);
    }
  }

  /** What is stored can be written again. */
  lemma StoredCanWrite(s: Snapshot, path: string)
    requires WellKept(s) && path in s.files
    ensures CanWrite(s, path)
  {
    assert FileKept(s, path);
    forall a | a in Ancestors(path) ensures a !in s.files {
      assert a in s.files ==> FileKept(s, a);
    }
  }

  lemma MetaTtlHasNoSlash()
    ensures NoSlash(TTL) && NoSlash(META_TTL) && |TTL| > 2 && |META_TTL| > 2
  {
  }

  lemma MetaEndsInTtl(path: string)
    ensures EndsWith(path + META_TTL, TTL)
  {
    assert META_TTL == META + TTL;
    assert path + META_TTL == (path + META) + TTL;
    assert ((path + META) + TTL)[|path + META|..] == TTL;
  }

  lemma WriteKept(base: string, s: Snapshot, uri: string, g: Graph)
    requires WellKept(s)
    ensures WellKept(AfterWrite(base, s, uri, g).0)
  {
    var name := RemovePrefix(uri, base);
    if RdfPath(base, uri).Within? && CanWrite(s, RdfPath(base, uri).value) {
      MetaTtlHasNoSlash();
      ResolveIsResolved(name + TTL);
      ResolveKeepsSuffix(name, TTL);
      PutKept(s, RdfPath(base, uri).value, Turtle(g));
    }
  }

  /** The sidecar can go beside bytes just written, unless a directory has its name. */
  lemma SidecarKept(s: Snapshot, path: string, data: Bytes, meta: Graph)
    requires WellKept(s) && CanWrite(s, path) && IsResolved(path) && path + META_TTL !in s.dirs
    ensures WellKept(Put(Put(s, path, Binary(data)), path + META_TTL, Turtle(meta)))
  {
    var withBytes := Put(s, path, Binary(data));
    PutKept(s, path, Binary(data));
    MetaTtlHasNoSlash();
    ResolvedWithSuffix(path, META_TTL);
    SidecarBeside(s, path);
    MetaEndsInTtl(path);
    StoredCanWrite(withBytes, path);
    PutKept(withBytes, path + META_TTL, Turtle(meta));
  }

  lemma WriteBinaryKept(base: string, s: Snapshot, uri: string, data: Bytes, contentType: string)
    requires WellKept(s)
    ensures WellKept(AfterWriteBinary(base, s, uri, data, contentType).0)
  {
    if WritesBytes(base, s, uri) {
      var path := BinPath(base, uri).value;
      ResolveIsResolved(RemovePrefix(uri, base));
      PutKept(s, path, Binary(data));
      if path + META_TTL !in s.dirs {
        SidecarKept(s, path, data, Description(uri, contentType));
      }
    }
  }

  lemma DeleteKept(base: string, s: Snapshot, uri: string)
    requires WellKept(s)
    ensures WellKept(AfterDelete(base, s, uri).0)
  {
    if RdfPath(base, uri).Within? && BinPath(base, uri).Within? {
      UnlinkKept(s, RdfPath(base, uri).value);
      var bin := BinPath(base, uri).value;
      UnlinkKept(s, bin);
      UnlinkKept(Unlink(s, bin), bin + META_TTL);
    }
  }

  // ---------------------------------------------------------------- one file, one graph

  lemma RelativeOf(base: string, uri: string)
    requires base <= uri
    ensures RemovePrefix(uri, base) == uri[|base|..] && uri == base + uri[|base|..]
  {
  }

  lemma TtlInjective(base: string, u: string, v: string)
    requires base <= u && base <= v && u[|base|..] + TTL == v[|base|..] + TTL
    ensures u == v
  {
    RelativeOf(base, u);
    RelativeOf(base, v);
    var x, y := u[|base|..], v[|base|..];
    assert (x + TTL)[..|x|] == x && (y + TTL)[..|y|] == y;
  }

  /** Storing one Turtle file and the graph named after it. */
  lemma PutTurtle(base: string, s: Snapshot, uri: string, g: Graph)
    requires Mirrors(base, s) && base <= uri
    ensures var path := uri[|base|..] + TTL;
            Mirrors(base, Put(s, path, Turtle(g)).(dataset := s.dataset[uri := g]))
  {
    var path := uri[|base|..] + TTL;
    var s' := Put(s, path, Turtle(g)).(dataset := s.dataset[uri := g]);
    MirrorsIff(base, s);
    forall v ensures v in s'.dataset <==> base <= v && v[|base|..] + TTL in s'.files {
      if base <= v && v[|base|..] + TTL == path {
        TtlInjective(base, uri, v);
      }
    }
    forall v | v in s'.dataset
      ensures s'.files[v[|base|..] + TTL].Turtle? && s'.dataset[v] == s'.files[v[|base|..] + TTL].graph
    {
      if v != uri && v[|base|..] + TTL == path {
        TtlInjective(base, uri, v);
        assert false;
      }
    }
    MirrorsIff(base, s');
  }

  /** Removing the same pair. */
  lemma UnlinkTurtle(base: string, s: Snapshot, uri: string)
    requires Mirrors(base, s) && base <= uri
    ensures var path := uri[|base|..] + TTL;
            Mirrors(base, Unlink(s, path).(dataset := s.dataset - {uri}))
  {
    var path := uri[|base|..] + TTL;
    var s' := Unlink(s, path).(dataset := s.dataset - {uri});
    MirrorsIff(base, s);
    forall v ensures v in s'.dataset <==> base <= v && v[|base|..] + TTL in s'.files {
      if base <= v && v[|base|..] + TTL == path {
        TtlInjective(base, uri, v);
      }
    }
    MirrorsIff(base, s');
  }

  /** A file that is not Turtle has no named graph. */
  lemma PutBytes(base: string, s: Snapshot, path: string, data: Bytes)
    requires Mirrors(base, s) && !EndsWith(path, TTL)
    ensures Mirrors(base, Put(s, path, Binary(data)))
  {
    MirrorsIff(base, s);
    forall v: string ensures base <= v ==> v[|base|..] + TTL != path {
      if base <= v {
        assert EndsWith(v[|base|..] + TTL, TTL);
      }
    }
    MirrorsIff(base, Put(s, path, Binary(data)));
  }

  lemma UnlinkBytes(base: string, s: Snapshot, path: string)
    requires Mirrors(base, s) && !EndsWith(path, TTL)
    ensures Mirrors(base, Unlink(s, path))
  {
    MirrorsIff(base, s);
    forall v: string ensures base <= v ==> v[|base|..] + TTL != path {
      if base <= v {
        assert EndsWith(v[|base|..] + TTL, TTL);
      }
    }
    MirrorsIff(base, Unlink(s, path));
  }

  lemma MetaPath(base: string, uri: string)
    requires base <= uri
    ensures base <= uri + META && (uri + META)[|base|..] + TTL == uri[|base|..] + META_TTL
  {
    assert (uri + META)[..|base|] == uri[..|base|] == base;
    assert (uri + META)[|base|..] == uri[|base|..] + META;
    assert META + TTL == META_TTL;
  }

  // ------------------------------------------------------------------- exact conditions

  /** The bytes of a binary write go to disk. */
  predicate WritesBytes(base: string, s: Snapshot, uri: string) {
    !Reserved(base, uri) && BinPath(base, uri).Within? && CanWrite(s, BinPath(base, uri).value)
  }

  /** A write that goes through keeps the agreement exactly when the URI names its file. */
  lemma WriteMirrorsIff(base: string, s: Snapshot, uri: string, g: Graph)
    requires Mirrors(base, s) && WellKept(s)
    requires AfterWrite(base, s, uri, g).1.Done?
    ensures Mirrors(base, AfterWrite(base, s, uri, g).0) <==> CanonicalRdf(base, uri)
  {
    var s' := AfterWrite(base, s, uri, g).0;
    if CanonicalRdf(base, uri) {
      RelativeOf(base, uri);
      PutTurtle(base, s, uri, g);
    }
    if Mirrors(base, s') {
      MirrorsIff(base, s');
      assert uri in s'.dataset;
      RelativeOf(base, uri);
      WriteKept(base, s, uri, g);
      assert FileKept(s', uri[|base|..] + TTL);
    }
  }

  /** The bytes are not under a Turtle name, and the sidecar, if it goes too, is the URI's own. */
  predicate OwnSidecar(base: string, s: Snapshot, uri: string) {
    var bin := BinPath(base, uri);
    && bin.Within?
    && !EndsWith(bin.value, TTL)
    && (bin.value + META_TTL in s.dirs || uri == base + bin.value)
  }

  /** A binary write that reaches the disk keeps it exactly when bytes and sidecar are the URI's own. */
  lemma WriteBinaryMirrorsIff(base: string, s: Snapshot, uri: string, data: Bytes, contentType: string)
    requires Mirrors(base, s) && WellKept(s) && base <= uri && WritesBytes(base, s, uri)
    ensures Mirrors(base, AfterWriteBinary(base, s, uri, data, contentType).0) <==> OwnSidecar(base, s, uri)
  {
    var bin := BinPath(base, uri).value;
    RelativeOf(base, uri);
    if OwnSidecar(base, s, uri) {
      BinaryKeepsMirror(base, s, uri, data, contentType);
    }
    var s' := AfterWriteBinary(base, s, uri, data, contentType).0;
    if Mirrors(base, s') {
      SidecarBeside(s, bin);
      assert !EndsWith(bin, TTL) by {
        assert bin in s'.files && s'.files[bin].Binary?;
      }
      if bin + META_TTL !in s.dirs {
        ForeignSidecar(base, s, uri, bin, data, Description(uri, contentType));
      }
    }
  }

  /** A sidecar put under a name that is not the URI's own leaves its graph without a file. */
  lemma ForeignSidecar(base: string, s: Snapshot, uri: string, bin: string, data: Bytes, meta: Graph)
    requires WellKept(s) && base <= uri && Resolve(uri[|base|..]) == Within(bin) && CanWrite(s, bin)
    requires var s' := Put(Put(s, bin, Binary(data)), bin + META_TTL, Turtle(meta)).(dataset := s.dataset[uri + META := meta]);
             Mirrors(base, s')
    ensures uri == base + bin
  {
    var s' := Put(Put(s, bin, Binary(data)), bin + META_TTL, Turtle(meta)).(dataset := s.dataset[uri + META := meta]);
    var rel := uri[|base|..];
    MirrorsIff(base, s');
    MetaPath(base, uri);
    ResolveShrinks(rel);
    assert uri + META in s'.dataset;
    assert rel + META_TTL in s'.files;
    if rel != bin {
      assert rel + META_TTL != bin + META_TTL by {
        assert (rel + META_TTL)[..|rel|] == rel && (bin + META_TTL)[..|bin|] == bin;
      }
      assert FileKept(s, rel + META_TTL);
      MetaTtlHasNoSlash();
      UnresolvedTail(rel, META_TTL);
      assert false;
    }
  }

  lemma BinaryKeepsMirror(base: string, s: Snapshot, uri: string, data: Bytes, contentType: string)
    requires Mirrors(base, s) && base <= uri && OwnSidecar(base, s, uri)
    ensures Mirrors(base, AfterWriteBinary(base, s, uri, data, contentType).0)
  {
    RelativeOf(base, uri);
    var bin := BinPath(base, uri).value;
    if WritesBytes(base, s, uri) {
      PutBytes(base, s, bin, data);
      if bin + META_TTL !in s.dirs {
        assert uri[|base|..] == bin;
        var withBytes := Put(s, bin, Binary(data));
        MetaPath(base, uri);
        PutTurtle(base, withBytes, uri + META, Description(uri, contentType));
      }
    }
  }

  /** The delete found no RDF file and removed what is at the binary path. */
  predicate TakesBinaryBranch(base: string, s: Snapshot, uri: string) {
    && RdfPath(base, uri).Within? && BinPath(base, uri).Within?
    && !Exists(s, RdfPath(base, uri).value)
    && BinPath(base, uri).value in s.files
  }

  /** The binary path is not that of some RDF document, and the sidecar removed is the URI's own. */
  predicate OwnBinary(base: string, s: Snapshot, uri: string) {
    var bin := BinPath(base, uri);
    && bin.Within?
    && !EndsWith(bin.value, TTL)
    && (|| bin.value + META_TTL in s.dirs
        || uri == base + bin.value
        || (bin.value + META_TTL !in s.files && uri + META !in s.dataset))
  }

  /** What may stand in a delete's way: nothing, if its RDF file is its own and so is its binary. */
  predicate DeletesOwn(base: string, s: Snapshot, uri: string) {
    && (RdfPath(base, uri).Within? && BinPath(base, uri).Within? && RdfPath(base, uri).value in s.files
        ==> CanonicalRdf(base, uri))
    && (TakesBinaryBranch(base, s, uri) ==> OwnBinary(base, s, uri))
  }

  /** A delete, whatever its outcome, keeps the agreement exactly when what it unlinks is the URI's own. */
  lemma DeleteMirrorsIff(base: string, s: Snapshot, uri: string)
    requires Mirrors(base, s) && WellKept(s) && base <= uri
    ensures Mirrors(base, AfterDelete(base, s, uri).0) <==> DeletesOwn(base, s, uri)
  {
    RelativeOf(base, uri);
    if RdfPath(base, uri).Within? && BinPath(base, uri).Within? {
      var rdf, bin := RdfPath(base, uri).value, BinPath(base, uri).value;
      if rdf in s.files {
        DeleteDocumentIff(base, s, uri, rdf);
      } else if TakesBinaryBranch(base, s, uri) {
        var s' := AfterDelete(base, s, uri).0;
        if EndsWith(bin, TTL) {
          ResolveShrinks(uri[|base|..]);
          LostTurtle(base, s, s', bin, uri);
        } else if bin + META_TTL in s.dirs {
          UnlinkBytes(base, s, bin);
        } else {
          DeleteBinaryIff(base, s, uri, bin);
        }
      }
    }
  }

  lemma DeleteDocumentIff(base: string, s: Snapshot, uri: string, rdf: string)
    requires Mirrors(base, s) && WellKept(s) && base <= uri
    requires Resolve(uri[|base|..] + TTL) == Within(rdf) && rdf in s.files
    ensures Mirrors(base, Unlink(s, rdf).(dataset := s.dataset - {uri})) <==> CanonicalRdf(base, uri)
  {
    var name := uri[|base|..] + TTL;
    if name == rdf {
      UnlinkTurtle(base, s, uri);
    } else {
      MetaTtlHasNoSlash();
      ResolveKeepsSuffix(uri[|base|..], TTL);
      UriOfPath(base, rdf);
      MirrorsIff(base, s);
      MirrorsIff(base, Unlink(s, rdf).(dataset := s.dataset - {uri}));
      assert name in s.files ==> FileKept(s, name);
      assert uri !in s.dataset;
      assert PathToUri(base, rdf) in s.dataset;
    }
  }

  /** Unlinking a *.ttl file behind its graph's back. */
  lemma LostTurtle(base: string, s: Snapshot, s': Snapshot, path: string, uri: string)
    requires Mirrors(base, s) && EndsWith(path, TTL) && path in s.files && path !in s'.files
    requires s'.dataset == s.dataset || s'.dataset == s.dataset - {uri + META}
    requires PathToUri(base, path) != uri + META
    ensures !Mirrors(base, s')
  {
    MirrorsIff(base, s);
    MirrorsIff(base, s');
    UriOfPath(base, path);
    assert PathToUri(base, path) in s'.dataset;
  }

  lemma DeleteBinaryIff(base: string, s: Snapshot, uri: string, bin: string)
    requires Mirrors(base, s) && base <= uri && !EndsWith(bin, TTL)
    ensures var s' := Unlink(Unlink(s, bin), bin + META_TTL).(dataset := s.dataset - {uri + META});
            Mirrors(base, s') <==>
            uri == base + bin || (bin + META_TTL !in s.files && uri + META !in s.dataset)
  {
    var withoutBytes := Unlink(s, bin);
    UnlinkBytes(base, s, bin);
    var own := base + bin;
    assert own[|base|..] == bin;
    MetaPath(base, own);
    var matching := Unlink(withoutBytes, bin + META_TTL).(dataset := s.dataset - {own + META});
    UnlinkTurtle(base, withoutBytes, own + META);
    assert Mirrors(base, matching);
    MirrorsIff(base, s);
    assert own + META in s.dataset <==> bin + META_TTL in s.files;
    var s' := matching.(dataset := s.dataset - {uri + META});
    assert Mirrors(base, s') <==> s'.dataset == matching.dataset;
    if uri != own {
      assert (uri + META)[..|uri|] == uri && (own + META)[..|own|] == own;
      assert uri + META != own + META;
      RemovedKeys(s.dataset, uri + META, own + META);
    }
  }

  lemma RemovedKeys(m: map<string, Graph>, x: string, y: string)
    requires x != y
    ensures m - {x} == m - {y} <==> x !in m && y !in m
  {
    if x !in m && y !in m {
      assert m - {x} == m;
      assert m - {y} == m;
    } else if x in m {
      assert x in m - {y} && x !in m - {x};
    } else {
      assert y in m - {x} && y !in m - {y};
    }
  }

  // ------------------------------------------------------------------------- restarts

  lemma AgreesParts(base: string, s: Snapshot)
    ensures Agrees(base, s) <==> Mirrors(base, s) && PlainDirs(s.dirs)
  {
  }

  /** The document's name is the one its file gives back, and a restart comes by no such directory. */
  predicate WritesOwn(base: string, uri: string) {
    CanonicalRdf(base, uri) && PlainAbove(uri[|base|..] + TTL)
  }

  /**
   A write that goes through keeps dataset and disk in agreement exactly when the URI names its file,
   and no directory on the way to it is called *.ttl.
   */
  lemma WriteAgreesIff(base: string, s: Snapshot, uri: string, g: Graph)
    requires Agrees(base, s) && WellKept(s)
    requires AfterWrite(base, s, uri, g).1.Done?
    ensures Agrees(base, AfterWrite(base, s, uri, g).0) <==> WritesOwn(base, uri)
  {
    hide Mirrors, WellKept, CanonicalRdf, EndsWith;
    var s' := AfterWrite(base, s, uri, g).0;
    AgreesParts(base, s);
    AgreesParts(base, s');
    WriteMirrorsIff(base, s, uri, g);
    assert s'.dirs == s.dirs + Ancestors(RdfPath(base, uri).value);
    if CanonicalRdf(base, uri) {
      CanonicalPath(base, uri);
    }
  }

  lemma CanonicalPath(base: string, uri: string)
    requires CanonicalRdf(base, uri)
    ensures base <= uri && RdfPath(base, uri) == Within(uri[|base|..] + TTL)
  {
    RelativeOf(base, uri);
  }

  /** So does a binary write that reaches the disk, exactly when bytes and sidecar are the URI's own. */
  lemma WriteBinaryAgreesIff(base: string, s: Snapshot, uri: string, data: Bytes, contentType: string)
    requires Agrees(base, s) && WellKept(s) && base <= uri && WritesBytes(base, s, uri)
    ensures Agrees(base, AfterWriteBinary(base, s, uri, data, contentType).0) <==>
            OwnSidecar(base, s, uri) && PlainAbove(BinPath(base, uri).value)
  {
    hide Mirrors, WellKept, OwnSidecar, EndsWith, Resolve, Ancestors;
    var s', bin := AfterWriteBinary(base, s, uri, data, contentType).0, BinPath(base, uri).value;
    AgreesParts(base, s);
    AgreesParts(base, s');
    WriteBinaryMirrorsIff(base, s, uri, data, contentType);
    SidecarBeside(s, bin);
    assert s'.dirs == s.dirs + Ancestors(bin);
  }

  /** A delete, which makes and removes no directory, exactly when what it unlinks is the URI's own. */
  lemma DeleteAgreesIff(base: string, s: Snapshot, uri: string)
    requires Agrees(base, s) && WellKept(s) && base <= uri
    ensures Agrees(base, AfterDelete(base, s, uri).0) <==> DeletesOwn(base, s, uri)
  {
    hide Mirrors, WellKept, DeletesOwn, EndsWith, Resolve;
    AgreesParts(base, s);
    AgreesParts(base, AfterDelete(base, s, uri).0);
    DeleteMirrorsIff(base, s, uri);
  }

  // ----------------------------------------------------------------------- whole runs

  datatype Op =
    | OpWrite(uri: string, graph: Graph)
    | OpWriteBinary(uri: string, data: Bytes, contentType: string)
    | OpDelete(uri: string)
    | OpReplace(uri: string, graph: Graph, expected: string)

  function Apply(base: string, etagOf: Graph -> string, s: Snapshot, op: Op): Snapshot {
    match op
    case OpWrite(uri, graph) => AfterWrite(base, s, uri, graph).0
    case OpWriteBinary(uri, data, contentType) => AfterWriteBinary(base, s, uri, data, contentType).0
    case OpDelete(uri) => AfterDelete(base, s, uri).0
    case OpReplace(uri, graph, expected) => AfterReplace(base, s, uri, graph, expected, etagOf).0
  }

  function Run(base: string, etagOf: Graph -> string, s: Snapshot, ops: seq<Op>): Snapshot {
    if ops == [] then s
    else Apply(base, etagOf, Run(base, etagOf, s, ops[..|ops| - 1]), ops[|ops| - 1])
  }

  /** What an operation must meet, in the state it finds, for dataset and disk to stay together. */
  predicate Safe(base: string, etagOf: Graph -> string, s: Snapshot, op: Op) {
    match op
    case OpWrite(uri, graph) => AfterWrite(base, s, uri, graph).1.Done? ==> WritesOwn(base, uri)
    case OpReplace(uri, graph, expected) =>
      AfterReplace(base, s, uri, graph, expected, etagOf).1.Done? ==> WritesOwn(base, uri)
    case OpWriteBinary(uri, _, _) =>
      WritesBytes(base, s, uri) ==> OwnSidecar(base, s, uri) && PlainAbove(BinPath(base, uri).value)
    case OpDelete(uri) => DeletesOwn(base, s, uri)
  }

  lemma ApplyAgreesIff(base: string, etagOf: Graph -> string, s: Snapshot, op: Op)
    requires Agrees(base, s) && WellKept(s) && base <= op.uri
    ensures WellKept(Apply(base, etagOf, s, op))
    ensures Agrees(base, Apply(base, etagOf, s, op)) <==> Safe(base, etagOf, s, op)
  {
    hide Agrees, WellKept, WritesOwn, OwnSidecar, DeletesOwn, PlainAbove;
    match op
    case OpWrite(uri, graph) => WriteStep(base, s, uri, graph);
    case OpReplace(uri, graph, _) => WriteStep(base, s, uri, graph);
    case OpWriteBinary(uri, data, contentType) =>
      WriteBinaryKept(base, s, uri, data, contentType);
      if WritesBytes(base, s, uri) {
        WriteBinaryAgreesIff(base, s, uri, data, contentType);
      }
    case OpDelete(uri) =>
      DeleteKept(base, s, uri);
      DeleteAgreesIff(base, s, uri);
  }

  lemma WriteStep(base: string, s: Snapshot, uri: string, g: Graph)
    requires Agrees(base, s) && WellKept(s)
    ensures WellKept(AfterWrite(base, s, uri, g).0)
    ensures Agrees(base, AfterWrite(base, s, uri, g).0) <==>
            (AfterWrite(base, s, uri, g).1.Done? ==> WritesOwn(base, uri))
  {
    WriteKept(base, s, uri, g);
    if AfterWrite(base, s, uri, g).1.Done? {
      WriteAgreesIff(base, s, uri, g);
    }
  }

  ghost predicate AgreesThroughout(base: string, etagOf: Graph -> string, s: Snapshot, ops: seq<Op>) {
    forall n :: 0 <= n <= |ops| ==> Agrees(base, Run(base, etagOf, s, ops[..n]))
  }

  ghost predicate AllSafe(base: string, etagOf: Graph -> string, s: Snapshot, ops: seq<Op>) {
    forall n :: 0 <= n < |ops| ==> Safe(base, etagOf, Run(base, etagOf, s, ops[..n]), ops[n])
  }

  lemma AgreesThroughoutStep(base: string, etagOf: Graph -> string, s: Snapshot, ops: seq<Op>)
    requires ops != []
    ensures var earlier := ops[..|ops| - 1];
            AgreesThroughout(base, etagOf, s, ops) <==>
            AgreesThroughout(base, etagOf, s, earlier) && Agrees(base, Run(base, etagOf, s, ops))
  {
    hide Agrees, Run;
    var earlier := ops[..|ops| - 1];
    assert forall n :: 0 <= n < |ops| ==> earlier[..n] == ops[..n];
    assert ops[..|ops|] == ops;
    if AgreesThroughout(base, etagOf, s, earlier) && Agrees(base, Run(base, etagOf, s, ops)) {
      forall n | 0 <= n <= |ops| ensures Agrees(base, Run(base, etagOf, s, ops[..n])) {
        if n < |ops| {
          assert earlier[..n] == ops[..n];
        }
      }
    }
  }

  lemma AllSafeStep(base: string, etagOf: Graph -> string, s: Snapshot, ops: seq<Op>)
    requires ops != []
    ensures var earlier := ops[..|ops| - 1];
            AllSafe(base, etagOf, s, ops) <==>
            AllSafe(base, etagOf, s, earlier) && Safe(base, etagOf, Run(base, etagOf, s, earlier), ops[|ops| - 1])
  {
    hide Safe, Run;
    var m := |ops| - 1;
    var earlier := ops[..m];
    if AllSafe(base, etagOf, s, ops) {
      forall n | 0 <= n < m ensures Safe(base, etagOf, Run(base, etagOf, s, earlier[..n]), earlier[n]) {
        assert earlier[..n] == ops[..n];
        assert Safe(base, etagOf, Run(base, etagOf, s, ops[..n]), ops[n]);
      }
      assert Safe(base, etagOf, Run(base, etagOf, s, ops[..m]), ops[m]);
    } else {
      var n :| 0 <= n < |ops| && !Safe(base, etagOf, Run(base, etagOf, s, ops[..n]), ops[n]);
      assert n < m ==> earlier[..n] == ops[..n] && earlier[n] == ops[n];
    }
  }

  /**
   Over any run of operations the dataset is at every point what a restart would rebuild from
   the disk, exactly when each operation was safe in the state it met.
   */
  lemma {:induction false} AgreesThroughoutIff(base: string, etagOf: Graph -> string, s: Snapshot, ops: seq<Op>)
    requires Agrees(base, s) && WellKept(s) && forall op :: op in ops ==> base <= op.uri
    ensures AgreesThroughout(base, etagOf, s, ops) <==> AllSafe(base, etagOf, s, ops)
    ensures AllSafe(base, etagOf, s, ops) ==> WellKept(Run(base, etagOf, s, ops)) && Agrees(base, Run(base, etagOf, s, ops))
  {
    hide Agrees, WellKept, Safe, Apply;
    if ops == [] {
      assert ops[..0] == [];
    } else {
      var m := |ops| - 1;
      var earlier := ops[..m];
      assert forall op :: op in earlier ==> op in ops;
      assert ops[m] in ops;
      AgreesThroughoutStep(base, etagOf, s, ops);
      AllSafeStep(base, etagOf, s, ops);
      hide AgreesThroughout, AllSafe;
      AgreesThroughoutIff(base, etagOf, s, earlier);
      if AllSafe(base, etagOf, s, earlier) {
        ApplyAgreesIff(base, etagOf, Run(base, etagOf, s, earlier), ops[m]);
      }
    }
  }

  /**
   No empty, "." or ".." segments, a trailing slash only where RDF is meant, no binary named
   *.ttl, and nothing written below a segment named so; a delete may name anything canonical but a stored binary or file that is not its own.
   */
  predicate CanonicalOp(base: string, s: Snapshot, op: Op) {
    match op
    case OpWrite(uri, _) => WritesOwn(base, uri)
    case OpReplace(uri, _, _) => WritesOwn(base, uri)
    case OpWriteBinary(uri, _, _) =>
      CanonicalBin(base, uri) && !EndsWith(uri[|base|..], TTL) && PlainAbove(uri[|base|..])
    case OpDelete(uri) =>
      && CanonicalRdf(base, uri)
      && (|| uri[|base|..] + TTL in s.files
          || (CanonicalBin(base, uri) && !EndsWith(uri[|base|..], TTL))
          || (BinPath(base, uri).Within? ==> BinPath(base, uri).value !in s.files))
  }

  lemma CanonicalIsSafe(base: string, etagOf: Graph -> string, s: Snapshot, op: Op)
    requires CanonicalOp(base, s, op)
    ensures Safe(base, etagOf, s, op)
  {
    RelativeOf(base, op.uri);
  }

  /** Any run of operations on canonical names, container deletes included, keeps the agreement. */
  lemma {:induction false} AlwaysAgrees(base: string, etagOf: Graph -> string, s: Snapshot, ops: seq<Op>)
    requires Agrees(base, s) && WellKept(s)
    requires forall n :: 0 <= n < |ops| ==> CanonicalOp(base, Run(base, etagOf, s, ops[..n]), ops[n])
    ensures Agrees(base, Run(base, etagOf, s, ops))
  {
    hide Agrees, WellKept, Safe, CanonicalRdf, CanonicalBin;
    forall n | 0 <= n < |ops| ensures Safe(base, etagOf, Run(base, etagOf, s, ops[..n]), ops[n]) && base <= ops[n].uri {
      CanonicalUnderBase(base, Run(base, etagOf, s, ops[..n]), ops[n]);
      CanonicalIsSafe(base, etagOf, Run(base, etagOf, s, ops[..n]), ops[n]);
    }
    AgreesThroughoutIff(base, etagOf, s, ops);
  }

  lemma CanonicalUnderBase(base: string, s: Snapshot, op: Op)
    requires CanonicalOp(base, s, op)
    ensures base <= op.uri
  {
  }

  // ---------------------------------------------------------------- the three breakages

  lemma EmptyMirrors(base: string)
    ensures Mirrors(base, Snapshot(map[], {""}, map[]))
  {
    MirrorsIff(base, Snapshot(map[], {""}, map[]));
  }

  lemma SegmentIsResolved(seg: string)
    requires CleanSegment(seg)
    ensures IsResolved(seg) && Ancestors(seg) == {}
  {
    CleanIsResolved([seg]);
    forall i | 0 <= i < |seg| ensures seg[i] != '/' {
      assert seg[i] in seg;
    }
  }

  lemma SuffixedSegment(seg: string, suffix: string)
    requires CleanSegment(seg) && NoSlash(suffix) && |suffix| > 2
    ensures CleanSegment(seg + suffix) && IsResolved(seg + suffix) && Ancestors(seg + suffix) == {}
  {
    SegmentIsResolved(seg + suffix);
  }

  lemma OnlyRootIsPlain()
    ensures PlainDirs({""})
  {
  }

  /** A file in a directory of the root. */
  lemma TwoSegments(dir: string, file: string)
    requires CleanSegment(dir) && CleanSegment(file)
    ensures IsResolved(dir + "/" + file) && Ancestors(dir + "/" + file) == {dir}
  {
    hide CleanSegment, Resolve;
    assert Clean([dir, file]);
    CleanIsResolved([dir, file]);
    assert Join([dir, file]) == dir + "/" + file;
    var path := dir + "/" + file;
    assert NoSlash(dir) && NoSlash(file) by {
      SegmentsHaveNoSlash(dir, file);
    }
    assert path[|dir|] == '/' && path[..|dir|] == dir;
    forall i | 0 <= i < |path| && i != |dir| ensures path[i] != '/' {
      if i < |dir| {
        assert path[i] == dir[i] && dir[i] in dir;
      } else {
        assert path[i] == file[i - |dir| - 1] && file[i - |dir| - 1] in file;
      }
    }
  }

  lemma SegmentsHaveNoSlash(dir: string, file: string)
    requires CleanSegment(dir) && CleanSegment(file)
    ensures NoSlash(dir) && NoSlash(file)
  {
  }

  /** What ends in ".ttl" is no reserved name. */
  lemma TtlIsPublic(x: string)
    ensures x + TTL !in RESERVED && EndsWith(x + TTL, TTL)
  {
    var dir := x + TTL;
    assert dir[|x|..] == TTL && TTL[3] == 'l' && TTL[2] == 't' && dir[|dir| - 1] == 'l' && dir[|dir| - 2] == 't';
  }

  lemma BelowTtl(x: string, y: string)
    requires CleanSegment(x) && NoSlash(y)
    ensures var path := x + TTL + "/" + (y + TTL);
            IsResolved(path) && Ancestors(path) == {x + TTL}
    ensures Split(x + TTL + "/" + y)[0] == x + TTL
  {
    MetaTtlHasNoSlash();
    var dir, file := x + TTL, y + TTL;
    assert CleanSegment(dir) && CleanSegment(file);
    hide CleanSegment, IsResolved, Ancestors;
    TwoSegments(dir, file);
    SplitJoin([dir, y]);
    assert Join([dir, y]) == dir + "/" + y;
  }

  /**
   Writing the document "x.ttl/y", or the container "x.ttl/", makes a directory that the next start
   takes for a Turtle file: the write is done, and the backend does not come up again.
   */
  lemma WritingBelowTtlBreaks(base: string, x: string, y: string, g: Graph)
    requires CleanSegment(x) && NoSlash(y)
    ensures var s, uri := Snapshot(map[], {""}, map[]), base + (x + TTL + "/" + y);
            && Agrees(base, s) && WellKept(s) && CanonicalRdf(base, uri) && !Reserved(base, uri)
            && AfterWrite(base, s, uri, g).1.Done?
            && var s' := AfterWrite(base, s, uri, g).0;
               Mirrors(base, s') && !Boots(s'.files, s'.dirs)
  {
    var uri := base + (x + TTL + "/" + y);
    hide CleanSegment, Ancestors, AfterWrite, Boots, WellKept, Agrees, Mirrors, CanonicalRdf, Reserved, EndsWith;
    BelowTtlName(base, x, y);
    FirstDirectory(base, uri, x + TTL, g);
  }

  lemma BelowTtlName(base: string, x: string, y: string)
    requires CleanSegment(x) && NoSlash(y)
    ensures var uri := base + (x + TTL + "/" + y);
            && CanonicalRdf(base, uri) && Ancestors(uri[|base|..] + TTL) == {x + TTL} && EndsWith(x + TTL, TTL)
            && !Reserved(base, uri)
  {
    hide Resolve, EndsWith, Split, CleanSegment, Ancestors, IsResolved;
    var rel := x + TTL + "/" + y;
    BelowTtl(x, y);
    TtlIsPublic(x);
    RelativeOf(base, base + rel);
    assert (base + rel)[|base|..] == rel;
    assert rel + TTL == x + TTL + "/" + (y + TTL);
  }

  /** The first write into an empty pod, in a directory of this name. */
  lemma FirstDirectory(base: string, uri: string, dir: string, g: Graph)
    requires CanonicalRdf(base, uri) && Ancestors(uri[|base|..] + TTL) == {dir} && EndsWith(dir, TTL)
    ensures var s := Snapshot(map[], {""}, map[]);
            && Agrees(base, s) && WellKept(s) && AfterWrite(base, s, uri, g).1.Done?
            && var s' := AfterWrite(base, s, uri, g).0;
               Mirrors(base, s') && !Boots(s'.files, s'.dirs)
  {
    var s := Snapshot(map[], {""}, map[]);
    hide Mirrors, Resolve, Ancestors;
    EmptyMirrors(base);
    WriteMirrorsIff(base, s, uri, g);
    assert dir in AfterWrite(base, s, uri, g).0.dirs;
  }

  /** A pod holding one RDF document. */
  function OneDocument(base: string, y: string, g: Graph): Snapshot {
    Snapshot(map[y + TTL := Turtle(g)], {""}, map[base + y := g])
  }

  /** Deleting "y.ttl" where the document "y" is stored removes the file and keeps the graph. */
  lemma DeletingTtlNameBreaks(base: string, y: string, g: Graph)
    requires CleanSegment(y)
    ensures var s, uri := OneDocument(base, y, g), base + (y + TTL);
            && Agrees(base, s) && WellKept(s)
            && AfterDelete(base, s, uri).1.Done?
            && !Agrees(base, AfterDelete(base, s, uri).0)
  {
    hide Mirrors, WellKept, CleanSegment, Resolve, IsResolved, Ancestors;
    var s, uri, own := OneDocument(base, y, g), base + (y + TTL), base + y;
    OneDocumentMirrors(base, y, g);
    TtlOfTtl(base, y);
    var s' := AfterDelete(base, s, uri).0;
    assert y + TTL + TTL !in s.files by {
      assert |y + TTL + TTL| != |y + TTL|;
    }
    assert EndsWith(y + TTL, TTL) && PathToUri(base, y + TTL) == own;
    assert |own| != |uri + META|;
    LostTurtle(base, s, s', y + TTL, uri);
    OnlyRootIsPlain();
    hide AfterDelete, PlainDirs;
    AgreesParts(base, s);
    AgreesParts(base, s');
  }

  lemma OneDocumentMirrors(base: string, y: string, g: Graph)
    requires CleanSegment(y)
    ensures Mirrors(base, OneDocument(base, y, g)) && WellKept(OneDocument(base, y, g))
  {
    var own := base + y;
    SuffixedSegment(y, TTL);
    RelativeOf(base, own);
    assert own[|base|..] == y;
    var empty := Snapshot(map[], {""}, map[]);
    EmptyMirrors(base);
    hide Mirrors, Resolve;
    PutTurtle(base, empty, own, g);
    assert OneDocument(base, y, g) == Put(empty, y + TTL, Turtle(g)).(dataset := empty.dataset[own := g]);
  }

  /** The RDF path and the binary path of "y.ttl". */
  lemma TtlOfTtl(base: string, y: string)
    requires CleanSegment(y)
    ensures var uri := base + (y + TTL);
            RdfPath(base, uri) == Within(y + TTL + TTL) && BinPath(base, uri) == Within(y + TTL)
  {
    var uri := base + (y + TTL);
    SuffixedSegment(y, TTL);
    SuffixedSegment(y + TTL, TTL);
    RelativeOf(base, uri);
    assert uri[|base|..] == y + TTL;
  }

  /** A pod holding one binary with its sidecar. */
  function OneBinary(base: string, a: string, data: Bytes, meta: Graph): Snapshot {
    Snapshot(map[a := Binary(data), a + META_TTL := Turtle(meta)], {""}, map[base + a + META := meta])
  }

  lemma OneBinaryMirrors(base: string, a: string, data: Bytes, meta: Graph)
    requires CleanSegment(a) && !EndsWith(a, TTL)
    ensures Mirrors(base, OneBinary(base, a, data, meta)) && WellKept(OneBinary(base, a, data, meta))
  {
    var s, m := OneBinary(base, a, data, meta), base + a + META;
    SegmentIsResolved(a);
    SuffixedSegment(a, META_TTL);
    MetaPath(base, base + a);
    assert (base + a)[|base|..] == a;
    var empty := Snapshot(map[], {""}, map[]);
    var bytes := Put(empty, a, Binary(data));
    EmptyMirrors(base);
    PutBytes(base, empty, a, data);
    PutTurtle(base, bytes, m, meta);
    assert s == Put(bytes, a + META_TTL, Turtle(meta)).(dataset := bytes.dataset[m := meta]);
  }

  lemma TrailingSlash(a: string)
    requires CleanSegment(a)
    ensures Resolve(a + "/") == Within(a) && IsResolved(a + "/" + TTL)
    ensures a + "/" + TTL != a && a + "/" + TTL != a + META_TTL
  {
    SplitJoin([a, ""]);
    assert Join([a, ""]) == a + "/" + "" == a + "/";
    var segs := [a, ""];
    assert segs[1..] == [""];
    assert ResolveSegments([""], [a]) == ResolveSegments([], [a]);
    assert [] + [a] == [a];
    CleanIsResolved([a, TTL]);
    assert Join([a, TTL]) == a + "/" + TTL;
    assert (a + "/" + TTL)[|a|] == '/' && (a + META_TTL)[|a|] == '.';
  }

  lemma BinaryBranch(base: string, s: Snapshot, uri: string, rdf: string, bin: string)
    requires RdfPath(base, uri) == Within(rdf) && BinPath(base, uri) == Within(bin)
    requires !Exists(s, rdf) && bin in s.files && bin + META_TTL !in s.dirs
    ensures AfterDelete(base, s, uri) ==
            (Unlink(Unlink(s, bin), bin + META_TTL).(dataset := s.dataset - {uri + META}), Done)
  {
  }

  /** Deleting "a/" where the binary "a" is stored removes the bytes and keeps the sidecar's graph. */
  lemma DeletingSlashNameBreaks(base: string, a: string, data: Bytes, meta: Graph)
    requires CleanSegment(a) && !EndsWith(a, TTL)
    ensures var s, uri := OneBinary(base, a, data, meta), base + (a + "/");
            && Agrees(base, s) && WellKept(s)
            && AfterDelete(base, s, uri).1.Done?
            && !Agrees(base, AfterDelete(base, s, uri).0)
  {
    var s, uri := OneBinary(base, a, data, meta), base + (a + "/");
    OneBinaryMirrors(base, a, data, meta);
    RelativeOf(base, uri);
    assert uri[|base|..] == a + "/";
    TrailingSlash(a);
    var rdf := a + "/" + TTL;
    assert rdf !in s.files && rdf != "";
    assert a + META_TTL != "";
    BinaryBranch(base, s, uri, rdf, a);
    assert |uri| != |base + a|;
    DeleteBinaryIff(base, s, uri, a);
    OnlyRootIsPlain();
    hide AfterDelete, PlainDirs, Mirrors, WellKept, Unlink, Resolve, CleanSegment;
    AgreesParts(base, s);
    AgreesParts(base, AfterDelete(base, s, uri).0);
  }
}
