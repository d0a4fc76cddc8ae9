/**
 The filesystem-backed storage: a directory tree of Turtle and binary files, and the in-memory
 dataset of named graphs that mirrors every *.ttl file of it.

 Serializing a graph and parsing the text back is taken to give the graph again, so a Turtle
 file is represented by its graph.  A write that the operating system refuses because a file
 and a directory would share a name has the outcome OsError.
 */
module Storage {
  import opened Paths
  import opened Rdf

  const TTL := ".ttl"
  const META := ".meta"
  const META_TTL := ".meta.ttl"
  const RESERVED: set<string> := {".system", ".engine", "sparql", "health"}

  const LDP_NON_RDF_SOURCE := Iri("http://www.w3.org/ns/ldp#NonRDFSource")
  const DC_FORMAT := Iri("http://purl.org/dc/terms/format")

  type Bytes = seq<bv8>

  datatype File = Turtle(graph: Graph) | Binary(data: Bytes)

  /** Paths are relative to the storage root, which is the directory "". */
  datatype Snapshot = Snapshot(files: map<string, File>, dirs: set<string>, dataset: map<string, Graph>)

  datatype Outcome = Done | Stale | NotFound | NotABinary | OutsideRoot | PrefixViolation | OsError

  // ------------------------------------------------------------------- URIs and paths

  function RdfPath(base: string, uri: string): Resolved<string> {
    Resolve(RemovePrefix(uri, base) + TTL)
  }

  function BinPath(base: string, uri: string): Resolved<string> {
    Resolve(RemovePrefix(uri, base))
  }

  function PathToUri(base: string, path: string): string {
    base + RemoveSuffix(path, TTL)
  }

  /** The URI names the file its RDF form is kept in. */
  predicate CanonicalRdf(base: string, uri: string) {
    base <= uri && IsResolved(uri[|base|..] + TTL)
  }

  predicate CanonicalBin(base: string, uri: string) {
    base <= uri && IsResolved(uri[|base|..])
  }

  predicate Reserved(base: string, uri: string) {
    Split(RemovePrefix(uri, base))[0] in RESERVED
  }

  // -------------------------------------------------------- what each operation makes

  predicate Exists(s: Snapshot, path: string) {
    path in s.files || path in s.dirs
  }

  /** No ancestor is a file, and the path itself is not a directory. */
  predicate CanWrite(s: Snapshot, path: string) {
    path !in s.dirs && forall a :: a in Ancestors(path) ==> a !in s.files
  }

  function Put(s: Snapshot, path: string, file: File): Snapshot {
    s.(files := s.files[path := file], dirs := s.dirs + Ancestors(path))
  }

  function Unlink(s: Snapshot, path: string): Snapshot {
    s.(files := s.files - {path})
  }

  function AfterWrite(base: string, s: Snapshot, uri: string, g: Graph): (Snapshot, Outcome) {
    match RdfPath(base, uri)
    case Escapes => (s, OutsideRoot)
    case Within(path) =>
      if !CanWrite(s, path) then (s, OsError)
      else (Put(s, path, Turtle(g)).(dataset := s.dataset[uri := g]), Done)
  }

  function Description(uri: string, contentType: string): Graph {
    {Triple(Iri(uri), RDF_TYPE, LDP_NON_RDF_SOURCE), Triple(Iri(uri), DC_FORMAT, Text(contentType, ""))}
  }

  /** The bytes go first; the sidecar can still be refused after them. */
  function AfterWriteBinary(base: string, s: Snapshot, uri: string, data: Bytes, contentType: string): (Snapshot, Outcome) {
    if Reserved(base, uri) then (s, PrefixViolation)
    else
      match BinPath(base, uri)
      case Escapes => (s, OutsideRoot)
      case Within(path) =>
        if !CanWrite(s, path) then (s, OsError)
        else
          var withBytes := Put(s, path, Binary(data));
          if path + META_TTL in s.dirs then (withBytes, OsError)
          else
            var meta := Description(uri, contentType);
            (Put(withBytes, path + META_TTL, Turtle(meta)).(dataset := s.dataset[uri + META := meta]), Done)
  }

  /** The RDF file if there is one, else the binary with its sidecar. */
  function AfterDelete(base: string, s: Snapshot, uri: string): (Snapshot, Outcome) {
    match (RdfPath(base, uri), BinPath(base, uri))
    case (Within(rdf), Within(bin)) =>
      if rdf in s.files then (Unlink(s, rdf).(dataset := s.dataset - {uri}), Done)
      else if rdf in s.dirs then (s, OsError)
      else if bin in s.files then
        var withoutBytes := Unlink(s, bin);
        if bin + META_TTL in s.dirs then (withoutBytes, OsError)
        else (Unlink(withoutBytes, bin + META_TTL).(dataset := s.dataset - {uri + META}), Done)
      else if bin in s.dirs then (s, OsError)
      else (s, NotFound)
    case _ => (s, OutsideRoot)
  }

  function GraphAt(s: Snapshot, uri: string): Graph {
    if uri in s.dataset then s.dataset[uri] else {}
  }

  /** A directory at the path answers like a file, with whatever the dataset has under the name. */
  function AfterRead(base: string, s: Snapshot, uri: string): (Graph, Outcome) {
    match RdfPath(base, uri)
    case Escapes => ({}, OutsideRoot)
    case Within(path) => if Exists(s, path) then (GraphAt(s, uri), Done) else ({}, NotFound)
  }

  /** textOf is the serialization a Turtle file is read back as when asked for its bytes. */
  function AfterStream(base: string, s: Snapshot, uri: string, textOf: Graph -> Bytes): (Bytes, Outcome) {
    match BinPath(base, uri)
    case Escapes => ([], OutsideRoot)
    case Within(path) =>
      if path in s.files then (match s.files[path] case Turtle(g) => textOf(g) case Binary(data) => data, Done)
      else if RdfPath(base, uri).Within? && Exists(s, RdfPath(base, uri).value) then ([], NotABinary)
      else ([], NotFound)
  }

  /** The public forms refuse reserved names. */
  function AfterPublicWrite(base: string, s: Snapshot, uri: string, g: Graph): (Snapshot, Outcome) {
    if Reserved(base, uri) then (s, PrefixViolation) else AfterWrite(base, s, uri, g)
  }

  function AfterPublicDelete(base: string, s: Snapshot, uri: string): (Snapshot, Outcome) {
    if Reserved(base, uri) then (s, PrefixViolation) else AfterDelete(base, s, uri)
  }

  function AfterReplace<E(==)>(
      base: string, s: Snapshot, uri: string, g: Graph, expected: E, etagOf: Graph -> E): (Snapshot, Outcome) {
    match RdfPath(base, uri)
    case Escapes => (s, OutsideRoot)
    case Within(path) =>
      if !Exists(s, path) || etagOf(GraphAt(s, uri)) != expected then (s, Stale)
      else AfterWrite(base, s, uri, g)
  }

  // ---------------------------------------------------------------- rebuilding at boot

  /** No directory has a name that the start takes for a Turtle file's. */
  predicate PlainDirs(dirs: set<string>) {
    forall d :: d in dirs ==> !EndsWith(d, TTL)
  }

  /** No directory on the way to the path has such a name. */
  predicate PlainAbove(path: string) {
    PlainDirs(Ancestors(path))
  }

  function TurtleUris(base: string, files: map<string, File>): set<string> {
    set p | p in files && EndsWith(p, TTL) :: PathToUri(base, p)
  }

  predicate AllTurtle(files: map<string, File>) {
    forall p :: p in files && EndsWith(p, TTL) ==> files[p].Turtle?
  }

  /**
   Whatever is called *.ttl is read as Turtle at the start, and a directory of that name, or a file
   that does not parse, keeps the backend from coming up.
   */
  predicate Boots(files: map<string, File>, dirs: set<string>) {
    AllTurtle(files) && PlainDirs(dirs)
  }

  lemma UriOfPath(base: string, p: string)
    requires EndsWith(p, TTL)
    ensures base <= PathToUri(base, p)
    ensures RemovePrefix(PathToUri(base, p), base) + TTL == p
  {
    var uri := PathToUri(base, p);
    assert uri[..|base|] == base;
    assert uri[|base|..] == p[..|p| - |TTL|];
  }

  /** One named graph for each *.ttl file, under the name the file's path gives. */
  function Rebuild(base: string, files: map<string, File>): map<string, Graph>
    requires AllTurtle(files)
  {
    map uri | uri in TurtleUris(base, files) :: TurtleAt(base, files, uri)
  }

  function TurtleAt(base: string, files: map<string, File>, uri: string): Graph
    requires AllTurtle(files) && uri in TurtleUris(base, files)
  {
    var p := RemovePrefix(uri, base) + TTL;
    assert p in files && EndsWith(p, TTL) by {
      var q :| q in files && EndsWith(q, TTL) && PathToUri(base, q) == uri;
      UriOfPath(base, q);
    }
    files[p].graph
  }

  lemma TurtleUriIff(base: string, files: map<string, File>, uri: string)
    ensures uri in TurtleUris(base, files) <==> base <= uri && uri[|base|..] + TTL in files
  {
    if uri in TurtleUris(base, files) {
      var q :| q in files && EndsWith(q, TTL) && PathToUri(base, q) == uri;
      UriOfPath(base, q);
    }
    if base <= uri && uri[|base|..] + TTL in files {
      var p := uri[|base|..] + TTL;
      assert p[|p| - |TTL|..] == TTL && p[..|p| - |TTL|] == uri[|base|..];
      assert PathToUri(base, p) == base + uri[|base|..] == uri;
    }
  }

  /** The dataset holds what the *.ttl files say, one named graph for each. */
  ghost predicate Mirrors(base: string, s: Snapshot) {
    AllTurtle(s.files) && s.dataset == Rebuild(base, s.files)
  }

  /** A restart comes up, and rebuilds from the disk the dataset there is. */
  ghost predicate Agrees(base: string, s: Snapshot) {
    Boots(s.files, s.dirs) && s.dataset == Rebuild(base, s.files)
  }

  lemma AgreesIff(base: string, s: Snapshot)
    ensures Agrees(base, s) <==>
            && (forall p :: p in s.files && EndsWith(p, TTL) ==> s.files[p].Turtle?)
            && (forall d :: d in s.dirs ==> !EndsWith(d, TTL))
            && (forall uri :: uri in s.dataset <==> base <= uri && uri[|base|..] + TTL in s.files)
            && (forall uri :: uri in s.dataset ==> Turtle(s.dataset[uri]) == s.files[uri[|base|..] + TTL])
  {
    MirrorsIff(base, s);
  }

  lemma MirrorsIff(base: string, s: Snapshot)
    ensures Mirrors(base, s) <==>
            && AllTurtle(s.files)
            && (forall uri :: uri in s.dataset <==> base <= uri && uri[|base|..] + TTL in s.files)
            && (forall uri :: uri in s.dataset ==>
                  var p := uri[|base|..] + TTL; s.files[p].Turtle? && s.dataset[uri] == s.files[p].graph)
  {
    forall uri ensures uri in TurtleUris(base, s.files) <==> base <= uri && uri[|base|..] + TTL in s.files {
      TurtleUriIff(base, s.files, uri);
    }
    if AllTurtle(s.files) {
      var rebuilt := Rebuild(base, s.files);
      assert forall uri :: uri in rebuilt ==> rebuilt[uri] == s.files[uri[|base|..] + TTL].graph;
      if && (forall uri :: uri in s.dataset <==> base <= uri && uri[|base|..] + TTL in s.files)
         && (forall uri :: uri in s.dataset ==> s.dataset[uri] == s.files[uri[|base|..] + TTL].graph)
      {
        assert s.dataset.Keys == rebuilt.Keys;
        assert s.dataset == rebuilt;
      }
    }
  }

  // ------------------------------------------------------------------------ the class

  class FilesystemBackend {
    const baseUri: string
    var files: map<string, File>
    var dirs: set<string>
    var dataset: map<string, Graph>

    ghost function Snap(): Snapshot
      reads this
    {
      Snapshot(files, dirs, dataset)
    }

    /** The reserved subtree is created; the dataset is empty until Load. */
    constructor (baseUri: string, files: map<string, File>, dirs: set<string>)
      ensures this.baseUri == baseUri
      ensures Snap() == Snapshot(files, dirs + {"", ".system", ".system/views", ".system/tokens",
                                                ".system/tokens/policies", ".system/access-log"}, map[])
    {
      this.baseUri := baseUri;
      this.files := files;
      this.dirs := dirs + {"", ".system", ".system/views", ".system/tokens",
                           ".system/tokens/policies", ".system/access-log"};
      this.dataset := map[];
    }

    /** Reads whatever is called *.ttl under the root, and parses it into its named graph. */
    method Load() returns (ok: bool)
      requires dataset == map[]
      modifies this`dataset
      ensures ok <==> Boots(files, dirs)
      ensures ok ==> Agrees(baseUri, Snap())
    {
      var pending := (set p | p in files && EndsWith(p, TTL)) + (set d | d in dirs && EndsWith(d, TTL));
      ghost var all := pending;
      ok := true;
      while pending != {}
        invariant pending <= all
        invariant forall p :: p in all - pending ==> p !in dirs && p in files && files[p].Turtle?
        invariant forall uri :: uri in dataset <==> UnderBase(uri) && uri[|baseUri|..] + TTL in all - pending
        invariant forall uri :: uri in dataset ==> dataset[uri] == files[uri[|baseUri|..] + TTL].graph
        decreases pending
      {
        var p :| p in pending;
        if p in dirs || files[p].Binary? {
          return false;
        }
        var uri := PathToUri(baseUri, p);
        UriOfPath(baseUri, p);
        assert forall other :: UnderBase(other) && other[|baseUri|..] + TTL == p ==> other == uri by {
          forall other | UnderBase(other) && other[|baseUri|..] + TTL == p ensures other == uri {
            assert (other[|baseUri|..] + TTL)[..|p| - |TTL|] == other[|baseUri|..];
            assert other == baseUri + other[|baseUri|..];
          }
        }
        dataset := dataset[uri := files[p].graph];
        pending := pending - {p};
      }
      assert forall uri :: uri in dataset <==> UnderBase(uri) && uri[|baseUri|..] + TTL in files by {
        forall uri | UnderBase(uri) && uri[|baseUri|..] + TTL in files ensures uri in dataset {
          assert EndsWith(uri[|baseUri|..] + TTL, TTL);
        }
      }
      AgreesIff(baseUri, Snap());
    }

    predicate UnderBase(uri: string) {
      baseUri <= uri
    }

    /** A fresh copy of the triples of one resource. */
    method Read(uri: string) returns (result: Graph, outcome: Outcome)
      ensures (result, outcome) == AfterRead(baseUri, Snap(), uri)
    {
      result := {};
      match RdfPath(baseUri, uri)
      case Escapes => outcome := OutsideRoot;
      case Within(path) =>
        if path !in files && path !in dirs {
          outcome := NotFound;
        } else {
          var stored := if uri in dataset then dataset[uri] else {};
          var rest := stored;
          while rest != {}
            invariant rest <= stored && result == stored - rest
            decreases rest
          {
            var triple :| triple in rest;
            result := result + {triple};
            rest := rest - {triple};
          }
          assert result == stored;
          outcome := Done;
        }
    }

    method StreamBinary(uri: string, textOf: Graph -> Bytes) returns (data: Bytes, outcome: Outcome)
      ensures (data, outcome) == AfterStream(baseUri, Snap(), uri, textOf)
    {
      data := [];
      match BinPath(baseUri, uri)
      case Escapes => outcome := OutsideRoot;
      case Within(path) =>
        if path in files {
          match files[path] {
            case Turtle(g) => data := textOf(g);
            case Binary(bytes) => data := bytes;
          }
          outcome := Done;
        } else {
          var rdf := RdfPath(baseUri, uri);
          outcome := if rdf.Within? && (rdf.value in files || rdf.value in dirs) then NotABinary else NotFound;
        }
    }

    method WriteSystem(uri: string, graph: Graph) returns (outcome: Outcome)
      modifies this
      ensures (Snap(), outcome) == AfterWrite(baseUri, old(Snap()), uri, graph)
    {
      match RdfPath(baseUri, uri)
      case Escapes => outcome := OutsideRoot;
      case Within(path) =>
        if path in dirs || exists a :: a in Ancestors(path) && a in files {
          outcome := OsError;
        } else {
          dirs := dirs + Ancestors(path);
          files := files[path := Turtle(graph)];
          dataset := dataset - {uri};
          dataset := dataset[uri := files[path].graph];
          assert dataset == old(dataset)[uri := graph];
          outcome := Done;
        }
    }

    method Write(uri: string, graph: Graph) returns (outcome: Outcome)
      modifies this
      ensures (Snap(), outcome) == AfterPublicWrite(baseUri, old(Snap()), uri, graph)
    {
      if Reserved(baseUri, uri) {
        outcome := PrefixViolation;
      } else {
        outcome := WriteSystem(uri, graph);
      }
    }

    method WriteBinary(uri: string, data: Bytes, contentType: string) returns (outcome: Outcome)
      modifies this
      ensures (Snap(), outcome) == AfterWriteBinary(baseUri, old(Snap()), uri, data, contentType)
    {
      if Reserved(baseUri, uri) {
        return PrefixViolation;
      }
      match BinPath(baseUri, uri)
      case Escapes => outcome := OutsideRoot;
      case Within(path) =>
        if path in dirs || exists a :: a in Ancestors(path) && a in files {
          return OsError;
        }
        var metaPath := path + META_TTL;
        ghost var before := Snap();
        dirs := dirs + Ancestors(path);
        files := files[path := Binary(data)];
        SidecarBeside(before, path);
        if metaPath in dirs {
          return OsError;
        }
        files := files[metaPath := Turtle(Description(uri, contentType))];
        dataset := dataset - {uri + META};
        dataset := dataset[uri + META := files[metaPath].graph];
        assert dataset == before.dataset[uri + META := files[metaPath].graph];
        assert dirs == dirs + Ancestors(metaPath);
        outcome := Done;
    }

    method DeleteSystem(uri: string) returns (outcome: Outcome)
      modifies this
      ensures (Snap(), outcome) == AfterDelete(baseUri, old(Snap()), uri)
    {
      match (RdfPath(baseUri, uri), BinPath(baseUri, uri))
      case (Within(rdf), Within(bin)) =>
        if rdf in files {
          files := files - {rdf};
          dataset := dataset - {uri};
          outcome := Done;
        } else if rdf in dirs {
          outcome := OsError;
        } else if bin in files {
          files := files - {bin};
          if bin + META_TTL in dirs {
            return OsError;
          }
          files := files - {bin + META_TTL};
          dataset := dataset - {uri + META};
          outcome := Done;
        } else if bin in dirs {
          outcome := OsError;
        } else {
          outcome := NotFound;
        }
      case _ => outcome := OutsideRoot;
    }

    method Delete(uri: string) returns (outcome: Outcome)
      modifies this
      ensures (Snap(), outcome) == AfterPublicDelete(baseUri, old(Snap()), uri)
    {
      if Reserved(baseUri, uri) {
        outcome := PrefixViolation;
      } else {
        outcome := DeleteSystem(uri);
      }
    }

    /** One lock hold spans the read, the comparison and the write. */
    method ReplaceIfUnchanged<E(==)>(uri: string, graph: Graph, expected: E, etagOf: Graph -> E)
      returns (outcome: Outcome)
      modifies this
      ensures (Snap(), outcome) == AfterReplace(baseUri, old(Snap()), uri, graph, expected, etagOf)
    {
      match RdfPath(baseUri, uri)
      case Escapes => outcome := OutsideRoot;
      case Within(path) =>
        if path !in files && path !in dirs {
          return Stale;
        }
        var current := if uri in dataset then dataset[uri] else {};
        if etagOf(current) != expected {
          return Stale;
        }
        outcome := WriteSystem(uri, graph);
    }
  }

  /** The sidecar lies in the directory of the bytes. */
  lemma SidecarBeside(s: Snapshot, path: string)
    ensures Ancestors(path + META_TTL) == Ancestors(path)
    ensures path + META_TTL !in Ancestors(path)
  {
    var meta := path + META_TTL;
    forall a | a in Ancestors(meta) ensures a in Ancestors(path) {
      var i :| 0 <= i < |meta| && meta[i] == '/' && meta[..i] == a;
      assert forall k :: 0 <= k < |META_TTL| ==> META_TTL[k] != '/';
      assert forall k :: |path| <= k < |meta| ==> meta[k] == META_TTL[k - |path|];
      assert path[i] == '/' && path[..i] == a;
    }
    forall a | a in Ancestors(path) ensures a in Ancestors(meta) {
      var i :| 0 <= i < |path| && path[i] == '/' && path[..i] == a;
      assert meta[i] == '/' && meta[..i] == a;
    }
  }
}
