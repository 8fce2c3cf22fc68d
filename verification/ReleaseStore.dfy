/** The file tree of a production directory: one map of regular files per directory under
    `releases/`, and the paths by which release documents refer to those files. */
module ReleaseStore {
  import opened Text
  import opened Options
  import Reproducibility

  /** A relative path as its segments. */
  type Rel = seq<string>

  type Tree = map<Rel, Bytes>

  datatype Reference = Reference(name: string, path: string, sha: string)

  /** The JSON documents of a release, as they parse: an object with exactly these members, of
      these types. Anything else parses to no document. */
  datatype Document =
    | PointerDocument(schemaVersion: string, releaseId: string, releaseDirectory: string,
                      releaseManifest: string, manifestSha: string)
    | ManifestDocument(schemaVersion: string, releaseId: string, releaseMode: string,
                       requirementsId: string, requirementsSha: string,
                       policy: Reproducibility.Content, artifacts: seq<Reference>)
    | BundleDocument(schemaVersion: string, releaseMode: string, evidence: seq<Reference>,
                     leakageSchema: Option<string>, policyId: Option<string>, policySha: Option<string>,
                     passed: bool)
    | ReportDocument(schemaVersion: string, releaseStage: string, status: string, reasons: seq<string>,
                     expectedStatus: string, violations: seq<string>, evidence: seq<Reference>, passed: bool)

  /** A file: some text layout of a document, or other bytes. Parsing forgets the layout. */
  datatype Bytes = File(layout: nat, document: Document) | Raw(data: seq<bv8>)

  /** The layout of the atomic writer: indent of two, sorted members. */
  const PRETTY: nat := 0

  const RELEASES := "releases"
  const STAGING_PREFIX := ".staging-"
  const MANIFEST: Rel := ["release_manifest.json"]
  const BUNDLE: Rel := ["evaluation", "release_evidence_bundle.json"]
  const REPORT: Rel := ["evaluation", "acceptance_report.json"]
  const CHECKPOINT: Rel := ["checkpoint.pt"]
  const SIDECAR: Rel := ["checkpoint.pt.sha256"]

  /** A parsed leakage report: only its schema and whether it lists a violation matter here. */
  datatype Leakage = Leakage(schemaVersion: string, clean: bool, details: seq<bv8>)

  /** What the release code asks of its surroundings: where the production directory is, the
      digest functions, and the readers of files whose inner format is not modelled. */
  datatype Platform = Platform(
    root: Rel,
    sha: Bytes -> string,
    canonical: Reproducibility.Content -> string,
    leakage: Bytes -> Option<Leakage>,
    reproducibility: Bytes -> Option<Reproducibility.Report>,
    receipts: Bytes -> Option<seq<Reproducibility.Receipt>>,
    cleanArtifact: (string, string, Bytes) -> bool,
    deployable: map<string, Bytes> -> bool)

  predicate CleanSegment(s: string) {
    s != "" && s != "." && s != ".." && '/' !in s
  }

  predicate CleanPath(parts: Rel) {
    forall s :: s in parts ==> CleanSegment(s)
  }

  ghost predicate ValidPlatform(p: Platform) {
    && CleanPath(p.root)
    && (forall b :: HexDigest(p.sha(b)))
    && (forall c :: HexDigest(p.canonical(c)))
  }

  /** No digest collision between a file and what is later put in its place. */
  ghost predicate NoCollision(p: Platform, before: Tree, after: Tree) {
    forall rel :: rel in before && rel in after && p.sha(before[rel]) == p.sha(after[rel]) ==>
      before[rel] == after[rel]
  }

  /** The directory of one release, as absolute path segments. */
  function Base(p: Platform, directory: string): Rel {
    p.root + [RELEASES, directory]
  }

  function AbsolutePath(parts: Rel): string { "/" + JoinSlash(parts) }

  /** `path.resolve()` without symbolic links. */
  function Normalise(parts: Rel, prefix: Rel := []): Rel
    decreases |parts|
  {
    if parts == [] then prefix
    else if parts[0] == "" || parts[0] == "." then Normalise(parts[1..], prefix)
    else if parts[0] == ".." then Normalise(parts[1..], if prefix == [] then [] else prefix[..|prefix| - 1])
    else Normalise(parts[1..], prefix + [parts[0]])
  }

  lemma {:induction false} NormaliseClean(parts: Rel, prefix: Rel)
    requires CleanPath(parts)
    ensures Normalise(parts, prefix) == prefix + parts
  {
    if parts == [] {
      assert prefix + parts == prefix;
    } else {
      assert CleanSegment(parts[0]);
      NormaliseClean(parts[1..], prefix + [parts[0]]);
      assert prefix + [parts[0]] + parts[1..] == prefix + parts;
    }
  }

  /** `Path(path).resolve().relative_to(root)` for an absolute path. */
  function Locate(root: Rel, path: string): (r: Option<Rel>)
    ensures r.Some? ==> r.value != []
  {
    if path == "" || path[0] != '/' then None
    else
      var parts := Normalise(SplitSlash(path[1..]));
      if root < parts then Some(parts[|root|..]) else None
  }

  /** The absolute path written for a file of a directory leads back to that file. */
  lemma LocateAbsolute(root: Rel, rel: Rel)
    requires CleanPath(root) && CleanPath(rel) && rel != []
    ensures Locate(root, AbsolutePath(root + rel)) == Some(rel)
  {
    var parts := root + rel;
    SplitJoin(parts);
    NormaliseClean(parts, []);
    assert AbsolutePath(parts)[1..] == JoinSlash(parts);
    assert [] + parts == parts;
    assert parts[|root|..] == rel && root < parts;
  }

  /** `contained_relative_path`: a relative posix path none of whose segments moves. */
  function ContainedRelative(relative: string): (r: Option<Rel>)
    ensures r.Some? ==> CleanPath(r.value) && r.value != [] && JoinSlash(r.value) == relative
  {
    JoinSplit(relative);
    if relative == "" || '\0' in relative || '\\' in relative then None
    else if |relative| >= 2 && relative[1] == ':' then None
    else
      var parts := SplitSlash(relative);
      if forall s :: s in parts ==> s != "" && s != "." && s != ".." then Some(parts) else None
  }

  /** Segment by segment: an empty one and "." stay, ".." goes up, and the root is its own parent. */
  lemma {:induction false} NormaliseSays(parts: Rel, last: string, prefix: Rel)
    ensures var before := Normalise(parts, prefix);
      Normalise(parts + [last], prefix)
      == if last == "" || last == "." then before
         else if last != ".." then before + [last]
         else if before == [] then [] else before[..|before| - 1]
    decreases |parts|
  {
    if parts != [] {
      assert (parts + [last])[1..] == parts[1..] + [last];
      var next := if parts[0] == "" || parts[0] == "." then prefix
                  else if parts[0] != ".." then prefix + [parts[0]]
                  else if prefix == [] then [] else prefix[..|prefix| - 1];
      NormaliseSays(parts[1..], last, next);
    } else {
      assert Normalise([], prefix) == prefix;
      assert ([last])[1..] == [];
    }
  }

  /** Exactly the absolute paths that lead below the root are located, below it. */
  lemma LocateIff(root: Rel, path: string, rel: Rel)
    ensures Locate(root, path) == Some(rel) <==>
      rel != [] && path != "" && path[0] == '/' && Normalise(SplitSlash(path[1..])) == root + rel
  {
    if path != "" && path[0] == '/' {
      var parts := Normalise(SplitSlash(path[1..]));
      if root < parts { assert parts == root + parts[|root|..]; }
      assert (root + rel)[|root|..] == rel;
    }
  }

  /** The segments a manifest can name: clean, and free of the characters the reader refuses. */
  predicate Nameable(rel: Rel) {
    && rel != [] && CleanPath(rel)
    && (forall s :: s in rel ==> '\0' !in s && '\\' !in s)
    && (|rel[0]| >= 2 ==> rel[0][1] != ':')
  }

  lemma {:induction false} JoinChars(parts: Rel, c: char)
    requires c != '/' && forall s :: s in parts ==> c !in s
    ensures c !in JoinSlash(parts)
  {
    if |parts| > 1 {
      JoinChars(parts[1..], c);
      assert parts[0] in parts;
    } else if |parts| == 1 {
      assert parts[0] in parts;
    }
  }

  lemma JoinStarts(parts: Rel)
    requires parts != [] && CleanPath(parts)
    ensures JoinSlash(parts) != ""
    ensures |JoinSlash(parts)| >= 2 && JoinSlash(parts)[1] == ':' ==> |parts[0]| >= 2 && parts[0][1] == ':'
  {
    assert parts[0] in parts;
    if |parts| > 1 && |parts[0]| == 1 {
      assert JoinSlash(parts)[1] == '/';
    }
  }

  /** A path survives `relative_to(...).as_posix()` followed by `contained_relative_path`
      exactly when it is nameable. */
  lemma ContainedRoundTrip(rel: Rel)
    requires rel != [] && CleanPath(rel)
    ensures ContainedRelative(JoinSlash(rel)) == (if Nameable(rel) then Some(rel) else None)
  {
    SplitJoin(rel);
    JoinStarts(rel);
    if Nameable(rel) {
      JoinChars(rel, '\0');
      JoinChars(rel, '\\');
    } else {
      NotNameable(rel);
    }
  }

  lemma {:induction false} JoinKeeps(parts: Rel, i: nat, c: char)
    requires i < |parts| && c in parts[i]
    ensures c in JoinSlash(parts)
  {
    if |parts| > 1 && i > 0 {
      JoinKeeps(parts[1..], i - 1, c);
    }
  }

  lemma NotNameable(rel: Rel)
    requires rel != [] && CleanPath(rel) && !Nameable(rel)
    ensures ContainedRelative(JoinSlash(rel)).None?
  {
    if s :| s in rel && ('\0' in s || '\\' in s) {
      var i :| 0 <= i < |rel| && rel[i] == s;
      var c := if '\0' in s then '\0' else '\\';
      JoinKeeps(rel, i, c);
    } else {
      assert |rel[0]| >= 2 && rel[0][1] == ':';
      assert JoinSlash(rel)[1] == ':' by {
        if |rel| > 1 { assert JoinSlash(rel) == rel[0] + ("/" + JoinSlash(rel[1..])); }
      }
    }
  }

  /** The contained paths are exactly the written forms of nameable ones. */
  lemma ContainedIff(relative: string, rel: Rel)
    ensures ContainedRelative(relative) == Some(rel) <==> Nameable(rel) && JoinSlash(rel) == relative
  {
    if ContainedRelative(relative) == Some(rel) || Nameable(rel) {
      ContainedRoundTrip(rel);
    }
  }

  /** The file an absolute path names inside one release directory. */
  function FileAt(p: Platform, directory: string, tree: Tree, path: string): (r: Option<Rel>)
    ensures r.Some? ==> r.value in tree
  {
    var located := Locate(Base(p, directory), path);
    if located.Some? && located.value in tree then located else None
  }

  function Parent(rel: Rel): Rel
    requires rel != []
  {
    rel[..|rel| - 1]
  }

  function Name(rel: Rel): string
    requires rel != []
  {
    rel[|rel| - 1]
  }

  /** The file names the serving gate looks at, and nothing else. */
  const SERVING_FILES: set<string> :=
    {"model.safetensors", "safetensors_export_status.json",
     "model.torchscript.pt", "torchscript_export_status.json",
     "model.onnx", "onnx_export_status.json"}

  function ServingView(tree: Tree, exports: Rel): map<string, Bytes> {
    map name | name in SERVING_FILES && exports + [name] in tree :: tree[exports + [name]]
  }

  /** Writing a file that is not one of the serving names leaves the serving gate's view alone. */
  lemma ServingViewUnchanged(tree: Tree, exports: Rel, rel: Rel, bytes: Bytes)
    requires rel == [] || Name(rel) !in SERVING_FILES
    ensures ServingView(tree[rel := bytes], exports) == ServingView(tree, exports)
  {
    forall name | name in SERVING_FILES ensures exports + [name] != rel {
      assert Name(exports + [name]) == name;
    }
  }
}
