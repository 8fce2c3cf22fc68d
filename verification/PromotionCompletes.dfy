/** When a fresh promotion completes, said about what it is asked to publish. The evidence is staged
    and gated in a private directory, then renamed, loaded and gated again, and three documents are
    written into its new place (release/model_release_publisher.py:356-464). Nothing after the
    first gate can refuse it except the decision, a path no manifest can list, and evidence that
    stands where one of the three documents is written. */
module PromotionCompletes {
  import opened Text
  import opened Options
  import opened Sorting
  import opened ReleaseStore
  import opened EvidenceBundle
  import opened ReleaseManifest
  import opened ReleaseValidation
  import opened EvidenceGate
  import opened ReleaseStaging
  import opened FreshCommit
  import opened Publisher
  import opened ProductionDirectory
  import AcceptanceReport

  // ---- the same evidence at two addresses ----

  /** Two bundles over the same files, in two directories. */
  ghost predicate Twins(p: Platform, one: string, a: Tree, x: Bundle, other: string, b: Tree, y: Bundle,
                        paths: map<string, Rel>)
  {
    && Placed(p, one, a, x, paths) && Placed(p, other, b, y, paths)
    && (forall name :: name in Names(x.references) <==> name in Names(y.references))
    && x.leakage == y.leakage && x.mode == y.mode
    && (forall name :: name in paths && paths[name] in a && paths[name] in b ==> a[paths[name]] == b[paths[name]])
    && (forall exports :: ServingView(a, exports) == ServingView(b, exports))
  }

  lemma TwinBytes(p: Platform, one: string, a: Tree, x: Bundle, other: string, b: Tree, y: Bundle,
                  paths: map<string, Rel>, name: string)
    requires Twins(p, one, a, x, other, b, y, paths)
    ensures BytesOf(p, one, a, x, name) == BytesOf(p, other, b, y, name)
    ensures name in Names(x.references) ==> name in paths && BytesOf(p, one, a, x, name) == Some(a[paths[name]])
  {
    hide Locate, ServingView, Names;
    NamedReference(x.references, name);
    NamedReference(y.references, name);
  }

  lemma TwinReferences(p: Platform, one: string, a: Tree, x: Bundle, other: string, b: Tree, y: Bundle,
                       paths: map<string, Rel>)
    requires Twins(p, one, a, x, other, b, y, paths)
    requires forall r :: r in x.references ==> ReferenceOk(p, one, a, x, r)
    ensures forall r :: r in y.references ==> ReferenceOk(p, other, b, y, r)
  {
    hide Locate, ServingView, Names;
    forall r | r in y.references ensures ReferenceOk(p, other, b, y, r) {
      NamedReference(x.references, r.name);
      NamedReference(y.references, r.name);
      var s :| s in x.references && s.name == r.name;
      assert ReferenceOk(p, one, a, x, s);
    }
  }

  lemma TwinServing(p: Platform, one: string, a: Tree, x: Bundle, other: string, b: Tree, y: Bundle,
                    paths: map<string, Rel>)
    requires Twins(p, one, a, x, other, b, y, paths)
    ensures ServingOk(p, one, a, x) == ServingOk(p, other, b, y)
  {
    hide Locate, ServingView, Names;
    NamedReference(x.references, "model_card");
    NamedReference(y.references, "model_card");
  }

  /** The gate looks at the files, not at the address of the directory that holds them. */
  lemma GateMoves(p: Platform, one: string, a: Tree, x: Bundle, other: string, b: Tree, y: Bundle,
                  paths: map<string, Rel>, policy: Policy)
    requires Twins(p, one, a, x, other, b, y, paths) && Gate(p, one, a, x, policy)
    ensures Gate(p, other, b, y, policy)
  {
    hide ReferenceOk, ReportMatches, BytesOf, ServingOk, Twins;
    TwinReferences(p, one, a, x, other, b, y, paths);
    TwinBytes(p, one, a, x, other, b, y, paths, "reproducibility");
    TwinBytes(p, one, a, x, other, b, y, paths, "run_receipts");
    TwinServing(p, one, a, x, other, b, y, paths);
  }

  // ---- what is staged ----

  /** A file name and a path below the candidate directory, as a file system gives them. */
  predicate OnDisk(source: Source) {
    && CleanSegment(source.fileName)
    && (source.inCandidate.Some? ==> source.inCandidate.value != [] && CleanPath(source.inCandidate.value))
  }

  ghost predicate Sourced(job: Job) {
    forall name :: name in job.sources ==> OnDisk(job.sources[name])
  }

  /** The candidate with its evidence, staged. */
  ghost predicate StagedAs(p: Platform, job: Job, mid: Tree, paths: map<string, Rel>) {
    && AllStaged(p, job.candidate, mid, paths, job.sources, Elements(Names(job.evidence.references)))
    && forall r :: r in job.evidence.references ==> r.name in paths && paths[r.name] in mid
  }

  lemma PlaceIsClean(p: Platform, job: Job, mid: Tree, paths: map<string, Rel>, name: string)
    requires Sourced(job) && StagedAs(p, job, mid, paths) && name in paths
    ensures CleanPath(paths[name]) && paths[name] != []
  {
    hide OnDisk;
    assert Staged(p, mid, paths, job.sources, name);
    TargetIsClean(name, job.sources[name]);
  }

  lemma TargetIsClean(name: string, source: Source)
    requires OnDisk(source) && TargetOf(name, source).Some?
    ensures CleanPath(TargetOf(name, source).value) && TargetOf(name, source).value != []
  {
    CheckpointIsClean();
    assert CleanSegment("evaluation") && CleanSegment("evidence");
  }

  lemma AddressedReference(p: Platform, job: Job, directory: string, mid: Tree, paths: map<string, Rel>, r: Reference)
    requires StagedAs(p, job, mid, paths) && ValidBundle(job.evidence)
    requires r in BundleAt(p, directory, mid, job.evidence, paths).references
    ensures r.name in paths && paths[r.name] in mid && !Blank(r.name)
    ensures r == Reference(r.name, AbsolutePath(Base(p, directory) + paths[r.name]), p.sha(mid[paths[r.name]]))
  {
    hide AbsolutePath, AllStaged, Blank;
    var b := BundleAt(p, directory, mid, job.evidence, paths);
    var i :| 0 <= i < |b.references| && b.references[i] == r;
    assert job.evidence.references[i] in job.evidence.references;
    assert ValidReference(job.evidence.references[i]);
  }

  lemma AddressedAt(p: Platform, job: Job, directory: string, mid: Tree, tree: Tree, paths: map<string, Rel>,
                    r: Reference)
    requires ValidPlatform(p) && CleanSegment(directory) && Sourced(job) && StagedAs(p, job, mid, paths)
    requires ValidBundle(job.evidence) && r in BundleAt(p, directory, mid, job.evidence, paths).references
    requires forall name :: name in paths && paths[name] in mid ==>
      paths[name] in tree && tree[paths[name]] == mid[paths[name]]
    ensures r.name in paths && paths[r.name] in tree && ValidReference(r) && Bound(p, directory, tree, r)
    ensures Locate(Base(p, directory), r.path) == Some(paths[r.name]) && r.sha == p.sha(tree[paths[r.name]])
  {
    AddressedReference(p, job, directory, mid, paths, r);
    hide StagedAs, ValidBundle, Bound, ValidReference, Locate, AbsolutePath, BundleAt;
    PlaceIsClean(p, job, mid, paths, r.name);
    AddressLocates(p, directory, paths[r.name]);
    AddressedIsBound(p, directory, tree, r.name, paths[r.name]);
  }

  /** The staged evidence addressed to a directory that holds at least the staged files. */
  lemma AddressedIsPlaced(p: Platform, job: Job, directory: string, mid: Tree, tree: Tree, paths: map<string, Rel>)
    requires ValidPlatform(p) && CleanSegment(directory) && Sourced(job) && StagedAs(p, job, mid, paths)
    requires ValidBundle(job.evidence)
    requires forall name :: name in paths && paths[name] in mid ==>
      paths[name] in tree && tree[paths[name]] == mid[paths[name]]
    ensures var b := BundleAt(p, directory, mid, job.evidence, paths);
      && Placed(p, directory, tree, b, paths) && ValidBundle(b)
      && Names(b.references) == Names(job.evidence.references)
      && forall r :: r in b.references ==> Bound(p, directory, tree, r)
  {
    hide Bound, ValidReference, Locate, AbsolutePath, AllStaged, Sourced, Elements, ValidPlatform, CleanSegment;
    var b := BundleAt(p, directory, mid, job.evidence, paths);
    assert Names(b.references) == Names(job.evidence.references);
    forall r | r in b.references
      ensures r.name in paths && paths[r.name] in tree && ValidReference(r) && Bound(p, directory, tree, r)
      ensures Locate(Base(p, directory), r.path) == Some(paths[r.name]) && r.sha == p.sha(tree[paths[r.name]])
    {
      AddressedAt(p, job, directory, mid, tree, paths, r);
    }
  }

  // ---- the renamed directory ----

  /** The evidence as a bundle of one directory. */
  ghost function AddressedBundle(p: Platform, job: Job, directory: string, mid: Tree, paths: map<string, Rel>): Bundle
    requires StagedAs(p, job, mid, paths)
  {
    BundleAt(p, directory, mid, job.evidence, paths)
  }

  ghost function BundleFile(p: Platform, job: Job, releaseId: string, mid: Tree, paths: map<string, Rel>): Bytes
    requires StagedAs(p, job, mid, paths)
  {
    File(PRETTY, Payload(AddressedBundle(p, job, releaseId, mid, paths)))
  }

  ghost function RenamedTree(p: Platform, job: Job, releaseId: string, mid: Tree, paths: map<string, Rel>): Tree
    requires StagedAs(p, job, mid, paths)
  {
    mid[BUNDLE := BundleFile(p, job, releaseId, mid, paths)]
  }

  /** No evidence stands at this path, or the file there already holds the text to be written. */
  predicate Untouched(paths: map<string, Rel>, tree: Tree, rel: Rel, bytes: Bytes) {
    rel in paths.Values ==> rel in tree && tree[rel] == bytes
  }

  lemma BundleIsNotServed(mid: Tree, bytes: Bytes)
    ensures forall exports :: ServingView(mid[BUNDLE := bytes], exports) == ServingView(mid, exports)
  {
    forall exports ensures ServingView(mid[BUNDLE := bytes], exports) == ServingView(mid, exports) {
      ServingViewUnchanged(mid, exports, BUNDLE, bytes);
    }
  }

  lemma StagedAndRenamed(p: Platform, job: Job, releaseId: string, staging: string, mid: Tree, paths: map<string, Rel>)
    requires ValidPlatform(p) && CleanSegment(releaseId) && CleanSegment(staging)
    requires ValidBundle(job.evidence) && Sourced(job) && StagedAs(p, job, mid, paths)
    requires Untouched(paths, mid, BUNDLE, BundleFile(p, job, releaseId, mid, paths))
    ensures Twins(p, staging, mid, AddressedBundle(p, job, staging, mid, paths),
                  releaseId, RenamedTree(p, job, releaseId, mid, paths), AddressedBundle(p, job, releaseId, mid, paths),
                  paths)
    ensures ValidBundle(AddressedBundle(p, job, releaseId, mid, paths))
    ensures forall r :: r in AddressedBundle(p, job, releaseId, mid, paths).references ==>
      Bound(p, releaseId, RenamedTree(p, job, releaseId, mid, paths), r)
  {
    hide ValidBundle, Bound, AllStaged, ServingView, Locate, ValidPlatform, Sourced, Payload, Placed, StagedAs,
      CleanSegment;
    var tree := RenamedTree(p, job, releaseId, mid, paths);
    BundleIsNotServed(mid, BundleFile(p, job, releaseId, mid, paths));
    AddressedIsPlaced(p, job, staging, mid, mid, paths);
    AddressedIsPlaced(p, job, releaseId, mid, tree, paths);
  }

  /** What passed the gate where it was staged is loaded and passes it where it was renamed to. */
  lemma LoadsAsStaged(p: Platform, job: Job, releaseId: string, staging: string, mid: Tree, paths: map<string, Rel>)
    requires ValidPlatform(p) && CleanSegment(releaseId) && CleanSegment(staging)
    requires ValidJob(p, job) && Sourced(job) && StagedAs(p, job, mid, paths)
    requires Gate(p, staging, mid, AddressedBundle(p, job, staging, mid, paths), job.policy)
    requires Untouched(paths, mid, BUNDLE, BundleFile(p, job, releaseId, mid, paths))
    ensures var tree, b := RenamedTree(p, job, releaseId, mid, paths), AddressedBundle(p, job, releaseId, mid, paths);
      Load(p, releaseId, tree) == Some(b) && Gate(p, releaseId, tree, b, job.policy)
  {
    hide ValidBundle, Bound, AllStaged, Gate, ValidPlatform, Sourced, Payload, Twins, StagedAs, Untouched, Load,
      LeakageOf, CleanSegment;
    var tree, b := RenamedTree(p, job, releaseId, mid, paths), AddressedBundle(p, job, releaseId, mid, paths);
    StagedAndRenamed(p, job, releaseId, staging, mid, paths);
    GateMoves(p, staging, mid, AddressedBundle(p, job, staging, mid, paths), releaseId, tree, b, paths, job.policy);
    LeakageIsGated(p, releaseId, tree, b, job.policy);
    BundleRoundTrip(p, releaseId, tree, b);
  }

  lemma {:induction false} VerifiedEach(p: Platform, directory: string, tree: Tree, references: seq<Reference>)
    requires Verified(p, directory, tree, references).Some?
    ensures forall r :: r in references ==>
      FileAt(p, directory, tree, r.path).Some? && p.sha(tree[FileAt(p, directory, tree, r.path).value]) == r.sha
  {
    hide FileAt;
    if references != [] {
      VerifiedEach(p, directory, tree, references[1..]);
    }
  }

  lemma ReferenceOfPlace(p: Platform, job: Job, releaseId: string, mid: Tree, paths: map<string, Rel>, rel: Rel)
    returns (r: Reference)
    requires ValidBundle(job.evidence) && StagedAs(p, job, mid, paths) && rel in paths.Values
    ensures r in AddressedBundle(p, job, releaseId, mid, paths).references
    ensures r.name in paths && paths[r.name] == rel
  {
    hide TargetOf, ValidReference, AbsolutePath;
    var name :| name in paths && paths[name] == rel;
    var i :| 0 <= i < |job.evidence.references| && Names(job.evidence.references)[i] == name;
    r := AddressedBundle(p, job, releaseId, mid, paths).references[i];
  }

  /** Evidence that the bundle file replaces by another text cannot be loaded again. */
  lemma ReplacedByBundle(p: Platform, job: Job, releaseId: string, mid: Tree, paths: map<string, Rel>)
    requires ValidPlatform(p) && CleanSegment(releaseId)
    requires ValidBundle(job.evidence) && Sourced(job) && StagedAs(p, job, mid, paths)
    requires !Untouched(paths, mid, BUNDLE, BundleFile(p, job, releaseId, mid, paths))
    requires NoCollision(p, mid, RenamedTree(p, job, releaseId, mid, paths))
    ensures Load(p, releaseId, RenamedTree(p, job, releaseId, mid, paths)).None?
  {
    var tree := RenamedTree(p, job, releaseId, mid, paths);
    var b := AddressedBundle(p, job, releaseId, mid, paths);
    var r := ReferenceOfPlace(p, job, releaseId, mid, paths, BUNDLE);
    AddressedReference(p, job, releaseId, mid, paths, r);
    PlaceIsClean(p, job, mid, paths, r.name);
    AddressLocates(p, releaseId, paths[r.name]);
    assert FileAt(p, releaseId, tree, r.path) == Some(BUNDLE);
    hide FileAt, Locate, AbsolutePath, StagedAs, ValidBundle, Sourced, ValidPlatform, CleanSegment, AllValid, Assemble,
      LeakageOf;
    if Load(p, releaseId, tree).Some? {
      LoadedReferences(p, releaseId, tree);
      VerifiedEach(p, releaseId, tree, b.references);
    }
  }

  // ---- the three documents ----

  /** The report of an accepted decision. */
  function AcceptedReport(p: Platform, releaseId: string, tree: Tree, b: Bundle): AcceptanceReport.Report {
    AcceptanceReport.Report(
      ProductionModel, AcceptanceReport.ModelAccepted, [], AcceptanceReport.ModelAccepted, [],
      AcceptanceReport.Present(p, releaseId, tree, Sort(ReportItems(p, releaseId, b), AcceptanceReport.ItemByName)))
  }

  function ReportFile(p: Platform, releaseId: string, tree: Tree, b: Bundle): Bytes {
    File(PRETTY, AcceptanceReport.ToPayload(AcceptedReport(p, releaseId, tree, b)))
  }

  /** The manifest written after that report. */
  function ManifestFile(p: Platform, releaseId: string, tree: Tree, b: Bundle, policy: Policy): Option<Bytes>
    requires BUNDLE in tree
  {
    WrittenManifest(p, releaseId, tree, ReportFile(p, releaseId, tree, b), releaseId, b, policy)
  }

  lemma {:induction false} NothingAbsent(p: Platform, directory: string, tree: Tree, items: seq<AcceptanceReport.Item>)
    requires forall item :: item in items ==> FileAt(p, directory, tree, item.path).Some?
    ensures AcceptanceReport.Absent(p, directory, tree, items) == []
  {
    hide FileAt;
    if items != [] {
      assert items[|items| - 1] in items;
      NothingAbsent(p, directory, tree, items[..|items| - 1]);
    }
  }

  predicate Addressed(item: AcceptanceReport.Item) {
    !Blank(item.name) && !Blank(item.path) && item.path[0] == '/'
  }

  lemma {:induction false} PresentIsValid(p: Platform, directory: string, tree: Tree, items: seq<AcceptanceReport.Item>)
    requires ValidPlatform(p) && forall item :: item in items ==> Addressed(item)
    ensures AllValid(AcceptanceReport.Present(p, directory, tree, items))
  {
    hide FileAt, LooksLikeSha256, Blank, HexDigest;
    if items != [] {
      var item := items[|items| - 1];
      assert Addressed(item);
      PresentIsValid(p, directory, tree, items[..|items| - 1]);
      var file := FileAt(p, directory, tree, item.path);
      if file.Some? {
        assert HexDigest(p.sha(tree[file.value]));
        DigestIsSha256(p.sha(tree[file.value]));
      }
    }
  }

  lemma BundleItem(p: Platform, directory: string, tree: Tree)
    requires ValidPlatform(p) && CleanSegment(directory) && BUNDLE in tree
    ensures var item := AcceptanceReport.Item("release_evidence_bundle", AbsolutePath(Base(p, directory) + BUNDLE));
      Addressed(item) && FileAt(p, directory, tree, item.path) == Some(BUNDLE)
  {
    assert Plain("evaluation") && Plain("release_evidence_bundle.json");
    hide Plain;
    PlainSegments(BUNDLE);
    DocumentName("release_evidence_bundle");
    hide Nameable, AbsolutePath, CleanPath, Locate, Blank, ValidPlatform, CleanSegment, Base;
    AddressLocates(p, directory, BUNDLE);
    AbsoluteIsPath(Base(p, directory) + BUNDLE);
  }

  /** Every item of the report is on disk: the references are bound and the bundle file is there. */
  lemma ItemsInPlace(p: Platform, directory: string, tree: Tree, b: Bundle)
    requires ValidPlatform(p) && CleanSegment(directory) && BUNDLE in tree
    requires forall r :: r in b.references ==> ValidReference(r) && Bound(p, directory, tree, r)
    ensures forall item :: item in ReportItems(p, directory, b) ==>
      Addressed(item) && FileAt(p, directory, tree, item.path).Some?
  {
    hide AbsolutePath, Locate, Blank, LooksLikeSha256, ValidPlatform, CleanSegment, Base;
    BundleItem(p, directory, tree);
    forall item | item in ReportItems(p, directory, b)
      ensures Addressed(item) && FileAt(p, directory, tree, item.path).Some?
    {
      var i :| 0 <= i <= |b.references| && ReportItems(p, directory, b)[i] == item;
      if i < |b.references| {
        assert b.references[i] in b.references;
      }
    }
  }

  ghost predicate AcceptedDecision(decision: AcceptanceReport.Decision) {
    decision.reasons == [] && decision.status == AcceptanceReport.ModelAccepted
  }

  /** Over evidence that is all there, the report passes exactly when the decision accepts. */
  lemma ReportPassesIff(p: Platform, directory: string, tree: Tree, b: Bundle, decision: AcceptanceReport.Decision)
    requires ValidPlatform(p) && CleanSegment(directory) && BUNDLE in tree
    requires forall r :: r in b.references ==> ValidReference(r) && Bound(p, directory, tree, r)
    ensures var report := AcceptanceReport.Built(p, directory, tree, ProductionModel, decision,
                                                 AcceptanceReport.ModelAccepted, ReportItems(p, directory, b));
      && report.Some? && (AcceptanceReport.Passed(report.value) <==> AcceptedDecision(decision))
      && (AcceptedDecision(decision) ==> report.value == AcceptedReport(p, directory, tree, b))
  {
    hide FileAt, ValidReference, Bound, AcceptanceReport.Present, AcceptanceReport.Absent, ReportItems, Addressed,
      AcceptanceReport.Load, AcceptanceReport.ToPayload, ValidPlatform, CleanSegment, AllValid;
    var items := ReportItems(p, directory, b);
    var sorted := Sort(items, AcceptanceReport.ItemByName);
    ItemsInPlace(p, directory, tree, b);
    SameMembers(sorted, items);
    NothingAbsent(p, directory, tree, sorted);
    PresentIsValid(p, directory, tree, sorted);
    AcceptanceReport.BuiltRoundTrip(p, directory, tree, ProductionModel, decision, AcceptanceReport.ModelAccepted,
                                    items, PRETTY);
  }

  /** What a published report lists: each reference's file with its digest, and the bundle. */
  lemma AcceptedReportSays(p: Platform, releaseId: string, tree: Tree, b: Bundle, listed: Reference)
    requires ValidPlatform(p) && CleanSegment(releaseId) && BUNDLE in tree
    ensures listed in AcceptedReport(p, releaseId, tree, b).evidence <==>
      || listed == Reference("release_evidence_bundle",
                             AbsolutePath(p.root + ["releases", releaseId] + BUNDLE), p.sha(tree[BUNDLE]))
      || exists r :: r in b.references && FileAt(p, releaseId, tree, r.path).Some?
           && listed == Reference(r.name, r.path, p.sha(tree[FileAt(p, releaseId, tree, r.path).value]))
  {
    BundleItem(p, releaseId, tree);
    hide FileAt, AbsolutePath, AcceptanceReport.Present, AcceptanceReport.ItemByName, Addressed;
    var items := ReportItems(p, releaseId, b);
    var sorted := Sort(items, AcceptanceReport.ItemByName);
    SameMembers(sorted, items);
    AcceptanceReport.FoundAndMissing(p, releaseId, tree, sorted, listed, "");
    ItemsSay(p, releaseId, b);
    hide ReportItems, Sort;
  }

  lemma ItemsSay(p: Platform, releaseId: string, b: Bundle)
    ensures forall item :: item in ReportItems(p, releaseId, b) <==>
      || item == AcceptanceReport.Item("release_evidence_bundle",
                                       AbsolutePath(p.root + ["releases", releaseId] + BUNDLE))
      || exists r :: r in b.references && item == AcceptanceReport.Item(r.name, r.path)
  {
    hide AbsolutePath;
    var items := ReportItems(p, releaseId, b);
    forall r | r in b.references ensures AcceptanceReport.Item(r.name, r.path) in items {
      var i :| 0 <= i < |b.references| && b.references[i] == r;
      assert items[i] == AcceptanceReport.Item(r.name, r.path);
    }
    assert items[|b.references|] in items;
    forall item | item in items
      ensures item == items[|b.references|]
              || exists r :: r in b.references && item == AcceptanceReport.Item(r.name, r.path)
    {
      var i :| 0 <= i < |items| && items[i] == item;
      if i < |b.references| { assert b.references[i] in b.references; }
    }
  }

  // ---- what completes ----

  lemma PassedFacts(p: Platform, job: Job, releaseId: string, before: Tree, b: Bundle)
    requires ValidPlatform(p) && CleanSegment(releaseId)
    requires Load(p, releaseId, before) == Some(b) && Gate(p, releaseId, before, b, job.policy)
    ensures BUNDLE in before && ValidBundle(b) && forall r :: r in b.references ==> Bound(p, releaseId, before, r)
    ensures ReportOf(p, job, releaseId, before)
      == if AcceptedDecision(job.decision) then Some((b, AcceptedReport(p, releaseId, before, b))) else None
  {
    LoadedReferences(p, releaseId, before);
    LoadedIsBound(p, releaseId, before);
    hide Load, Gate, ReportItems, AcceptanceReport.Built, AcceptanceReport.Passed, AcceptedReport, ValidReference,
      Bound, ValidPlatform, CleanSegment, AcceptedDecision;
    ReportPassesIff(p, releaseId, before, b, job.decision);
  }

  lemma ManifestFollows(p: Platform, job: Job, releaseId: string, before: Tree, b: Bundle)
    requires Recordable(p, releaseId, before, b, job.policy)
    ensures ManifestFile(p, releaseId, before, b, job.policy).Some?
    ensures var report, manifest :=
        ReportFile(p, releaseId, before, b), ManifestFile(p, releaseId, before, b, job.policy).value;
      var after := before[REPORT := report][MANIFEST := manifest];
      NoCollision(p, before, after) ==>
        ManifestStep(p, job, releaseId, before[REPORT := report], b)
        == if Spared(p, releaseId, before, report, manifest, b.references) then Some(after) else None
  {
    hide ReportFile, ManifestOk, ManifestFor, Spared, NoCollision, Bound, ValidBundle, ValidPlatform;
    WrittenManifestOkIff(p, releaseId, before, ReportFile(p, releaseId, before, b), releaseId, b, job.policy);
  }

  /** A renamed directory whose bundle loads and passes the gate is completed exactly when the
      decision accepts and the last two documents spare the evidence; nothing else can refuse it,
      and what is then written is the report and the manifest. */
  lemma CompletesIff(p: Platform, job: Job, releaseId: string, before: Tree, b: Bundle)
    requires ValidPlatform(p) && CleanSegment(releaseId) && job.policy.Valid()
    requires Load(p, releaseId, before) == Some(b) && b.mode == ProductionModel
    requires Gate(p, releaseId, before, b, job.policy)
    ensures BUNDLE in before && ManifestFile(p, releaseId, before, b, job.policy).Some?
    ensures var report, manifest :=
        ReportFile(p, releaseId, before, b), ManifestFile(p, releaseId, before, b, job.policy).value;
      var after := before[REPORT := report][MANIFEST := manifest];
      NoCollision(p, before, after) ==>
        FinishOf(p, job, releaseId, before)
        == if AcceptedDecision(job.decision) && Spared(p, releaseId, before, report, manifest, b.references)
           then Complete(AcceptedReport(p, releaseId, before, b), after) else Incomplete
  {
    hide Load, Gate, ReportOf, ManifestStep, ManifestFile, AcceptanceReport.ToPayload, AcceptedReport, Spared,
      NoCollision, Bound, ValidBundle, ValidPlatform, CleanSegment, AcceptedDecision, FinishOf, ReportFile;
    PassedFacts(p, job, releaseId, before, b);
    ManifestFollows(p, job, releaseId, before, b);
    FinishSteps(p, job, releaseId, before, b);
  }

  lemma FinishSteps(p: Platform, job: Job, releaseId: string, before: Tree, b: Bundle)
    requires ReportOf(p, job, releaseId, before)
      == if AcceptedDecision(job.decision) then Some((b, AcceptedReport(p, releaseId, before, b))) else None
    ensures var step := ManifestStep(p, job, releaseId, before[REPORT := ReportFile(p, releaseId, before, b)], b);
      FinishOf(p, job, releaseId, before)
      == if AcceptedDecision(job.decision) && step.Some?
         then Complete(AcceptedReport(p, releaseId, before, b), step.value) else Incomplete
  {
    hide ReportOf, ManifestStep, AcceptanceReport.ToPayload, AcceptedReport, AcceptedDecision;
  }

  // ---- the whole promotion ----

  lemma StagedCheckpoint(p: Platform, job: Job, staging: string, mid: Tree, paths: map<string, Rel>)
    requires StagedAs(p, job, mid, paths) && ValidBundle(job.evidence) && job.evidence.mode == ProductionModel
    requires Placed(p, staging, mid, AddressedBundle(p, job, staging, mid, paths), paths)
    requires Names(AddressedBundle(p, job, staging, mid, paths).references) == Names(job.evidence.references)
    ensures CheckpointAvailable(p, staging, mid, AddressedBundle(p, job, staging, mid, paths)) && CHECKPOINT in mid
  {
    hide ValidBundle, Locate, AddressedBundle;
    var b := AddressedBundle(p, job, staging, mid, paths);
    BundleNamesDistinct(job.evidence);
    InElements(Names(b.references), "checkpoint");
    NamedReference(b.references, "checkpoint");
    SidecarOfCheckpoint();
    assert Staged(p, mid, paths, job.sources, "checkpoint");
  }

  lemma StagedParts(p: Platform, job: Job, mid: Tree, paths: map<string, Rel>)
    requires ValidJob(p, job)
    requires StageAll(p, job.candidate, job.evidence.references, job.sources) == Done(mid, paths)
    ensures StagedAs(p, job, mid, paths)
  {
    hide StageAll, AllStaged, ValidBundle, HexDigest;
    StagedPathsKnown(p, job);
  }

  /** The checks made on the staged copy come down to the gate and the checkpoint's digest. */
  lemma StagedOkIff(p: Platform, job: Job, staging: string, mid: Tree, paths: map<string, Rel>)
    requires ValidPlatform(p) && CleanSegment(staging) && ValidJob(p, job) && Sourced(job)
    requires StagedAs(p, job, mid, paths)
    ensures CHECKPOINT in mid
    ensures StagedOk(p, job, staging, mid, paths) <==>
      && Gate(p, staging, mid, AddressedBundle(p, job, staging, mid, paths), job.policy)
      && p.sha(mid[CHECKPOINT]) == job.checkpointSha
  {
    hide AllStaged, ValidBundle, Bound, Gate, ValidPlatform, Sourced, CheckpointAvailable, Placed, CleanSegment, Names,
      HexDigest;
    AddressedIsPlaced(p, job, staging, mid, mid, paths);
    StagedCheckpoint(p, job, staging, mid, paths);
  }

  /** Staging is accepted exactly when the gate holds on the staged copy and the checkpoint has the
      digest taken before the lock; the renamed directory is then the staged one and its bundle. */
  lemma PreparesIff(p: Platform, job: Job, releaseId: string, staging: string, mid: Tree, paths: map<string, Rel>)
    requires ValidPlatform(p) && CleanSegment(releaseId) && CleanSegment(staging) && ValidJob(p, job) && Sourced(job)
    requires StageAll(p, job.candidate, job.evidence.references, job.sources) == Done(mid, paths)
    ensures StagedAs(p, job, mid, paths) && CHECKPOINT in mid
    ensures PrepareOf(p, job, releaseId, staging)
      == if && Gate(p, staging, mid, AddressedBundle(p, job, staging, mid, paths), job.policy)
            && p.sha(mid[CHECKPOINT]) == job.checkpointSha
         then Ready(RenamedTree(p, job, releaseId, mid, paths), mid, paths) else Preparation.Rejected
  {
    hide StageAll, AllStaged, ValidBundle, Bound, Gate, ValidPlatform, Sourced, Payload, StagedOk, Placed, CleanSegment,
      Names, HexDigest;
    StagedParts(p, job, mid, paths);
    AddressedIsPlaced(p, job, releaseId, mid, mid, paths);
    StagedOkIff(p, job, staging, mid, paths);
  }

  /** Where the three documents are written there is no evidence, unless it is that very text, and
      every path of the evidence can be listed. */
  ghost predicate Undisturbed(p: Platform, job: Job, releaseId: string, mid: Tree, paths: map<string, Rel>)
    requires StagedAs(p, job, mid, paths)
  {
    var tree, b := RenamedTree(p, job, releaseId, mid, paths), AddressedBundle(p, job, releaseId, mid, paths);
    var manifest := ManifestFile(p, releaseId, tree, b, job.policy);
    && (forall rel :: rel in paths.Values ==> Listable(rel))
    && Untouched(paths, mid, BUNDLE, BundleFile(p, job, releaseId, mid, paths))
    && Untouched(paths, tree, REPORT, ReportFile(p, releaseId, tree, b))
    && manifest.Some? && Untouched(paths, tree, MANIFEST, manifest.value)
  }

  /** No two texts that succeed each other at one of those places share a digest. */
  ghost predicate ToldApart(p: Platform, job: Job, releaseId: string, mid: Tree, paths: map<string, Rel>)
    requires StagedAs(p, job, mid, paths)
  {
    var tree, b := RenamedTree(p, job, releaseId, mid, paths), AddressedBundle(p, job, releaseId, mid, paths);
    var manifest := ManifestFile(p, releaseId, tree, b, job.policy);
    && NoCollision(p, mid, tree)
    && (manifest.Some? ==>
          NoCollision(p, tree, tree[REPORT := ReportFile(p, releaseId, tree, b)][MANIFEST := manifest.value]))
  }

  lemma SparedIffUntouched(p: Platform, job: Job, releaseId: string, mid: Tree, paths: map<string, Rel>, tree: Tree,
                           report: Bytes, manifest: Bytes)
    requires ValidBundle(job.evidence) && StagedAs(p, job, mid, paths)
    requires Placed(p, releaseId, tree, AddressedBundle(p, job, releaseId, mid, paths), paths)
    ensures Spared(p, releaseId, tree, report, manifest, AddressedBundle(p, job, releaseId, mid, paths).references)
      <==> && (forall rel :: rel in paths.Values ==> Listable(rel))
           && Untouched(paths, tree, REPORT, report) && Untouched(paths, tree, MANIFEST, manifest)
  {
    hide Locate, Listable, AddressedBundle, StagedAs, ValidBundle;
    var b := AddressedBundle(p, job, releaseId, mid, paths);
    if Spared(p, releaseId, tree, report, manifest, b.references) {
      forall rel | rel in paths.Values
        ensures Listable(rel) && (rel == REPORT || rel == MANIFEST ==> rel in tree)
        ensures (rel == REPORT ==> tree[rel] == report) && (rel == MANIFEST ==> tree[rel] == manifest)
      {
        var r := ReferenceOfPlace(p, job, releaseId, mid, paths, rel);
      }
    }
  }

  lemma RenamedCompletesIff(p: Platform, job: Job, releaseId: string, staging: string, mid: Tree,
                            paths: map<string, Rel>)
    requires ValidPlatform(p) && CleanSegment(releaseId) && CleanSegment(staging) && ValidJob(p, job) && Sourced(job)
    requires StagedAs(p, job, mid, paths) && ToldApart(p, job, releaseId, mid, paths)
    requires Gate(p, staging, mid, AddressedBundle(p, job, staging, mid, paths), job.policy)
    ensures FinishOf(p, job, releaseId, RenamedTree(p, job, releaseId, mid, paths)).Complete?
      <==> AcceptedDecision(job.decision) && Undisturbed(p, job, releaseId, mid, paths)
  {
    var tree, b := RenamedTree(p, job, releaseId, mid, paths), AddressedBundle(p, job, releaseId, mid, paths);
    hide AllStaged, ValidBundle, Bound, Gate, ValidPlatform, Sourced, Payload, CleanSegment, Load, FinishOf, Spared,
      ReportFile, ManifestFile, Untouched, Listable, AcceptedDecision, NoCollision, HexDigest, BundleFile, Placed,
      StagedAs, AddressedBundle;
    if Untouched(paths, mid, BUNDLE, BundleFile(p, job, releaseId, mid, paths)) {
      LoadsAsStaged(p, job, releaseId, staging, mid, paths);
      StagedAndRenamed(p, job, releaseId, staging, mid, paths);
      CompletesIff(p, job, releaseId, tree, b);
      SparedIffUntouched(p, job, releaseId, mid, paths, tree, ReportFile(p, releaseId, tree, b),
                         ManifestFile(p, releaseId, tree, b, job.policy).value);
    } else {
      ReplacedByBundle(p, job, releaseId, mid, paths);
      NothingLoaded(p, job, releaseId, tree);
    }
  }

  lemma NothingLoaded(p: Platform, job: Job, releaseId: string, tree: Tree)
    requires Load(p, releaseId, tree).None?
    ensures FinishOf(p, job, releaseId, tree).Incomplete?
  {
    hide Load, Gate;
  }

  /** The gate on the staged copy, said of the staged files. */
  lemma StagedGateIff(p: Platform, job: Job, staging: string, mid: Tree, paths: map<string, Rel>)
    requires ValidPlatform(p) && CleanSegment(staging) && ValidJob(p, job) && Sourced(job)
    requires StagedAs(p, job, mid, paths)
    ensures Gate(p, staging, mid, AddressedBundle(p, job, staging, mid, paths), job.policy)
      <==> EvidenceAccepted(p, job.evidence.leakage, job.policy, mid, paths)
  {
    hide AllStaged, ValidBundle, Bound, Gate, ValidPlatform, Sourced, Placed, CleanSegment, Names, HexDigest,
      EvidenceAccepted, ServingView;
    AddressedIsPlaced(p, job, staging, mid, mid, paths);
    PlacedGateIff(p, staging, mid, AddressedBundle(p, job, staging, mid, paths), paths, job.policy);
  }

  /** The files can be staged, each staged file is accepted for what it is, the staged checkpoint is
      the one that was hashed, the decision accepts, every evidence path can be listed, and no
      evidence stands where the bundle, the report or the manifest is written. */
  ghost predicate Publishes(p: Platform, job: Job, releaseId: string, mid: Tree, paths: map<string, Rel>) {
    && StagedAs(p, job, mid, paths) && CHECKPOINT in mid
    && EvidenceAccepted(p, job.evidence.leakage, job.policy, mid, paths)
    && p.sha(mid[CHECKPOINT]) == job.checkpointSha
    && AcceptedDecision(job.decision)
    && Undisturbed(p, job, releaseId, mid, paths)
  }

  /** Staged evidence of which one file is not accepted for what it is is refused: nothing deployable
      beside the model card, say, or a card or metrics file that is not clean. */
  lemma UnacceptedIsRefused(p: Platform, job: Job, releaseId: string, staging: string, mid: Tree,
                            paths: map<string, Rel>)
    requires ValidPlatform(p) && CleanSegment(releaseId) && CleanSegment(staging) && ValidJob(p, job) && Sourced(job)
    requires StageAll(p, job.candidate, job.evidence.references, job.sources) == Done(mid, paths)
    requires !EvidenceAccepted(p, job.evidence.leakage, job.policy, mid, paths)
    ensures Refused(p, job, releaseId, staging)
  {
    hide StageAll, Gate, ValidPlatform, CleanSegment, ValidJob, Sourced, StagedAs, EvidenceAccepted, AddressedBundle,
      FinishOf, RenamedTree, PrepareOf;
    PreparesIff(p, job, releaseId, staging, mid, paths);
    StagedGateIff(p, job, staging, mid, paths);
  }

  /** Every evidence file has a place of its own, and the files fit into the candidate and together. */
  ghost predicate Stageable(p: Platform, job: Job)
    requires forall r :: r in job.evidence.references ==> r.name in job.sources
  {
    && PlacesApart(p, job.evidence.references, job.sources)
    && Fit(p, job.candidate, AllPlacements(job.evidence.references, job.sources))
  }

  lemma StageableIff(p: Platform, job: Job)
    requires ValidJob(p, job)
    ensures StageAll(p, job.candidate, job.evidence.references, job.sources).Done? <==> Stageable(p, job)
  {
    hide StageAll, Fit, PlacesApart, AllPlacements, ValidBundle, HexDigest;
    BundleNamesDistinct(job.evidence);
    StagesIff(p, job.candidate, job.evidence.references, job.sources);
  }

  /** A fresh promotion is carried out exactly when its evidence can be staged and that is so. */
  lemma PromotionCompletesIff(p: Platform, job: Job, releaseId: string, staging: string)
    requires ValidPlatform(p) && ReleaseName(releaseId) && CleanSegment(staging) && ValidJob(p, job) && Sourced(job)
    ensures match StageAll(p, job.candidate, job.evidence.references, job.sources)
      case Rejected => !Stageable(p, job) && Refused(p, job, releaseId, staging)
      case Done(mid, paths) =>
        && Stageable(p, job) && StagedAs(p, job, mid, paths)
        && (ToldApart(p, job, releaseId, mid, paths) ==>
              (Refused(p, job, releaseId, staging) <==> !Publishes(p, job, releaseId, mid, paths)))
  {
    var outcome := StageAll(p, job.candidate, job.evidence.references, job.sources);
    StageableIff(p, job);
    hide StageAll, Gate, ValidPlatform, ReleaseName, CleanSegment, ValidJob, Sourced, StagedAs, ToldApart, Undisturbed,
      AcceptedDecision, AddressedBundle, FinishOf, RenamedTree, PrepareOf, Publishes, Refused, Stageable;
    ReleaseNameIsClean(releaseId);
    match outcome
    case Rejected => RejectedIsRefused(p, job, releaseId, staging);
    case Done(mid, paths) =>
      StagedParts(p, job, mid, paths);
      if ToldApart(p, job, releaseId, mid, paths) {
        StagedCompletesIff(p, job, releaseId, staging, mid, paths);
      }
  }

  lemma StagedCompletesIff(p: Platform, job: Job, releaseId: string, staging: string, mid: Tree,
                           paths: map<string, Rel>)
    requires ValidPlatform(p) && CleanSegment(releaseId) && CleanSegment(staging) && ValidJob(p, job) && Sourced(job)
    requires StageAll(p, job.candidate, job.evidence.references, job.sources) == Done(mid, paths)
    requires StagedAs(p, job, mid, paths) && ToldApart(p, job, releaseId, mid, paths)
    ensures Refused(p, job, releaseId, staging) <==> !Publishes(p, job, releaseId, mid, paths)
  {
    hide StageAll, Gate, ValidPlatform, CleanSegment, ValidJob, Sourced, StagedAs, ToldApart, Undisturbed,
      AcceptedDecision, AddressedBundle, FinishOf, RenamedTree, PrepareOf, EvidenceAccepted;
    PreparesIff(p, job, releaseId, staging, mid, paths);
    StagedGateIff(p, job, staging, mid, paths);
    if Gate(p, staging, mid, AddressedBundle(p, job, staging, mid, paths), job.policy) {
      RenamedCompletesIff(p, job, releaseId, staging, mid, paths);
    }
  }

  lemma RejectedIsRefused(p: Platform, job: Job, releaseId: string, staging: string)
    requires ValidJob(p, job)
    requires StageAll(p, job.candidate, job.evidence.references, job.sources).Rejected?
    ensures Refused(p, job, releaseId, staging)
  {
    hide StageAll, StagedOk, FinishOf, ValidBundle;
  }

  /** In particular, training metrics whose own file is called like the acceptance report are never
      published, unless they are that very report. */
  lemma MetricsCalledLikeReport(p: Platform, job: Job, releaseId: string, staging: string, mid: Tree,
                                paths: map<string, Rel>)
    requires ValidPlatform(p) && ReleaseName(releaseId) && CleanSegment(staging) && ValidJob(p, job) && Sourced(job)
    requires StageAll(p, job.candidate, job.evidence.references, job.sources) == Done(mid, paths)
    requires StagedAs(p, job, mid, paths) && ToldApart(p, job, releaseId, mid, paths)
    requires "training_metrics" in job.sources
    requires job.sources["training_metrics"].fileName == "acceptance_report.json"
    ensures REPORT in mid
    ensures mid[REPORT] != ReportFile(p, releaseId, RenamedTree(p, job, releaseId, mid, paths),
                                      AddressedBundle(p, job, releaseId, mid, paths)) ==>
      Refused(p, job, releaseId, staging)
  {
    hide StageAll, Gate, ValidPlatform, ReleaseName, CleanSegment, ValidBundle, Sourced, ToldApart, AcceptedDecision,
      AddressedBundle, RenamedTree, Refused, ReportFile, HexDigest, Publishes, Stageable;
    MetricsRequired(job.evidence);
    assert Staged(p, mid, paths, job.sources, "training_metrics");
    assert paths["training_metrics"] == REPORT && REPORT in paths.Values;
    hide StagedAs;
    PromotionCompletesIff(p, job, releaseId, staging);
    if Publishes(p, job, releaseId, mid, paths) {
      PublishesSpares(p, job, releaseId, mid, paths);
    }
  }

  lemma PublishesSpares(p: Platform, job: Job, releaseId: string, mid: Tree, paths: map<string, Rel>)
    requires StagedAs(p, job, mid, paths) && REPORT in paths.Values && Publishes(p, job, releaseId, mid, paths)
    ensures REPORT in mid && mid[REPORT] == ReportFile(p, releaseId, RenamedTree(p, job, releaseId, mid, paths),
                                                       AddressedBundle(p, job, releaseId, mid, paths))
  {
    hide StagedAs, EvidenceAccepted, AcceptedDecision, AddressedBundle, BundleFile, ReportFile, ManifestFile, Listable;
    DocumentsDiffer();
  }

  lemma MetricsRequired(b: Bundle)
    requires ValidBundle(b) && b.mode == ProductionModel
    ensures "training_metrics" in Elements(Names(b.references))
  {
    hide ValidReference;
  }

  /** What a promotion that is not refused has in hand: the published bundle is the staged one at its
      new address, and every check up to the pointer write passed. */
  lemma PublishedFacts(p: Platform, job: Job, releaseId: string, staging: string, mid: Tree, paths: map<string, Rel>)
    returns (report: AcceptanceReport.Report, after: Tree)
    requires ValidPlatform(p) && ReleaseName(releaseId) && CleanSegment(staging) && ValidJob(p, job) && Sourced(job)
    requires StageAll(p, job.candidate, job.evidence.references, job.sources) == Done(mid, paths)
    requires StagedAs(p, job, mid, paths) && ToldApart(p, job, releaseId, mid, paths)
    requires !Refused(p, job, releaseId, staging)
    ensures var tree, b := RenamedTree(p, job, releaseId, mid, paths), AddressedBundle(p, job, releaseId, mid, paths);
      && Load(p, releaseId, tree) == Some(b) && Placed(p, releaseId, tree, b, paths)
      && FinishOf(p, job, releaseId, tree) == Complete(report, after)
      && Accepted(p, releaseId, tree, job.policy, report, after) && NoCollision(p, tree, after)
  {
    var tree, b := RenamedTree(p, job, releaseId, mid, paths), AddressedBundle(p, job, releaseId, mid, paths);
    hide StageAll, Gate, ValidPlatform, ReleaseName, CleanSegment, ValidBundle, Sourced, StagedAs, AcceptedDecision,
      AddressedBundle, FinishOf, PrepareOf, Load, BundleFile, ReportFile, ManifestFile, Placed, Accepted, NoCollision,
      HexDigest, Untouched, Renamed, Spared, Bound, Prepared;
    ReleaseNameIsClean(releaseId);
    StagedCompletesIff(p, job, releaseId, staging, mid, paths);
    StagedGateIff(p, job, staging, mid, paths);
    PreparesIff(p, job, releaseId, staging, mid, paths);
    LoadsAsStaged(p, job, releaseId, staging, mid, paths);
    StagedAndRenamed(p, job, releaseId, staging, mid, paths);
    CompletesIff(p, job, releaseId, tree, b);
    ReadyIsPrepared(p, job, releaseId, staging);
    PreparedIsRenamed(p, job, releaseId, mid, paths, tree);
    CompleteIsAccepted(p, job, releaseId, tree);
    report, after := FinishOf(p, job, releaseId, tree).report, FinishOf(p, job, releaseId, tree).tree;
  }
}
