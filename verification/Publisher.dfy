/** The promotion of one candidate under the lock (release/model_release_publisher.py:304-553),
    statement by statement, over the fields of a production directory. */
module Publisher {
  import opened Text
  import opened Options
  import opened Sorting
  import opened ReleaseStore
  import opened EvidenceBundle
  import opened ReleaseManifest
  import opened ReleaseValidation
  import opened ReleaseIdentity
  import opened ReleaseStaging
  import opened FreshCommit
  import AcceptanceReport

  /** What a promotion is asked to publish: the candidate's files, the evidence with its sources,
      the active policy, the decision, and the digests taken before the lock. */
  datatype Job = Job(
    candidate: Tree,
    evidence: Bundle,
    sources: map<string, Source>,
    policy: Policy,
    decision: AcceptanceReport.Decision,
    checkpointSha: string,
    metricsSha: string)

  /** What `promote_model` has established when it takes the lock. */
  ghost predicate ValidJob(p: Platform, job: Job) {
    && ValidBundle(job.evidence) && job.evidence.mode == ProductionModel
    && job.policy.Valid() && BundleUnder(p, job.evidence, job.policy)
    && (forall r :: r in job.evidence.references ==> r.name in job.sources)
    && HexDigest(job.checkpointSha) && HexDigest(job.metricsSha)
  }

  function IdOf(p: Platform, job: Job): string {
    ReleaseIdOf(job.checkpointSha, job.metricsSha, EvidenceDigest(p, job.evidence))
  }

  /** A job's id names its checkpoint, its metrics and its evidence, by the heads of their digests. */
  lemma IdSays(p: Platform, job: Job)
    requires ValidPlatform(p) && ValidJob(p, job)
    ensures var id, evidence := IdOf(p, job), p.sha(File(PLAIN, Payload(job.evidence)));
      && |id| == 50 && id[..8] == "release-" && id[8..24] == job.checkpointSha[..16]
      && id[25..37] == job.metricsSha[..12] && id[38..] == evidence[..12]
  {
    assert HexDigest(EvidenceDigest(p, job.evidence));
    hide ValidBundle, BundleUnder, HexDigest;
    ReleaseIdSays(job.checkpointSha, job.metricsSha, EvidenceDigest(p, job.evidence));
  }

  datatype Result = Promoted(report: AcceptanceReport.Report) | Failed

  // ---- staging ----

  /** The directory as it is renamed: the staged files and the bundle re-addressed to the final
      place. */
  ghost predicate Prepared(p: Platform, job: Job, releaseId: string, mid: Tree, paths: map<string, Rel>, tree: Tree) {
    && AllStaged(p, job.candidate, mid, paths, job.sources, Elements(Names(job.evidence.references)))
    && (forall r :: r in job.evidence.references ==> r.name in paths && paths[r.name] in mid)
    && tree == mid[BUNDLE := File(PRETTY, Payload(BundleAt(p, releaseId, mid, job.evidence, paths)))]
  }

  lemma PathsKnown(p: Platform, job: Job, mid: Tree, paths: map<string, Rel>)
    requires AllStaged(p, job.candidate, mid, paths, job.sources, Elements(Names(job.evidence.references)))
    ensures forall r :: r in job.evidence.references ==> r.name in paths && paths[r.name] in mid
  {
    hide TargetOf;
    forall r | r in job.evidence.references ensures r.name in paths && paths[r.name] in mid {
      var i :| 0 <= i < |job.evidence.references| && job.evidence.references[i] == r;
      assert Names(job.evidence.references)[i] in Elements(Names(job.evidence.references));
      assert Staged(p, mid, paths, job.sources, r.name);
    }
  }

  lemma BundleNamesDistinct(b: Bundle)
    requires ValidBundle(b)
    ensures Distinct(Names(b.references))
    ensures b.mode == ProductionModel ==> "checkpoint" in Elements(Names(b.references))
  {
    DistinctCardinality(Names(b.references));
    hide ValidReference;
  }

  /** The checks made on the staged copy: its bundle is well formed, passes the gate in the
      staging directory, and holds the promoted checkpoint with its sidecar. */
  predicate StagedOk(p: Platform, job: Job, staging: string, mid: Tree, paths: map<string, Rel>)
    requires forall r :: r in job.evidence.references ==> r.name in paths && paths[r.name] in mid
  {
    var staged := BundleAt(p, staging, mid, job.evidence, paths);
    && ValidBundle(staged)
    && Gate(p, staging, mid, staged, job.policy)
    && CheckpointAvailable(p, staging, mid, staged)
    && CHECKPOINT in mid && p.sha(mid[CHECKPOINT]) == job.checkpointSha
  }

  datatype Preparation = Ready(tree: Tree, mid: Tree, paths: map<string, Rel>) | Rejected

  lemma StagedPathsKnown(p: Platform, job: Job)
    requires ValidJob(p, job)
    ensures var outcome := StageAll(p, job.candidate, job.evidence.references, job.sources);
      outcome.Done? ==>
        AllStaged(p, job.candidate, outcome.tree, outcome.paths, job.sources, Elements(Names(job.evidence.references)))
        && forall r :: r in job.evidence.references ==> r.name in outcome.paths && outcome.paths[r.name] in outcome.tree
  {
    hide ValidBundle, StageAll, AllStaged;
    BundleNamesDistinct(job.evidence);
    var outcome := StageAll(p, job.candidate, job.evidence.references, job.sources);
    if outcome.Done? {
      StageAllStaged(p, job.candidate, job.evidence.references, job.sources);
      PathsKnown(p, job, outcome.tree, outcome.paths);
    }
  }

  /** What staging must answer: ready exactly when every reference can be staged, the staged copy
      passes its checks, and the bundle can be re-addressed to the final directory. */
  ghost function PrepareOf(p: Platform, job: Job, releaseId: string, staging: string): Preparation
    requires ValidJob(p, job)
  {
    var outcome := StageAll(p, job.candidate, job.evidence.references, job.sources);
    StagedPathsKnown(p, job);
    if outcome.Rejected? || !StagedOk(p, job, staging, outcome.tree, outcome.paths) then Preparation.Rejected
    else
      var final := BundleAt(p, releaseId, outcome.tree, job.evidence, outcome.paths);
      if !ValidBundle(final) then Preparation.Rejected
      else Ready(outcome.tree[BUNDLE := File(PRETTY, Payload(final))], outcome.tree, outcome.paths)
  }

  lemma ReadyIsPrepared(p: Platform, job: Job, releaseId: string, staging: string)
    requires ValidJob(p, job) && PrepareOf(p, job, releaseId, staging).Ready?
    ensures var r := PrepareOf(p, job, releaseId, staging); Prepared(p, job, releaseId, r.mid, r.paths, r.tree)
  {
    hide AllStaged, ValidBundle, StagedOk, Payload, StageAll;
    StagedPathsKnown(p, job);
  }

  /** From the candidate to a directory ready to be renamed. */
  method Prepare(p: Platform, job: Job, releaseId: string, staging: string) returns (r: Preparation)
    requires ValidJob(p, job)
    ensures r == PrepareOf(p, job, releaseId, staging)
  {
    hide AllStaged, ValidBundle, StagedOk, Payload, StageAll;
    BundleNamesDistinct(job.evidence);
    StagedPathsKnown(p, job);
    var outcome := StageEvidence(p, job.candidate, job.evidence.references, job.sources);
    if outcome.Rejected? {
      return Preparation.Rejected;
    }
    var mid, paths := outcome.tree, outcome.paths;
    if !StagedOk(p, job, staging, mid, paths) {
      return Preparation.Rejected;
    }
    var final := BundleAt(p, releaseId, mid, job.evidence, paths);
    if !ValidBundle(final) {
      return Preparation.Rejected;
    }
    r := Ready(mid[BUNDLE := File(PRETTY, Payload(final))], mid, paths);
  }

  // ---- what the prepared directory gives the published bundle ----

  lemma PreparedDocument(p: Platform, job: Job, releaseId: string, mid: Tree, paths: map<string, Rel>, tree: Tree)
    requires Prepared(p, job, releaseId, mid, paths, tree)
    ensures BUNDLE in tree
    ensures tree[BUNDLE] == File(PRETTY, Payload(BundleAt(p, releaseId, mid, job.evidence, paths)))
  {
    hide AllStaged, Payload;
  }

  /** A loaded bundle carries the mode and the policy identity of its document. */
  lemma LoadedIdentity(p: Platform, directory: string, tree: Tree)
    requires Load(p, directory, tree).Some?
    ensures BUNDLE in tree && tree[BUNDLE].File? && tree[BUNDLE].document.BundleDocument?
    ensures var b, d := Load(p, directory, tree).value, tree[BUNDLE].document;
      b.requirementsId == d.policyId && b.requirementsSha == d.policySha && ParseMode(d.releaseMode) == Some(b.mode)
  {
    hide ValidReference, ValidBundle, IdentityFits, LeakageOf, Verified, ParseMode;
  }

  lemma PublishedUnderPolicy(p: Platform, job: Job, releaseId: string, mid: Tree, paths: map<string, Rel>, tree: Tree)
    requires ValidJob(p, job) && Prepared(p, job, releaseId, mid, paths, tree)
    requires Load(p, releaseId, tree).Some?
    ensures var b := Load(p, releaseId, tree).value; b.mode == ProductionModel && BundleUnder(p, b, job.policy)
  {
    PreparedDocument(p, job, releaseId, mid, paths, tree);
    LoadedIdentity(p, releaseId, tree);
    ModeRoundTrip(ProductionModel);
    hide Load, Prepared, ValidBundle, ParseMode, ModeName;
  }

  lemma {:induction false} VerifiedCheckpoint(p: Platform, directory: string, tree: Tree, raw: seq<Reference>)
    requires ValidPlatform(p) && CleanSegment(directory)
    requires Verified(p, directory, tree, raw).Some?
    requires forall r :: r in raw && r.name == "checkpoint" ==> r.path == AbsolutePath(Base(p, directory) + CHECKPOINT)
    ensures forall r :: r in Verified(p, directory, tree, raw).value && r.name == "checkpoint" ==>
      FileAt(p, directory, tree, r.path) == Some(CHECKPOINT)
  {
    if raw != [] {
      assert raw[0] in raw;
      CheckpointLocates(p, directory);
      hide Locate, AbsolutePath, ValidPlatform, CleanSegment;
      VerifiedCheckpoint(p, directory, tree, raw[1..]);
    }
  }

  lemma CheckpointLocates(p: Platform, directory: string)
    requires ValidPlatform(p) && CleanSegment(directory)
    ensures Locate(Base(p, directory), AbsolutePath(Base(p, directory) + CHECKPOINT)) == Some(CHECKPOINT)
  {
    assert CleanSegment(RELEASES);
    CheckpointIsClean();
    hide CleanSegment;
    assert CleanPath(Base(p, directory));
    LocateAbsolute(Base(p, directory), CHECKPOINT);
  }

  lemma CheckpointIsClean()
    ensures CleanPath(CHECKPOINT) && CHECKPOINT != []
  {
    assert Plain("checkpoint.pt");
  }

  lemma RawCheckpoint(p: Platform, job: Job, releaseId: string, mid: Tree, paths: map<string, Rel>)
    requires AllStaged(p, job.candidate, mid, paths, job.sources, Elements(Names(job.evidence.references)))
    requires forall r :: r in job.evidence.references ==> r.name in paths && paths[r.name] in mid
    ensures forall r :: r in BundleAt(p, releaseId, mid, job.evidence, paths).references && r.name == "checkpoint" ==>
      r.path == AbsolutePath(Base(p, releaseId) + CHECKPOINT)
    ensures "checkpoint" in paths ==> SIDECAR in mid
  {
    if "checkpoint" in paths { assert Staged(p, mid, paths, job.sources, "checkpoint"); }
    hide AbsolutePath;
  }

  lemma FindCheckpoint(b: Bundle)
    requires ValidBundle(b) && b.mode == ProductionModel
    ensures Find(b.references, "checkpoint").Some?
  {
    BundleNamesDistinct(b);
    hide ValidBundle, ValidReference;
    var i :| 0 <= i < |b.references| && Names(b.references)[i] == "checkpoint";
    assert b.references[i] in b.references && b.references[i].name == "checkpoint";
  }

  lemma SidecarOfCheckpoint()
    ensures Sidecar(CHECKPOINT) == SIDECAR && SIDECAR != BUNDLE && CHECKPOINT != BUNDLE
  {
    assert |BUNDLE| == 2 && |SIDECAR| == 1 && |CHECKPOINT| == 1;
    assert "checkpoint.pt" + ".sha256" == "checkpoint.pt.sha256";
  }

  lemma AvailableWhenFound(p: Platform, directory: string, tree: Tree, b: Bundle)
    requires Find(b.references, "checkpoint").Some? && SIDECAR in tree
    requires forall r :: r in b.references && r.name == "checkpoint" ==>
      FileAt(p, directory, tree, r.path) == Some(CHECKPOINT)
    ensures CheckpointAvailable(p, directory, tree, b)
  {
    SidecarOfCheckpoint();
    hide FileAt;
    var r := Find(b.references, "checkpoint").value;
    assert r in b.references;
  }

  /** The published bundle's checkpoint is where it was staged, with its sidecar. */
  lemma PublishedCheckpoint(p: Platform, job: Job, releaseId: string, mid: Tree, paths: map<string, Rel>, tree: Tree)
    requires ValidPlatform(p) && CleanSegment(releaseId) && ValidJob(p, job)
    requires Prepared(p, job, releaseId, mid, paths, tree) && Load(p, releaseId, tree).Some?
    requires Load(p, releaseId, tree).value.mode == ProductionModel && ValidBundle(Load(p, releaseId, tree).value)
    ensures CheckpointAvailable(p, releaseId, tree, Load(p, releaseId, tree).value)
  {
    var b := Load(p, releaseId, tree).value;
    PreparedDocument(p, job, releaseId, mid, paths, tree);
    RawCheckpoint(p, job, releaseId, mid, paths);
    CheckpointStaged(p, job, mid, paths);
    SidecarOfCheckpoint();
    assert SIDECAR in tree;
    LoadedReferences(p, releaseId, tree);
    hide Prepared, AllStaged, ValidPlatform, CleanSegment, ValidJob, AbsolutePath, Base;
    VerifiedCheckpoint(p, releaseId, tree, tree[BUNDLE].document.evidence);
    FindCheckpoint(b);
    hide ValidBundle, Load, FileAt, CheckpointAvailable;
    AvailableWhenFound(p, releaseId, tree, b);
  }

  lemma CheckpointStaged(p: Platform, job: Job, mid: Tree, paths: map<string, Rel>)
    requires ValidJob(p, job)
    requires AllStaged(p, job.candidate, mid, paths, job.sources, Elements(Names(job.evidence.references)))
    ensures "checkpoint" in paths
  {
    BundleNamesDistinct(job.evidence);
    hide ValidBundle, TargetOf;
  }

  // ---- the production directory ----

  predicate NoStaging(releases: map<string, Tree>) {
    forall name :: name in releases ==> !(STAGING_PREFIX <= name)
  }

  function WithoutStaging(releases: map<string, Tree>): (r: map<string, Tree>)
    ensures NoStaging(r)
  {
    map name | name in releases && !(STAGING_PREFIX <= name) :: releases[name]
  }

  /** What a retry answers and which pointer it leaves: the directory's manifest and report must
      validate before the pointer is touched. */
  function Existing(p: Platform, releases: map<string, Tree>, pointer: Option<Bytes>, releaseId: string)
    : (Result, Option<Bytes>)
    requires releaseId in releases
  {
    var tree := releases[releaseId];
    var report := if REPORT in tree then AcceptanceReport.Load(tree[REPORT]) else None;
    if !ManifestOk(p, tree, releaseId) || report.None? || MANIFEST !in tree then (Failed, pointer)
    else
      var next := if References(pointer, releaseId) then pointer else Some(PointerFor(p, tree, releaseId));
      (if Resolve(p, releases, next) == Some(releaseId) then Promoted(report.value) else Failed, next)
  }

  /** The evidence a report covers: the published references and the bundle. The publisher also
      sets the metrics path, to the path the metrics reference already has. */
  function ReportItems(p: Platform, directory: string, b: Bundle): seq<AcceptanceReport.Item> {
    Map(b.references, (r: Reference) => AcceptanceReport.Item(r.name, r.path))
    + [AcceptanceReport.Item("release_evidence_bundle", AbsolutePath(Base(p, directory) + BUNDLE))]
  }

  /** What is known of a directory that has just been renamed into place. */
  ghost predicate Renamed(p: Platform, releaseId: string, before: Tree, policy: Policy) {
    Load(p, releaseId, before).Some? ==>
      var b := Load(p, releaseId, before).value;
      b.mode == ProductionModel && BundleUnder(p, b, policy) && CheckpointAvailable(p, releaseId, before, b)
  }

  lemma PreparedIsRenamed(p: Platform, job: Job, releaseId: string, mid: Tree, paths: map<string, Rel>, tree: Tree)
    requires ValidPlatform(p) && CleanSegment(releaseId) && ValidJob(p, job)
    requires Prepared(p, job, releaseId, mid, paths, tree)
    ensures Renamed(p, releaseId, tree, job.policy)
  {
    if Load(p, releaseId, tree).Some? {
      LoadedIsBound(p, releaseId, tree);
      hide Load, Prepared, ValidPlatform, ValidJob, CleanSegment, ValidBundle, BundleUnder, CheckpointAvailable;
      PublishedUnderPolicy(p, job, releaseId, mid, paths, tree);
      PublishedCheckpoint(p, job, releaseId, mid, paths, tree);
    }
  }

  /** Every check between the rename and the pointer write passed and led to `after`. */
  ghost predicate Accepted(p: Platform, releaseId: string, before: Tree, policy: Policy,
                           report: AcceptanceReport.Report, after: Tree)
  {
    Load(p, releaseId, before).Some?
    && AcceptanceReport.WellFormed(report)
    && Checked(p, releaseId, before, Load(p, releaseId, before).value, policy, report, after)
  }

  datatype Completion = Complete(report: AcceptanceReport.Report, tree: Tree) | Incomplete

  /** The report of the renamed directory, if its bundle loads, passes the gate and is complete. */
  function ReportOf(p: Platform, job: Job, releaseId: string, before: Tree): Option<(Bundle, AcceptanceReport.Report)> {
    var b := Load(p, releaseId, before);
    if b.None? || !Gate(p, releaseId, before, b.value, job.policy) then None
    else
      var report := AcceptanceReport.Built(p, releaseId, before, ProductionModel, job.decision,
                                           AcceptanceReport.ModelAccepted, ReportItems(p, releaseId, b.value));
      if report.None? || !AcceptanceReport.Passed(report.value) then None else Some((b.value, report.value))
  }

  /** The directory with its manifest, if one can be written and then validates. */
  function ManifestStep(p: Platform, job: Job, releaseId: string, tree: Tree, b: Bundle): Option<Tree> {
    if BUNDLE !in tree || REPORT !in tree then None
    else
      var m := ManifestFor(p, releaseId, tree, releaseId, b, job.policy);
      if m.None? then None
      else
        var written := tree[MANIFEST := File(PRETTY, m.value)];
        if ManifestOk(p, written, releaseId) then Some(written) else None
  }

  function FinishOf(p: Platform, job: Job, releaseId: string, before: Tree): Completion {
    var first := ReportOf(p, job, releaseId, before);
    if first.None? then Incomplete
    else
      var after := ManifestStep(p, job, releaseId, WithReport(before, first.value.1), first.value.0);
      if after.None? then Incomplete else Complete(first.value.1, after.value)
  }

  /** The published bundle is loaded and gated again, the report built and written. */
  method WriteReport(p: Platform, job: Job, releaseId: string, before: Tree)
    returns (made: Option<(Bundle, AcceptanceReport.Report)>, tree: Tree)
    ensures made == ReportOf(p, job, releaseId, before)
    ensures made.Some? ==> tree == WithReport(before, made.value.1)
  {
    hide Load, Gate, ReportItems, AcceptanceReport.Present, AcceptanceReport.Absent, AcceptanceReport.Built;
    tree := before;
    var b := Load(p, releaseId, before);
    if b.None? || !Gate(p, releaseId, before, b.value, job.policy) {
      return None, tree;
    }
    var report := AcceptanceReport.Build(p, releaseId, before, ProductionModel, job.decision,
                                         AcceptanceReport.ModelAccepted, ReportItems(p, releaseId, b.value));
    if report.None? {
      return None, tree;
    }
    tree := WithReport(before, report.value);
    if !AcceptanceReport.Passed(report.value) {
      return None, tree;
    }
    made := Some((b.value, report.value));
  }

  /** The manifest is written into the directory and validated there. */
  method WriteManifest(p: Platform, job: Job, releaseId: string, tree: Tree, b: Bundle) returns (after: Option<Tree>)
    ensures after == ManifestStep(p, job, releaseId, tree, b)
  {
    hide ManifestOk, ManifestFor;
    if BUNDLE !in tree || REPORT !in tree {
      return None;
    }
    var m := ManifestFor(p, releaseId, tree, releaseId, b, job.policy);
    if m.None? {
      return None;
    }
    var written := tree[MANIFEST := File(PRETTY, m.value)];
    var ok := ValidateManifest(p, written, releaseId);
    if !ok {
      return None;
    }
    after := Some(written);
  }

  /** Everything between the rename and the pointer write. */
  method Finish(p: Platform, job: Job, releaseId: string, before: Tree) returns (r: Completion)
    ensures r == FinishOf(p, job, releaseId, before)
  {
    hide ReportOf, ManifestStep, WithReport;
    var made, tree := WriteReport(p, job, releaseId, before);
    if made.None? {
      return Incomplete;
    }
    var after := WriteManifest(p, job, releaseId, tree, made.value.0);
    if after.None? {
      return Incomplete;
    }
    r := Complete(made.value.1, after.value);
  }

  lemma ReportFacts(p: Platform, job: Job, releaseId: string, before: Tree)
    requires ReportOf(p, job, releaseId, before).Some?
    ensures var (b, report) := ReportOf(p, job, releaseId, before).value;
      && Load(p, releaseId, before) == Some(b) && Gate(p, releaseId, before, b, job.policy)
      && report.stage == ProductionModel && report.expected == AcceptanceReport.ModelAccepted
      && AcceptanceReport.Passed(report) && AcceptanceReport.WellFormed(report)
  {
    hide Load, Gate, ReportItems, AcceptanceReport.Present, AcceptanceReport.Absent, AcceptanceReport.WellFormed;
    var b := Load(p, releaseId, before).value;
    AcceptanceReport.BuiltPassedIsWellFormed(p, releaseId, before, ProductionModel, job.decision,
                                             AcceptanceReport.ModelAccepted, ReportItems(p, releaseId, b));
  }

  lemma ManifestFacts(p: Platform, job: Job, releaseId: string, tree: Tree, b: Bundle)
    requires ManifestStep(p, job, releaseId, tree, b).Some?
    ensures var after := ManifestStep(p, job, releaseId, tree, b).value;
      ManifestWritten(p, releaseId, tree, after, b, job.policy) && after == tree[MANIFEST := after[MANIFEST]]
  {
    hide ManifestOk, ManifestFor;
  }

  /** What is complete was accepted by every check on the way. */
  lemma CompleteIsAccepted(p: Platform, job: Job, releaseId: string, before: Tree)
    requires job.policy.Valid() && Renamed(p, releaseId, before, job.policy)
    requires FinishOf(p, job, releaseId, before).Complete?
    ensures var r := FinishOf(p, job, releaseId, before);
      Accepted(p, releaseId, before, job.policy, r.report, r.tree)
  {
    hide Gate, ManifestWritten, CheckpointAvailable, BundleUnder, Load, WithReport, AcceptanceReport.WellFormed,
      ReportOf, ManifestStep;
    ReportFacts(p, job, releaseId, before);
    var (b, report) := ReportOf(p, job, releaseId, before).value;
    ManifestFacts(p, job, releaseId, WithReport(before, report), b);
  }
}
