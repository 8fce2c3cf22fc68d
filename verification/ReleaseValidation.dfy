/** The evidence gate (release/release_evidence_validation.py), the validation of a release
    directory (release/release_directory_validation.py) and the resolution of the current
    pointer (release/current_release_pointer.py). */
module ReleaseValidation {
  import opened Text
  import opened Options
  import opened Sorting
  import opened ReleaseStore
  import opened EvidenceBundle
  import opened ReleaseManifest
  import Reproducibility

  const POINTER_SCHEMA := "production_release_pointer.v1"

  // ---- the evidence gate ----

  /** The bytes behind an evidence name. */
  function BytesOf(p: Platform, directory: string, tree: Tree, b: Bundle, name: string): Option<Bytes> {
    var reference := Find(b.references, name);
    if reference.None? then None
    else
      var file := FileAt(p, directory, tree, reference.value.path);
      if file.None? then None else Some(tree[file.value])
  }

  /** One reference of the gate's loop. */
  predicate ReferenceOk(p: Platform, directory: string, tree: Tree, b: Bundle, r: Reference) {
    var file := FileAt(p, directory, tree, r.path);
    && file.Some?
    && p.sha(tree[file.value]) == r.sha
    && ContentOk(p, b, r.name, Name(file.value), tree[file.value])
  }

  predicate ContentOk(p: Platform, b: Bundle, name: string, fileName: string, bytes: Bytes) {
    if name == "leakage" then
      p.leakage(bytes).Some? && p.leakage(bytes) == b.leakage && p.leakage(bytes).value.clean
    else if name == "reproducibility" then
      p.reproducibility(bytes).Some? && Reproducibility.ValidReport(p.reproducibility(bytes).value, p.canonical)
    else if name == "run_receipts" then
      p.receipts(bytes).Some? && p.receipts(bytes).value != [] && Reproducibility.AllValid(p.receipts(bytes).value)
    else name == "checkpoint" || p.cleanArtifact(name, fileName, bytes)
  }

  /** The persisted report must be the one computed from the persisted receipts. */
  predicate ReportMatches(p: Platform, report: Option<Bytes>, receipts: Option<Bytes>, policy: Policy) {
    report.Some? && receipts.Some?
    && p.reproducibility(report.value).Some? && p.receipts(receipts.value).Some? ==>
      p.reproducibility(report.value).value
      == Reproducibility.Evaluation(p.receipts(receipts.value).value, policy, policy.policyId, p.canonical)
  }

  predicate ServingOk(p: Platform, directory: string, tree: Tree, b: Bundle) {
    var card := Find(b.references, "model_card");
    if b.mode != Candidate && b.mode != ProductionModel then true
    else
      && card.Some?
      && Locate(Base(p, directory), card.value.path).Some?
      && p.deployable(ServingView(tree, Parent(Locate(Base(p, directory), card.value.path).value)))
  }

  /** `check_release` finds no violation. */
  predicate Gate(p: Platform, directory: string, tree: Tree, b: Bundle, policy: Policy) {
    && (forall r :: r in b.references ==> ReferenceOk(p, directory, tree, b, r))
    && ReportMatches(p, BytesOf(p, directory, tree, b, "reproducibility"),
                     BytesOf(p, directory, tree, b, "run_receipts"), policy)
    && ServingOk(p, directory, tree, b)
  }

  lemma EvidenceIsNamed(b: Bundle, name: string)
    requires ValidBundle(b) && b.mode == ProductionModel && name in MODEL_EVIDENCE
    ensures Find(b.references, name).Some?
  {
    hide ValidReference, Names, Elements;
    NamedReference(b.references, name);
    InElements(Names(b.references), name);
  }

  lemma GatedBytes(p: Platform, directory: string, tree: Tree, b: Bundle, policy: Policy, name: string)
    requires Gate(p, directory, tree, b, policy) && ValidBundle(b) && b.mode == ProductionModel
    requires name in MODEL_EVIDENCE
    ensures BytesOf(p, directory, tree, b, name).Some?
    ensures exists fileName :: ContentOk(p, b, name, fileName, BytesOf(p, directory, tree, b, name).value)
  {
    hide FileAt, ContentOk, ReportMatches, ServingOk, ValidBundle;
    EvidenceIsNamed(b, name);
    var r := Find(b.references, name).value;
    assert ReferenceOk(p, directory, tree, b, r);
  }

  /** Behind the gate the reproducibility report is there, and it says `passed` exactly when the
      receipts are a reproducible campaign under the policy. The gate does not ask which. */
  lemma GatedReportPassesIff(p: Platform, directory: string, tree: Tree, b: Bundle, policy: Policy)
    requires Gate(p, directory, tree, b, policy) && ValidBundle(b) && b.mode == ProductionModel
    ensures var report, receipts :=
        BytesOf(p, directory, tree, b, "reproducibility"), BytesOf(p, directory, tree, b, "run_receipts");
      && report.Some? && p.reproducibility(report.value).Some?
      && receipts.Some? && p.receipts(receipts.value).Some?
      && (p.reproducibility(report.value).value.passed
          <==> Reproducibility.Reproducible(p.receipts(receipts.value).value, policy))
  {
    hide BytesOf, ReferenceOk, ServingOk, ValidBundle, Reproducibility.ValidReport, Reproducibility.AllValid,
      Reproducibility.Evaluation, Reproducibility.Reproducible;
    GatedBytes(p, directory, tree, b, policy, "reproducibility");
    GatedBytes(p, directory, tree, b, policy, "run_receipts");
    var receipts := BytesOf(p, directory, tree, b, "run_receipts").value;
    Reproducibility.PassedIffReproducible(p.receipts(receipts).value, policy, policy.policyId, p.canonical);
  }

  lemma LeakageIsGated(p: Platform, directory: string, tree: Tree, b: Bundle, policy: Policy)
    requires Gate(p, directory, tree, b, policy) && ValidBundle(b) && b.mode == ProductionModel
    ensures LeakageOf(p, directory, tree, b.references) == Some(b.leakage)
  {
    hide FileAt, ReportMatches, ServingOk, ValidReference, Names, Elements;
    EvidenceIsNamed(b, "leakage");
    var r := Find(b.references, "leakage").value;
    assert ReferenceOk(p, directory, tree, b, r);
  }

  // ---- the release directory ----

  /** The checkpoint file and its checksum sidecar are both present. */
  predicate CheckpointAvailable(p: Platform, directory: string, tree: Tree, b: Bundle) {
    var checkpoint := Find(b.references, "checkpoint");
    && checkpoint.Some?
    && FileAt(p, directory, tree, checkpoint.value.path).Some?
    && var rel := FileAt(p, directory, tree, checkpoint.value.path).value;
       Sidecar(rel) in tree
  }

  function Sidecar(rel: Rel): Rel
    requires rel != []
  {
    Parent(rel) + [Name(rel) + ".sha256"]
  }

  predicate ReportAccepted(tree: Tree) {
    && REPORT in tree && tree[REPORT].File? && tree[REPORT].document.ReportDocument?
    && var d := tree[REPORT].document;
       d.passed && d.releaseStage == "production_model" && d.expectedStatus == "MODEL_ACCEPTED"
  }

  /** The bundle is bound to the policy. */
  predicate BundleUnder(p: Platform, b: Bundle, policy: Policy) {
    b.requirementsId == Some(policy.policyId) && b.requirementsSha == Some(PolicySha(p, policy))
  }

  /** What a directory must satisfy besides its manifest. */
  predicate Deployable(p: Platform, directory: string, tree: Tree, policy: Policy) {
    var b := Load(p, directory, tree);
    && b.Some?
    && BundleUnder(p, b.value, policy)
    && Gate(p, directory, tree, b.value, policy)
    && CheckpointAvailable(p, directory, tree, b.value)
    && ReportAccepted(tree)
  }

  predicate DirectoryOk(p: Platform, directory: string, tree: Tree, releaseId: string, policy: Policy) {
    ManifestOk(p, tree, releaseId) && Deployable(p, directory, tree, policy)
  }

  // ---- the pointer ----

  /** A directory name the pointer can carry. */
  predicate ReleaseName(name: string) {
    && Nameable([RELEASES, name])
    && !Blank(name)
    && !(STAGING_PREFIX <= name)
  }

  function PointerFor(p: Platform, tree: Tree, releaseId: string): Bytes
    requires MANIFEST in tree
  {
    File(PRETTY, PointerDocument(POINTER_SCHEMA, releaseId, JoinSlash([RELEASES, releaseId]), JoinSlash(MANIFEST),
                                 p.sha(tree[MANIFEST])))
  }

  /** `current_pointer_references`. */
  predicate References(pointer: Option<Bytes>, releaseId: string) {
    && pointer.Some? && pointer.value.File? && pointer.value.document.PointerDocument?
    && !Blank(pointer.value.document.releaseDirectory)
    && ContainedRelative(pointer.value.document.releaseDirectory) == Some([RELEASES, releaseId])
  }

  /** The directory a pointer document selects, when its own members are consistent. */
  function Target(d: Document, releases: map<string, Tree>): (r: Option<string>)
    requires d.PointerDocument?
    ensures r.Some? ==> r.value in releases && r.value == d.releaseId
  {
    var rel := ContainedRelative(d.releaseDirectory);
    if d.schemaVersion != POINTER_SCHEMA || Blank(d.releaseId) || Blank(d.releaseDirectory) || rel.None? then None
    else if |rel.value| != 2 || rel.value[0] != RELEASES || rel.value[1] != d.releaseId then None
    else if d.releaseId !in releases then None
    else Some(d.releaseId)
  }

  /** The manifest at the path in the document, when it has the digest the pointer records. */
  function PointedManifest(p: Platform, d: Document, tree: Tree): (r: Option<Document>)
    requires d.PointerDocument?
    ensures r.Some? ==> r.value.ManifestDocument?
  {
    var rel := ContainedRelative(d.releaseManifest);
    if Blank(d.releaseManifest) || rel.None? || rel.value !in tree then None
    else
      var bytes := tree[rel.value];
      if RequiredSha256(d.manifestSha) != Some(p.sha(bytes)) then None
      else if !bytes.File? || !bytes.document.ManifestDocument? then None
      else Some(bytes.document)
  }

  /** `resolve_current_release`: the name of the directory, or nothing when it raises. */
  function Resolve(p: Platform, releases: map<string, Tree>, pointer: Option<Bytes>): Option<string> {
    if pointer.None? || !pointer.value.File? || !pointer.value.document.PointerDocument? then None
    else
      var target := Target(pointer.value.document, releases);
      if target.None? then None
      else
        var tree := releases[target.value];
        var manifest := PointedManifest(p, pointer.value.document, tree);
        if manifest.None? then None
        else
          var policy := PolicyFrom(manifest.value.requirementsId, manifest.value.policy);
          if policy.Some? && DirectoryOk(p, target.value, tree, target.value, policy.value)
          then target else None
  }

  /** The policy a manifest records. */
  function RecordedPolicy(tree: Tree): Option<Policy> {
    var m := ManifestOf(tree);
    if m.None? then None else PolicyFrom(m.value.requirementsId, m.value.policy)
  }

  lemma ManifestPathReads()
    ensures ContainedRelative(JoinSlash(MANIFEST)) == Some(MANIFEST) && !Blank(JoinSlash(MANIFEST))
  {
    ManifestIsPlain();
    hide Plain, ContainedRelative, Nameable, CleanPath;
    PlainSegments(MANIFEST);
    ContainedRoundTrip(MANIFEST);
    assert JoinSlash(MANIFEST) == MANIFEST[0];
    assert MANIFEST[0][0] == 'r' && MANIFEST[0][0] in MANIFEST[0];
  }

  lemma ManifestIsPlain()
    ensures forall s :: s in MANIFEST ==> Plain(s)
  {}

  lemma DirectoryPathReads(name: string)
    requires ReleaseName(name)
    ensures ContainedRelative(JoinSlash([RELEASES, name])) == Some([RELEASES, name])
    ensures !Blank(JoinSlash([RELEASES, name]))
  {
    ContainedRoundTrip([RELEASES, name]);
    hide ContainedRelative, Nameable;
    var parts := [RELEASES, name];
    assert JoinSlash(parts) == parts[0] + "/" + JoinSlash(parts[1..]);
    assert JoinSlash(parts)[0] == 'r' && JoinSlash(parts)[0] in JoinSlash(parts);
  }

  lemma PointerSelects(p: Platform, releases: map<string, Tree>, releaseId: string)
    requires ReleaseName(releaseId) && releaseId in releases && MANIFEST in releases[releaseId]
    ensures var pointer := PointerFor(p, releases[releaseId], releaseId);
      Target(pointer.document, releases) == Some(releaseId) && References(Some(pointer), releaseId)
  {
    DirectoryPathReads(releaseId);
    hide ContainedRelative, JoinSlash, Nameable, Blank;
    assert !Blank(releaseId);
  }

  lemma PointerOpens(p: Platform, tree: Tree, releaseId: string)
    requires ValidPlatform(p) && ManifestOf(tree).Some?
    ensures PointedManifest(p, PointerFor(p, tree, releaseId).document, tree) == ManifestOf(tree)
  {
    ManifestPathReads();
    assert HexDigest(p.sha(tree[MANIFEST]));
    DigestIsSha256(p.sha(tree[MANIFEST]));
    hide ContainedRelative, JoinSlash, Blank, LooksLikeSha256, HexDigest;
  }

  /** A pointer just written for a directory resolves to it exactly when the directory passes
      the full validation under the policy its own manifest records. */
  lemma WrittenPointerResolvesIff(p: Platform, releases: map<string, Tree>, releaseId: string)
    requires ValidPlatform(p) && ReleaseName(releaseId) && releaseId in releases
    requires ManifestOk(p, releases[releaseId], releaseId)
    ensures RecordedPolicy(releases[releaseId]).Some?
    ensures Resolve(p, releases, Some(PointerFor(p, releases[releaseId], releaseId)))
      == if Deployable(p, releaseId, releases[releaseId], RecordedPolicy(releases[releaseId]).value)
         then Some(releaseId) else None
  {
    PointerSelects(p, releases, releaseId);
    PointerOpens(p, releases[releaseId], releaseId);
    RecordedPolicyOfValid(p, releases[releaseId], releaseId);
    hide ManifestOk, Deployable, Target, PointedManifest, ReleaseName, References;
  }

  /** The directory passes its validation under the policy that its own manifest records. */
  predicate OkAsRecorded(p: Platform, releaseId: string, tree: Tree) {
    && ManifestOk(p, tree, releaseId)
    && RecordedPolicy(tree).Some?
    && Deployable(p, releaseId, tree, RecordedPolicy(tree).value)
  }

  /** A written pointer references its release and no other. When the release's manifest validates,
      the pointer resolves to nothing else, and to it exactly when the directory is as valid as its
      manifest requires. */
  lemma WrittenPointerMeans(p: Platform, releases: map<string, Tree>, releaseId: string)
    requires releaseId in releases && MANIFEST in releases[releaseId] && ReleaseName(releaseId)
    ensures var pointer := Some(PointerFor(p, releases[releaseId], releaseId));
      && (forall other :: References(pointer, other) <==> other == releaseId)
      && (ValidPlatform(p) && ManifestOk(p, releases[releaseId], releaseId) ==>
            Resolve(p, releases, pointer)
            == if OkAsRecorded(p, releaseId, releases[releaseId]) then Some(releaseId) else None)
  {
    PointerSelects(p, releases, releaseId);
    hide ManifestOk, Deployable, RecordedPolicy, ReleaseName, Resolve, ContainedRelative, ValidPlatform, Blank;
    if ValidPlatform(p) && ManifestOk(p, releases[releaseId], releaseId) {
      WrittenPointerResolvesIff(p, releases, releaseId);
    }
  }

  lemma ManifestPresent(p: Platform, tree: Tree, releaseId: string)
    requires ManifestOk(p, tree, releaseId)
    ensures MANIFEST in tree
  {
    hide HeaderOk, ArtifactsOk;
  }

  lemma RecordedPolicyOfValid(p: Platform, tree: Tree, releaseId: string)
    requires ManifestOk(p, tree, releaseId)
    ensures ManifestOf(tree).Some? && RecordedPolicy(tree).Some?
  {
    hide ArtifactsOk;
  }
}
