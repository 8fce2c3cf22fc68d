/** The fresh promotion path: everything checked before the pointer is written implies that the
    pointer resolves afterwards. The published directory changes between the checks (the report
    and the manifest are written last), and the policy is rebuilt from the manifest. */
module FreshCommit {
  import opened Text
  import opened Options
  import opened Sorting
  import opened ReleaseStore
  import opened EvidenceBundle
  import opened ReleaseManifest
  import opened ReleaseValidation
  import AcceptanceReport
  import Reproducibility

  /** `after` has the same bytes as `before` behind every reference. */
  ghost predicate SameEvidence(p: Platform, directory: string, before: Tree, after: Tree, references: seq<Reference>) {
    forall r :: r in references ==>
      && FileAt(p, directory, before, r.path).Some?
      && FileAt(p, directory, after, r.path) == FileAt(p, directory, before, r.path)
      && after[FileAt(p, directory, after, r.path).value] == before[FileAt(p, directory, before, r.path).value]
  }

  lemma {:induction false} VerifiedFrame(p: Platform, directory: string, before: Tree, after: Tree,
                                         raw: seq<Reference>)
    requires Verified(p, directory, before, raw).Some?
    requires SameEvidence(p, directory, before, after, raw)
    ensures Verified(p, directory, after, raw) == Verified(p, directory, before, raw)
  {
    hide FileAt, AbsolutePath;
    if raw != [] {
      assert raw[0] in raw;
      VerifiedFrame(p, directory, before, after, raw[1..]);
    }
  }

  /** The raw references of the document locate the same files as the loaded ones. */
  lemma {:induction false} RawEvidence(p: Platform, directory: string, before: Tree, after: Tree, raw: seq<Reference>)
    requires ValidPlatform(p) && CleanSegment(directory)
    requires Verified(p, directory, before, raw).Some?
    requires SameEvidence(p, directory, before, after, Verified(p, directory, before, raw).value)
    ensures SameEvidence(p, directory, before, after, raw)
  {
    if raw != [] {
      var loaded := Verified(p, directory, before, raw).value;
      var rel := FileAt(p, directory, before, raw[0].path).value;
      LocateIsClean(Base(p, directory), raw[0].path);
      assert CleanSegment(RELEASES);
      LocateAbsolute(Base(p, directory), rel);
      assert loaded[0] in loaded;
      hide Locate, AbsolutePath, ValidPlatform, CleanSegment;
      RawEvidence(p, directory, before, after, raw[1..]);
    }
  }

  lemma LeakageFrame(p: Platform, directory: string, before: Tree, after: Tree, references: seq<Reference>)
    requires SameEvidence(p, directory, before, after, references)
    ensures LeakageOf(p, directory, after, references) == LeakageOf(p, directory, before, references)
  {
    hide FileAt;
    var r := Find(references, "leakage");
  }

  /** Loading depends only on the bundle file and the referenced files. */
  lemma LoadFrame(p: Platform, directory: string, before: Tree, after: Tree)
    requires ValidPlatform(p) && CleanSegment(directory)
    requires Load(p, directory, before).Some?
    requires BUNDLE in after && after[BUNDLE] == before[BUNDLE]
    requires SameEvidence(p, directory, before, after, Load(p, directory, before).value.references)
    ensures Load(p, directory, after) == Load(p, directory, before)
  {
    var document := before[BUNDLE].document;
    var references := Verified(p, directory, before, document.evidence).value;
    LoadedReferences(p, directory, before);
    hide ValidPlatform, CleanSegment, SameEvidence, Assemble, ParseMode, ValidReference;
    RawEvidence(p, directory, before, after, document.evidence);
    VerifiedFrame(p, directory, before, after, document.evidence);
    LeakageFrame(p, directory, before, after, references);
  }

  lemma LoadedReferences(p: Platform, directory: string, tree: Tree)
    requires Load(p, directory, tree).Some?
    ensures BUNDLE in tree && tree[BUNDLE].File? && tree[BUNDLE].document.BundleDocument?
    ensures Verified(p, directory, tree, tree[BUNDLE].document.evidence)
      == Some(Load(p, directory, tree).value.references)
  {
    hide ParseMode, ValidReference, ValidBundle, IdentityFits, LeakageOf;
  }

  lemma BytesFrame(p: Platform, directory: string, before: Tree, after: Tree, b: Bundle, name: string)
    requires SameEvidence(p, directory, before, after, b.references)
    ensures BytesOf(p, directory, after, b, name) == BytesOf(p, directory, before, b, name)
  {
    hide FileAt;
    var r := Find(b.references, name);
  }

  /** The policy with its seeds in order gives the same expected report. */
  lemma ReportMatchesSorted(p: Platform, report: Option<Bytes>, receipts: Option<Bytes>, policy: Policy)
    requires ReportMatches(p, report, receipts, policy)
    ensures ReportMatches(p, report, receipts, policy.(seeds := Sort(policy.seeds, Reproducibility.AtMost)))
  {
    var sorted := policy.(seeds := Sort(policy.seeds, Reproducibility.AtMost));
    if receipts.Some? && p.receipts(receipts.value).Some? {
      Reproducibility.PolicySeedOrderIrrelevant(p.receipts(receipts.value).value, policy, sorted, policy.policyId,
                                                p.canonical);
    }
    hide Reproducibility.Evaluation;
  }

  lemma ReferencesFrame(p: Platform, directory: string, before: Tree, after: Tree, b: Bundle)
    requires SameEvidence(p, directory, before, after, b.references)
    requires forall r :: r in b.references ==> ReferenceOk(p, directory, before, b, r)
    ensures forall r :: r in b.references ==> ReferenceOk(p, directory, after, b, r)
  {
    hide FileAt, ContentOk;
    forall r | r in b.references ensures ReferenceOk(p, directory, after, b, r) {
      assert ReferenceOk(p, directory, before, b, r);
    }
  }

  /** The gate depends only on the referenced files, the serving files and the policy up to the
      order of its seeds. */
  lemma GateFrame(p: Platform, directory: string, before: Tree, after: Tree, b: Bundle, policy: Policy)
    requires SameEvidence(p, directory, before, after, b.references)
    requires forall exports :: ServingView(after, exports) == ServingView(before, exports)
    requires Gate(p, directory, before, b, policy)
    ensures Gate(p, directory, after, b, policy.(seeds := Sort(policy.seeds, Reproducibility.AtMost)))
  {
    ReferencesFrame(p, directory, before, after, b);
    BytesFrame(p, directory, before, after, b, "reproducibility");
    BytesFrame(p, directory, before, after, b, "run_receipts");
    ReportMatchesSorted(p, BytesOf(p, directory, before, b, "reproducibility"),
                        BytesOf(p, directory, before, b, "run_receipts"), policy);
    hide ReferenceOk, ReportMatches, BytesOf, ServingView, SameEvidence, Locate;
  }

  // ---- what the two late writes do ----

  /** The directory after the report and then the manifest have been written into it. */
  function WithReport(tree: Tree, report: AcceptanceReport.Report): Tree {
    tree[REPORT := File(PRETTY, AcceptanceReport.ToPayload(report))]
  }

  lemma LateWritesKeepServing(tree: Tree, report: Bytes, manifest: Bytes, exports: Rel)
    ensures ServingView(tree[REPORT := report][MANIFEST := manifest], exports) == ServingView(tree, exports)
  {
    NotServing();
    ServingViewUnchanged(tree, exports, REPORT, report);
    ServingViewUnchanged(tree[REPORT := report], exports, MANIFEST, manifest);
  }

  lemma NotServing()
    ensures Name(REPORT) !in SERVING_FILES && Name(MANIFEST) !in SERVING_FILES
  {}

  lemma EntryListed(p: Platform, directory: string, tree: Tree, releaseId: string, b: Bundle, policy: Policy,
                    r: Reference)
    requires BUNDLE in tree && REPORT in tree && r in b.references && r.name in MODEL_EVIDENCE
    requires ManifestFor(p, directory, tree, releaseId, b, policy).Some?
    ensures Entry(p, directory, r).Some?
    ensures Entry(p, directory, r).value in ManifestFor(p, directory, tree, releaseId, b, policy).value.artifacts
  {
    var entries := Entries(p, directory, b.references).value;
    var i :| 0 <= i < |b.references| && b.references[i] == r;
    var e := entries[i];
    hide Locate;
    NotDocuments(r.name);
    assert e in entries && e in Others(entries);
    var all := WithDocuments(p, tree, entries);
    assert e in all;
    SameMembers(all, Sort(all, ByName));
  }

  lemma BundleNames(b: Bundle, r: Reference)
    requires ValidBundle(b) && b.mode == ProductionModel && r in b.references
    ensures r.name in MODEL_EVIDENCE
  {
    var i :| 0 <= i < |b.references| && b.references[i] == r;
    assert Names(b.references)[i] in Elements(Names(b.references));
    hide ValidReference;
  }

  /** A manifest was written for the bundle and validated in the directory as it now is. */
  ghost predicate ManifestWritten(p: Platform, directory: string, tree: Tree, after: Tree, b: Bundle, policy: Policy) {
    && BUNDLE in tree && REPORT in tree
    && ManifestFor(p, directory, tree, directory, b, policy).Some?
    && MANIFEST in after
    && after[MANIFEST] == File(PRETTY, ManifestFor(p, directory, tree, directory, b, policy).value)
    && ManifestOk(p, after, directory)
  }

  lemma ListedOk(p: Platform, directory: string, tree: Tree, after: Tree, b: Bundle, policy: Policy, a: Reference)
    requires ManifestWritten(p, directory, tree, after, b, policy)
    requires a in ManifestFor(p, directory, tree, directory, b, policy).value.artifacts
    ensures ArtifactOk(p, after, a)
  {
    hide ManifestFor, HeaderOk, ArtifactOk;
  }

  lemma WrittenEntry(p: Platform, directory: string, tree: Tree, after: Tree, b: Bundle, policy: Policy, r: Reference)
    requires ManifestWritten(p, directory, tree, after, b, policy)
    requires r in b.references && r.name in MODEL_EVIDENCE
    ensures Entry(p, directory, r).Some? && ArtifactOk(p, after, Entry(p, directory, r).value)
  {
    hide ManifestFor, ManifestOk, Entry, ArtifactOk;
    EntryListed(p, directory, tree, directory, b, policy, r);
    ListedOk(p, directory, tree, after, b, policy, Entry(p, directory, r).value);
  }

  lemma EvidenceKept(p: Platform, directory: string, before: Tree, after: Tree, r: Reference)
    requires ValidPlatform(p) && ValidReference(r) && Bound(p, directory, before, r)
    requires Entry(p, directory, r).Some? && ArtifactOk(p, after, Entry(p, directory, r).value)
    requires NoCollision(p, before, after)
    ensures SameEvidence(p, directory, before, after, [r])
  {
    hide ValidPlatform, ArtifactOk, Listable, Entry, ValidReference, Locate, AbsolutePath;
    EntryOkIff(p, directory, before, after, r);
  }

  /** Every listed artifact of a validated manifest is in place, so the evidence is unchanged. */
  lemma EvidenceSurvives(p: Platform, directory: string, before: Tree, tree: Tree, after: Tree, b: Bundle,
                         policy: Policy)
    requires ValidPlatform(p) && ValidBundle(b) && b.mode == ProductionModel
    requires forall r :: r in b.references ==> Bound(p, directory, before, r)
    requires ManifestWritten(p, directory, tree, after, b, policy) && NoCollision(p, before, after)
    ensures SameEvidence(p, directory, before, after, b.references)
  {
    forall r | r in b.references
      ensures SameEvidence(p, directory, before, after, [r])
    {
      BundleNames(b, r);
      assert ValidReference(r) && Bound(p, directory, before, r);
      hide ManifestWritten, Bound, ValidBundle, ValidReference, ValidPlatform, NoCollision, SameEvidence, Entry,
        ArtifactOk;
      WrittenEntry(p, directory, tree, after, b, policy, r);
      EvidenceKept(p, directory, before, after, r);
    }
    SameEach(p, directory, before, after, b.references);
  }

  lemma SameEach(p: Platform, directory: string, before: Tree, after: Tree, references: seq<Reference>)
    requires forall r :: r in references ==> SameEvidence(p, directory, before, after, [r])
    ensures SameEvidence(p, directory, before, after, references)
  {
    hide FileAt;
    forall r | r in references
      ensures && FileAt(p, directory, before, r.path).Some?
              && FileAt(p, directory, after, r.path) == FileAt(p, directory, before, r.path)
              && after[FileAt(p, directory, after, r.path).value] == before[FileAt(p, directory, before, r.path).value]
    {
      assert SameEvidence(p, directory, before, after, [r]) && r in [r];
    }
  }

  // ---- the theorem ----

  /** Everything the fresh path checks between the rename and the pointer write: the loaded
      bundle, the gate, the checkpoint, the passed report and the validated manifest. */
  ghost predicate Checked(p: Platform, directory: string, before: Tree, b: Bundle, policy: Policy,
                          report: AcceptanceReport.Report, after: Tree)
  {
    var tree := WithReport(before, report);
    && policy.Valid() && b.mode == ProductionModel
    && Load(p, directory, before) == Some(b)
    && BundleUnder(p, b, policy)
    && Gate(p, directory, before, b, policy)
    && CheckpointAvailable(p, directory, before, b)
    && report.stage == ProductionModel && report.expected == AcceptanceReport.ModelAccepted
    && AcceptanceReport.Passed(report)
    && ManifestWritten(p, directory, tree, after, b, policy)
    && after == tree[MANIFEST := after[MANIFEST]]
  }

  lemma ReleaseNameIsClean(name: string)
    requires ReleaseName(name)
    ensures CleanSegment(name)
  {
    var parts := [RELEASES, name];
    assert parts[1] in parts;
  }

  lemma DocumentsDiffer()
    ensures BUNDLE != REPORT && BUNDLE != MANIFEST && REPORT != MANIFEST
  {
    assert |MANIFEST| == 1 && |BUNDLE| == 2 && |REPORT| == 2;
    assert BUNDLE[1] != REPORT[1] by { assert |BUNDLE[1]| == 28 && |REPORT[1]| == 22; }
  }

  lemma PolicyRebuilt(p: Platform, directory: string, tree: Tree, after: Tree, b: Bundle, policy: Policy)
    requires policy.Valid() && ManifestWritten(p, directory, tree, after, b, policy)
    ensures RecordedPolicy(after) == Some(policy.(seeds := Sort(policy.seeds, Reproducibility.AtMost)))
    ensures PolicySha(p, policy.(seeds := Sort(policy.seeds, Reproducibility.AtMost))) == PolicySha(p, policy)
  {
    PolicyRoundTrip(p, policy);
    hide ManifestOk, Entries, WithDocuments;
    Reproducibility.AtMostIsTotal();
    SortCanonical(policy.seeds, policy.seeds, Reproducibility.AtMost);
  }

  lemma CheckpointFrame(p: Platform, directory: string, before: Tree, after: Tree, b: Bundle)
    requires SameEvidence(p, directory, before, after, b.references) && before.Keys <= after.Keys
    requires CheckpointAvailable(p, directory, before, b)
    ensures CheckpointAvailable(p, directory, after, b)
  {
    var checkpoint := Find(b.references, "checkpoint").value;
    var rel := FileAt(p, directory, before, checkpoint.path).value;
    assert Sidecar(rel) in before.Keys;
  }

  lemma ReportInPlace(tree: Tree, report: AcceptanceReport.Report, after: Tree)
    requires report.stage == ProductionModel && report.expected == AcceptanceReport.ModelAccepted
    requires AcceptanceReport.Passed(report)
    requires MANIFEST in after && after == WithReport(tree, report)[MANIFEST := after[MANIFEST]]
    ensures ReportAccepted(after)
  {
    DocumentsDiffer();
  }

  lemma LateWrites(before: Tree, report: AcceptanceReport.Report, after: Tree)
    requires MANIFEST in after && after == WithReport(before, report)[MANIFEST := after[MANIFEST]]
    requires BUNDLE in before
    ensures BUNDLE in after && after[BUNDLE] == before[BUNDLE]
    ensures before.Keys <= after.Keys
    ensures forall exports :: ServingView(after, exports) == ServingView(before, exports)
  {
    DocumentsDiffer();
    forall exports ensures ServingView(after, exports) == ServingView(before, exports) {
      LateWritesKeepServing(before, File(PRETTY, AcceptanceReport.ToPayload(report)), after[MANIFEST], exports);
    }
  }

  lemma CheckedEvidence(p: Platform, directory: string, before: Tree, b: Bundle, policy: Policy,
                        report: AcceptanceReport.Report, after: Tree)
    requires ValidPlatform(p) && CleanSegment(directory)
    requires Checked(p, directory, before, b, policy, report, after) && NoCollision(p, before, after)
    ensures SameEvidence(p, directory, before, after, b.references)
  {
    LoadedIsBound(p, directory, before);
    hide Load, Gate, CheckpointAvailable, BundleUnder, ManifestWritten, ValidBundle, Bound, NoCollision, SameEvidence;
    EvidenceSurvives(p, directory, before, WithReport(before, report), after, b, policy);
  }

  lemma CheckedDeployable(p: Platform, directory: string, before: Tree, b: Bundle, policy: Policy,
                          report: AcceptanceReport.Report, after: Tree)
    requires ValidPlatform(p) && CleanSegment(directory)
    requires Checked(p, directory, before, b, policy, report, after) && NoCollision(p, before, after)
    ensures Deployable(p, directory, after, policy.(seeds := Sort(policy.seeds, Reproducibility.AtMost)))
  {
    CheckedEvidence(p, directory, before, b, policy, report, after);
    assert BUNDLE in before by { LoadedReferences(p, directory, before); }
    hide SameEvidence, ManifestWritten, Gate, ReportAccepted, CheckpointAvailable, AcceptanceReport.Passed;
    LateWrites(before, report, after);
    LoadFrame(p, directory, before, after);
    GateFrame(p, directory, before, after, b, policy);
    hide ServingView, Load;
    CheckpointFrame(p, directory, before, after, b);
    ReportInPlace(before, report, after);
    PolicyRebuilt(p, directory, WithReport(before, report), after, b, policy);
  }

  /** On the fresh path the check after the commit cannot fail: if every check before the pointer
      write passed, the pointer then written resolves to the new release. */
  lemma FreshCommitResolves(p: Platform, releases: map<string, Tree>, releaseId: string, before: Tree, b: Bundle,
                            policy: Policy, report: AcceptanceReport.Report)
    requires ValidPlatform(p) && ReleaseName(releaseId) && releaseId in releases
    requires Checked(p, releaseId, before, b, policy, report, releases[releaseId])
    requires NoCollision(p, before, releases[releaseId])
    ensures MANIFEST in releases[releaseId]
    ensures Resolve(p, releases, Some(PointerFor(p, releases[releaseId], releaseId))) == Some(releaseId)
  {
    var after := releases[releaseId];
    ReleaseNameIsClean(releaseId);
    CheckedDeployable(p, releaseId, before, b, policy, report, after);
    PolicyRebuilt(p, releaseId, WithReport(before, report), after, b, policy);
    assert ManifestOk(p, after, releaseId);
    hide Checked, ManifestWritten, Deployable, RecordedPolicy, ManifestOk, ReleaseName, Resolve, PointerFor;
    WrittenPointerResolvesIff(p, releases, releaseId);
  }

  // ---- what a retry finds after an interrupted cleanup ----

  /** Part of a complete release is left: the same bytes, possibly fewer files, and a manifest
      that still validates. */
  ghost predicate Leftover(p: Platform, directory: string, complete: Tree, tree: Tree, left: Tree, b: Bundle,
                           policy: Policy)
  {
    && Load(p, directory, complete) == Some(b) && b.mode == ProductionModel && policy.Valid()
    && Deployable(p, directory, complete, policy.(seeds := Sort(policy.seeds, Reproducibility.AtMost)))
    && ManifestWritten(p, directory, tree, left, b, policy)
    && left.Keys <= complete.Keys
    && (forall rel :: rel in left ==> left[rel] == complete[rel])
  }

  /** What a fresh promotion has checked is a complete release, of which everything is left. */
  lemma CheckedIsLeftover(p: Platform, directory: string, before: Tree, b: Bundle, policy: Policy,
                          report: AcceptanceReport.Report, after: Tree)
    requires ValidPlatform(p) && CleanSegment(directory)
    requires Checked(p, directory, before, b, policy, report, after) && NoCollision(p, before, after)
    ensures Leftover(p, directory, after, WithReport(before, report), after, b, policy)
  {
    CheckedDeployable(p, directory, before, b, policy, report, after);
    CheckedEvidence(p, directory, before, b, policy, report, after);
    assert BUNDLE in before by { LoadedReferences(p, directory, before); }
    hide SameEvidence, ManifestWritten, Gate, CheckpointAvailable, Deployable, Load, ValidPlatform, CleanSegment,
      BundleUnder, NoCollision, AcceptanceReport.Passed;
    LateWrites(before, report, after);
    LoadFrame(p, directory, before, after);
  }

  lemma DocumentsLeft(p: Platform, directory: string, tree: Tree, left: Tree, b: Bundle, policy: Policy)
    requires ManifestWritten(p, directory, tree, left, b, policy)
    ensures BUNDLE in left && REPORT in left
  {
    var m := ManifestFor(p, directory, tree, directory, b, policy).value;
    var all := WithDocuments(p, tree, Entries(p, directory, b.references).value);
    SameMembers(all, m.artifacts);
    var bundle, report := all[|all| - 2], all[|all| - 1];
    assert bundle in all && report in all;
    ListedOk(p, directory, tree, left, b, policy, bundle);
    ListedOk(p, directory, tree, left, b, policy, report);
    hide ManifestWritten, ManifestFor, LooksLikeSha256, ContainedRelative, WithDocuments;
    DocumentPath(BUNDLE);
    DocumentPath(REPORT);
  }

  lemma LeftoverEvidence(p: Platform, directory: string, complete: Tree, tree: Tree, left: Tree, b: Bundle,
                         policy: Policy)
    requires ValidPlatform(p) && CleanSegment(directory)
    requires Leftover(p, directory, complete, tree, left, b, policy)
    ensures SameEvidence(p, directory, complete, left, b.references)
    ensures BUNDLE in left && REPORT in left && left[BUNDLE] == complete[BUNDLE]
    ensures Load(p, directory, left) == Some(b)
  {
    LoadedIsBound(p, directory, complete);
    DocumentsLeft(p, directory, tree, left, b, policy);
    hide Load, Deployable, ManifestWritten, ValidBundle, Bound, SameEvidence, ValidPlatform, CleanSegment;
    EvidenceSurvives(p, directory, complete, tree, left, b, policy);
    LoadFrame(p, directory, complete, left);
  }

  /** The two things a validated manifest does not vouch for. */
  ghost predicate UnlistedPresent(p: Platform, directory: string, left: Tree, b: Bundle) {
    CheckpointAvailable(p, directory, left, b) && ServingOk(p, directory, left, b)
  }

  lemma GateOfLeftover(p: Platform, directory: string, complete: Tree, left: Tree, b: Bundle, policy: Policy)
    requires SameEvidence(p, directory, complete, left, b.references)
    requires Gate(p, directory, complete, b, policy)
    ensures Gate(p, directory, left, b, policy) <==> ServingOk(p, directory, left, b)
  {
    ReferencesFrame(p, directory, complete, left, b);
    BytesFrame(p, directory, complete, left, b, "reproducibility");
    BytesFrame(p, directory, complete, left, b, "run_receipts");
    hide ReferenceOk, ReportMatches, BytesOf, ServingOk, SameEvidence;
  }

  lemma LeftoverDeployableIff(p: Platform, directory: string, complete: Tree, tree: Tree, left: Tree, b: Bundle,
                              policy: Policy)
    requires ValidPlatform(p) && CleanSegment(directory)
    requires Leftover(p, directory, complete, tree, left, b, policy)
    ensures Deployable(p, directory, left, policy.(seeds := Sort(policy.seeds, Reproducibility.AtMost)))
      <==> UnlistedPresent(p, directory, left, b)
  {
    LeftoverEvidence(p, directory, complete, tree, left, b, policy);
    hide SameEvidence, ManifestWritten, Gate, CheckpointAvailable, ServingOk, Load, BundleUnder, ValidPlatform,
      CleanSegment;
    GateOfLeftover(p, directory, complete, left, b, policy.(seeds := Sort(policy.seeds, Reproducibility.AtMost)));
  }

  /** A retry that finds the remains of a complete release writes its pointer as soon as the
      manifest validates. That pointer resolves exactly when the checkpoint's checksum sidecar
      and the serving files, which no manifest lists, survived as well. */
  lemma LeftoverResolvesIff(p: Platform, releases: map<string, Tree>, releaseId: string, complete: Tree, tree: Tree,
                            b: Bundle, policy: Policy)
    requires ValidPlatform(p) && ReleaseName(releaseId) && releaseId in releases
    requires Leftover(p, releaseId, complete, tree, releases[releaseId], b, policy)
    ensures MANIFEST in releases[releaseId]
    ensures Resolve(p, releases, Some(PointerFor(p, releases[releaseId], releaseId)))
      == if UnlistedPresent(p, releaseId, releases[releaseId], b) then Some(releaseId) else None
  {
    var left := releases[releaseId];
    ReleaseNameIsClean(releaseId);
    LeftoverDeployableIff(p, releaseId, complete, tree, left, b, policy);
    PolicyRebuilt(p, releaseId, tree, left, b, policy);
    assert ManifestOk(p, left, releaseId);
    hide Leftover, ManifestWritten, Deployable, UnlistedPresent, RecordedPolicy, ManifestOk, ReleaseName, Resolve,
      PointerFor;
    WrittenPointerResolvesIff(p, releases, releaseId);
  }
}
