/** A small release for the inputs on which the release code falls short of what it is for: evidence
    that the publisher itself replaces (release/release_staging.py:37-50,
    release/model_release_publisher.py:417-418), and a failed reproducibility report that the gate
    lets through (release/release_evidence_validation.py:457-489). Each evidence name has its own
    file; what the readers make of the files is a hypothesis. */
module SampleRelease {
  import opened Text
  import opened Options
  import opened Sorting
  import opened ReleaseStore
  import opened EvidenceBundle
  import opened ReleaseManifest
  import opened ReleaseValidation
  import opened ReleaseStaging
  import Reproducibility

  const EVIDENCE_NAMES: seq<string> :=
    ["checkpoint", "leakage", "dataset_card", "model_card", "reproducibility", "run_receipts", "training_metrics"]

  /** The evidence files by name, the name of the metrics file, the checkpoint's checksum sidecar, the
      serving files beside the model card, and what the leakage report and the receipts say. */
  datatype Sample = Sample(
    files: map<string, Bytes>,
    metricsName: string,
    sidecar: Bytes,
    serving: map<string, Bytes>,
    leakage: Leakage,
    receipts: seq<Reproducibility.Receipt>)

  predicate Whole(s: Sample) {
    && s.files.Keys == MODEL_EVIDENCE && s.serving.Keys <= SERVING_FILES
    && Plain(s.metricsName) && s.metricsName != "release_evidence_bundle.json"
  }

  function FileOf(s: Sample, name: string): Bytes { if name in s.files then s.files[name] else s.sidecar }

  /** Each reader makes of its file what the file is meant to say; the reproducibility report is the
      one computed from the receipts. */
  ghost predicate Reads(p: Platform, s: Sample, policy: Policy) {
    && s.leakage.clean && p.leakage(FileOf(s, "leakage")) == Some(s.leakage)
    && s.receipts != [] && Reproducibility.AllValid(s.receipts)
    && p.receipts(FileOf(s, "run_receipts")) == Some(s.receipts)
    && p.reproducibility(FileOf(s, "reproducibility"))
       == Some(Reproducibility.Evaluation(s.receipts, policy, policy.policyId, p.canonical))
    && p.cleanArtifact("dataset_card", "file.json", FileOf(s, "dataset_card"))
    && p.cleanArtifact("model_card", "file.json", FileOf(s, "model_card"))
    && p.cleanArtifact("training_metrics", s.metricsName, FileOf(s, "training_metrics"))
    && p.deployable(s.serving)
  }

  /** Where staging puts evidence that lies outside the candidate. */
  function PlaceOf(s: Sample, name: string): Rel {
    if name == "checkpoint" then CHECKPOINT
    else if name == "training_metrics" then ["evaluation", s.metricsName]
    else ["evidence", name, "file.json"]
  }

  function SourceOf(p: Platform, s: Sample, name: string): Source {
    Source(FileOf(s, name), if name == "training_metrics" then s.metricsName else "file.json", None,
           Some((s.sidecar, p.sha(FileOf(s, name)))))
  }

  const EXPORTS: Rel := ["evidence", "model_card"]

  function Places(s: Sample): set<Rel> {
    {BUNDLE, SIDECAR} + (set name | name in MODEL_EVIDENCE :: PlaceOf(s, name))
    + (set name | name in s.serving :: EXPORTS + [name])
  }

  function BytesAt(s: Sample, bundle: Bytes, rel: Rel): Bytes {
    if rel == BUNDLE then bundle
    else if rel == SIDECAR then s.sidecar
    else if |rel| == 1 then FileOf(s, "checkpoint")
    else if |rel| == 2 then FileOf(s, "training_metrics")
    else if |rel| == 3 && rel[2] in s.serving then s.serving[rel[2]]
    else if |rel| == 3 then FileOf(s, rel[1])
    else s.sidecar
  }

  function SampleTree(s: Sample, bundle: Bytes): Tree { map rel | rel in Places(s) :: BytesAt(s, bundle, rel) }

  function ReferenceTo(p: Platform, directory: string, s: Sample, name: string): Reference {
    Reference(name, AbsolutePath(Base(p, directory) + PlaceOf(s, name)), p.sha(FileOf(s, name)))
  }

  /** The production bundle over these files, bound to the policy. */
  function SampleBundle(p: Platform, directory: string, s: Sample, policy: Policy): Bundle {
    Bundle(ProductionModel, Map(EVIDENCE_NAMES, (name: string) => ReferenceTo(p, directory, s, name)),
           Some(s.leakage), Some(policy.policyId), Some(PolicySha(p, policy)))
  }

  /** The directory as it is renamed: the files, and the bundle as it is written. */
  function Release(p: Platform, directory: string, s: Sample, policy: Policy): Tree {
    SampleTree(s, File(PRETTY, Payload(SampleBundle(p, directory, s, policy))))
  }

  // ---- names and places ----

  /** A name of letters and underscores, starting with two letters. */
  predicate PlainName(s: string) {
    && |s| > 2 && 'a' <= s[0] <= 'z' && 'a' <= s[1] <= 'z'
    && forall i :: 0 <= i < |s| ==> 'a' <= s[i] <= 'z' || s[i] == '_'
  }

  lemma EvidenceNamed(name: string)
    requires name in EVIDENCE_NAMES
    ensures PlainName(name)
  {}

  lemma PlainNameIsSafe(name: string)
    requires PlainName(name)
    ensures !Blank(name) && Plain(name) && SafeSegment(name)
  {
    assert name[0] in name;
  }

  lemma EvidenceNames()
    ensures Elements(EVIDENCE_NAMES) == MODEL_EVIDENCE && |MODEL_EVIDENCE| == |EVIDENCE_NAMES|
    ensures forall name :: name in EVIDENCE_NAMES <==> name in MODEL_EVIDENCE
  {
    DistinctCardinality(EVIDENCE_NAMES);
    assert forall name :: name in EVIDENCE_NAMES <==> name in Elements(EVIDENCE_NAMES);
  }

  lemma PlaceIsStaged(p: Platform, s: Sample, name: string)
    requires name in EVIDENCE_NAMES
    ensures TargetOf(name, SourceOf(p, s, name)) == Some(PlaceOf(s, name))
  {
    hide EVIDENCE_NAMES;
    EvidenceNamed(name);
    PlainNameIsSafe(name);
  }

  lemma PlainIsListable(rel: Rel)
    requires rel != [] && (forall s :: s in rel ==> Plain(s)) && rel[0] != "" && 'a' <= rel[0][0] <= 'z'
    ensures CleanPath(rel) && Listable(rel)
  {
    hide Plain, CleanPath, Nameable;
    PlainSegments(rel);
    assert |rel| > 1 ==> JoinSlash(rel) == rel[0] + "/" + JoinSlash(rel[1..]);
    assert JoinSlash(rel)[0] == rel[0][0] && JoinSlash(rel)[0] in JoinSlash(rel);
  }

  lemma PiecesArePlain()
    ensures Plain("checkpoint.pt") && Plain("evaluation") && Plain("evidence") && Plain("file.json")
    ensures |MANIFEST| == 1 && |MANIFEST[0]| == 21 && |CHECKPOINT| == 1 && |CHECKPOINT[0]| == 13
    ensures |SIDECAR| == 1 && |SIDECAR[0]| == 20 && |BUNDLE| == 2 && |REPORT| == 2
  {}

  lemma PlaceIsListable(s: Sample, name: string)
    requires Whole(s) && name in EVIDENCE_NAMES
    ensures var rel := PlaceOf(s, name); CleanPath(rel) && rel != [] && rel != MANIFEST && Listable(rel)
  {
    hide EVIDENCE_NAMES, MODEL_EVIDENCE, SERVING_FILES, CleanPath, Listable, Plain, SafeSegment, Blank;
    EvidenceNamed(name);
    PlainNameIsSafe(name);
    PiecesArePlain();
    PlainIsListable(PlaceOf(s, name));
  }

  lemma NotServed()
    ensures "file.json" !in SERVING_FILES
  {}

  lemma PlaceHolds(s: Sample, bundle: Bytes, name: string)
    requires Whole(s) && name in MODEL_EVIDENCE
    ensures PlaceOf(s, name) in SampleTree(s, bundle)
    ensures SampleTree(s, bundle)[PlaceOf(s, name)] == FileOf(s, name)
    ensures BUNDLE in SampleTree(s, bundle) && SampleTree(s, bundle)[BUNDLE] == bundle
  {
    hide MODEL_EVIDENCE, SERVING_FILES, Plain, FileOf;
    PiecesArePlain();
    NotServed();
    assert BUNDLE[1] == "release_evidence_bundle.json";
  }

  lemma ServedPlace(s: Sample, name: string)
    requires Whole(s) && name in SERVING_FILES
    ensures EXPORTS + [name] in Places(s) <==> name in s.serving
  {
    hide MODEL_EVIDENCE, SERVING_FILES, Plain;
    NotServed();
    PiecesArePlain();
    var rel := EXPORTS + [name];
    forall other | other in s.serving && EXPORTS + [other] == rel ensures other == name {
      assert (EXPORTS + [other])[2] == other && rel[2] == name;
    }
    forall other | other in MODEL_EVIDENCE ensures PlaceOf(s, other) != rel {
      if |PlaceOf(s, other)| == 3 { assert PlaceOf(s, other)[2] == "file.json"; }
    }
  }

  lemma ServingHolds(s: Sample, bundle: Bytes)
    requires Whole(s)
    ensures ServingView(SampleTree(s, bundle), EXPORTS) == s.serving
  {
    hide MODEL_EVIDENCE, SERVING_FILES, Plain, FileOf, Places;
    PiecesArePlain();
    forall name | name in SERVING_FILES
      ensures EXPORTS + [name] in SampleTree(s, bundle) <==> name in s.serving
      ensures name in s.serving ==> SampleTree(s, bundle)[EXPORTS + [name]] == s.serving[name]
    {
      ServedPlace(s, name);
      assert |EXPORTS + [name]| == 3 && (EXPORTS + [name])[2] == name;
    }
  }

  // ---- the bundle ----

  /** A reference of the bundle: well formed, and bound to its file. */
  ghost predicate Addresses(p: Platform, directory: string, s: Sample, tree: Tree, r: Reference) {
    && r.name in MODEL_EVIDENCE && r.sha == p.sha(FileOf(s, r.name))
    && PlaceOf(s, r.name) in tree && tree[PlaceOf(s, r.name)] == FileOf(s, r.name)
    && FileAt(p, directory, tree, r.path) == Some(PlaceOf(s, r.name)) && RelOf(p, directory, r) == PlaceOf(s, r.name)
    && ValidReference(r) && Bound(p, directory, tree, r)
  }

  lemma ReferenceAddresses(p: Platform, directory: string, s: Sample, bundle: Bytes, name: string)
    requires ValidPlatform(p) && CleanSegment(directory) && Whole(s) && name in EVIDENCE_NAMES
    ensures Addresses(p, directory, s, SampleTree(s, bundle), ReferenceTo(p, directory, s, name))
  {
    EvidenceNames();
    EvidenceNamed(name);
    PlainNameIsSafe(name);
    PlaceIsListable(s, name);
    PlaceHolds(s, bundle, name);
    hide EVIDENCE_NAMES, MODEL_EVIDENCE, Locate, AbsolutePath, Listable, ValidReference, Bound, PlaceOf, SampleTree,
      ValidPlatform, CleanPath, CleanSegment, Whole, FileOf, Plain;
    AddressedIsBound(p, directory, SampleTree(s, bundle), name, PlaceOf(s, name));
  }

  lemma SampleAddresses(p: Platform, directory: string, s: Sample, policy: Policy, bundle: Bytes)
    requires ValidPlatform(p) && CleanSegment(directory) && Whole(s)
    ensures forall r :: r in SampleBundle(p, directory, s, policy).references ==>
      Addresses(p, directory, s, SampleTree(s, bundle), r)
  {
    hide Addresses, ReferenceTo, ValidPlatform, CleanSegment, Whole, EVIDENCE_NAMES;
    forall r | r in SampleBundle(p, directory, s, policy).references
      ensures Addresses(p, directory, s, SampleTree(s, bundle), r)
    {
      var references := SampleBundle(p, directory, s, policy).references;
      var i :| 0 <= i < |references| && references[i] == r;
      ReferenceAddresses(p, directory, s, bundle, EVIDENCE_NAMES[i]);
    }
  }

  lemma SampleNames(p: Platform, directory: string, s: Sample, policy: Policy)
    ensures Names(SampleBundle(p, directory, s, policy).references) == EVIDENCE_NAMES
  {
    hide EVIDENCE_NAMES, AbsolutePath, PlaceOf;
  }

  lemma SampleFields(p: Platform, directory: string, s: Sample, policy: Policy)
    ensures var b := SampleBundle(p, directory, s, policy);
      && b.mode == ProductionModel && b.leakage == Some(s.leakage)
      && b.requirementsId == Some(policy.policyId) && b.requirementsSha == Some(PolicySha(p, policy))
  {
    hide PolicySha, Map;
  }

  lemma NamedBundleIsValid(b: Bundle)
    requires b.mode == ProductionModel && b.leakage.Some? && b.leakage.value.clean
    requires b.requirementsId.Some? && !Blank(b.requirementsId.value)
    requires b.requirementsSha.Some? && !Blank(b.requirementsSha.value) && LooksLikeSha256(b.requirementsSha.value)
    requires Names(b.references) == EVIDENCE_NAMES && forall r :: r in b.references ==> ValidReference(r)
    ensures ValidBundle(b)
  {
    hide ValidReference, Elements, Names, LooksLikeSha256, Blank;
    EvidenceNames();
  }

  lemma SampleReferencesValid(p: Platform, directory: string, s: Sample, policy: Policy, bundle: Bytes)
    requires ValidPlatform(p) && CleanSegment(directory) && Whole(s)
    ensures forall r :: r in SampleBundle(p, directory, s, policy).references ==>
      ValidReference(r) && Bound(p, directory, SampleTree(s, bundle), r)
  {
    SampleAddresses(p, directory, s, policy, bundle);
    hide ValidReference, Bound, SampleBundle, SampleTree, FileAt, RelOf, PlaceOf, FileOf, MODEL_EVIDENCE;
  }

  lemma SampleIsValid(p: Platform, directory: string, s: Sample, policy: Policy, bundle: Bytes)
    requires ValidPlatform(p) && CleanSegment(directory) && policy.Valid() && Whole(s) && s.leakage.clean
    ensures var b := SampleBundle(p, directory, s, policy);
      && ValidBundle(b) && b.mode == ProductionModel && BundleUnder(p, b, policy)
      && forall r :: r in b.references ==> Bound(p, directory, SampleTree(s, bundle), r)
  {
    hide ValidReference, Bound, Names, EVIDENCE_NAMES, PolicySha, LooksLikeSha256, Blank, ValidPlatform, Whole,
      SampleTree, SampleBundle, ValidBundle, HexDigest;
    SampleReferencesValid(p, directory, s, policy, bundle);
    SampleNames(p, directory, s, policy);
    SampleFields(p, directory, s, policy);
    PolicyShaIsDigest(p, policy);
    DigestIsSha256(PolicySha(p, policy));
    DigestIsNotBlank(PolicySha(p, policy));
    NamedBundleIsValid(SampleBundle(p, directory, s, policy));
  }

  lemma DigestIsNotBlank(text: string)
    requires HexDigest(text)
    ensures !Blank(text)
  {
    assert text[0] in text;
  }

  // ---- the gate ----

  lemma SampleReportIsValid(p: Platform, s: Sample, policy: Policy)
    requires ValidPlatform(p) && policy.Valid() && Distinct(policy.seeds) && Reads(p, s, policy)
    ensures Reproducibility.ValidReport(
      Reproducibility.Evaluation(s.receipts, policy, policy.policyId, p.canonical), p.canonical)
  {
    hide Reproducibility.ValidReport, Reproducibility.Evaluation, Reproducibility.AllValid;
    Reproducibility.DistinctListed(policy, policy.policyId);
    Reproducibility.ReportLoadsIff(s.receipts, policy, policy.policyId, p.canonical);
  }

  lemma EvidenceCases(name: string)
    requires name in MODEL_EVIDENCE
    ensures || name == "checkpoint" || name == "leakage" || name == "dataset_card" || name == "model_card"
            || name == "reproducibility" || name == "run_receipts" || name == "training_metrics"
  {}

  lemma PlaceName(s: Sample, name: string)
    ensures PlaceOf(s, name) != []
    ensures name != "checkpoint" ==>
      Name(PlaceOf(s, name)) == if name == "training_metrics" then s.metricsName else "file.json"
  {}

  lemma CardContents(p: Platform, s: Sample, policy: Policy, b: Bundle, name: string)
    requires Reads(p, s, policy)
    requires name == "dataset_card" || name == "model_card" || name == "training_metrics"
    ensures PlaceOf(s, name) != [] && ContentOk(p, b, name, Name(PlaceOf(s, name)), FileOf(s, name))
  {
    hide Reproducibility.ValidReport, Reproducibility.Evaluation, Reproducibility.AllValid, FileOf, PlaceOf, Name;
    PlaceName(s, name);
  }

  lemma ReportContents(p: Platform, s: Sample, policy: Policy, b: Bundle, name: string, fileName: string)
    requires ValidPlatform(p) && policy.Valid() && Distinct(policy.seeds) && Reads(p, s, policy)
    requires b.leakage == Some(s.leakage)
    requires name == "checkpoint" || name == "leakage" || name == "reproducibility" || name == "run_receipts"
    ensures ContentOk(p, b, name, fileName, FileOf(s, name))
  {
    SampleReportIsValid(p, s, policy);
    hide Reproducibility.ValidReport, Reproducibility.Evaluation, Reproducibility.AllValid, FileOf, ValidPlatform,
      Distinct;
  }

  lemma SampleContents(p: Platform, s: Sample, policy: Policy, b: Bundle, name: string)
    requires ValidPlatform(p) && policy.Valid() && Distinct(policy.seeds) && Reads(p, s, policy)
    requires b.leakage == Some(s.leakage) && name in MODEL_EVIDENCE
    ensures PlaceOf(s, name) != [] && ContentOk(p, b, name, Name(PlaceOf(s, name)), FileOf(s, name))
  {
    hide Reads, ContentOk, FileOf, ValidPlatform, Distinct, PlaceOf, Name, MODEL_EVIDENCE;
    EvidenceCases(name);
    PlaceName(s, name);
    if name == "dataset_card" || name == "model_card" || name == "training_metrics" {
      CardContents(p, s, policy, b, name);
    } else {
      ReportContents(p, s, policy, b, name, Name(PlaceOf(s, name)));
    }
  }

  lemma SampleReferencesOk(p: Platform, directory: string, s: Sample, policy: Policy, bundle: Bytes)
    requires ValidPlatform(p) && CleanSegment(directory) && Whole(s)
    requires policy.Valid() && Distinct(policy.seeds) && Reads(p, s, policy)
    ensures var b := SampleBundle(p, directory, s, policy);
      forall r :: r in b.references ==> ReferenceOk(p, directory, SampleTree(s, bundle), b, r)
  {
    hide ContentOk, FileAt, SampleTree, PlaceOf, Map, ValidPlatform, CleanSegment, Whole, Reads, Distinct,
      ValidReference, Bound, MODEL_EVIDENCE, EVIDENCE_NAMES, FileOf, RelOf;
    var b := SampleBundle(p, directory, s, policy);
    SampleAddresses(p, directory, s, policy, bundle);
    forall r | r in b.references ensures ReferenceOk(p, directory, SampleTree(s, bundle), b, r) {
      assert Addresses(p, directory, s, SampleTree(s, bundle), r);
      SampleContents(p, s, policy, b, r.name);
    }
  }

  lemma SampleBytes(p: Platform, directory: string, s: Sample, policy: Policy, bundle: Bytes, name: string)
    requires ValidPlatform(p) && CleanSegment(directory) && Whole(s) && name in MODEL_EVIDENCE
    ensures var b := SampleBundle(p, directory, s, policy);
      && BytesOf(p, directory, SampleTree(s, bundle), b, name) == Some(FileOf(s, name))
      && Find(b.references, name).Some?
      && FileAt(p, directory, SampleTree(s, bundle), Find(b.references, name).value.path) == Some(PlaceOf(s, name))
  {
    EvidenceNames();
    hide FileAt, SampleTree, PlaceOf, Map, ValidPlatform, CleanSegment, Whole, ValidReference, Bound, MODEL_EVIDENCE,
      EVIDENCE_NAMES, FileOf, RelOf, SampleBundle;
    var b := SampleBundle(p, directory, s, policy);
    SampleAddresses(p, directory, s, policy, bundle);
    SampleNames(p, directory, s, policy);
    NamedReference(b.references, name);
    assert Addresses(p, directory, s, SampleTree(s, bundle), Find(b.references, name).value);
  }

  lemma ServesFrom(p: Platform, directory: string, s: Sample, tree: Tree, b: Bundle)
    requires b.mode == ProductionModel && p.deployable(s.serving) && ServingView(tree, EXPORTS) == s.serving
    requires Find(b.references, "model_card").Some?
    requires FileAt(p, directory, tree, Find(b.references, "model_card").value.path) == Some(EXPORTS + ["file.json"])
    ensures ServingOk(p, directory, tree, b)
  {
    hide ServingView, Locate;
    assert Parent(EXPORTS + ["file.json"]) == EXPORTS;
  }

  lemma SampleServes(p: Platform, directory: string, s: Sample, policy: Policy, bundle: Bytes)
    requires ValidPlatform(p) && CleanSegment(directory) && Whole(s) && Reads(p, s, policy)
    ensures ServingOk(p, directory, SampleTree(s, bundle), SampleBundle(p, directory, s, policy))
  {
    hide SampleTree, SampleBundle, ValidPlatform, CleanSegment, Whole, ServingView, FileAt, ServingOk, FileOf, PlaceOf,
      Reproducibility.Evaluation, Reproducibility.AllValid, MODEL_EVIDENCE;
    CardIsEvidence(s);
    SampleFields(p, directory, s, policy);
    SampleBytes(p, directory, s, policy, bundle, "model_card");
    ServingHolds(s, bundle);
    ServesFrom(p, directory, s, SampleTree(s, bundle), SampleBundle(p, directory, s, policy));
  }

  lemma CardIsEvidence(s: Sample)
    ensures "model_card" in MODEL_EVIDENCE && PlaceOf(s, "model_card") == EXPORTS + ["file.json"]
  {}

  lemma SampleMatches(p: Platform, s: Sample, policy: Policy)
    requires Reads(p, s, policy)
    ensures ReportMatches(p, Some(FileOf(s, "reproducibility")), Some(FileOf(s, "run_receipts")), policy)
  {
    hide Reproducibility.Evaluation, Reproducibility.AllValid, FileOf;
  }

  lemma SampleGate(p: Platform, directory: string, s: Sample, policy: Policy, bundle: Bytes)
    requires ValidPlatform(p) && CleanSegment(directory) && Whole(s)
    requires policy.Valid() && Distinct(policy.seeds) && Reads(p, s, policy)
    ensures Gate(p, directory, SampleTree(s, bundle), SampleBundle(p, directory, s, policy), policy)
  {
    hide ReferenceOk, ServingOk, SampleTree, SampleBundle, ValidPlatform, CleanSegment, Whole, Reads, Distinct,
      BytesOf, FileOf, ReportMatches, FileAt, PlaceOf, MODEL_EVIDENCE;
    ReportsAreEvidence();
    SampleReferencesOk(p, directory, s, policy, bundle);
    SampleServes(p, directory, s, policy, bundle);
    SampleBytes(p, directory, s, policy, bundle, "reproducibility");
    SampleBytes(p, directory, s, policy, bundle, "run_receipts");
    SampleMatches(p, s, policy);
  }

  lemma ReportsAreEvidence()
    ensures "reproducibility" in MODEL_EVIDENCE && "run_receipts" in MODEL_EVIDENCE && "checkpoint" in MODEL_EVIDENCE
  {}

  /** The sample is loaded from its own bundle file, is bound to the policy and passes the gate. */
  lemma SampleIsGated(p: Platform, directory: string, s: Sample, policy: Policy)
    requires ValidPlatform(p) && CleanSegment(directory) && Whole(s)
    requires policy.Valid() && Distinct(policy.seeds) && Reads(p, s, policy)
    ensures var tree, b := Release(p, directory, s, policy), SampleBundle(p, directory, s, policy);
      && Load(p, directory, tree) == Some(b) && BundleUnder(p, b, policy) && Gate(p, directory, tree, b, policy)
      && Recordable(p, directory, tree, b, policy)
  {
    var b := SampleBundle(p, directory, s, policy);
    var bundle := File(PRETTY, Payload(b));
    ReadsLeakage(p, s, policy);
    hide SampleTree, SampleBundle, ValidPlatform, CleanSegment, Whole, Reads, Distinct, ValidBundle, Bound, Payload,
      LeakageOf, Gate, FileOf, PlaceOf, MODEL_EVIDENCE, Load, PolicySha;
    ReportsAreEvidence();
    SampleFields(p, directory, s, policy);
    SampleIsValid(p, directory, s, policy, bundle);
    SampleGate(p, directory, s, policy, bundle);
    PlaceHolds(s, bundle, "checkpoint");
    LeakageIsGated(p, directory, SampleTree(s, bundle), b, policy);
    BundleRoundTrip(p, directory, SampleTree(s, bundle), b);
  }

  lemma ReadsLeakage(p: Platform, s: Sample, policy: Policy)
    requires Reads(p, s, policy)
    ensures s.leakage.clean
  {}

  // ---- evidence that the report replaces ----

  lemma SamplePlaces(p: Platform, directory: string, s: Sample, policy: Policy)
    requires ValidPlatform(p) && CleanSegment(directory) && Whole(s)
    ensures forall r :: r in SampleBundle(p, directory, s, policy).references ==>
      && TargetOf(r.name, SourceOf(p, s, r.name)) == Some(RelOf(p, directory, r))
      && Listable(RelOf(p, directory, r)) && RelOf(p, directory, r) != MANIFEST
  {
    EvidenceNames();
    hide FileAt, SampleTree, PlaceOf, ValidPlatform, CleanSegment, Whole, ValidReference, Bound, MODEL_EVIDENCE,
      EVIDENCE_NAMES, FileOf, RelOf, SampleBundle, TargetOf, SourceOf, Listable;
    SampleAddresses(p, directory, s, policy, s.sidecar);
    forall r | r in SampleBundle(p, directory, s, policy).references
      ensures && TargetOf(r.name, SourceOf(p, s, r.name)) == Some(RelOf(p, directory, r))
              && Listable(RelOf(p, directory, r)) && RelOf(p, directory, r) != MANIFEST
    {
      assert Addresses(p, directory, s, SampleTree(s, s.sidecar), r);
      PlaceIsStaged(p, s, r.name);
      PlaceIsListable(s, r.name);
    }
  }

  lemma MetricsAtReport(p: Platform, directory: string, s: Sample, policy: Policy)
    requires ValidPlatform(p) && CleanSegment(directory) && Whole(s) && s.metricsName == "acceptance_report.json"
    ensures exists r :: r in SampleBundle(p, directory, s, policy).references
                        && RelOf(p, directory, r) == REPORT && r.sha == p.sha(FileOf(s, "training_metrics"))
  {
    MetricsAreEvidence(s);
    hide FileAt, SampleTree, PlaceOf, ValidPlatform, CleanSegment, Whole, ValidReference, Bound, MODEL_EVIDENCE,
      FileOf, RelOf, SampleBundle;
    SampleAddresses(p, directory, s, policy, s.sidecar);
    SampleBytes(p, directory, s, policy, s.sidecar, "training_metrics");
    var r := Find(SampleBundle(p, directory, s, policy).references, "training_metrics").value;
    assert Addresses(p, directory, s, SampleTree(s, s.sidecar), r);
  }

  lemma MetricsAreEvidence(s: Sample)
    ensures "training_metrics" in MODEL_EVIDENCE && PlaceOf(s, "training_metrics") == ["evaluation", s.metricsName]
  {}

  /** Training metrics whose own file is called like the acceptance report are staged where that
      report is then written. The release loads, is bound to the policy and passes the gate, every
      path is listable and none is the manifest's, and still the written manifest does not
      validate. */
  lemma ReportReplacesEvidence(p: Platform, directory: string, s: Sample, policy: Policy, report: Bytes,
                               releaseId: string)
    requires ValidPlatform(p) && CleanSegment(directory) && Whole(s)
    requires policy.Valid() && Distinct(policy.seeds) && Reads(p, s, policy)
    requires s.metricsName == "acceptance_report.json" && p.sha(FileOf(s, "training_metrics")) != p.sha(report)
    ensures var before, b := Release(p, directory, s, policy), SampleBundle(p, directory, s, policy);
      && Load(p, directory, before) == Some(b) && BundleUnder(p, b, policy) && Gate(p, directory, before, b, policy)
      && (forall r :: r in b.references ==>
            && TargetOf(r.name, SourceOf(p, s, r.name)) == Some(RelOf(p, directory, r))
            && Listable(RelOf(p, directory, r)) && RelOf(p, directory, r) != MANIFEST)
      && BUNDLE in before
      && var manifest := WrittenManifest(p, directory, before, report, releaseId, b, policy);
         manifest.Some? && !ManifestOk(p, before[REPORT := report][MANIFEST := manifest.value], releaseId)
  {
    hide Load, BundleUnder, Gate, TargetOf, SourceOf, Listable, RelOf, ManifestOk, ValidPlatform, CleanSegment, Whole,
      Reads, Distinct, Release, SampleBundle, FileOf, WrittenManifest, ValidBundle, Bound;
    var before, b := Release(p, directory, s, policy), SampleBundle(p, directory, s, policy);
    SampleIsGated(p, directory, s, policy);
    SamplePlaces(p, directory, s, policy);
    MetricsAtReport(p, directory, s, policy);
    WrittenManifestKept(p, directory, before, report, releaseId, b, policy);
    PiecesArePlain();
  }

  // ---- a failed report behind the gate ----

  /** Whenever the receipts are not a reproducible campaign under the policy, the release still
      loads, is bound to the policy and passes the gate, with a reproducibility report that says
      that the campaign failed: the gate compares the report with the receipts and never asks
      whether it passed. */
  lemma FailedReportPassesGate(p: Platform, directory: string, s: Sample, policy: Policy)
    requires ValidPlatform(p) && CleanSegment(directory) && Whole(s)
    requires policy.Valid() && Distinct(policy.seeds) && Reads(p, s, policy)
    requires !Reproducibility.Reproducible(s.receipts, policy)
    ensures var tree, b := Release(p, directory, s, policy), SampleBundle(p, directory, s, policy);
      && Load(p, directory, tree) == Some(b) && BundleUnder(p, b, policy) && Gate(p, directory, tree, b, policy)
      && var report := BytesOf(p, directory, tree, b, "reproducibility");
         report.Some? && p.reproducibility(report.value).Some? && !p.reproducibility(report.value).value.passed
  {
    hide Load, BundleUnder, Gate, ValidPlatform, CleanSegment, Whole, Distinct, Release, SampleBundle, BytesOf, FileOf,
      Reproducibility.Evaluation, Reproducibility.Reproducible, Reproducibility.AllValid, Recordable;
    SampleIsGated(p, directory, s, policy);
    FailedBytes(p, directory, s, policy);
    Reproducibility.PassedIffReproducible(s.receipts, policy, policy.policyId, p.canonical);
  }

  lemma FailedBytes(p: Platform, directory: string, s: Sample, policy: Policy)
    requires ValidPlatform(p) && CleanSegment(directory) && Whole(s)
    ensures BytesOf(p, directory, Release(p, directory, s, policy), SampleBundle(p, directory, s, policy),
                    "reproducibility") == Some(FileOf(s, "reproducibility"))
  {
    hide BytesOf, SampleBundle, SampleTree, FileOf, Payload;
    SampleBytes(p, directory, s, policy, File(PRETTY, Payload(SampleBundle(p, directory, s, policy))),
                "reproducibility");
  }

  // ---- such a sample ----

  function Digest(): string { seq(64, (i: nat) => 'a') }

  function Seeded(): map<string, bool> { map field | field in Reproducibility.DETERMINISM_FIELDS :: true }

  function Run(): Reproducibility.Receipt {
    Reproducibility.Receipt(
      "3.0", "run", 0, Reproducibility.Identity(Digest(), Digest(), Digest(), Digest(), Digest(), "container"),
      Digest(), map[], Seeded(), map["loss" := 0.0], None)
  }

  /** A run, twice under the same id. */
  function Runs(): seq<Reproducibility.Receipt> { [Run(), Run()] }

  const LEAKAGE_FILE: Bytes := Raw([1])
  const REPORT_FILE: Bytes := Raw([2])
  const RECEIPTS_FILE: Bytes := Raw([3])

  /** Seven files of evidence, the receipts of which repeat a run. */
  function RepeatedRun(metricsName: string): Sample {
    Sample(map["checkpoint" := Raw([0]), "leakage" := LEAKAGE_FILE, "reproducibility" := REPORT_FILE,
               "run_receipts" := RECEIPTS_FILE, "dataset_card" := Raw([4]), "model_card" := Raw([5]),
               "training_metrics" := Raw([6])],
           metricsName, Raw([7]), map["model.safetensors" := Raw([8])], Leakage("2.0", true, []), Runs())
  }

  /** A reader that accepts one file. */
  function Only<T>(file: Bytes, value: T, bytes: Bytes): Option<T> { if bytes == file then Some(value) else None }

  /** The same digests, with readers that each accept their own file only. */
  function Reading(q: Platform, policy: Policy): Platform {
    Platform(
      q.root, q.sha, q.canonical,
      (bytes: Bytes) => Only(LEAKAGE_FILE, Leakage("2.0", true, []), bytes),
      (bytes: Bytes) =>
        Only(REPORT_FILE, Reproducibility.Evaluation(Runs(), policy, policy.policyId, q.canonical), bytes),
      (bytes: Bytes) => Only(RECEIPTS_FILE, Runs(), bytes),
      (name: string, fileName: string, bytes: Bytes) => true,
      (files: map<string, Bytes>) => "model.safetensors" in files)
  }

  lemma DigestIsDigest()
    ensures Reproducibility.Sha256String(Digest())
  {
    DigestIsSha256(Digest());
  }

  lemma RunNames()
    ensures !Blank("run") && !Blank("container")
  {
    assert "container"[0] in "container" && "run"[0] in "run";
  }

  lemma RunIsValid()
    ensures Reproducibility.ValidReceipt(Run())
  {
    hide Reproducibility.Sha256String, Blank, Digest;
    DigestIsDigest();
    RunNames();
    assert "loss" in Run().metrics.Keys;
  }

  lemma RepeatedRunIsValid()
    ensures Reproducibility.AllValid(Runs()) && Runs() != []
  {
    hide Reproducibility.ValidReceipt, Run;
    RunIsValid();
  }

  lemma RepeatedRunFails(policy: Policy)
    ensures !Reproducibility.Reproducible(Runs(), policy)
  {
    var ids := Reproducibility.RunIds(Runs());
    assert ids[0] == ids[1];
  }

  lemma RepeatedRunIsWhole(metricsName: string)
    requires Plain(metricsName) && metricsName != "release_evidence_bundle.json"
    ensures Whole(RepeatedRun(metricsName))
  {
    hide Runs, Plain;
  }

  lemma RepeatedRunFiles(metricsName: string)
    ensures var s := RepeatedRun(metricsName);
      && FileOf(s, "leakage") == LEAKAGE_FILE && FileOf(s, "reproducibility") == REPORT_FILE
      && FileOf(s, "run_receipts") == RECEIPTS_FILE
  {
    hide Runs;
  }

  /** No file is taken for another kind of evidence. */
  ghost predicate OwnReaders(p: Platform, s: Sample) {
    forall bytes ::
      && (p.leakage(bytes).Some? <==> bytes == FileOf(s, "leakage"))
      && (p.reproducibility(bytes).Some? <==> bytes == FileOf(s, "reproducibility"))
      && (p.receipts(bytes).Some? <==> bytes == FileOf(s, "run_receipts"))
  }

  lemma ReadingReads(q: Platform, policy: Policy, s: Sample)
    requires s.leakage == Leakage("2.0", true, []) && s.receipts == Runs() && "model.safetensors" in s.serving
    requires FileOf(s, "leakage") == LEAKAGE_FILE && FileOf(s, "reproducibility") == REPORT_FILE
    requires FileOf(s, "run_receipts") == RECEIPTS_FILE
    ensures Reads(Reading(q, policy), s, policy) && OwnReaders(Reading(q, policy), s)
  {
    hide FileOf, Runs, Reproducibility.Evaluation, Reproducibility.AllValid;
    RepeatedRunIsValid();
  }

  lemma ReadingIsValid(q: Platform, policy: Policy)
    requires ValidPlatform(q)
    ensures ValidPlatform(Reading(q, policy))
  {
    hide Runs, Reproducibility.Evaluation, HexDigest, CleanPath;
  }

  /** For every policy there is such a sample, with files that only their own readers accept. */
  lemma FailingSample(q: Platform, policy: Policy, metricsName: string)
    requires ValidPlatform(q) && Plain(metricsName) && metricsName != "release_evidence_bundle.json"
    ensures var p, s := Reading(q, policy), RepeatedRun(metricsName);
      && ValidPlatform(p) && Whole(s) && Reads(p, s, policy) && OwnReaders(p, s)
      && !Reproducibility.Reproducible(s.receipts, policy)
  {
    hide Runs, Plain, Reproducibility.Reproducible, Reads, Whole, FileOf, Reading, ValidPlatform,
      OwnReaders;
    RepeatedRunFails(policy);
    RepeatedRunIsWhole(metricsName);
    RepeatedRunFiles(metricsName);
    ReadingReads(q, policy, RepeatedRun(metricsName));
    ReadingIsValid(q, policy);
  }
}
