/** What the evidence gate asks for, said of the files themselves: which file stands behind each
    name, what is in it, and what is served beside the model card
    (release/release_evidence_validation.py:180-531). */
module EvidenceGate {
  import opened Text
  import opened Options
  import opened Sorting
  import opened ReleaseStore
  import opened EvidenceBundle
  import opened ReleaseManifest
  import opened ReleaseValidation
  import Reproducibility

  /** Every reference addresses its file of the directory and carries that file's digest. */
  ghost predicate Placed(p: Platform, directory: string, tree: Tree, b: Bundle, paths: map<string, Rel>) {
    forall r :: r in b.references ==>
      && r.name in paths && paths[r.name] in tree
      && Locate(p.root + ["releases", directory], r.path) == Some(paths[r.name])
      && r.sha == p.sha(tree[paths[r.name]])
  }

  /** The leakage report is the bundle's own, and clean. */
  predicate LeakageAccepted(p: Platform, leakage: Option<Leakage>, bytes: Bytes) {
    leakage.Some? && leakage.value.clean && p.leakage(bytes) == leakage
  }

  /** The receipts are receipts, at least one, and the report is what they evaluate to. */
  ghost predicate RunsAccepted(p: Platform, policy: Policy, receipts: Bytes, report: Bytes) {
    && p.receipts(receipts).Some? && p.reproducibility(report).Some?
    && p.receipts(receipts).value != [] && Reproducibility.AllValid(p.receipts(receipts).value)
    && Reproducibility.ValidReport(p.reproducibility(report).value, p.canonical)
    && p.reproducibility(report).value
       == Reproducibility.Evaluation(p.receipts(receipts).value, policy, policy.policyId, p.canonical)
  }

  /** Cards and metrics are accepted under their evidence name and their file name. */
  predicate ArtifactAccepted(p: Platform, name: string, rel: Rel, bytes: Bytes) {
    rel != [] && p.cleanArtifact(name, rel[|rel| - 1], bytes)
  }

  /** The files with a serving name in the directory of the model card can be deployed. */
  predicate Served(p: Platform, tree: Tree, card: Rel) {
    card != [] && p.deployable(ServedBeside(tree, card[..|card| - 1]))
  }

  function ServedBeside(tree: Tree, exports: Rel): map<string, Bytes> {
    map name | name in SERVING_FILES && exports + [name] in tree :: tree[exports + [name]]
  }

  /** The seven files of a model's evidence, each accepted for what it is. */
  ghost predicate EvidenceAccepted(p: Platform, leakage: Option<Leakage>, policy: Policy, tree: Tree,
                                   paths: map<string, Rel>)
  {
    && MODEL_EVIDENCE <= paths.Keys && (forall name :: name in MODEL_EVIDENCE ==> paths[name] in tree)
    && LeakageAccepted(p, leakage, tree[paths["leakage"]])
    && RunsAccepted(p, policy, tree[paths["run_receipts"]], tree[paths["reproducibility"]])
    && ArtifactAccepted(p, "dataset_card", paths["dataset_card"], tree[paths["dataset_card"]])
    && ArtifactAccepted(p, "model_card", paths["model_card"], tree[paths["model_card"]])
    && ArtifactAccepted(p, "training_metrics", paths["training_metrics"], tree[paths["training_metrics"]])
    && Served(p, tree, paths["model_card"])
  }

  /** The bundle of a model to be deployed. */
  predicate OfModel(b: Bundle) {
    ValidBundle(b) && (b.mode == Candidate || b.mode == ProductionModel)
  }

  lemma EvidenceNamed(b: Bundle, name: string)
    requires OfModel(b)
    ensures name in MODEL_EVIDENCE <==> exists r :: r in b.references && r.name == name
    ensures Find(b.references, name).Some? <==> name in MODEL_EVIDENCE
  {
    hide ValidReference, Names, Elements;
    NamedReference(b.references, name);
    InElements(Names(b.references), name);
  }

  lemma PlacedFile(p: Platform, directory: string, tree: Tree, b: Bundle, paths: map<string, Rel>, name: string)
    requires OfModel(b) && Placed(p, directory, tree, b, paths) && name in MODEL_EVIDENCE
    ensures name in paths && paths[name] in tree && paths[name] != []
    ensures BytesOf(p, directory, tree, b, name) == Some(tree[paths[name]])
    ensures Locate(Base(p, directory), Find(b.references, name).value.path) == Some(paths[name])
  {
    hide ValidBundle, Locate;
    EvidenceNamed(b, name);
  }

  predicate ContentAt(p: Platform, b: Bundle, tree: Tree, paths: map<string, Rel>, name: string) {
    name in paths && paths[name] in tree && paths[name] != []
    && ContentOk(p, b, name, Name(paths[name]), tree[paths[name]])
  }

  lemma ReferencesOkIff(p: Platform, directory: string, tree: Tree, b: Bundle, paths: map<string, Rel>)
    requires OfModel(b) && Placed(p, directory, tree, b, paths)
    ensures (forall r :: r in b.references ==> ReferenceOk(p, directory, tree, b, r))
      <==> forall name :: name in MODEL_EVIDENCE ==> ContentAt(p, b, tree, paths, name)
  {
    hide ValidBundle, Locate, ContentOk;
    forall name ensures name in MODEL_EVIDENCE <==> exists r :: r in b.references && r.name == name {
      EvidenceNamed(b, name);
    }
    if forall r :: r in b.references ==> ReferenceOk(p, directory, tree, b, r) {
      forall name | name in MODEL_EVIDENCE ensures ContentAt(p, b, tree, paths, name) {
        PlacedFile(p, directory, tree, b, paths, name);
        var r :| r in b.references && r.name == name;
        assert ReferenceOk(p, directory, tree, b, r);
      }
    }
    if forall name :: name in MODEL_EVIDENCE ==> ContentAt(p, b, tree, paths, name) {
      forall r | r in b.references ensures ReferenceOk(p, directory, tree, b, r) {
        assert ContentAt(p, b, tree, paths, r.name);
      }
    }
  }

  lemma ContentsIff(p: Platform, b: Bundle, tree: Tree, paths: map<string, Rel>)
    ensures (forall name :: name in MODEL_EVIDENCE ==> ContentAt(p, b, tree, paths, name)) <==>
      && ContentAt(p, b, tree, paths, "checkpoint") && ContentAt(p, b, tree, paths, "leakage")
      && ContentAt(p, b, tree, paths, "reproducibility") && ContentAt(p, b, tree, paths, "run_receipts")
      && ContentAt(p, b, tree, paths, "dataset_card") && ContentAt(p, b, tree, paths, "model_card")
      && ContentAt(p, b, tree, paths, "training_metrics")
  {
    hide ContentAt;
  }

  lemma ContentAtSays(p: Platform, b: Bundle, tree: Tree, paths: map<string, Rel>, name: string)
    requires name in paths && paths[name] in tree && paths[name] != []
    ensures name == "checkpoint" ==> ContentAt(p, b, tree, paths, name)
    ensures name == "leakage" ==>
      (ContentAt(p, b, tree, paths, name) <==> LeakageAccepted(p, b.leakage, tree[paths[name]]))
    ensures name in {"dataset_card", "model_card", "training_metrics"} ==>
      (ContentAt(p, b, tree, paths, name) <==> ArtifactAccepted(p, name, paths[name], tree[paths[name]]))
    ensures name in {"reproducibility", "run_receipts"} ==>
      (ContentAt(p, b, tree, paths, name) <==> ContentOk(p, b, name, Name(paths[name]), tree[paths[name]]))
  {}

  lemma ServingOkIff(p: Platform, directory: string, tree: Tree, b: Bundle, paths: map<string, Rel>)
    requires OfModel(b) && Placed(p, directory, tree, b, paths)
    ensures "model_card" in paths
    ensures ServingOk(p, directory, tree, b) <==> Served(p, tree, paths["model_card"])
  {
    PlacedFile(p, directory, tree, b, paths, "model_card");
    EvidenceNamed(b, "model_card");
    hide ValidBundle, Locate, Placed;
    assert Parent(paths["model_card"]) == paths["model_card"][..|paths["model_card"]| - 1];
    assert ServingView(tree, Parent(paths["model_card"])) == ServedBeside(tree, Parent(paths["model_card"]));
  }

  lemma RunsAcceptedIff(p: Platform, b: Bundle, policy: Policy, receipts: Bytes, report: Bytes, one: string,
                        other: string)
    ensures RunsAccepted(p, policy, receipts, report) <==>
      && ContentOk(p, b, "run_receipts", one, receipts) && ContentOk(p, b, "reproducibility", other, report)
      && ReportMatches(p, Some(report), Some(receipts), policy)
  {
    hide Reproducibility.AllValid, Reproducibility.ValidReport, Reproducibility.Evaluation;
  }

  /** The gate of a model's bundle accepts exactly the evidence each of whose files is accepted for
      what it is, with something deployable beside the model card. */
  lemma PlacedGateIff(p: Platform, directory: string, tree: Tree, b: Bundle, paths: map<string, Rel>, policy: Policy)
    requires OfModel(b) && Placed(p, directory, tree, b, paths)
    ensures Gate(p, directory, tree, b, policy) <==> EvidenceAccepted(p, b.leakage, policy, tree, paths)
  {
    forall name | name in MODEL_EVIDENCE
      ensures name in paths && paths[name] in tree && paths[name] != []
      ensures BytesOf(p, directory, tree, b, name) == Some(tree[paths[name]])
    {
      PlacedFile(p, directory, tree, b, paths, name);
    }
    ReferencesOkIff(p, directory, tree, b, paths);
    ContentsIff(p, b, tree, paths);
    forall name | name in MODEL_EVIDENCE { ContentAtSays(p, b, tree, paths, name); }
    ServingOkIff(p, directory, tree, b, paths);
    RunsAcceptedIff(p, b, policy, tree[paths["run_receipts"]], tree[paths["reproducibility"]],
                    Name(paths["run_receipts"]), Name(paths["reproducibility"]));
    hide OfModel, Placed, BytesOf, RunsAccepted, ReportMatches, ReferenceOk, ContentOk, ContentAt,
      ServingOk, Served, LeakageAccepted, ArtifactAccepted;
  }

  /** The files behind the references. */
  function PathsOf(p: Platform, directory: string, tree: Tree, b: Bundle): map<string, Rel> {
    map name | name in MODEL_EVIDENCE && Find(b.references, name).Some?
               && FileAt(p, directory, tree, Find(b.references, name).value.path).Some?
      :: FileAt(p, directory, tree, Find(b.references, name).value.path).value
  }

  lemma FoundByName(b: Bundle, r: Reference)
    requires OfModel(b) && r in b.references
    ensures r.name in MODEL_EVIDENCE && Find(b.references, r.name) == Some(r)
  {
    hide ValidReference;
    EvidenceNamed(b, r.name);
    DistinctCardinality(Names(b.references));
    hide ValidBundle;
    var found := Find(b.references, r.name).value;
    var i :| 0 <= i < |b.references| && b.references[i] == r;
    var j :| 0 <= j < |b.references| && b.references[j] == found;
    assert Names(b.references)[i] == Names(b.references)[j];
  }

  lemma GatedIsPlaced(p: Platform, directory: string, tree: Tree, b: Bundle, policy: Policy)
    requires OfModel(b) && Gate(p, directory, tree, b, policy)
    ensures Placed(p, directory, tree, b, PathsOf(p, directory, tree, b))
  {
    hide OfModel, Locate, ContentOk, ReportMatches, ServingOk;
    var paths := PathsOf(p, directory, tree, b);
    forall r | r in b.references
      ensures r.name in paths && paths[r.name] in tree && r.sha == p.sha(tree[paths[r.name]])
      ensures Locate(p.root + ["releases", directory], r.path) == Some(paths[r.name])
    {
      FoundByName(b, r);
      assert ReferenceOk(p, directory, tree, b, r);
    }
  }

  /** The gate of a model's bundle accepts exactly the directories in which every reference addresses
      its file and each file is accepted for what it is. */
  lemma GateIff(p: Platform, directory: string, tree: Tree, b: Bundle, policy: Policy)
    requires OfModel(b)
    ensures Gate(p, directory, tree, b, policy) <==>
      exists paths :: Placed(p, directory, tree, b, paths) && EvidenceAccepted(p, b.leakage, policy, tree, paths)
  {
    hide OfModel, Placed, EvidenceAccepted, Gate;
    if Gate(p, directory, tree, b, policy) {
      GatedIsPlaced(p, directory, tree, b, policy);
      PlacedGateIff(p, directory, tree, b, PathsOf(p, directory, tree, b), policy);
    }
    if paths :| Placed(p, directory, tree, b, paths) && EvidenceAccepted(p, b.leakage, policy, tree, paths) {
      PlacedGateIff(p, directory, tree, b, paths, policy);
    }
  }

  predicate LeakageInPlace(p: Platform, directory: string, tree: Tree, leakage: Option<Leakage>, r: Reference) {
    var place := Locate(p.root + ["releases", directory], r.path);
    && place.Some? && place.value in tree && p.sha(tree[place.value]) == r.sha
    && LeakageAccepted(p, leakage, tree[place.value])
  }

  /** A smoke run has nothing to show, and a learning candidate its leakage report only. */
  lemma LesserGateIff(p: Platform, directory: string, tree: Tree, b: Bundle, policy: Policy)
    requires ValidBundle(b)
    ensures b.mode == PipelineSmoke ==> Gate(p, directory, tree, b, policy)
    ensures b.mode == LearningCandidate ==>
      && |b.references| == 1 && b.references[0].name == "leakage"
      && (Gate(p, directory, tree, b, policy)
          <==> LeakageInPlace(p, directory, tree, b.leakage, b.references[0]))
  {
    hide ReferenceOk, ReportMatches, LeakageInPlace, Locate, ValidReference, Elements, Names;
    if b.mode == PipelineSmoke {
      NoReference(b);
      NothingToMatch(p, directory, tree, b, policy);
    } else if b.mode == LearningCandidate {
      OneReference(b);
      NothingToMatch(p, directory, tree, b, policy);
      LeakageReference(p, directory, tree, b, b.references[0]);
    }
  }

  lemma LeakageReference(p: Platform, directory: string, tree: Tree, b: Bundle, r: Reference)
    requires r.name == "leakage"
    ensures ReferenceOk(p, directory, tree, b, r) <==> LeakageInPlace(p, directory, tree, b.leakage, r)
  {
    hide Locate;
  }

  lemma NothingToMatch(p: Platform, directory: string, tree: Tree, b: Bundle, policy: Policy)
    requires Find(b.references, "reproducibility").None?
    ensures ReportMatches(p, BytesOf(p, directory, tree, b, "reproducibility"),
                          BytesOf(p, directory, tree, b, "run_receipts"), policy)
  {
    hide FileAt, Reproducibility.Evaluation;
  }

  lemma NoReference(b: Bundle)
    requires ValidBundle(b) && b.mode == PipelineSmoke
    ensures b.references == []
  {
    hide ValidReference;
  }

  lemma OneReference(b: Bundle)
    requires ValidBundle(b) && b.mode == LearningCandidate
    ensures |b.references| == 1 && b.references == [b.references[0]] && b.references[0].name == "leakage"
  {
    hide ValidReference;
    assert |Required(b.mode)| == 1;
    InElements(Names(b.references), Names(b.references)[0]);
  }

  /** The files that count as served are these six, in the directory itself. */
  lemma ServedSays(tree: Tree, exports: Rel, name: string)
    ensures name in ServedBeside(tree, exports) <==>
      && (|| name == "model.safetensors" || name == "safetensors_export_status.json"
          || name == "model.torchscript.pt" || name == "torchscript_export_status.json"
          || name == "model.onnx" || name == "onnx_export_status.json")
      && exports + [name] in tree
    ensures name in ServedBeside(tree, exports) ==> ServedBeside(tree, exports)[name] == tree[exports + [name]]
  {}
}
