/** The versioned evidence bundle (release/release_evidence_bundle.py): its invariant, the
    document it is written as, and the loader that re-reads every referenced file. */
module EvidenceBundle {
  import opened Text
  import opened Options
  import opened Sorting
  import opened ReleaseStore

  datatype Mode = PipelineSmoke | LearningCandidate | Candidate | ProductionModel

  const EVIDENCE_SCHEMA := "release_evidence.v1"

  function ModeName(mode: Mode): string {
    match mode
    case PipelineSmoke => "pipeline_smoke"
    case LearningCandidate => "learning_candidate"
    case Candidate => "candidate"
    case ProductionModel => "production_model"
  }

  function ParseMode(text: string): (r: Option<Mode>)
    ensures r.Some? ==> ModeName(r.value) == text
    ensures r.None? ==> forall m :: ModeName(m) != text
  {
    if text == "pipeline_smoke" then Some(PipelineSmoke)
    else if text == "learning_candidate" then Some(LearningCandidate)
    else if text == "candidate" then Some(Candidate)
    else if text == "production_model" then Some(ProductionModel)
    else None
  }

  const MODEL_EVIDENCE: set<string> :=
    {"checkpoint", "leakage", "dataset_card", "model_card", "reproducibility", "run_receipts", "training_metrics"}

  function Required(mode: Mode): set<string> {
    match mode
    case PipelineSmoke => {}
    case LearningCandidate => {"leakage"}
    case Candidate => MODEL_EVIDENCE
    case ProductionModel => MODEL_EVIDENCE
  }

  predicate ValidReference(r: Reference) {
    && !Blank(r.name) && !Blank(r.path)
    && r.path[0] == '/'
    && LooksLikeSha256(r.sha)
  }

  datatype Bundle = Bundle(
    mode: Mode,
    references: seq<Reference>,
    leakage: Option<Leakage>,
    requirementsId: Option<string>,
    requirementsSha: Option<string>)

  function NameOf(r: Reference): string { r.name }

  function Names(references: seq<Reference>): (names: seq<string>)
    ensures |names| == |references|
  {
    Map(references, NameOf)
  }

  /** What the constructor accepts. */
  predicate ValidBundle(b: Bundle) {
    && (forall r :: r in b.references ==> ValidReference(r))
    && (b.requirementsId.Some? ==> !Blank(b.requirementsId.value))
    && (b.requirementsSha.Some? ==> !Blank(b.requirementsSha.value) && LooksLikeSha256(b.requirementsSha.value))
    && |Elements(Names(b.references))| == |b.references|
    && Elements(Names(b.references)) == Required(b.mode)
    && (b.mode != PipelineSmoke ==> b.leakage.Some? && b.leakage.value.clean)
  }

  function Find(references: seq<Reference>, name: string): (r: Option<Reference>)
    ensures r.Some? ==> r.value in references && r.value.name == name
    ensures r.None? ==> forall x :: x in references ==> x.name != name
  {
    if references == [] then None
    else if references[0].name == name then Some(references[0])
    else Find(references[1..], name)
  }

  lemma NamedReference(references: seq<Reference>, name: string)
    ensures name in Names(references) <==> exists r :: r in references && r.name == name
    ensures Find(references, name).Some? <==> name in Names(references)
  {
    if name in Names(references) {
      var i :| 0 <= i < |references| && Names(references)[i] == name;
      assert references[i] in references;
    }
    if r :| r in references && r.name == name {
      var i :| 0 <= i < |references| && references[i] == r;
      assert Names(references)[i] == name;
    }
  }

  lemma InElements(names: seq<string>, name: string)
    ensures name in Elements(names) <==> name in names
  {}

  /** `to_payload`: the document a bundle is written as. */
  function Payload(b: Bundle): Document {
    BundleDocument(
      EVIDENCE_SCHEMA,
      ModeName(b.mode),
      b.references,
      if b.leakage.Some? then Some(b.leakage.value.schemaVersion) else None,
      b.requirementsId,
      b.requirementsSha,
      b.leakage.None? || b.leakage.value.clean)
  }

  /** Every reference must name a file below the approved root, with the recorded digest. The
      loaded reference carries the resolved path. */
  function Verified(p: Platform, directory: string, tree: Tree, references: seq<Reference>): Option<seq<Reference>>
  {
    if references == [] then Some([])
    else
      var file := FileAt(p, directory, tree, references[0].path);
      var tail := Verified(p, directory, tree, references[1..]);
      if file.Some? && p.sha(tree[file.value]) == references[0].sha && tail.Some? then
        Some([references[0].(path := AbsolutePath(Base(p, directory) + file.value))] + tail.value)
      else None
  }

  /** Whether the policy identity members fit the mode. */
  predicate IdentityFits(mode: Mode, id: Option<string>, sha: Option<string>) {
    if mode == Candidate || mode == ProductionModel then
      id.Some? && !Blank(id.value) && sha.Some? && LooksLikeSha256(sha.value)
    else id.None? && sha.None?
  }

  /** The leakage report behind the verified leakage reference, if there is one. `None` is a
      reader failure; `Some(None)` is the absence of the reference. */
  function LeakageOf(p: Platform, directory: string, tree: Tree, references: seq<Reference>): Option<Option<Leakage>> {
    var reference := Find(references, "leakage");
    if reference.None? then Some(None)
    else
      var file := FileAt(p, directory, tree, reference.value.path);
      if file.None? then None
      else
        var report := p.leakage(tree[file.value]);
        if report.None? then None else Some(report)
  }

  /** The constructor call and the tests around it. */
  function Assemble(mode: Mode, references: seq<Reference>, leakage: Option<Leakage>,
                    document: Document): Option<Bundle>
    requires document.BundleDocument?
  {
    var b := Bundle(mode, references, leakage, document.policyId, document.policySha);
    if && IdentityFits(mode, document.policyId, document.policySha)
       && ValidBundle(b)
       && document.passed
       && document.leakageSchema == (if leakage.Some? then Some(leakage.value.schemaVersion) else None)
    then Some(b) else None
  }

  /** `ReleaseEvidenceBundle.load` with the release directory as its only approved root. */
  function Load(p: Platform, directory: string, tree: Tree): Option<Bundle> {
    if BUNDLE !in tree || !tree[BUNDLE].File? || !tree[BUNDLE].document.BundleDocument? then None
    else LoadDocument(p, directory, tree, tree[BUNDLE].document)
  }

  function LoadDocument(p: Platform, directory: string, tree: Tree, document: Document): Option<Bundle>
    requires document.BundleDocument?
  {
    if document.schemaVersion != EVIDENCE_SCHEMA || !AllValid(document.evidence) then None
    else
      var verified := Verified(p, directory, tree, document.evidence);
      var mode := ParseMode(document.releaseMode);
      if verified.None? || mode.None? then None
      else
        var leakage := LeakageOf(p, directory, tree, verified.value);
        if leakage.None? then None
        else Assemble(mode.value, verified.value, leakage.value, document)
  }

  predicate AllValid(references: seq<Reference>) {
    forall r :: r in references ==> ValidReference(r)
  }

  // ---- the written bundle loads back ----

  /** A reference to a file of the directory, written with its resolved path and digest. */
  predicate Bound(p: Platform, directory: string, tree: Tree, r: Reference) {
    var file := FileAt(p, directory, tree, r.path);
    && file.Some?
    && r.path == AbsolutePath(Base(p, directory) + file.value)
    && p.sha(tree[file.value]) == r.sha
  }

  lemma AbsoluteIsPath(parts: Rel)
    ensures AbsolutePath(parts)[0] == '/' && !Blank(AbsolutePath(parts))
  {
    assert AbsolutePath(parts)[0] in AbsolutePath(parts);
  }

  lemma AddressLocates(p: Platform, directory: string, rel: Rel)
    requires ValidPlatform(p) && CleanSegment(directory) && CleanPath(rel) && rel != []
    ensures Locate(Base(p, directory), AbsolutePath(Base(p, directory) + rel)) == Some(rel)
  {
    assert CleanSegment(RELEASES);
    LocateAbsolute(Base(p, directory), rel);
  }

  /** A reference written for a file of the directory is well formed and bound to that file. */
  lemma AddressedIsBound(p: Platform, directory: string, tree: Tree, name: string, rel: Rel)
    requires ValidPlatform(p) && CleanSegment(directory) && CleanPath(rel) && rel != [] && rel in tree
    ensures var r := Reference(name, AbsolutePath(Base(p, directory) + rel), p.sha(tree[rel]));
      && FileAt(p, directory, tree, r.path) == Some(rel)
      && Bound(p, directory, tree, r) && (!Blank(name) ==> ValidReference(r))
  {
    AddressLocates(p, directory, rel);
    AbsoluteIsPath(Base(p, directory) + rel);
    assert HexDigest(p.sha(tree[rel]));
    DigestIsSha256(p.sha(tree[rel]));
    hide Locate, AbsolutePath, HexDigest, LooksLikeSha256, CleanPath, Blank, Base;
  }

  lemma {:induction false} VerifiedFixed(p: Platform, directory: string, tree: Tree, references: seq<Reference>)
    requires forall r :: r in references ==> Bound(p, directory, tree, r)
    ensures Verified(p, directory, tree, references) == Some(references)
  {
    hide FileAt;
    if references != [] {
      assert Bound(p, directory, tree, references[0]);
      VerifiedFixed(p, directory, tree, references[1..]);
      assert [references[0]] + references[1..] == references;
    }
  }

  /** A production bundle that passes its constructor and whose references, policy identity and
      leakage report are those of the directory. */
  ghost predicate Publishable(p: Platform, directory: string, tree: Tree, b: Bundle) {
    && ValidBundle(b) && b.mode == ProductionModel
    && b.requirementsId.Some? && b.requirementsSha.Some?
    && (forall r :: r in b.references ==> Bound(p, directory, tree, r))
    && LeakageOf(p, directory, tree, b.references) == Some(b.leakage)
  }

  lemma AssembleRoundTrip(p: Platform, directory: string, tree: Tree, b: Bundle)
    requires Publishable(p, directory, tree, b)
    ensures Assemble(b.mode, b.references, b.leakage, Payload(b)) == Some(b)
  {
    hide LooksLikeSha256, Blank, LeakageOf, Bound, ValidReference;
  }

  lemma ModeRoundTrip(mode: Mode)
    ensures ParseMode(ModeName(mode)) == Some(mode)
  {}

  ghost predicate Records(tree: Tree, b: Bundle) {
    BUNDLE in tree && tree[BUNDLE] == File(PRETTY, Payload(b))
  }

  /** What is written is what is loaded: the loader returns the bundle the document was made
      from, when every reference is bound to a file of the directory. */
  lemma BundleRoundTrip(p: Platform, directory: string, tree: Tree, b: Bundle)
    requires Publishable(p, directory, tree, b) && Records(tree, b)
    ensures Load(p, directory, tree) == Some(b)
  {
    hide ValidReference, Bound, LeakageOf, Assemble, ParseMode, ModeName, IdentityFits, Verified;
    ModeRoundTrip(b.mode);
    VerifiedFixed(p, directory, tree, b.references);
    AssembleRoundTrip(p, directory, tree, b);
  }

  // ---- what a loaded bundle guarantees, and what it depends on ----

  lemma NormaliseIsClean(parts: Rel, prefix: Rel)
    requires CleanPath(prefix) && forall s :: s in parts ==> '/' !in s
    ensures CleanPath(Normalise(parts, prefix))
    decreases |parts|
  {
    if parts != [] {
      assert parts[0] in parts;
    }
  }

  lemma LocateIsClean(root: Rel, path: string)
    ensures Locate(root, path).Some? ==> CleanPath(Locate(root, path).value)
  {
    if path != "" && path[0] == '/' {
      NormaliseIsClean(SplitSlash(path[1..]), []);
    }
  }

  lemma {:induction false} VerifiedIsBound(p: Platform, directory: string, tree: Tree, references: seq<Reference>)
    requires ValidPlatform(p) && CleanSegment(directory)
    requires Verified(p, directory, tree, references).Some?
    ensures forall r :: r in Verified(p, directory, tree, references).value ==> Bound(p, directory, tree, r)
  {
    if references != [] {
      var file := FileAt(p, directory, tree, references[0].path);
      LocateIsClean(Base(p, directory), references[0].path);
      assert CleanSegment(RELEASES);
      LocateAbsolute(Base(p, directory), file.value);
      VerifiedIsBound(p, directory, tree, references[1..]);
    }
  }

  /** Every reference of a loaded bundle names a file of the directory and carries its digest;
      the bundle satisfies its constructor's tests. */
  lemma LoadedIsBound(p: Platform, directory: string, tree: Tree)
    requires ValidPlatform(p) && CleanSegment(directory)
    requires Load(p, directory, tree).Some?
    ensures var b := Load(p, directory, tree).value;
      ValidBundle(b) && forall r :: r in b.references ==> Bound(p, directory, tree, r)
  {
    hide ValidReference, ParseMode, LeakageOf, IdentityFits, Bound;
    VerifiedIsBound(p, directory, tree, tree[BUNDLE].document.evidence);
  }

  // ---- which documents load, and as what ----

  /** A written reference and the loaded one: the file is below the release directory and has the
      recorded digest, and the loaded reference carries its resolved path. */
  ghost predicate LoadsAs(p: Platform, directory: string, tree: Tree, written: Reference, loaded: Reference) {
    var place := Locate(p.root + ["releases", directory], written.path);
    && ValidReference(written) && place.Some? && place.value in tree
    && written.sha == p.sha(tree[place.value])
    && loaded == Reference(written.name, AbsolutePath(p.root + ["releases", directory] + place.value), written.sha)
  }

  lemma {:induction false} VerifiedIff(p: Platform, directory: string, tree: Tree, written: seq<Reference>,
                                       loaded: seq<Reference>)
    requires AllValid(written)
    ensures Verified(p, directory, tree, written) == Some(loaded) <==>
      |loaded| == |written| && forall i :: 0 <= i < |written| ==> LoadsAs(p, directory, tree, written[i], loaded[i])
  {
    hide Locate, AbsolutePath, ValidReference;
    if written != [] {
      assert written[0] in written;
      if loaded == [] {
      } else {
        VerifiedIff(p, directory, tree, written[1..], loaded[1..]);
        assert loaded == [loaded[0]] + loaded[1..];
        assert forall i :: 0 < i < |written| ==> written[i] == written[1..][i - 1];
        assert forall i :: 0 < i < |loaded| ==> loaded[i] == loaded[1..][i - 1];
      }
    }
  }

  /** The modes as they are written. */
  predicate Called(mode: Mode, name: string) {
    match mode
    case PipelineSmoke => name == "pipeline_smoke"
    case LearningCandidate => name == "learning_candidate"
    case Candidate => name == "candidate"
    case ProductionModel => name == "production_model"
  }

  /** The evidence each mode asks for. */
  predicate Asked(mode: Mode, name: string) {
    match mode
    case PipelineSmoke => false
    case LearningCandidate => name == "leakage"
    case _ =>
      || name == "checkpoint" || name == "leakage" || name == "dataset_card" || name == "model_card"
      || name == "reproducibility" || name == "run_receipts" || name == "training_metrics"
  }

  lemma AskedIsRequired(mode: Mode, name: string)
    ensures name in Required(mode) <==> Asked(mode, name)
  {}

  /** A well-formed bundle has exactly the evidence its mode asks for, each once. */
  lemma BundleNames(b: Bundle, name: string)
    requires ValidBundle(b)
    ensures forall i, j :: 0 <= i < j < |b.references| ==> b.references[i].name != b.references[j].name
    ensures (exists r :: r in b.references && r.name == name) <==> Asked(b.mode, name)
  {
    AskedIsRequired(b.mode, name);
    hide ValidReference, Required, Asked;
    DistinctCardinality(Names(b.references));
    forall i, j | 0 <= i < j < |b.references| ensures b.references[i].name != b.references[j].name {
      assert Names(b.references)[i] != Names(b.references)[j];
    }
    NamedReference(b.references, name);
    RequiredNames(b, name);
  }

  lemma RequiredNames(b: Bundle, name: string)
    requires ValidBundle(b)
    ensures name in Names(b.references) <==> name in Required(b.mode)
  {
    hide ValidReference;
    InElements(Names(b.references), name);
  }

  /** The document a loaded bundle comes from. */
  ghost predicate WrittenAs(d: Document, b: Bundle)
    requires d.BundleDocument?
  {
    && d.schemaVersion == "release_evidence.v1" && d.passed
    && Called(b.mode, d.releaseMode) && d.policyId == b.requirementsId && d.policySha == b.requirementsSha
    && d.leakageSchema == (if b.leakage.Some? then Some(b.leakage.value.schemaVersion) else None)
    && (b.mode == Candidate || b.mode == ProductionModel ==> d.policyId.Some? && d.policySha.Some?)
    && (b.mode == PipelineSmoke || b.mode == LearningCandidate ==> d.policyId.None? && d.policySha.None?)
  }

  /** A bundle is loaded exactly from a document that was written as it, all of whose references load,
      with the leakage report that stands behind the leakage reference, when it passes its
      constructor. */
  lemma LoadIff(p: Platform, directory: string, tree: Tree, b: Bundle)
    ensures Load(p, directory, tree) == Some(b) <==>
      && BUNDLE in tree && tree[BUNDLE].File? && tree[BUNDLE].document.BundleDocument?
      && var d := tree[BUNDLE].document;
         && ValidBundle(b) && WrittenAs(d, b)
         && |b.references| == |d.evidence|
         && (forall i :: 0 <= i < |d.evidence| ==> LoadsAs(p, directory, tree, d.evidence[i], b.references[i]))
         && LeakageOf(p, directory, tree, b.references) == Some(b.leakage)
  {
    hide ValidReference, LeakageOf, LoadsAs, ValidBundle, ParseMode, Assemble, WrittenAs, Verified, AllValid;
    if BUNDLE in tree && tree[BUNDLE].File? && tree[BUNDLE].document.BundleDocument? {
      var d := tree[BUNDLE].document;
      ModeOf(d.releaseMode, b.mode);
      if AllValid(d.evidence) {
        VerifiedIff(p, directory, tree, d.evidence, b.references);
      } else {
        InvalidWritten(p, directory, tree, d.evidence, b.references);
      }
      AssembledIff(d, b);
      AssembledParts(d);
    }
  }

  lemma ModeOf(text: string, mode: Mode)
    ensures ParseMode(text) == Some(mode) <==> Called(mode, text)
  {}

  lemma AssembledIff(d: Document, b: Bundle)
    requires d.BundleDocument?
    ensures d.schemaVersion == EVIDENCE_SCHEMA && Called(b.mode, d.releaseMode)
            && Assemble(b.mode, b.references, b.leakage, d) == Some(b)
      <==> ValidBundle(b) && WrittenAs(d, b)
  {
    hide ValidBundle, Called;
    IdentityOfValid(b);
  }

  lemma AssembledParts(d: Document)
    requires d.BundleDocument?
    ensures forall mode, references, leakage :: Assemble(mode, references, leakage, d).Some? ==>
      var b := Assemble(mode, references, leakage, d).value;
      b.mode == mode && b.references == references && b.leakage == leakage
    ensures forall b :: WrittenAs(d, b) ==> d.schemaVersion == EVIDENCE_SCHEMA && Called(b.mode, d.releaseMode)
  {
    hide ValidBundle, IdentityFits;
  }

  lemma InvalidWritten(p: Platform, directory: string, tree: Tree, written: seq<Reference>, loaded: seq<Reference>)
    requires !AllValid(written)
    ensures |loaded| == |written| ==>
      exists i :: 0 <= i < |written| && !LoadsAs(p, directory, tree, written[i], loaded[i])
  {
    hide ValidReference;
    var r :| r in written && !ValidReference(r);
    var i :| 0 <= i < |written| && written[i] == r;
    if |loaded| == |written| {
      assert !LoadsAs(p, directory, tree, written[i], loaded[i]);
    }
  }

  lemma IdentityOfValid(b: Bundle)
    ensures ValidBundle(b) ==>
      (IdentityFits(b.mode, b.requirementsId, b.requirementsSha) <==>
         if b.mode == Candidate || b.mode == ProductionModel then b.requirementsId.Some? && b.requirementsSha.Some?
         else b.requirementsId.None? && b.requirementsSha.None?)
  {
    hide ValidReference;
  }

  /** The leakage report of well-named references: what is read behind the one called leakage, or none
      when there is no such reference. */
  lemma LeakageOfIff(p: Platform, directory: string, tree: Tree, references: seq<Reference>, x: Option<Leakage>)
    requires forall i, j :: 0 <= i < j < |references| ==> references[i].name != references[j].name
    ensures LeakageOf(p, directory, tree, references) == Some(x) <==>
      if x.None? then forall r :: r in references ==> r.name != "leakage"
      else
        exists r :: r in references && r.name == "leakage"
          && var place := Locate(p.root + ["releases", directory], r.path);
             place.Some? && place.value in tree && p.leakage(tree[place.value]) == x
  {
    hide Locate;
    var found := Find(references, "leakage");
    forall r | r in references && r.name == "leakage" ensures found == Some(r) {
      var i :| 0 <= i < |references| && references[i] == r;
      var j :| 0 <= j < |references| && references[j] == found.value;
    }
  }

  /** A reference is accepted with a name, an absolute path and sixty-four characters that read as
      hexadecimal. */
  lemma ReferenceValidIff(r: Reference)
    ensures ValidReference(r) <==>
      && (exists c :: c in r.name && !(9 <= c as int <= 13 || 28 <= c as int <= 32)) && r.path != "" && r.path[0] == '/'
      && |r.sha| == 64 && ParsesAsHex(r.sha)
  {
    hide ParsesAsHex;
    if r.path != "" && r.path[0] == '/' { assert r.path[0] in r.path; }
  }
}
