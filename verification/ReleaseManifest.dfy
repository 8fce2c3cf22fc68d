/** The release manifest (release/release_manifest.py): which files a release lists, under
    which policy, and the validation of a directory against it. */
module ReleaseManifest {
  import opened Text
  import opened Options
  import opened Sorting
  import opened ReleaseStore
  import opened EvidenceBundle
  import Reproducibility

  type Policy = Reproducibility.Policy

  const RELEASE_SCHEMA := "production_release.v1"

  const LISTED: set<string> :=
    {"checkpoint", "leakage", "dataset_card", "model_card", "reproducibility", "run_receipts",
     "release_evidence_bundle", "acceptance_report", "training_metrics"}

  /** `required_sha256`: the lower-cased digest, when the member holds one. */
  function RequiredSha256(text: string): Option<string> {
    if Blank(text) || !LooksLikeSha256(Lower(text)) then None else Some(Lower(text))
  }

  /** The policy recorded in a manifest, when its constructor accepts it. */
  function PolicyFrom(requirementsId: string, content: Reproducibility.Content): Option<Policy> {
    if Blank(requirementsId) || !content.PolicyContent? then None
    else
      var policy := Reproducibility.Policy(requirementsId, content.seeds, content.deterministic, content.tolerances);
      if policy.Valid() then Some(policy) else None
  }

  function PolicySha(p: Platform, policy: Policy): string {
    p.canonical(Reproducibility.ToPayload(policy))
  }

  /** The recorded policy rebuilds, has the recorded digest and prints as it was recorded. */
  predicate PolicyOk(p: Platform, requirementsId: string, requirementsSha: string, content: Reproducibility.Content) {
    var policy := PolicyFrom(requirementsId, content);
    && policy.Some?
    && PolicySha(p, policy.value) == requirementsSha
    && Reproducibility.ToPayload(policy.value) == content
  }

  /** One listed artifact: a contained path to an existing file with the listed digest. */
  predicate ArtifactOk(p: Platform, tree: Tree, artifact: Reference) {
    var rel := ContainedRelative(artifact.path);
    && !Blank(artifact.name) && !Blank(artifact.path)
    && rel.Some? && rel.value in tree
    && RequiredSha256(artifact.sha) == Some(p.sha(tree[rel.value]))
  }

  predicate ArtifactsOk(p: Platform, tree: Tree, artifacts: seq<Reference>) {
    && (forall a :: a in artifacts ==> ArtifactOk(p, tree, a))
    && |Elements(Names(artifacts))| == |artifacts|
    && LISTED <= Elements(Names(artifacts))
  }

  predicate HeaderOk(p: Platform, m: Document, releaseId: string)
    requires m.ManifestDocument?
  {
    && m.schemaVersion == RELEASE_SCHEMA
    && m.releaseId == releaseId
    && m.releaseMode == "production_model"
    && !Blank(m.requirementsId)
    && RequiredSha256(m.requirementsSha).Some?
    && PolicyOk(p, m.requirementsId, m.requirementsSha, m.policy)
  }

  function ManifestOf(tree: Tree): (r: Option<Document>)
    ensures r.Some? ==> r.value.ManifestDocument? && MANIFEST in tree && tree[MANIFEST].File?
  {
    if MANIFEST in tree && tree[MANIFEST].File? && tree[MANIFEST].document.ManifestDocument?
    then Some(tree[MANIFEST].document) else None
  }

  /** What `_validate_manifest` accepts. */
  predicate ManifestOk(p: Platform, tree: Tree, releaseId: string) {
    var m := ManifestOf(tree);
    && m.Some?
    && HeaderOk(p, m.value, releaseId)
    && ArtifactsOk(p, tree, m.value.artifacts)
  }

  method ValidateManifest(p: Platform, tree: Tree, releaseId: string) returns (ok: bool)
    ensures ok == ManifestOk(p, tree, releaseId)
  {
    var m := ManifestOf(tree);
    if m.None? || !HeaderOk(p, m.value, releaseId) {
      return false;
    }
    ok := ValidateArtifacts(p, tree, m.value.artifacts);
  }

  method ValidateArtifacts(p: Platform, tree: Tree, artifacts: seq<Reference>) returns (ok: bool)
    ensures ok == ArtifactsOk(p, tree, artifacts)
  {
    hide ArtifactOk;
    var artifactNames: set<string> := {};
    for i := 0 to |artifacts|
      invariant forall k :: 0 <= k < i ==> ArtifactOk(p, tree, artifacts[k])
      invariant artifactNames == Elements(Names(artifacts[..i]))
      invariant Distinct(Names(artifacts[..i]))
    {
      NamesStep(artifacts, i);
      if artifacts[i].name in artifactNames {
        Repeats(artifacts, i);
        return false;
      }
      artifactNames := artifactNames + {artifacts[i].name};
      if !ArtifactOk(p, tree, artifacts[i]) {
        assert artifacts[i] in artifacts;
        return false;
      }
    }
    assert artifacts[..|artifacts|] == artifacts;
    DistinctCardinality(Names(artifacts));
    ok := LISTED <= artifactNames;
  }

  lemma NamesStep(artifacts: seq<Reference>, i: nat)
    requires i < |artifacts|
    ensures Names(artifacts[..i + 1]) == Names(artifacts[..i]) + [artifacts[i].name]
    ensures Elements(Names(artifacts[..i + 1])) == Elements(Names(artifacts[..i])) + {artifacts[i].name}
    ensures Distinct(Names(artifacts[..i])) && artifacts[i].name !in Elements(Names(artifacts[..i])) ==>
      Distinct(Names(artifacts[..i + 1]))
  {
    assert artifacts[..i + 1] == artifacts[..i] + [artifacts[i]];
    assert Names(artifacts[..i + 1]) == Names(artifacts[..i]) + [artifacts[i].name];
  }

  lemma Repeats(artifacts: seq<Reference>, i: nat)
    requires i < |artifacts| && artifacts[i].name in Names(artifacts[..i])
    ensures |Elements(Names(artifacts))| < |artifacts|
  {
    var k :| 0 <= k < i && Names(artifacts[..i])[k] == artifacts[i].name;
    assert Names(artifacts)[k] == Names(artifacts)[i];
    DistinctCardinality(Names(artifacts));
  }

  // ---- the manifest as it is written ----

  /** The entry of one evidence reference: `Path(reference.path).relative_to(release_directory)`. */
  function Entry(p: Platform, directory: string, r: Reference): Option<Reference> {
    var rel := Locate(Base(p, directory), r.path);
    if rel.None? then None else Some(Reference(r.name, JoinSlash(rel.value), r.sha))
  }

  function Entries(p: Platform, directory: string, references: seq<Reference>): (r: Option<seq<Reference>>)
    ensures r.Some? ==> |r.value| == |references|
    ensures r.Some? ==> forall i :: 0 <= i < |references| ==> Entry(p, directory, references[i]) == Some(r.value[i])
  {
    if references == [] then Some([])
    else
      var head, tail := Entry(p, directory, references[0]), Entries(p, directory, references[1..]);
      if head.Some? && tail.Some? then Some([head.value] + tail.value) else None
  }

  predicate ByName(a: Reference, b: Reference) { StringLe(a.name, b.name) }

  /** `_manifest_payload`: evidence, bundle and report, ordered by name. The two documents take
      the place of a reference of the same name. */
  function ManifestFor(p: Platform, directory: string, tree: Tree, releaseId: string, b: Bundle, policy: Policy)
    : (r: Option<Document>)
    requires BUNDLE in tree && REPORT in tree
    ensures r.Some? ==> r.value.ManifestDocument?
  {
    var entries := Entries(p, directory, b.references);
    if entries.None? then None
    else
      Some(ManifestDocument(
        RELEASE_SCHEMA, releaseId, ModeName(b.mode),
        policy.policyId, PolicySha(p, policy), Reproducibility.ToPayload(policy),
        Sort(WithDocuments(p, tree, entries.value), ByName)))
  }

  function WithDocuments(p: Platform, tree: Tree, entries: seq<Reference>): seq<Reference>
    requires BUNDLE in tree && REPORT in tree
  {
    Others(entries)
    + [Reference("release_evidence_bundle", JoinSlash(BUNDLE), p.sha(tree[BUNDLE])),
       Reference("acceptance_report", JoinSlash(REPORT), p.sha(tree[REPORT]))]
  }

  function Others(entries: seq<Reference>): (r: seq<Reference>)
    ensures forall e :: e in r <==> e in entries && e.name != "release_evidence_bundle" && e.name != "acceptance_report"
  {
    if entries == [] then []
    else
      var rest := Others(entries[1..]);
      if entries[0].name == "release_evidence_bundle" || entries[0].name == "acceptance_report" then rest
      else [entries[0]] + rest
  }

  // ---- what is written is what validates ----

  /** The policy rebuilt from a manifest is the promoted policy with its seeds in order; it has
      the same digest and the same payload. */
  lemma PolicyRoundTrip(p: Platform, policy: Policy)
    requires policy.Valid()
    ensures PolicyOk(p, policy.policyId, PolicySha(p, policy), Reproducibility.ToPayload(policy))
    ensures PolicyFrom(policy.policyId, Reproducibility.ToPayload(policy)) ==
      Some(policy.(seeds := Sort(policy.seeds, Reproducibility.AtMost)))
  {
    Reproducibility.AtMostIsTotal();
    Reproducibility.SortLength(policy.seeds);
    SortCanonical(policy.seeds, policy.seeds, Reproducibility.AtMost);
  }

  lemma PolicyShaIsDigest(p: Platform, policy: Policy)
    requires ValidPlatform(p)
    ensures HexDigest(PolicySha(p, policy))
  {}

  lemma HeaderRoundTrip(p: Platform, m: Document, releaseId: string, b: Bundle, policy: Policy)
    requires ValidPlatform(p) && policy.Valid() && b.mode == ProductionModel
    requires m.ManifestDocument? && m.schemaVersion == RELEASE_SCHEMA && m.releaseId == releaseId
    requires m.releaseMode == ModeName(b.mode) && m.requirementsId == policy.policyId
    requires m.requirementsSha == PolicySha(p, policy) && m.policy == Reproducibility.ToPayload(policy)
    ensures HeaderOk(p, m, releaseId)
  {
    hide PolicyOk, LooksLikeSha256, HexDigest, Reproducibility.ToPayload, Lower;
    PolicyShaIsDigest(p, policy);
    PolicyRoundTrip(p, policy);
    DigestIsSha256(m.requirementsSha);
  }

  /** The file of a bound reference, relative to its release directory. */
  function RelOf(p: Platform, directory: string, r: Reference): Rel {
    var rel := Locate(Base(p, directory), r.path);
    if rel.Some? then rel.value else []
  }

  /** A path the manifest reader takes back: nameable, and not all blanks. */
  predicate Listable(rel: Rel) {
    Nameable(rel) && !Blank(JoinSlash(rel))
  }

  /** The entry of a bound reference validates exactly when its path is listable and its file
      still has the recorded digest. */
  lemma EntryOkIff(p: Platform, directory: string, tree: Tree, after: Tree, r: Reference)
    requires ValidPlatform(p) && ValidReference(r) && Bound(p, directory, tree, r)
    ensures Entry(p, directory, r).Some?
    ensures ArtifactOk(p, after, Entry(p, directory, r).value) <==>
      Listable(RelOf(p, directory, r)) && RelOf(p, directory, r) in after
      && p.sha(after[RelOf(p, directory, r)]) == r.sha
  {
    var rel := RelOf(p, directory, r);
    LocateIsClean(Base(p, directory), r.path);
    ContainedRoundTrip(rel);
    assert HexDigest(r.sha) by { assert r.sha == p.sha(tree[rel]); }
    DigestIsSha256(r.sha);
    hide Locate, LooksLikeSha256, ContainedRelative, Nameable, HexDigest, AbsolutePath;
  }

  lemma DocumentsOk(p: Platform, tree: Tree)
    requires ValidPlatform(p) && BUNDLE in tree && REPORT in tree
    ensures ArtifactOk(p, tree, Reference("release_evidence_bundle", JoinSlash(BUNDLE), p.sha(tree[BUNDLE])))
    ensures ArtifactOk(p, tree, Reference("acceptance_report", JoinSlash(REPORT), p.sha(tree[REPORT])))
  {
    DocumentOk(p, tree, BUNDLE, "release_evidence_bundle");
    DocumentOk(p, tree, REPORT, "acceptance_report");
  }

  lemma DocumentOk(p: Platform, tree: Tree, rel: Rel, name: string)
    requires ValidPlatform(p) && rel in tree && (rel == BUNDLE || rel == REPORT)
    requires name == "release_evidence_bundle" || name == "acceptance_report"
    ensures ArtifactOk(p, tree, Reference(name, JoinSlash(rel), p.sha(tree[rel])))
  {
    DocumentName(name);
    DocumentPath(rel);
    assert HexDigest(p.sha(tree[rel]));
    DigestIsSha256(p.sha(tree[rel]));
    hide LooksLikeSha256, ContainedRelative, HexDigest, JoinSlash, Blank;
  }

  lemma DocumentName(name: string)
    requires name == "release_evidence_bundle" || name == "acceptance_report"
    ensures !Blank(name)
  {
    assert name[0] in name;
  }

  /** A segment of letters, underscores and dots only. */
  predicate Plain(s: string) {
    |s| > 2 && forall i :: 0 <= i < |s| ==> 'a' <= s[i] <= 'z' || s[i] == '_' || s[i] == '.'
  }

  lemma PlainSegments(rel: Rel)
    requires rel != [] && forall s :: s in rel ==> Plain(s)
    ensures CleanPath(rel) && Nameable(rel)
  {
    assert rel[0] in rel;
  }

  lemma DocumentPath(rel: Rel)
    requires rel == BUNDLE || rel == REPORT
    ensures ContainedRelative(JoinSlash(rel)) == Some(rel) && !Blank(JoinSlash(rel))
  {
    hide ContainedRelative, Nameable, CleanPath, Blank, Plain;
    DocumentSegments();
    PlainSegments(rel);
    ContainedRoundTrip(rel);
    NotBlankPath(rel);
  }

  lemma DocumentSegments()
    ensures forall s :: s in BUNDLE || s in REPORT ==> Plain(s)
  {
    assert Plain("evaluation") && Plain("release_evidence_bundle.json") && Plain("acceptance_report.json");
  }

  lemma NotBlankPath(rel: Rel)
    requires |rel| == 2 && rel[0] == "evaluation"
    ensures !Blank(JoinSlash(rel))
  {
    assert JoinSlash(rel) == rel[0] + "/" + JoinSlash(rel[1..]);
    assert JoinSlash(rel)[0] == 'e' && JoinSlash(rel)[0] in JoinSlash(rel);
  }

  lemma ArtifactsOkReordered(p: Platform, tree: Tree, a: seq<Reference>, b: seq<Reference>)
    requires multiset(a) == multiset(b)
    ensures ArtifactsOk(p, tree, a) == ArtifactsOk(p, tree, b)
  {
    hide ArtifactOk;
    SameMembers(a, b);
    MapReordered(a, b, NameOf);
    SameMembers(Names(a), Names(b));
    assert Elements(Names(a)) == Elements(Names(b));
  }

  lemma {:induction false} OthersAll(entries: seq<Reference>)
    requires forall e :: e in entries ==> e.name != "release_evidence_bundle" && e.name != "acceptance_report"
    ensures Others(entries) == entries
  {
    if entries != [] {
      OthersAll(entries[1..]);
      assert entries[0] in entries;
    }
  }

  lemma {:induction false} EntriesOfBound(p: Platform, directory: string, tree: Tree, references: seq<Reference>)
    requires forall r :: r in references ==> Bound(p, directory, tree, r)
    ensures Entries(p, directory, references).Some?
    ensures Names(Entries(p, directory, references).value) == Names(references)
  {
    hide Locate, AbsolutePath;
    if references != [] {
      assert Bound(p, directory, tree, references[0]);
      EntriesOfBound(p, directory, tree, references[1..]);
    }
  }

  lemma NamesWithDocuments(p: Platform, tree: Tree, entries: seq<Reference>)
    requires BUNDLE in tree && REPORT in tree
    requires |Elements(Names(entries))| == |entries| && Elements(Names(entries)) == MODEL_EVIDENCE
    ensures WithDocuments(p, tree, entries) == entries + WithDocuments(p, tree, [])
    ensures |Elements(Names(WithDocuments(p, tree, entries)))| == |WithDocuments(p, tree, entries)|
    ensures LISTED <= Elements(Names(WithDocuments(p, tree, entries)))
  {
    hide Elements, Names, WithDocuments, Others;
    NoDocuments(entries);
    OthersAll(entries);
    DocumentsAdded(p, tree, entries);
    var documents := ["release_evidence_bundle", "acceptance_report"];
    ListedNames(Names(entries), documents);
  }

  lemma NoDocuments(entries: seq<Reference>)
    requires Elements(Names(entries)) == MODEL_EVIDENCE
    ensures forall e :: e in entries ==> e.name != "release_evidence_bundle" && e.name != "acceptance_report"
  {
    forall e | e in entries ensures e.name != "release_evidence_bundle" && e.name != "acceptance_report" {
      var k :| 0 <= k < |entries| && entries[k] == e;
      assert Names(entries)[k] in Elements(Names(entries));
      NotDocuments(e.name);
    }
  }

  lemma DocumentsAdded(p: Platform, tree: Tree, entries: seq<Reference>)
    requires BUNDLE in tree && REPORT in tree && Others(entries) == entries
    ensures WithDocuments(p, tree, entries) == entries + WithDocuments(p, tree, [])
    ensures Names(WithDocuments(p, tree, entries)) == Names(entries) + ["release_evidence_bundle", "acceptance_report"]
  {
    assert Others([]) == [];
  }

  lemma NotDocuments(name: string)
    requires name in MODEL_EVIDENCE
    ensures name != "release_evidence_bundle" && name != "acceptance_report"
  {}

  lemma ListedNames(names: seq<string>, documents: seq<string>)
    requires |Elements(names)| == |names| && Elements(names) == MODEL_EVIDENCE
    requires documents == ["release_evidence_bundle", "acceptance_report"]
    ensures |Elements(names + documents)| == |names + documents|
    ensures LISTED <= Elements(names + documents)
  {
    var extra := {"release_evidence_bundle", "acceptance_report"};
    assert Elements(documents) == extra;
    assert Elements(names + documents) == MODEL_EVIDENCE + extra;
    forall n | n in MODEL_EVIDENCE ensures n !in extra { NotDocuments(n); }
    assert MODEL_EVIDENCE !! extra;
    assert |extra| == 2 by {
      assert "acceptance_report" in extra;
      assert extra - {"acceptance_report"} == {"release_evidence_bundle"};
    }
    assert |MODEL_EVIDENCE + extra| == |MODEL_EVIDENCE| + |extra|;
  }

  /** What the publisher has in hand before it writes the report and the manifest. */
  ghost predicate Recordable(p: Platform, directory: string, before: Tree, b: Bundle, policy: Policy) {
    && ValidPlatform(p) && policy.Valid()
    && ValidBundle(b) && b.mode == ProductionModel
    && (forall r :: r in b.references ==> Bound(p, directory, before, r))
    && BUNDLE in before
  }

  /** Each reference's file can be listed and still has its digest. */
  ghost predicate Kept(p: Platform, directory: string, after: Tree, references: seq<Reference>) {
    forall r :: r in references ==>
      var rel := RelOf(p, directory, r);
      Listable(rel) && rel in after && p.sha(after[rel]) == r.sha
  }

  lemma EntriesOkIff(p: Platform, directory: string, tree: Tree, after: Tree, references: seq<Reference>)
    requires ValidPlatform(p)
    requires forall r :: r in references ==> ValidReference(r) && Bound(p, directory, tree, r)
    requires Entries(p, directory, references).Some?
    ensures (forall a :: a in Entries(p, directory, references).value ==> ArtifactOk(p, after, a))
      <==> Kept(p, directory, after, references)
  {
    hide ArtifactOk, ValidReference, Bound, Entry, RelOf, Listable, ValidPlatform;
    var entries := Entries(p, directory, references).value;
    forall i | 0 <= i < |references|
      ensures entries[i] == Entry(p, directory, references[i]).value
      ensures ArtifactOk(p, after, entries[i]) <==> Kept(p, directory, after, [references[i]])
    {
      assert references[i] in references;
      EntryOkIff(p, directory, tree, after, references[i]);
    }
    if Kept(p, directory, after, references) {
      forall a | a in entries ensures ArtifactOk(p, after, a) {
        var i :| 0 <= i < |entries| && entries[i] == a;
        assert references[i] in references;
        assert Kept(p, directory, after, [references[i]]);
      }
    }
    if forall a :: a in entries ==> ArtifactOk(p, after, a) {
      forall r | r in references ensures Kept(p, directory, after, [r]) {
        var i :| 0 <= i < |references| && references[i] == r;
        assert entries[i] in entries;
      }
      KeptEach(p, directory, after, references);
    }
  }

  lemma KeptEach(p: Platform, directory: string, after: Tree, references: seq<Reference>)
    requires forall r :: r in references ==> Kept(p, directory, after, [r])
    ensures Kept(p, directory, after, references)
  {
    forall r | r in references
      ensures var rel := RelOf(p, directory, r); Listable(rel) && rel in after && p.sha(after[rel]) == r.sha
    {
      assert Kept(p, directory, after, [r]) && r in [r];
    }
  }

  /** Each reference's path can be listed, and neither of the two late writes puts another text
      in its place. */
  ghost predicate Spared(p: Platform, directory: string, before: Tree, report: Bytes, manifest: Bytes,
                         references: seq<Reference>)
  {
    forall r :: r in references ==>
      var rel := RelOf(p, directory, r);
      && Listable(rel)
      && (rel == REPORT ==> REPORT in before && before[REPORT] == report)
      && (rel == MANIFEST ==> MANIFEST in before && before[MANIFEST] == manifest)
  }

  lemma KeptIffSpared(p: Platform, directory: string, before: Tree, report: Bytes, manifest: Bytes,
                      references: seq<Reference>)
    requires forall r :: r in references ==> Bound(p, directory, before, r)
    requires NoCollision(p, before, before[REPORT := report][MANIFEST := manifest])
    ensures Kept(p, directory, before[REPORT := report][MANIFEST := manifest], references)
      <==> Spared(p, directory, before, report, manifest, references)
  {
    hide Locate, AbsolutePath, Listable;
    assert REPORT != MANIFEST by { assert |REPORT| == 2 && |MANIFEST| == 1; }
    forall r | r in references
      ensures RelOf(p, directory, r) in before && p.sha(before[RelOf(p, directory, r)]) == r.sha
    {
      assert Bound(p, directory, before, r);
    }
    hide RelOf;
  }

  lemma ListOkIff(p: Platform, directory: string, before: Tree, report: Bytes, manifest: Bytes, b: Bundle,
                  policy: Policy)
    requires Recordable(p, directory, before, b, policy)
    requires Entries(p, directory, b.references).Some?
    ensures BUNDLE in before[REPORT := report]
    ensures var tree := before[REPORT := report];
      ArtifactsOk(p, tree[MANIFEST := manifest], WithDocuments(p, tree, Entries(p, directory, b.references).value))
      <==> Kept(p, directory, tree[MANIFEST := manifest], b.references)
  {
    hide ArtifactOk, Bound, Entries, Kept, ValidReference, ValidPlatform, WithDocuments, Names, Elements;
    var tree := before[REPORT := report];
    var after := tree[MANIFEST := manifest];
    var entries := Entries(p, directory, b.references).value;
    EntriesOfBound(p, directory, before, b.references);
    EntriesOkIff(p, directory, before, after, b.references);
    NamesWithDocuments(p, tree, entries);
    DocumentsListed(p, tree, manifest, after);
    var all := WithDocuments(p, tree, entries);
    assert forall a :: a in all <==> a in entries || a in WithDocuments(p, tree, []);
  }

  lemma DocumentsListed(p: Platform, tree: Tree, bytes: Bytes, after: Tree)
    requires ValidPlatform(p) && BUNDLE in tree && REPORT in tree && after == tree[MANIFEST := bytes]
    ensures forall a :: a in WithDocuments(p, tree, []) ==> ArtifactOk(p, after, a)
  {
    DocumentsOk(p, after);
    hide ArtifactOk;
    assert Others([]) == [];
    assert after[BUNDLE] == tree[BUNDLE] && after[REPORT] == tree[REPORT];
  }

  lemma WrittenParts(p: Platform, tree: Tree, m: Document, releaseId: string)
    requires m.ManifestDocument?
    ensures ManifestOk(p, tree[MANIFEST := File(PRETTY, m)], releaseId) <==>
      HeaderOk(p, m, releaseId) && ArtifactsOk(p, tree[MANIFEST := File(PRETTY, m)], m.artifacts)
  {
    hide HeaderOk, ArtifactsOk;
  }

  /** The manifest of a directory into which the report has just been written. */
  function WrittenManifest(p: Platform, directory: string, before: Tree, report: Bytes, releaseId: string, b: Bundle,
                           policy: Policy): Option<Bytes>
    requires BUNDLE in before
  {
    var m := ManifestFor(p, directory, before[REPORT := report], releaseId, b, policy);
    if m.None? then None else Some(File(PRETTY, m.value))
  }

  lemma WrittenManifestKept(p: Platform, directory: string, before: Tree, report: Bytes, releaseId: string, b: Bundle,
                            policy: Policy)
    requires Recordable(p, directory, before, b, policy)
    ensures WrittenManifest(p, directory, before, report, releaseId, b, policy).Some?
    ensures var manifest := WrittenManifest(p, directory, before, report, releaseId, b, policy).value;
      var after := before[REPORT := report][MANIFEST := manifest];
      ManifestOk(p, after, releaseId) <==> Kept(p, directory, after, b.references)
  {
    var tree := before[REPORT := report];
    EntriesOfBound(p, directory, before, b.references);
    var m := ManifestFor(p, directory, tree, releaseId, b, policy).value;
    var after := tree[MANIFEST := File(PRETTY, m)];
    WrittenParts(p, tree, m, releaseId);
    HeaderRoundTrip(p, m, releaseId, b, policy);
    hide HeaderOk, ManifestOk, PolicySha, Bound;
    ListOkIff(p, directory, before, report, File(PRETTY, m), b, policy);
    hide Kept, ArtifactsOk, WithDocuments, ValidBundle, ValidPlatform, Entries;
    ArtifactsOkReordered(p, after, m.artifacts, WithDocuments(p, tree, Entries(p, directory, b.references).value));
  }

  /** The report and the manifest written into a directory give a manifest that validates exactly
      when every evidence path is listable and neither write replaces an evidence file by another
      text. */
  lemma WrittenManifestOkIff(p: Platform, directory: string, before: Tree, report: Bytes, releaseId: string, b: Bundle,
                             policy: Policy)
    requires Recordable(p, directory, before, b, policy)
    ensures WrittenManifest(p, directory, before, report, releaseId, b, policy).Some?
    ensures var manifest := WrittenManifest(p, directory, before, report, releaseId, b, policy).value;
      var after := before[REPORT := report][MANIFEST := manifest];
      NoCollision(p, before, after) ==>
        (ManifestOk(p, after, releaseId) <==> Spared(p, directory, before, report, manifest, b.references))
  {
    hide WrittenManifest, ManifestOk, Kept, Spared, NoCollision, Bound, ValidPlatform, ValidBundle;
    WrittenManifestKept(p, directory, before, report, releaseId, b, policy);
    var manifest := WrittenManifest(p, directory, before, report, releaseId, b, policy).value;
    if NoCollision(p, before, before[REPORT := report][MANIFEST := manifest]) {
      KeptIffSpared(p, directory, before, report, manifest, b.references);
    }
  }

  // ---- what a manifest says ----

  /** A policy is rebuilt from any recorded content that has a name and at least one seed. */
  lemma PolicyFromIff(requirementsId: string, content: Reproducibility.Content, policy: Policy)
    ensures PolicyFrom(requirementsId, content) == Some(policy) <==>
      && !Blank(requirementsId) && policy.policyId == requirementsId && policy.seeds != []
      && content.PolicyContent? && policy.seeds == content.seeds && policy.deterministic == content.deterministic
      && policy.tolerances == content.tolerances
  {
    hide Blank;
  }

  /** The header of a manifest that validates: schema, release and mode, and a policy recorded under its
      own name with its seeds in order, whose digest is the recorded one. */
  lemma HeaderOkIff(p: Platform, m: Document, releaseId: string)
    requires m.ManifestDocument?
    ensures HeaderOk(p, m, releaseId) <==>
      && m.schemaVersion == "production_release.v1" && m.releaseId == releaseId && m.releaseMode == "production_model"
      && !Blank(m.requirementsId) && m.policy.PolicyContent? && m.policy.policyId == m.requirementsId
      && m.policy.seeds != [] && Ordered(m.policy.seeds, Reproducibility.AtMost)
      && m.requirementsSha == p.canonical(m.policy)
      && !Blank(m.requirementsSha) && LooksLikeSha256(Lower(m.requirementsSha))
  {
    hide Blank, LooksLikeSha256, Lower;
    Reproducibility.AtMostIsTotal();
    if m.policy.PolicyContent? {
      var seeds := m.policy.seeds;
      SortOrdered(seeds, Reproducibility.AtMost);
      if Ordered(seeds, Reproducibility.AtMost) {
        OrderedUnique(seeds, Sort(seeds, Reproducibility.AtMost), Reproducibility.AtMost);
      }
    }
  }

  /** The names every manifest lists. */
  predicate MustBeListed(name: string) {
    || name == "checkpoint" || name == "leakage" || name == "dataset_card" || name == "model_card"
    || name == "reproducibility" || name == "run_receipts" || name == "training_metrics"
    || name == "release_evidence_bundle" || name == "acceptance_report"
  }

  lemma ListedNamesAre(name: string)
    ensures name in LISTED <==> MustBeListed(name)
  {}

  /** The list of a manifest that validates: nine names at least, none twice, and every entry a contained
      path to a file that has the digest recorded, in whatever case. */
  lemma ArtifactsOkIff(p: Platform, tree: Tree, artifacts: seq<Reference>)
    ensures ArtifactsOk(p, tree, artifacts) <==>
      && (forall i, j :: 0 <= i < j < |artifacts| ==> artifacts[i].name != artifacts[j].name)
      && (forall name :: MustBeListed(name) ==> exists a :: a in artifacts && a.name == name)
      && forall a :: a in artifacts ==>
           && !Blank(a.name) && !Blank(a.path) && !Blank(a.sha) && LooksLikeSha256(Lower(a.sha))
           && exists rel :: Nameable(rel) && JoinSlash(rel) == a.path && rel in tree && Lower(a.sha) == p.sha(tree[rel])
  {
    hide ArtifactOk;
    forall a ensures ArtifactOk(p, tree, a) <==>
      && !Blank(a.name) && !Blank(a.path) && !Blank(a.sha) && LooksLikeSha256(Lower(a.sha))
      && exists rel :: Nameable(rel) && JoinSlash(rel) == a.path && rel in tree && Lower(a.sha) == p.sha(tree[rel])
    {
      ArtifactOkIff(p, tree, a);
    }
    DistinctCardinality(Names(artifacts));
    NamesDistinctIff(artifacts);
    forall name
      ensures name in Elements(Names(artifacts)) <==> exists a :: a in artifacts && a.name == name
      ensures name in LISTED <==> MustBeListed(name)
    {
      NamedReference(artifacts, name);
      ListedNamesAre(name);
    }
    hide MustBeListed, Blank, LooksLikeSha256, Lower, Nameable, JoinSlash, Names, Elements;
  }

  lemma NamesDistinctIff(artifacts: seq<Reference>)
    ensures Distinct(Names(artifacts))
      <==> forall i, j :: 0 <= i < j < |artifacts| ==> artifacts[i].name != artifacts[j].name
  {
    assert forall i :: 0 <= i < |artifacts| ==> Names(artifacts)[i] == artifacts[i].name;
  }

  lemma ArtifactOkIff(p: Platform, tree: Tree, a: Reference)
    ensures ArtifactOk(p, tree, a) <==>
      && !Blank(a.name) && !Blank(a.path) && !Blank(a.sha) && LooksLikeSha256(Lower(a.sha))
      && exists rel :: Nameable(rel) && JoinSlash(rel) == a.path && rel in tree && Lower(a.sha) == p.sha(tree[rel])
  {
    hide Blank, LooksLikeSha256, Lower, Nameable, JoinSlash, ContainedRelative;
    forall rel ensures ContainedRelative(a.path) == Some(rel) <==> Nameable(rel) && JoinSlash(rel) == a.path {
      ContainedIff(a.path, rel);
    }
  }

  /** The entry of a reference: its name, its path in the release and its digest. */
  ghost predicate EntryOf(p: Platform, directory: string, references: seq<Reference>, entry: Reference) {
    exists r :: r in references && r.name == entry.name && r.sha == entry.sha
      && Locate(p.root + ["releases", directory], r.path).Some?
      && JoinSlash(Locate(p.root + ["releases", directory], r.path).value) == entry.path
  }

  /** What is written: the promoted policy, and one entry for each reference with its path in the
      release and for the two documents, in the order of their names. */
  lemma WrittenSays(p: Platform, directory: string, tree: Tree, releaseId: string, b: Bundle, policy: Policy,
                    entry: Reference)
    requires BUNDLE in tree && REPORT in tree && ManifestFor(p, directory, tree, releaseId, b, policy).Some?
    ensures var m := ManifestFor(p, directory, tree, releaseId, b, policy).value;
      && m.releaseId == releaseId && m.requirementsId == policy.policyId
      && m.policy == Reproducibility.ToPayload(policy)
      && (forall i, j :: 0 <= i < j < |m.artifacts| ==> Alphabetical(m.artifacts[i].name, m.artifacts[j].name))
      && (entry in m.artifacts <==>
            || entry == Reference("release_evidence_bundle", "evaluation/release_evidence_bundle.json",
                                  p.sha(tree[BUNDLE]))
            || entry == Reference("acceptance_report", "evaluation/acceptance_report.json", p.sha(tree[REPORT]))
            || (entry.name != "release_evidence_bundle" && entry.name != "acceptance_report"
                && EntryOf(p, directory, b.references, entry)))
  {
    hide Entry, EntryOf, WithDocuments, ByName, Alphabetical, ModeName, PolicySha, Reproducibility.ToPayload;
    var entries := Entries(p, directory, b.references).value;
    var all := WithDocuments(p, tree, entries);
    var sorted := Sort(all, ByName);
    assert ManifestFor(p, directory, tree, releaseId, b, policy).value.artifacts == sorted;
    SortedByName(all, sorted);
    SameMembers(sorted, all);
    ListedWith(p, tree, entries, entry);
    EntryIn(p, directory, b.references, entry);
    EntrySays(p, directory, b.references, entry);
    hide Entries;
  }

  lemma ListedWith(p: Platform, tree: Tree, entries: seq<Reference>, entry: Reference)
    requires BUNDLE in tree && REPORT in tree
    ensures entry in WithDocuments(p, tree, entries) <==>
      || entry == Reference("release_evidence_bundle", "evaluation/release_evidence_bundle.json", p.sha(tree[BUNDLE]))
      || entry == Reference("acceptance_report", "evaluation/acceptance_report.json", p.sha(tree[REPORT]))
      || (entry.name != "release_evidence_bundle" && entry.name != "acceptance_report" && entry in entries)
  {
    DocumentPaths();
    hide JoinSlash, Others;
  }

  lemma EntrySays(p: Platform, directory: string, references: seq<Reference>, entry: Reference)
    ensures (exists r :: r in references && Entry(p, directory, r) == Some(entry))
      <==> EntryOf(p, directory, references, entry)
  {
    hide Locate, JoinSlash;
  }

  lemma JoinTwo(first: string, second: string)
    ensures JoinSlash([first, second]) == first + "/" + second
  {
    assert [first, second][1..] == [second];
  }

  lemma DocumentPaths()
    ensures JoinSlash(BUNDLE) == "evaluation/release_evidence_bundle.json"
    ensures JoinSlash(REPORT) == "evaluation/acceptance_report.json"
  {
    JoinTwo("evaluation", "release_evidence_bundle.json");
    JoinTwo("evaluation", "acceptance_report.json");
  }

  lemma EntryIn(p: Platform, directory: string, references: seq<Reference>, entry: Reference)
    requires Entries(p, directory, references).Some?
    ensures entry in Entries(p, directory, references).value <==>
      exists r :: r in references && Entry(p, directory, r) == Some(entry)
  {
    hide Entry;
    var entries := Entries(p, directory, references).value;
    if entry in entries {
      var i :| 0 <= i < |entries| && entries[i] == entry;
      assert references[i] in references;
    }
    if r :| r in references && Entry(p, directory, r) == Some(entry) {
      var i :| 0 <= i < |references| && references[i] == r;
      assert entries[i] == entry;
    }
  }

  lemma ByNameRanks()
    ensures Ranking(ByName)
  {
    hide StringLe;
    forall x, y ensures ByName(x, y) || ByName(y, x) { StringLeTotal(x.name, y.name); }
    forall x, y, z | ByName(x, y) && ByName(y, z) ensures ByName(x, z) {
      StringLeTransitive(x.name, y.name, z.name);
    }
  }

  /** What is sorted by names is in the order of the names. */
  lemma SortedByName(all: seq<Reference>, sorted: seq<Reference>)
    requires sorted == Sort(all, ByName)
    ensures forall i, j :: 0 <= i < j < |sorted| ==> Alphabetical(sorted[i].name, sorted[j].name)
  {
    hide StringLe, Alphabetical;
    ByNameRanks();
    SortOrdered(all, ByName);
    forall i, j | 0 <= i < j < |sorted| ensures Alphabetical(sorted[i].name, sorted[j].name) {
      StringLeIff(sorted[i].name, sorted[j].name);
    }
  }
}
