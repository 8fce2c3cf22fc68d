/** What it takes for the pointer to resolve, said of the documents and files themselves
    (release/current_release_pointer.py:24-88, release/release_directory_validation.py:21-95). */
module CurrentRelease {
  import opened Text
  import opened Options
  import opened Sorting
  import opened ReleaseStore
  import opened EvidenceBundle
  import opened ReleaseManifest
  import opened ReleaseValidation
  import Reproducibility

  /** The bundle is bound to the policy by name and digest. */
  predicate UnderPolicy(p: Platform, b: Bundle, policy: Policy) {
    && b.requirementsId == Some(policy.policyId)
    && b.requirementsSha == Some(p.canonical(Reproducibility.ToPayload(policy)))
  }

  /** The file is there, and the file of the same name with `.sha256` beside it. */
  predicate WithSidecar(tree: Tree, rel: Rel) {
    rel != [] && rel in tree && rel[..|rel| - 1] + [rel[|rel| - 1] + ".sha256"] in tree
  }

  /** The report of an accepted model. */
  predicate AcceptedReport(tree: Tree) {
    var report := ["evaluation", "acceptance_report.json"];
    && report in tree && tree[report].File? && tree[report].document.ReportDocument?
    && tree[report].document.passed && tree[report].document.releaseStage == "production_model"
    && tree[report].document.expectedStatus == "MODEL_ACCEPTED"
  }

  /** The checkpoint reference leads to such a file of the directory. */
  ghost predicate CheckpointInPlace(p: Platform, directory: string, tree: Tree, b: Bundle) {
    exists r :: r in b.references && r.name == "checkpoint"
      && Locate(p.root + ["releases", directory], r.path).Some?
      && WithSidecar(tree, Locate(p.root + ["releases", directory], r.path).value)
  }

  lemma CheckpointIff(p: Platform, directory: string, tree: Tree, b: Bundle)
    requires forall i, j :: 0 <= i < j < |b.references| ==> b.references[i].name != b.references[j].name
    ensures CheckpointAvailable(p, directory, tree, b) <==> CheckpointInPlace(p, directory, tree, b)
  {
    hide Locate;
    var found := Find(b.references, "checkpoint");
    forall r | r in b.references && r.name == "checkpoint" ensures found == Some(r) {
      var i :| 0 <= i < |b.references| && b.references[i] == r;
      var j :| 0 <= j < |b.references| && b.references[j] == found.value;
    }
  }

  lemma LoadedNames(p: Platform, directory: string, tree: Tree, b: Bundle)
    requires Load(p, directory, tree) == Some(b)
    ensures forall i, j :: 0 <= i < j < |b.references| ==> b.references[i].name != b.references[j].name
  {
    LoadIff(p, directory, tree, b);
    hide Load, ValidBundle;
    BundleNames(b, "checkpoint");
  }

  /** A directory is valid under a policy exactly when its manifest validates, its bundle loads, is bound
      to the policy and passes the gate, the checkpoint has its sidecar, and the report is that of an
      accepted model. */
  lemma DirectoryOkIff(p: Platform, directory: string, tree: Tree, releaseId: string, policy: Policy)
    ensures DirectoryOk(p, directory, tree, releaseId, policy) <==>
      && ManifestOk(p, tree, releaseId) && AcceptedReport(tree)
      && exists b :: Load(p, directory, tree) == Some(b) && UnderPolicy(p, b, policy)
           && Gate(p, directory, tree, b, policy) && CheckpointInPlace(p, directory, tree, b)
  {
    hide ManifestOk, Gate, CheckpointAvailable, CheckpointInPlace, Load, ReportAccepted, AcceptedReport;
    ReportIff(tree);
    var loaded := Load(p, directory, tree);
    if loaded.Some? {
      LoadedNames(p, directory, tree, loaded.value);
      CheckpointIff(p, directory, tree, loaded.value);
    }
  }

  lemma ReportIff(tree: Tree)
    ensures ReportAccepted(tree) <==> AcceptedReport(tree)
  {}

  /** A pointer selects a directory by its relative path and by its name, which must agree. */
  lemma TargetIff(d: Document, releases: map<string, Tree>, id: string)
    requires d.PointerDocument?
    ensures Target(d, releases) == Some(id) <==>
      && d.schemaVersion == "production_release_pointer.v1" && d.releaseId == id && id in releases && !Blank(id)
      && d.releaseDirectory == "releases/" + id && Nameable(["releases", id])
  {
    DirectoryPath(id);
    ContainedIff(d.releaseDirectory, ["releases", id]);
    hide ContainedRelative, Nameable, JoinSlash;
    assert ContainedRelative(d.releaseDirectory).Some? && |ContainedRelative(d.releaseDirectory).value| == 2 ==>
      ContainedRelative(d.releaseDirectory).value
      == [ContainedRelative(d.releaseDirectory).value[0], ContainedRelative(d.releaseDirectory).value[1]];
  }

  lemma DirectoryPath(id: string)
    ensures JoinSlash(["releases", id]) == "releases/" + id && !Blank("releases/" + id)
  {
    assert JoinSlash(["releases", id]) == "releases" + "/" + JoinSlash([id]);
    assert ("releases/" + id)[0] == 'r' && ("releases/" + id)[0] in "releases/" + id;
  }

  /** A pointer document names a directory exactly by its relative path. */
  lemma ReferencesIff(pointer: Option<Bytes>, id: string)
    ensures References(pointer, id) <==>
      && pointer.Some? && pointer.value.File? && pointer.value.document.PointerDocument?
      && pointer.value.document.releaseDirectory == "releases/" + id && Nameable(["releases", id])
  {
    if pointer.Some? && pointer.value.File? && pointer.value.document.PointerDocument? {
      DirectoryPath(id);
      ContainedIff(pointer.value.document.releaseDirectory, ["releases", id]);
      hide ContainedRelative, Nameable, JoinSlash, Blank;
    }
  }

  /** The manifest a pointer opens: at the path it gives, with the digest it records in whatever case. */
  ghost predicate Opens(p: Platform, d: Document, tree: Tree, rel: Rel)
    requires d.PointerDocument?
  {
    && Nameable(rel) && JoinSlash(rel) == d.releaseManifest && !Blank(d.releaseManifest) && rel in tree
    && !Blank(d.manifestSha) && LooksLikeSha256(Lower(d.manifestSha)) && Lower(d.manifestSha) == p.sha(tree[rel])
    && tree[rel].File? && tree[rel].document.ManifestDocument?
  }

  lemma PointedIff(p: Platform, d: Document, tree: Tree, m: Document)
    requires d.PointerDocument?
    ensures PointedManifest(p, d, tree) == Some(m) <==> exists rel :: Opens(p, d, tree, rel) && tree[rel].document == m
  {
    hide Blank, LooksLikeSha256, Lower, Nameable, JoinSlash, ContainedRelative;
    forall rel
      ensures ContainedRelative(d.releaseManifest) == Some(rel)
        <==> Nameable(rel) && JoinSlash(rel) == d.releaseManifest
    {
      ContainedIff(d.releaseManifest, rel);
    }
    if PointedManifest(p, d, tree) == Some(m) {
      assert Opens(p, d, tree, ContainedRelative(d.releaseManifest).value);
    }
  }

  /** The pointer resolves to a directory exactly when it selects it, opens a manifest in it, and the
      directory is valid under the policy recorded in that manifest. */
  lemma ResolveIff(p: Platform, releases: map<string, Tree>, pointer: Option<Bytes>, id: string)
    ensures Resolve(p, releases, pointer) == Some(id) <==>
      && pointer.Some? && pointer.value.File? && pointer.value.document.PointerDocument?
      && var d := pointer.value.document;
         && d.schemaVersion == "production_release_pointer.v1" && d.releaseId == id && id in releases && !Blank(id)
         && d.releaseDirectory == "releases/" + id && Nameable(["releases", id])
         && exists rel, policy :: Opens(p, d, releases[id], rel)
              && var m := releases[id][rel].document;
                 PolicyFrom(m.requirementsId, m.policy) == Some(policy) && DirectoryOk(p, id, releases[id], id, policy)
  {
    hide Target, PointedManifest, PolicyFrom, DirectoryOk, Nameable, Blank, LooksLikeSha256, Lower, JoinSlash;
    if pointer.Some? && pointer.value.File? && pointer.value.document.PointerDocument? {
      var d := pointer.value.document;
      TargetIff(d, releases, id);
      if Target(d, releases) == Some(id) {
        var manifest := PointedManifest(p, d, releases[id]);
        if manifest.Some? {
          PointedIff(p, d, releases[id], manifest.value);
        }
        forall rel | Opens(p, d, releases[id], rel) ensures manifest == Some(releases[id][rel].document) {
          PointedIff(p, d, releases[id], releases[id][rel].document);
        }
      }
    }
  }
}
