/** Why the current release can be intact and still not resolve: a retry publishes what an
    interrupted cleanup has left, and a manifest lists neither the checkpoint's checksum sidecar
    nor the serving files (release/model_release_publisher.py:453-464, 509-529). */
module StrandedPointer {
  import opened Text
  import opened Options
  import opened Sorting
  import opened ReleaseStore
  import opened EvidenceBundle
  import opened ReleaseManifest
  import opened ReleaseValidation
  import opened FreshCommit
  import opened ReleaseStaging
  import opened Publisher
  import opened ProductionDirectory
  import opened EvidenceGate
  import opened PromotionCompletes
  import opened PromotionProtocol
  import opened PromotionRuns
  import opened PromotionRefinement
  import AcceptanceReport
  import Reproducibility

  /** No entry of the directory's manifest names this file. */
  predicate Unlisted(tree: Tree, rel: Rel) {
    && rel != MANIFEST
    && ManifestOf(tree).Some?
    && forall a :: a in ManifestOf(tree).value.artifacts ==> ContainedRelative(a.path) != Some(rel)
  }

  lemma RemovalKeepsManifest(p: Platform, tree: Tree, releaseId: string, rel: Rel)
    requires ManifestOk(p, tree, releaseId) && Unlisted(tree, rel)
    ensures ManifestOk(p, tree - {rel}, releaseId)
  {
    hide HeaderOk, ContainedRelative, RequiredSha256, Blank;
    var artifacts := ManifestOf(tree).value.artifacts;
    assert ManifestOf(tree - {rel}) == ManifestOf(tree);
    forall a | a in artifacts ensures ArtifactOk(p, tree - {rel}, a) {
      assert ArtifactOk(p, tree, a);
    }
  }

  /** The checksum sidecar of the bundle's checkpoint. */
  function SidecarOf(p: Platform, directory: string, tree: Tree, b: Bundle): Option<Rel> {
    var checkpoint := Find(b.references, "checkpoint");
    if checkpoint.None? then None
    else
      var file := FileAt(p, directory, tree, checkpoint.value.path);
      if file.None? || file.value == [] then None else Some(Sidecar(file.value))
  }

  /** A complete, deployable directory whose checksum sidecar no manifest entry names. */
  ghost predicate Complete(p: Platform, directory: string, tree: Tree, before: Tree, b: Bundle, policy: Policy) {
    && Leftover(p, directory, tree, before, tree, b, policy)
    && SidecarOf(p, directory, tree, b).Some?
    && Unlisted(tree, SidecarOf(p, directory, tree, b).value)
  }

  lemma WithoutSidecar(p: Platform, directory: string, tree: Tree, before: Tree, b: Bundle, policy: Policy)
    requires Complete(p, directory, tree, before, b, policy)
    ensures var left := tree - {SidecarOf(p, directory, tree, b).value};
      Leftover(p, directory, tree, before, left, b, policy)
  {
    var sidecar := SidecarOf(p, directory, tree, b).value;
    hide Unlisted, SidecarOf, Deployable, Load, ManifestFor, ManifestOk;
    RemovalKeepsManifest(p, tree, directory, sidecar) by {
      assert ManifestWritten(p, directory, before, tree, b, policy);
    }
    UnlistedIsNotManifest(tree, sidecar);
  }

  lemma UnlistedIsNotManifest(tree: Tree, rel: Rel)
    requires Unlisted(tree, rel)
    ensures rel != MANIFEST
  {}

  lemma NoCheckpointWithoutSidecar(p: Platform, directory: string, tree: Tree, b: Bundle)
    requires SidecarOf(p, directory, tree, b).Some?
    ensures !CheckpointAvailable(p, directory, tree - {SidecarOf(p, directory, tree, b).value}, b)
  {
    hide Locate;
  }

  /** A promoter that has written its manifest but not the pointer. */
  ghost predicate BeforeCommit(p: Platform, s: State, who: nat, releaseId: string) {
    && Inv(p, s)
    && s.holder == Some(who) && who in s.active && s.active[who] == Promoter(releaseId, Publishing)
    && releaseId in s.releases
  }

  lemma PublishingUnnamed(p: Platform, s: State, who: nat, releaseId: string)
    requires BeforeCommit(p, s, who, releaseId)
    ensures ReleaseName(releaseId) && releaseId !in s.named
    ensures s.active == map[who := Promoter(releaseId, Publishing)]
  {
    hide NamedOk, PointerOk, ReleaseName, ManifestOk, References;
    assert PhaseOk(p, s, s.active[who]);
    assert s.active.Keys == {who};
    assert s.active == map[who := Promoter(releaseId, Publishing)];
  }

  lemma NotReferencedYet(p: Platform, s: State, releaseId: string)
    requires NamedOk(p, s) && PointerOk(p, s) && releaseId !in s.named
    ensures !References(s.pointer, releaseId)
  {
    if s.pointer.Some? {
      var named :| named in s.named && MANIFEST in s.named[named]
        && s.pointer == Some(PointerFor(p, s.named[named], named));
      PointerSelects(p, s.releases, named);
    }
    hide ManifestOk, ReleaseName, PointerFor;
  }

  // ---- the schedule ----

  /** The promotion raises, its cleanup loses the sidecar, the process dies. */
  lemma Interrupt(p: Platform, s: State, who: nat, releaseId: string, sidecar: Rel)
    requires Idle(s) && releaseId in s.releases && !References(s.pointer, releaseId)
    ensures Leads(p, Lone(s, who, releaseId, Publishing), [Raise] + [RemoveRelease({sidecar}, false)] + [Crash(who)],
                  Holding(s, releaseId, s.releases[releaseId] - {sidecar}))
  {
    hide Next, Leads, References;
    var start, t := Lone(s, who, releaseId, Publishing), Holding(s, releaseId, s.releases[releaseId] - {sidecar});
    RaiseMoves(p, s, who, releaseId, Publishing);
    LeadsOne(p, start, Raise, Lone(s, who, releaseId, Cleaning("")));
    CleanupMoves(p, s, who, releaseId, {sidecar});
    Then(p, start, [Raise], Lone(s, who, releaseId, Cleaning("")), RemoveRelease({sidecar}, false),
         Lone(t, who, releaseId, Cleaning("")));
    CrashMoves(p, t, who, releaseId, Cleaning(""));
    Then(p, start, [Raise] + [RemoveRelease({sidecar}, false)], Lone(t, who, releaseId, Cleaning("")), Crash(who), t);
  }

  /** A second process finds the directory and publishes it. */
  lemma Retry(p: Platform, s: State, who: nat, releaseId: string)
    requires Idle(s) && ReleaseName(releaseId) && releaseId in s.releases && MANIFEST in s.releases[releaseId]
    requires ManifestOk(p, s.releases[releaseId], releaseId) && !References(s.pointer, releaseId)
    ensures Leads(p, s, [Acquire(who, releaseId)] + [Look("")] + [CheckFound] + [Restore],
                  Lone(Pointed(p, s, releaseId), who, releaseId, Leaving))
  {
    hide Next, Leads, References, ManifestOk, ReleaseName, PointerFor;
    AcquireMoves(p, s, who, releaseId);
    LeadsOne(p, s, Acquire(who, releaseId), Lone(s, who, releaseId, Sweeping));
    LookMoves(p, s, who, releaseId, "");
    Then(p, s, [Acquire(who, releaseId)], Lone(s, who, releaseId, Sweeping), Look(""), Lone(s, who, releaseId, Found));
    ValidateMoves(p, s, who, releaseId);
    Then(p, s, [Acquire(who, releaseId)] + [Look("")], Lone(s, who, releaseId, Found), CheckFound,
         Lone(s, who, releaseId, FoundValid));
    RestoreMoves(p, s, who, releaseId);
    Then(p, s, [Acquire(who, releaseId)] + [Look("")] + [CheckFound], Lone(s, who, releaseId, FoundValid), Restore,
         Lone(Pointed(p, s, releaseId), who, releaseId, Leaving));
  }

  /** From any state in which a promoter has completed its directory but not committed it, seven
      further actions lead to a pointer that names the release and does not resolve. */
  lemma InterruptedCleanupStrandsPointer(p: Platform, s: State, who: nat, releaseId: string, before: Tree, b: Bundle,
                                         policy: Policy)
    returns (actions: seq<Action>, t: State)
    requires ValidPlatform(p) && BeforeCommit(p, s, who, releaseId)
    requires Complete(p, releaseId, s.releases[releaseId], before, b, policy)
    ensures Leads(p, s, actions, t) && |actions| == 7
    ensures References(t.pointer, releaseId) && Resolve(p, t.releases, t.pointer).None?
  {
    hide BeforeCommit, SidecarOf, CheckpointAvailable, References, ReleaseName, Leftover, Leads, Resolve, PointerFor,
      Unlisted;
    PublishingUnnamed(p, s, who, releaseId);
    BeforeCommitParts(p, s, who, releaseId);
    var tree := s.releases[releaseId];
    var sidecar := SidecarOf(p, releaseId, tree, b).value;
    NotReferencedYet(p, s, releaseId);
    WithoutSidecar(p, releaseId, tree, before, b, policy);
    NoCheckpointWithoutSidecar(p, releaseId, tree, b);
    var idle := s.(holder := None, active := map[]);
    assert s == Lone(idle, who, releaseId, Publishing);
    actions, t := StrandAfter(p, idle, who, releaseId, sidecar, tree, before, b, policy);
  }

  lemma BeforeCommitParts(p: Platform, s: State, who: nat, releaseId: string)
    requires BeforeCommit(p, s, who, releaseId)
    ensures s.holder == Some(who) && releaseId in s.releases && NamedOk(p, s) && PointerOk(p, s)
  {
    hide NamedOk, PointerOk, PhaseOk;
  }

  lemma LeftoverManifest(p: Platform, releaseId: string, complete: Tree, before: Tree, left: Tree, b: Bundle,
                         policy: Policy)
    requires Leftover(p, releaseId, complete, before, left, b, policy)
    ensures ManifestOk(p, left, releaseId) && MANIFEST in left
  {
    hide ManifestOk;
    ManifestPresent(p, left, releaseId);
  }

  lemma StrandAfter(p: Platform, s: State, who: nat, releaseId: string, sidecar: Rel, complete: Tree, before: Tree,
                    b: Bundle, policy: Policy)
    returns (actions: seq<Action>, t: State)
    requires ValidPlatform(p) && ReleaseName(releaseId) && Idle(s) && releaseId in s.releases
    requires !References(s.pointer, releaseId)
    requires Leftover(p, releaseId, complete, before, s.releases[releaseId] - {sidecar}, b, policy)
    requires !CheckpointAvailable(p, releaseId, s.releases[releaseId] - {sidecar}, b)
    ensures Leads(p, Lone(s, who, releaseId, Publishing), actions, t) && |actions| == 7
    ensures References(t.pointer, releaseId) && Resolve(p, t.releases, t.pointer).None?
  {
    hide Next, Leads, References, ManifestOk, ReleaseName, PointerFor, CheckpointAvailable, Resolve, Leftover,
      ValidPlatform;
    var left := s.releases[releaseId] - {sidecar};
    var u := Holding(s, releaseId, left);
    LeftoverManifest(p, releaseId, complete, before, left, b, policy);
    Interrupt(p, s, who, releaseId, sidecar);
    Retry(p, u, who, releaseId);
    t := Lone(Pointed(p, u, releaseId), who, releaseId, Leaving);
    var first := [Raise] + [RemoveRelease({sidecar}, false)] + [Crash(who)];
    var second := [Acquire(who, releaseId)] + [Look("")] + [CheckFound] + [Restore];
    actions := first + second;
    LeadsOn(p, Lone(s, who, releaseId, Publishing), first, u, second, t);
    LeftoverResolvesIff(p, u.releases, releaseId, complete, before, b, policy);
    PointerSelects(p, u.releases, releaseId);
  }

  // ---- every promotion can be interrupted that way ----

  lemma EntryElsewhere(p: Platform, directory: string, r: Reference, rel: Rel)
    requires Entry(p, directory, r).Some? && RelOf(p, directory, r) != rel
    ensures ContainedRelative(Entry(p, directory, r).value.path) != Some(rel)
  {
    LocateIsClean(Base(p, directory), r.path);
    hide ContainedRelative, Nameable, CleanPath, Locate;
    ContainedRoundTrip(RelOf(p, directory, r));
  }

  lemma SidecarIsNoDocument()
    ensures SIDECAR != BUNDLE && SIDECAR != REPORT && SIDECAR != MANIFEST
  {
    assert |BUNDLE| == 2 && |REPORT| == 2 && |SIDECAR| == 1;
    assert |SIDECAR[0]| == 20 && |MANIFEST[0]| == 21;
  }

  /** A manifest lists the references and the two documents. */
  lemma WrittenArtifact(p: Platform, directory: string, tree: Tree, b: Bundle, policy: Policy, a: Reference)
    requires BUNDLE in tree && REPORT in tree && ManifestFor(p, directory, tree, directory, b, policy).Some?
    requires a in ManifestFor(p, directory, tree, directory, b, policy).value.artifacts
    ensures || a.path == JoinSlash(BUNDLE) || a.path == JoinSlash(REPORT)
            || exists r :: r in b.references && Entry(p, directory, r) == Some(a)
  {
    hide Entry, PolicySha, Reproducibility.ToPayload, JoinSlash;
    var entries := Entries(p, directory, b.references).value;
    var all := WithDocuments(p, tree, entries);
    SameMembers(all, Sort(all, ByName));
    assert a in all;
    if a in entries {
      var i :| 0 <= i < |entries| && entries[i] == a;
      assert b.references[i] in b.references;
    }
  }

  /** No entry of a written manifest names the checksum sidecar, unless a reference does. */
  lemma SidecarUnlisted(p: Platform, directory: string, tree: Tree, after: Tree, b: Bundle, policy: Policy)
    requires ManifestWritten(p, directory, tree, after, b, policy)
    requires forall r :: r in b.references ==> RelOf(p, directory, r) != SIDECAR
    ensures Unlisted(after, SIDECAR)
  {
    hide ManifestOk, RelOf, Entry, ContainedRelative, ManifestFor, JoinSlash;
    SidecarIsNoDocument();
    DocumentPath(BUNDLE);
    DocumentPath(REPORT);
    var m := ManifestFor(p, directory, tree, directory, b, policy).value;
    assert ManifestOf(after) == Some(m);
    forall a | a in m.artifacts ensures ContainedRelative(a.path) != Some(SIDECAR) {
      WrittenArtifact(p, directory, tree, b, policy, a);
      if r :| r in b.references && Entry(p, directory, r) == Some(a) {
        EntryElsewhere(p, directory, r, SIDECAR);
      }
    }
  }

  lemma PlacedSidecar(p: Platform, job: Job, id: string, mid: Tree, paths: map<string, Rel>, tree: Tree, after: Tree)
    requires ValidJob(p, job) && StagedAs(p, job, mid, paths)
    requires Placed(p, id, tree, AddressedBundle(p, job, id, mid, paths), paths) && tree.Keys <= after.Keys
    requires forall name :: name in job.sources ==> TargetOf(name, job.sources[name]) != Some(SIDECAR)
    ensures SidecarOf(p, id, after, AddressedBundle(p, job, id, mid, paths)) == Some(SIDECAR)
    ensures forall r :: r in AddressedBundle(p, job, id, mid, paths).references ==> RelOf(p, id, r) != SIDECAR
  {
    hide ValidBundle, Locate, AbsolutePath, HexDigest, BundleUnder;
    var b := AddressedBundle(p, job, id, mid, paths);
    assert Names(b.references) == Names(job.evidence.references);
    BundleNamesDistinct(job.evidence);
    InElements(Names(b.references), "checkpoint");
    NamedReference(b.references, "checkpoint");
    SidecarOfCheckpoint();
    assert Staged(p, mid, paths, job.sources, "checkpoint");
    assert CHECKPOINT in after by { assert CHECKPOINT in tree.Keys; }
    forall r | r in b.references ensures RelOf(p, id, r) != SIDECAR {
      assert Staged(p, mid, paths, job.sources, r.name);
    }
  }

  lemma PublishingIsBeforeCommit(p: Platform, s: State, who: nat, id: string)
    requires Idle(s) && id in s.releases && Inv(p, Lone(s, who, id, Publishing))
    ensures BeforeCommit(p, Lone(s, who, id, Publishing), who, id)
  {
    hide Inv;
  }

  lemma CompletedDirectory(p: Platform, job: Job, id: string, mid: Tree, paths: map<string, Rel>, tree: Tree,
                           report: AcceptanceReport.Report, after: Tree)
    requires ValidPlatform(p) && CleanSegment(id) && ValidJob(p, job) && StagedAs(p, job, mid, paths)
    requires Load(p, id, tree) == Some(AddressedBundle(p, job, id, mid, paths))
    requires Placed(p, id, tree, AddressedBundle(p, job, id, mid, paths), paths)
    requires Accepted(p, id, tree, job.policy, report, after) && NoCollision(p, tree, after)
    requires forall name :: name in job.sources ==> TargetOf(name, job.sources[name]) != Some(SIDECAR)
    ensures Complete(p, id, after, WithReport(tree, report), AddressedBundle(p, job, id, mid, paths), job.policy)
  {
    hide Load, Gate, Deployable, ValidPlatform, CleanSegment, ValidJob, StagedAs, Placed, NoCollision, AddressedBundle,
      ManifestWritten, CheckpointAvailable, BundleUnder, SidecarOf, Unlisted, TargetOf, RelOf, AcceptanceReport.Passed,
      AcceptanceReport.WellFormed, Leftover;
    var b := AddressedBundle(p, job, id, mid, paths);
    CheckedIsLeftover(p, id, tree, b, job.policy, report, after);
    LateWritesKeep(p, id, tree, b, job.policy, report, after);
    PlacedSidecar(p, job, id, mid, paths, tree, after);
    SidecarUnlisted(p, id, WithReport(tree, report), after, b, job.policy);
  }

  lemma LateWritesKeep(p: Platform, id: string, tree: Tree, b: Bundle, policy: Policy,
                             report: AcceptanceReport.Report, after: Tree)
    requires Checked(p, id, tree, b, policy, report, after)
    ensures tree.Keys <= after.Keys && MANIFEST in after
  {
    hide Load, Gate, ManifestOk, ManifestFor, CheckpointAvailable, BundleUnder;
  }

  /** From every idle state that the protocol can reach, every promotion that would succeed can be
      interrupted so that the current pointer names its release and does not resolve, as long as no
      evidence is staged as the checkpoint's checksum sidecar. */
  lemma EveryPromotionCanStrand(p: Platform, s: State, who: nat, job: Job, staging: string, mid: Tree,
                                paths: map<string, Rel>)
    returns (actions: seq<Action>, t: State)
    requires ValidPlatform(p) && Inv(p, s) && Idle(s) && ValidJob(p, job) && Sourced(job)
    requires STAGING_PREFIX <= staging && CleanSegment(staging) && IdOf(p, job) !in Swept(s).releases
    requires StageAll(p, job.candidate, job.evidence.references, job.sources) == Done(mid, paths)
    requires StagedAs(p, job, mid, paths) && ToldApart(p, job, IdOf(p, job), mid, paths)
    requires !Refused(p, job, IdOf(p, job), staging)
    requires forall name :: name in job.sources ==> TargetOf(name, job.sources[name]) != Some(SIDECAR)
    ensures Leads(p, s, actions, t) && Inv(p, t)
    ensures References(t.pointer, IdOf(p, job)) && Resolve(p, t.releases, t.pointer).None?
  {
    hide StageAll, ValidPlatform, CleanSegment, ValidJob, Sourced, StagedAs, ToldApart, Refused, TargetOf, Inv, Leads,
      Placed, AddressedBundle, RenamedTree, Load, Accepted, NoCollision, FinishOf, Complete, References, Resolve,
      ReleaseName, IdOf, BeforeCommit, AcceptanceReport.ToPayload, ManifestOk;
    var id := IdOf(p, job);
    JobName(p, job, staging);
    ReleaseNameIsClean(id);
    var tree := RenamedTree(p, job, id, mid, paths);
    var report, after := PublishedFacts(p, job, id, staging, mid, paths);
    CompletedDirectory(p, job, id, mid, paths, tree, report, after);
    AcceptedTree(p, id, tree, job.policy, report, after);
    var first := PublishLeads(p, s, who, id, staging, tree, File(PRETTY, AcceptanceReport.ToPayload(report)),
                              after[MANIFEST]);
    var v := Holding(Swept(s), id, after);
    LeadsKeepsInv(p, s, first, Lone(v, who, id, Publishing));
    PublishingIsBeforeCommit(p, v, who, id);
    var second;
    second, t := InterruptedCleanupStrandsPointer(p, Lone(v, who, id, Publishing), who, id, WithReport(tree, report),
                                                  AddressedBundle(p, job, id, mid, paths), job.policy);
    actions := first + second;
    LeadsOn(p, s, first, Lone(v, who, id, Publishing), second, t);
    LeadsKeepsInv(p, s, actions, t);
  }
}
