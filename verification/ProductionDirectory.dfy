/** The production directory as an object: its release directories and its current pointer are
    fields that a promotion changes in place (release/model_release_publisher.py:304-553). */
module ProductionDirectory {
  import opened Text
  import opened Options
  import opened ReleaseStore
  import opened EvidenceBundle
  import opened ReleaseManifest
  import opened ReleaseValidation
  import opened ReleaseIdentity
  import opened FreshCommit
  import opened Publisher
  import AcceptanceReport

  /** Why a fresh promotion can fail: the candidate cannot be staged, or the renamed directory cannot
      be completed. */
  ghost predicate Refused(p: Platform, job: Job, releaseId: string, staging: string)
    requires ValidJob(p, job)
  {
    var preparation := PrepareOf(p, job, releaseId, staging);
    preparation.Rejected? || FinishOf(p, job, releaseId, preparation.tree).Incomplete?
  }

  /** The whole outcome of a fresh promotion: the directory and pointer it leaves, given those it
      found without staging directories. It succeeds exactly when nothing refuses it, unless two
      different files share a digest. */
  ghost predicate FreshOutcome(p: Platform, job: Job, releaseId: string, staging: string, found: map<string, Tree>,
                               pointer: Option<Bytes>, before: Tree, r: Result, releases: map<string, Tree>,
                               pointer': Option<Bytes>)
    requires ValidJob(p, job)
  {
    if r.Promoted? then
      && !Refused(p, job, releaseId, staging) && before == PrepareOf(p, job, releaseId, staging).tree
      && releaseId in releases && releases == found[releaseId := releases[releaseId]]
      && FinishOf(p, job, releaseId, before) == Complete(r.report, releases[releaseId])
      && Accepted(p, releaseId, before, job.policy, r.report, releases[releaseId])
      && MANIFEST in releases[releaseId]
      && pointer' == Some(PointerFor(p, releases[releaseId], releaseId))
      && Resolve(p, releases, pointer') == Some(releaseId)
    else
      || (Refused(p, job, releaseId, staging) && releases == found && pointer' == pointer)
      || (releaseId in releases && !NoCollision(p, before, releases[releaseId]))
  }

  /** The outcome of one promotion, given the directories left after the sweep. */
  ghost predicate PromotionOutcome(p: Platform, job: Job, staging: string, found: map<string, Tree>,
                                   pointer: Option<Bytes>, before: Tree, r: Result, releases: map<string, Tree>,
                                   pointer': Option<Bytes>)
    requires ValidJob(p, job)
  {
    var id := IdOf(p, job);
    if id in found then releases == found && (r, pointer') == Existing(p, found, pointer, id)
    else FreshOutcome(p, job, id, staging, found, pointer, before, r, releases, pointer')
  }

  class ProductionDirectory {
    const p: Platform
    var releases: map<string, Tree>
    var pointer: Option<Bytes>

    constructor (p: Platform, releases: map<string, Tree>, pointer: Option<Bytes>)
      ensures this.p == p && this.releases == releases && this.pointer == pointer
    {
      this.p, this.releases, this.pointer := p, releases, pointer;
    }

    /** `cleanup_staging_directories`, directory by directory. */
    method Sweep()
      modifies `releases
      ensures releases == WithoutStaging(old(releases))
    {
      var rest := set name | name in releases && STAGING_PREFIX <= name;
      while rest != {}
        invariant forall name :: name in releases <==>
          name in old(releases) && (STAGING_PREFIX <= name ==> name in rest)
        invariant forall name :: name in releases ==> releases[name] == old(releases)[name]
        invariant forall name :: name in rest ==> STAGING_PREFIX <= name
        decreases |rest|
      {
        var name :| name in rest;
        releases := releases - {name};
        rest := rest - {name};
      }
      assert releases == WithoutStaging(old(releases));
    }

    /** `_write_current_pointer`: afterwards the pointer references this release and no other, and it
        resolves exactly when the directory passes the validation its own manifest asks for. */
    method WriteCurrentPointer(releaseId: string)
      requires releaseId in releases && MANIFEST in releases[releaseId]
      modifies `pointer
      ensures pointer == Some(PointerFor(p, releases[releaseId], releaseId))
      ensures ReleaseName(releaseId) ==> forall other :: References(pointer, other) <==> other == releaseId
      ensures ValidPlatform(p) && ReleaseName(releaseId) && ManifestOk(p, releases[releaseId], releaseId) ==>
        Resolve(p, releases, pointer)
        == if OkAsRecorded(p, releaseId, releases[releaseId]) then Some(releaseId) else None
    {
      hide PointerFor, References, Resolve, OkAsRecorded, ManifestOk, ReleaseName, ValidPlatform;
      pointer := Some(PointerFor(p, releases[releaseId], releaseId));
      if ReleaseName(releaseId) {
        WrittenPointerMeans(p, releases, releaseId);
      }
    }

    /** `_load_existing_release`. */
    method LoadExisting(releaseId: string) returns (r: Result)
      requires releaseId in releases
      modifies `pointer
      ensures (r, pointer) == Existing(p, releases, old(pointer), releaseId)
    {
      hide ManifestOk, References, PointerFor, Resolve, AcceptanceReport.Load;
      var tree := releases[releaseId];
      var ok := ValidateManifest(p, tree, releaseId);
      if !ok || MANIFEST !in tree || REPORT !in tree {
        return Failed;
      }
      var report := AcceptanceReport.Load(tree[REPORT]);
      if report.None? {
        return Failed;
      }
      if !References(pointer, releaseId) {
        WriteCurrentPointer(releaseId);
      }
      if Resolve(p, releases, pointer) != Some(releaseId) {
        return Failed;
      }
      r := Promoted(report.value);
    }

    /** The end of a fresh promotion: the pointer is written and checked. It stays written when the
        check fails, and the check fails exactly when the directory does not pass the validation its
        own manifest asks for. */
    method Commit(releaseId: string, report: AcceptanceReport.Report) returns (r: Result)
      requires releaseId in releases && MANIFEST in releases[releaseId]
      modifies `pointer
      ensures pointer == Some(PointerFor(p, releases[releaseId], releaseId))
      ensures ReleaseName(releaseId) ==> forall other :: References(pointer, other) <==> other == releaseId
      ensures r == if Resolve(p, releases, pointer) == Some(releaseId) then Promoted(report) else Failed
      ensures ValidPlatform(p) && ReleaseName(releaseId) && ManifestOk(p, releases[releaseId], releaseId) ==>
        r == if OkAsRecorded(p, releaseId, releases[releaseId]) then Promoted(report) else Failed
    {
      hide PointerFor, References, Resolve, OkAsRecorded, ManifestOk, ReleaseName, ValidPlatform;
      WriteCurrentPointer(releaseId);
      r := if Resolve(p, releases, pointer) == Some(releaseId) then Promoted(report) else Failed;
    }

    /** The `finally` of the fresh path: whatever is not published is removed. */
    method Cleanup(staging: string, releaseId: string)
      modifies `releases
      ensures releases == old(releases) - ({staging} + if References(pointer, releaseId) then {} else {releaseId})
    {
      hide References;
      releases := releases - {staging};
      if !References(pointer, releaseId) {
        releases := releases - {releaseId};
      }
    }

    /** A fresh promotion, after the staging directories were swept and the release was found to
        be new. */
    method PromoteFresh(job: Job, releaseId: string, staging: string) returns (r: Result, ghost before: Tree)
      requires ValidPlatform(p) && ReleaseName(releaseId) && ValidJob(p, job)
      requires releaseId !in releases && staging !in releases && STAGING_PREFIX <= staging
      requires !References(pointer, releaseId)
      modifies this
      ensures FreshOutcome(p, job, releaseId, staging, old(releases), old(pointer), before, r, releases, pointer)
    {
      hide ReleaseName, References, NoCollision, Accepted, ValidPlatform, ValidJob, PointerFor, Resolve, Prepared,
        Renamed, PrepareOf, FinishOf;
      before := map[];
      releases := releases[staging := map[]];
      var preparation := Prepare(p, job, releaseId, staging);
      if preparation.Rejected? {
        Cleanup(staging, releaseId);
        assert releases == old(releases);
        return Failed, before;
      }
      releases := (releases - {staging})[releaseId := preparation.tree];
      before := preparation.tree;
      NotStagingName(releaseId, staging);
      ReadyIsPrepared(p, job, releaseId, staging);
      PreparedFacts(p, job, releaseId, preparation.mid, preparation.paths, preparation.tree);
      r := Publish(job, releaseId, staging, preparation.tree, old(releases));
    }

    /** From the renamed directory to the committed pointer, with the cleanup. */
    method Publish(job: Job, releaseId: string, staging: string, before: Tree, ghost found: map<string, Tree>)
      returns (r: Result)
      requires ValidPlatform(p) && ReleaseName(releaseId) && ValidJob(p, job) && job.policy.Valid()
      requires PrepareOf(p, job, releaseId, staging).Ready? && before == PrepareOf(p, job, releaseId, staging).tree
      requires releaseId !in found && staging !in found && releases == found[releaseId := before]
      requires staging != releaseId
      requires Renamed(p, releaseId, before, job.policy) && !References(pointer, releaseId)
      modifies this
      ensures FreshOutcome(p, job, releaseId, staging, found, old(pointer), before, r, releases, pointer)
    {
      hide ReleaseName, References, NoCollision, Accepted, ValidPlatform, PointerFor, Resolve, Renamed, ValidJob,
        PrepareOf, FinishOf, OkAsRecorded, ManifestOk, BundleUnder, ValidBundle, HexDigest;
      var done := Finish(p, job, releaseId, before);
      if done.Incomplete? {
        Cleanup(staging, releaseId);
        assert releases == found;
        return Failed;
      }
      CompleteIsAccepted(p, job, releaseId, before);
      releases := releases[releaseId := done.tree];
      AcceptedResolves(p, releases, releaseId, before, job.policy, done.report);
      r := Commit(releaseId, done.report);
      PointerReferences(p, releases, releaseId);
      ghost var committed := releases;
      Cleanup(staging, releaseId);
      assert releases == committed;
    }

    /** `_promote_under_lock`. A release directory that is already there is reused; otherwise the
        candidate is staged, published and committed. */
    method PromoteUnderLock(job: Job, staging: string) returns (r: Result, ghost before: Tree)
      requires ValidPlatform(p) && ValidJob(p, job) && STAGING_PREFIX <= staging
      requires References(pointer, IdOf(p, job)) ==> IdOf(p, job) in releases
      modifies this
      ensures PromotionOutcome(p, job, staging, WithoutStaging(old(releases)), old(pointer), before, r, releases,
                               pointer)
    {
      hide ReleaseName, References, ValidJob, ValidPlatform, Existing, FreshOutcome, IdOf;
      var id := IdOf(p, job);
      JobName(p, job, staging);
      Sweep();
      before := map[];
      if id in releases {
        r := LoadExisting(id);
      } else {
        StagingFree(old(releases), staging);
        r, before := PromoteFresh(job, id, staging);
      }
    }

    /** A client: once a promotion has succeeded, the same promotion again returns an equal report
        and changes neither a file nor the pointer. */
    method PromoteTwice(job: Job, staging: string, again: string)
      returns (first: Result, second: Result, ghost published: map<string, Tree>, ghost current: Option<Bytes>)
      requires ValidPlatform(p) && ValidJob(p, job) && STAGING_PREFIX <= staging && STAGING_PREFIX <= again
      requires References(pointer, IdOf(p, job)) ==> IdOf(p, job) in releases
      modifies this
      ensures first.Promoted? ==> second == first && releases == published && pointer == current
    {
      hide References, ValidJob, ValidPlatform, Existing, FreshOutcome, IdOf;
      ghost var id := IdOf(p, job);
      ghost var found := WithoutStaging(releases);
      ghost var was := pointer;
      ghost var before: Tree;
      first, before := PromoteUnderLock(job, staging);
      published, current := releases, pointer;
      if !first.Promoted? {
        return first, first, published, current;
      }
      PromotedAgain(p, job, staging, found, was, before, first, releases, pointer);
      second, before := PromoteUnderLock(job, again);
    }
  }

  lemma JobName(p: Platform, job: Job, staging: string)
    requires ValidPlatform(p) && ValidJob(p, job) && STAGING_PREFIX <= staging
    ensures ReleaseName(IdOf(p, job)) && staging != IdOf(p, job) && !(STAGING_PREFIX <= IdOf(p, job))
  {
    assert HexDigest(EvidenceDigest(p, job.evidence));
    hide ValidBundle, HexDigest, BundleUnder, Nameable;
    ReleaseIdIsName(job.checkpointSha, job.metricsSha, EvidenceDigest(p, job.evidence));
    NotStagingName(IdOf(p, job), staging);
  }

  lemma StagingFree(releases: map<string, Tree>, staging: string)
    requires STAGING_PREFIX <= staging
    ensures staging !in WithoutStaging(releases)
  {}

  lemma AcceptedHasManifest(p: Platform, releaseId: string, before: Tree, policy: Policy,
                            report: AcceptanceReport.Report, after: Tree)
    requires Accepted(p, releaseId, before, policy, report, after)
    ensures MANIFEST in after
  {
    hide Gate, ManifestOk, Load, CheckpointAvailable, BundleUnder, ManifestFor;
  }

  lemma AcceptedResolves(p: Platform, releases: map<string, Tree>, releaseId: string, before: Tree, policy: Policy,
                         report: AcceptanceReport.Report)
    requires ValidPlatform(p) && ReleaseName(releaseId) && releaseId in releases
    requires Accepted(p, releaseId, before, policy, report, releases[releaseId])
    ensures MANIFEST in releases[releaseId]
    ensures NoCollision(p, before, releases[releaseId]) ==>
      Resolve(p, releases, Some(PointerFor(p, releases[releaseId], releaseId))) == Some(releaseId)
  {
    AcceptedHasManifest(p, releaseId, before, policy, report, releases[releaseId]);
    var b := Load(p, releaseId, before).value;
    hide ReleaseName, Checked, NoCollision, PointerFor, Resolve, Load, ValidPlatform;
    if NoCollision(p, before, releases[releaseId]) {
      FreshCommitResolves(p, releases, releaseId, before, b, policy, report);
    }
  }

  lemma PointerReferences(p: Platform, releases: map<string, Tree>, releaseId: string)
    requires ReleaseName(releaseId) && releaseId in releases && MANIFEST in releases[releaseId]
    ensures References(Some(PointerFor(p, releases[releaseId], releaseId)), releaseId)
  {
    PointerSelects(p, releases, releaseId);
    hide References, ReleaseName, PointerFor;
  }

  lemma NotStagingName(releaseId: string, staging: string)
    requires ReleaseName(releaseId) && STAGING_PREFIX <= staging
    ensures staging != releaseId
  {
    hide Nameable;
  }

  lemma PreparedFacts(p: Platform, job: Job, releaseId: string, mid: Tree, paths: map<string, Rel>, tree: Tree)
    requires ValidPlatform(p) && ReleaseName(releaseId) && ValidJob(p, job)
    requires Prepared(p, job, releaseId, mid, paths, tree)
    ensures Renamed(p, releaseId, tree, job.policy) && job.policy.Valid()
  {
    ReleaseNameIsClean(releaseId);
    PreparedIsRenamed(p, job, releaseId, mid, paths, tree);
    hide Prepared, Renamed, ReleaseName, ValidPlatform, ValidBundle, BundleUnder;
  }

  // ---- repeating a promotion ----

  lemma ReportStored(p: Platform, releaseId: string, before: Tree, policy: Policy, report: AcceptanceReport.Report,
                     after: Tree)
    requires Accepted(p, releaseId, before, policy, report, after)
    ensures REPORT in after && after[REPORT] == File(PRETTY, AcceptanceReport.ToPayload(report))
    ensures ManifestOk(p, after, releaseId)
  {
    DocumentsDiffer();
    hide Gate, ManifestOk, Load, CheckpointAvailable, BundleUnder, ManifestFor, AcceptanceReport.ToPayload;
  }

  /** A promotion that succeeded, repeated: the directory is reused as it is, the pointer stays,
      and the report read back from disk is the report of the first time. */
  lemma RepeatIsIdempotent(p: Platform, job: Job, releaseId: string, staging: string, found: map<string, Tree>,
                           pointer: Option<Bytes>, before: Tree, r: Result, releases: map<string, Tree>,
                           pointer': Option<Bytes>)
    requires ValidJob(p, job) && ReleaseName(releaseId) && r.Promoted?
    requires FreshOutcome(p, job, releaseId, staging, found, pointer, before, r, releases, pointer')
    ensures Existing(p, releases, pointer', releaseId) == (r, pointer')
  {
    ReportStored(p, releaseId, before, job.policy, r.report, releases[releaseId]);
    AcceptanceReport.ReportRoundTrip(r.report, PRETTY);
    AcceptedPasses(p, releaseId, before, job.policy, r.report, releases[releaseId]);
    PointerReferences(p, releases, releaseId);
    hide Accepted, ManifestOk, References, PointerFor, Resolve, AcceptanceReport.Load, AcceptanceReport.ToPayload,
      AcceptanceReport.WellFormed, AcceptanceReport.Passed, ReleaseName;
  }

  lemma AcceptedPasses(p: Platform, releaseId: string, before: Tree, policy: Policy, report: AcceptanceReport.Report,
                       after: Tree)
    requires Accepted(p, releaseId, before, policy, report, after)
    ensures AcceptanceReport.Passed(report) && AcceptanceReport.WellFormed(report)
  {
    hide AcceptanceReport.WellFormed, Gate, ManifestOk, Load, CheckpointAvailable, BundleUnder, ManifestFor;
  }

  /** A retry that succeeded, repeated. */
  lemma RetryIsIdempotent(p: Platform, releases: map<string, Tree>, pointer: Option<Bytes>, releaseId: string)
    requires ReleaseName(releaseId) && releaseId in releases
    requires Existing(p, releases, pointer, releaseId).0.Promoted?
    ensures var (r, pointer') := Existing(p, releases, pointer, releaseId);
      Existing(p, releases, pointer', releaseId) == (r, pointer')
  {
    if MANIFEST in releases[releaseId] {
      PointerReferences(p, releases, releaseId);
    }
    hide ManifestOk, References, PointerFor, Resolve, AcceptanceReport.Load, ReleaseName;
  }

  // ---- what a retry does with the pointer ----

  /** The stored report, when the file is there and loads. */
  function StoredReport(tree: Tree): Option<AcceptanceReport.Report> {
    if REPORT in tree then AcceptanceReport.Load(tree[REPORT]) else None
  }

  /** A retry of a directory that can be read leaves a pointer that references it and no other. It
      succeeds when the directory is as valid as its manifest asks, if the pointer had to be written,
      and when the pointer resolves to it, if the pointer referenced it already. A directory that
      cannot be read changes nothing. */
  lemma RetrySettles(p: Platform, releases: map<string, Tree>, pointer: Option<Bytes>, releaseId: string)
    requires ValidPlatform(p) && ReleaseName(releaseId) && releaseId in releases
    ensures var (r, pointer'), tree := Existing(p, releases, pointer, releaseId), releases[releaseId];
      if !ManifestOk(p, tree, releaseId) || StoredReport(tree).None? then r == Failed && pointer' == pointer
      else
        var settled := if References(pointer, releaseId) then Resolve(p, releases, pointer) == Some(releaseId)
                       else OkAsRecorded(p, releaseId, tree);
        && References(pointer', releaseId) && (References(pointer, releaseId) ==> pointer' == pointer)
        && r == if settled then Promoted(StoredReport(tree).value) else Failed
  {
    hide ManifestOk, References, PointerFor, Resolve, AcceptanceReport.Load, ReleaseName, OkAsRecorded, ValidPlatform;
    var tree := releases[releaseId];
    if ManifestOk(p, tree, releaseId) {
      ManifestPresent(p, tree, releaseId);
      WrittenPointerMeans(p, releases, releaseId);
    }
  }

  /** Over a directory as valid as its manifest asks, with a report that loads, a retry succeeds exactly
      when the pointer does not reference the directory yet or resolves to it. */
  lemma RetrySucceedsIff(p: Platform, releases: map<string, Tree>, pointer: Option<Bytes>, releaseId: string)
    requires ValidPlatform(p) && ReleaseName(releaseId) && releaseId in releases
    requires OkAsRecorded(p, releaseId, releases[releaseId]) && StoredReport(releases[releaseId]).Some?
    ensures Existing(p, releases, pointer, releaseId).0.Promoted?
      <==> !References(pointer, releaseId) || Resolve(p, releases, pointer) == Some(releaseId)
  {
    RetrySettles(p, releases, pointer, releaseId);
    hide ManifestOk, References, Resolve, AcceptanceReport.Load, ReleaseName, Deployable, Existing;
  }

  /** A pointer document of another version that names the directory is not replaced: the retry of a
      directory in perfect order fails and leaves it. */
  lemma StalePointerStays(p: Platform, releases: map<string, Tree>, releaseId: string)
    requires ValidPlatform(p) && ReleaseName(releaseId) && releaseId in releases
    requires OkAsRecorded(p, releaseId, releases[releaseId]) && StoredReport(releases[releaseId]).Some?
    ensures var stale := Some(File(PRETTY, PointerDocument("", releaseId, JoinSlash([RELEASES, releaseId]), "", "")));
      Existing(p, releases, stale, releaseId) == (Failed, stale)
  {
    hide ManifestOk, References, AcceptanceReport.Load, ReleaseName, Deployable, Existing, Resolve, JoinSlash,
      ValidPlatform, StoredReport;
    var stale := Some(File(PRETTY, PointerDocument("", releaseId, JoinSlash([RELEASES, releaseId]), "", "")));
    StaleSelectsNothing(p, releases, releaseId);
    RetrySettles(p, releases, stale, releaseId);
  }

  lemma StaleSelectsNothing(p: Platform, releases: map<string, Tree>, releaseId: string)
    requires ReleaseName(releaseId)
    ensures var stale := Some(File(PRETTY, PointerDocument("", releaseId, JoinSlash([RELEASES, releaseId]), "", "")));
      References(stale, releaseId) && Resolve(p, releases, stale).None?
  {
    DirectoryPathReads(releaseId);
    hide ContainedRelative, JoinSlash, Blank, Nameable, PointedManifest, PolicyFrom, DirectoryOk;
  }

  /** A successful promotion leaves a directory whose retry succeeds with the same report. */
  lemma PromotedAgain(p: Platform, job: Job, staging: string, found: map<string, Tree>, was: Option<Bytes>,
                      before: Tree, r: Result, releases: map<string, Tree>, pointer: Option<Bytes>)
    requires ValidPlatform(p) && ValidJob(p, job) && NoStaging(found) && r.Promoted?
    requires PromotionOutcome(p, job, staging, found, was, before, r, releases, pointer)
    ensures IdOf(p, job) in releases && WithoutStaging(releases) == releases
    ensures Existing(p, releases, pointer, IdOf(p, job)) == (r, pointer)
  {
    var id := IdOf(p, job);
    JobName(p, job, STAGING_PREFIX);
    hide Existing, ValidJob, ValidPlatform, IdOf, ReleaseName;
    if id in found {
      RetryIsIdempotent(p, found, was, id);
      SweptAlready(found);
    } else {
      PromotedIsListed(p, job, id, staging, found, was, before, r, releases, pointer);
      RepeatIsIdempotent(p, job, id, staging, found, was, before, r, releases, pointer);
    }
  }

  lemma SweptAlready(releases: map<string, Tree>)
    requires NoStaging(releases)
    ensures WithoutStaging(releases) == releases
  {}

  lemma PromotedIsListed(p: Platform, job: Job, id: string, staging: string, found: map<string, Tree>,
                         was: Option<Bytes>, before: Tree, r: Result, releases: map<string, Tree>,
                         pointer: Option<Bytes>)
    requires ValidJob(p, job) && ReleaseName(id) && NoStaging(found) && r.Promoted?
    requires FreshOutcome(p, job, id, staging, found, was, before, r, releases, pointer)
    ensures id in releases && WithoutStaging(releases) == releases
  {
    hide Accepted, Nameable, Resolve, PointerFor;
    assert NoStaging(releases);
    SweptAlready(releases);
  }
}
