/** The promotion methods are runs of the protocol: whatever `PromoteUnderLock` leaves behind, the
    state machine of the promoters can leave behind too, so its invariant covers the methods
    (release/model_release_publisher.py:304-553). */
module PromotionRefinement {
  import opened Options
  import opened ReleaseStore
  import opened ReleaseManifest
  import opened ReleaseValidation
  import opened Publisher
  import opened ProductionDirectory
  import opened PromotionProtocol
  import opened PromotionRuns
  import AcceptanceReport

  // ---- repeated actions ----

  function Swept(s: State): State { s.(releases := WithoutStaging(s.releases)) }

  lemma {:induction false} SweepLeads(p: Platform, s: State, who: nat, id: string) returns (actions: seq<Action>)
    ensures Leads(p, Lone(s, who, id, Sweeping), actions, Lone(Swept(s), who, id, Sweeping))
    decreases |s.releases|
  {
    hide Next;
    if name :| name in s.releases && STAGING_PREFIX <= name {
      var t := s.(releases := s.releases - {name});
      SweepMoves(p, s, who, id, name);
      LeadsOne(p, Lone(s, who, id, Sweeping), Action.Sweep(name, {}, true), Lone(t, who, id, Sweeping));
      assert Swept(t) == Swept(s);
      var rest := SweepLeads(p, t, who, id);
      actions := [Action.Sweep(name, {}, true)] + rest;
      hide Leads;
      LeadsOn(p, Lone(s, who, id, Sweeping), [Action.Sweep(name, {}, true)], Lone(t, who, id, Sweeping), rest,
              Lone(Swept(s), who, id, Sweeping));
    } else {
      assert WithoutStaging(s.releases) == s.releases;
      actions := [];
    }
  }

  lemma {:induction false} CopyLeads(p: Platform, s: State, who: nat, id: string, staging: string, tree: Tree)
    returns (actions: seq<Action>)
    ensures Leads(p, Lone(Holding(s, staging, map[]), who, id, Staging(staging)), actions,
                  Lone(Holding(s, staging, tree), who, id, Staging(staging)))
    decreases |tree|
  {
    hide Next;
    if rel :| rel in tree {
      var before := tree - {rel};
      var first := CopyLeads(p, s, who, id, staging, before);
      assert before[rel := tree[rel]] == tree;
      CopyMoves(p, s, who, id, staging, before, rel, tree[rel]);
      actions := first + [Copy(rel, tree[rel])];
      hide Leads;
      Then(p, Lone(Holding(s, staging, map[]), who, id, Staging(staging)), first,
           Lone(Holding(s, staging, before), who, id, Staging(staging)), Copy(rel, tree[rel]),
           Lone(Holding(s, staging, tree), who, id, Staging(staging)));
    } else {
      assert tree == map[];
      actions := [];
    }
  }

  // ---- the three kinds of promotion ----

  /** The directories and the pointer that a promotion leaves are those of an idle state. */
  ghost predicate Matches(s: State, releases: map<string, Tree>, pointer: Option<Bytes>) {
    Idle(s) && s.releases == releases && s.pointer == pointer
  }

  lemma StartLeads(p: Platform, s: State, who: nat, id: string) returns (actions: seq<Action>)
    requires Idle(s) && ReleaseName(id)
    ensures Leads(p, s, actions, Lone(Swept(s), who, id, Sweeping))
  {
    hide Next, Leads, ReleaseName;
    AcquireMoves(p, s, who, id);
    LeadsOne(p, s, Acquire(who, id), Lone(s, who, id, Sweeping));
    var sweeps := SweepLeads(p, s, who, id);
    actions := [Acquire(who, id)] + sweeps;
    LeadsOn(p, s, [Acquire(who, id)], Lone(s, who, id, Sweeping), sweeps, Lone(Swept(s), who, id, Sweeping));
  }

  /** A promotion that fails before it publishes. */
  lemma FailureLeads(p: Platform, s: State, who: nat, id: string) returns (actions: seq<Action>)
    requires Idle(s) && ReleaseName(id)
    ensures Leads(p, s, actions, Swept(s))
  {
    hide Next, Leads, ReleaseName;
    var start := StartLeads(p, s, who, id);
    var t := Swept(s);
    RaiseMoves(p, t, who, id, Sweeping);
    Then(p, s, start, Lone(t, who, id, Sweeping), Raise, Lone(t, who, id, Leaving));
    ReleaseMoves(p, t, who, id, Leaving);
    actions := start + [Raise] + [Release];
    Then(p, s, start + [Raise], Lone(t, who, id, Leaving), Release, t);
  }

  /** A promotion that finds its release directory. */
  lemma RetryLeads(p: Platform, s: State, who: nat, id: string) returns (actions: seq<Action>, t: State)
    requires Idle(s) && ReleaseName(id) && id in Swept(s).releases
    ensures Leads(p, s, actions, t) && Matches(t, Swept(s).releases, Existing(p, Swept(s).releases, s.pointer, id).1)
  {
    hide Next, Leads, ReleaseName, ManifestOk, References, PointerFor, Resolve, AcceptanceReport.Load;
    var u := Swept(s);
    var tree := u.releases[id];
    var readable := REPORT in tree && AcceptanceReport.Load(tree[REPORT]).Some?;
    if !ManifestOk(p, tree, id) || !readable || MANIFEST !in tree {
      actions := FailureLeads(p, s, who, id);
      t := u;
    } else {
      var start := StartLeads(p, s, who, id);
      LookMoves(p, u, who, id, "");
      Then(p, s, start, Lone(u, who, id, Sweeping), Look(""), Lone(u, who, id, Found));
      ValidateMoves(p, u, who, id);
      Then(p, s, start + [Look("")], Lone(u, who, id, Found), CheckFound, Lone(u, who, id, FoundValid));
      RestoreMoves(p, u, who, id);
      t := if References(u.pointer, id) then u else Pointed(p, u, id);
      Then(p, s, start + [Look("")] + [CheckFound], Lone(u, who, id, FoundValid), Restore, Lone(t, who, id, Leaving));
      ReleaseMoves(p, t, who, id, Leaving);
      actions := start + [Look("")] + [CheckFound] + [Restore] + [Release];
      Then(p, s, start + [Look("")] + [CheckFound] + [Restore], Lone(t, who, id, Leaving), Release, t);
    }
  }

  /** From the lock to a complete directory that is not yet validated. */
  lemma PublishLeads(p: Platform, s: State, who: nat, id: string, staging: string, before: Tree, report: Bytes,
                     manifest: Bytes)
    returns (actions: seq<Action>)
    requires Idle(s) && ReleaseName(id) && id !in Swept(s).releases && STAGING_PREFIX <= staging && staging != id
    ensures Leads(p, s, actions,
                  Lone(Holding(Swept(s), id, before[REPORT := report][MANIFEST := manifest]), who, id, Publishing))
  {
    hide Next, Leads, ReleaseName;
    var start := StartLeads(p, s, who, id);
    var u := Swept(s);
    StagingFree(s.releases, staging);
    LookMoves(p, u, who, id, staging);
    Then(p, s, start, Lone(u, who, id, Sweeping), Look(staging),
         Lone(Holding(u, staging, map[]), who, id, Staging(staging)));
    var copies := CopyLeads(p, u, who, id, staging, before);
    LeadsOn(p, s, start + [Look(staging)], Lone(Holding(u, staging, map[]), who, id, Staging(staging)), copies,
            Lone(Holding(u, staging, before), who, id, Staging(staging)));
    actions := start + [Look(staging)] + copies;
    RenameMoves(p, u, who, id, staging, before);
    Then(p, s, actions, Lone(Holding(u, staging, before), who, id, Staging(staging)), Rename,
         Lone(Holding(u, id, before), who, id, Publishing));
    WriteMoves(p, u, who, id, before, REPORT, report);
    Then(p, s, actions + [Rename], Lone(Holding(u, id, before), who, id, Publishing), Write(REPORT, report),
         Lone(Holding(u, id, before[REPORT := report]), who, id, Publishing));
    WriteMoves(p, u, who, id, before[REPORT := report], MANIFEST, manifest);
    Then(p, s, actions + [Rename] + [Write(REPORT, report)],
         Lone(Holding(u, id, before[REPORT := report]), who, id, Publishing), Write(MANIFEST, manifest),
         Lone(Holding(u, id, before[REPORT := report][MANIFEST := manifest]), who, id, Publishing));
    actions := actions + [Rename] + [Write(REPORT, report)] + [Write(MANIFEST, manifest)];
  }

  /** From there to the resolved pointer. */
  lemma CommitLeads(p: Platform, s: State, who: nat, id: string) returns (actions: seq<Action>)
    requires Idle(s) && id in s.releases && MANIFEST in s.releases[id] && ManifestOk(p, s.releases[id], id)
    requires Resolve(p, s.releases, Some(PointerFor(p, s.releases[id], id))) == Some(id)
    ensures Leads(p, Lone(s, who, id, Publishing), actions, Pointed(p, s, id))
  {
    hide Next, Leads, ReleaseName, ManifestOk, Resolve, PointerFor;
    var t := Pointed(p, s, id);
    ValidateMoves(p, s, who, id);
    LeadsOne(p, Lone(s, who, id, Publishing), Validate, Lone(s, who, id, Phase.Validated));
    CommitMoves(p, s, who, id);
    Then(p, Lone(s, who, id, Publishing), [Validate], Lone(s, who, id, Phase.Validated), Action.Commit,
         Lone(t, who, id, Committed));
    ConfirmMoves(p, t, who, id);
    Then(p, Lone(s, who, id, Publishing), [Validate] + [Action.Commit], Lone(t, who, id, Committed), Confirm,
         Lone(t, who, id, Cleaning("")));
    ReleaseMoves(p, t, who, id, Cleaning(""));
    actions := [Validate] + [Action.Commit] + [Confirm] + [Release];
    Then(p, Lone(s, who, id, Publishing), [Validate] + [Action.Commit] + [Confirm], Lone(t, who, id, Cleaning("")),
         Release, t);
  }

  lemma AcceptedTree(p: Platform, id: string, before: Tree, policy: Policy, report: AcceptanceReport.Report,
                     after: Tree)
    requires Accepted(p, id, before, policy, report, after)
    ensures MANIFEST in after && ManifestOk(p, after, id)
    ensures after == before[REPORT := File(PRETTY, AcceptanceReport.ToPayload(report))][MANIFEST := after[MANIFEST]]
  {
    hide Gate, ManifestOk, EvidenceBundle.Load, CheckpointAvailable, BundleUnder, ManifestFor,
      AcceptanceReport.ToPayload;
  }

  /** Whatever one call of `PromoteUnderLock` can leave behind, a run of the protocol by one promoter
      leaves behind, provided the digests of the release's files do not collide. */
  lemma PromotionIsARun(p: Platform, job: Job, s: State, who: nat, staging: string, before: Tree, r: Result,
                        releases: map<string, Tree>, pointer: Option<Bytes>)
    returns (actions: seq<Action>, t: State)
    requires Idle(s) && ReleaseName(IdOf(p, job)) && STAGING_PREFIX <= staging && staging != IdOf(p, job)
    requires ValidJob(p, job)
    requires PromotionOutcome(p, job, staging, WithoutStaging(s.releases), s.pointer, before, r, releases, pointer)
    requires IdOf(p, job) in releases && !r.Promoted? ==> NoCollision(p, before, releases[IdOf(p, job)])
    ensures Leads(p, s, actions, t) && Matches(t, releases, pointer)
  {
    hide Next, Leads, ReleaseName, ManifestOk, Resolve, PointerFor, IdOf, Existing, Accepted, NoCollision, Refused,
      ValidJob, FinishOf, PrepareOf;
    var id, u := IdOf(p, job), Swept(s);
    if id in u.releases {
      actions, t := RetryLeads(p, s, who, id);
    } else if !r.Promoted? {
      actions := FailureLeads(p, s, who, id);
      t := u;
    } else {
      var after := releases[id];
      AcceptedTree(p, id, before, job.policy, r.report, after);
      var publish := PublishLeads(p, s, who, id, staging, before, File(PRETTY, AcceptanceReport.ToPayload(r.report)),
                                  after[MANIFEST]);
      var v := Holding(u, id, after);
      var commit := CommitLeads(p, v, who, id);
      actions, t := publish + commit, Pointed(p, v, id);
      LeadsOn(p, s, publish, Lone(v, who, id, Publishing), commit, t);
    }
  }

  /** So every promotion method keeps the protocol's invariant, and with it the releases that the
      pointer has named. */
  lemma PromotionKeepsInv(p: Platform, job: Job, s: State, staging: string, before: Tree, r: Result,
                          releases: map<string, Tree>, pointer: Option<Bytes>) returns (t: State)
    requires Inv(p, s) && Idle(s) && ReleaseName(IdOf(p, job)) && STAGING_PREFIX <= staging && staging != IdOf(p, job)
    requires ValidJob(p, job)
    requires PromotionOutcome(p, job, staging, WithoutStaging(s.releases), s.pointer, before, r, releases, pointer)
    requires IdOf(p, job) in releases && !r.Promoted? ==> NoCollision(p, before, releases[IdOf(p, job)])
    ensures Inv(p, t) && Matches(t, releases, pointer)
    ensures forall name :: name in s.named ==> name in releases && releases[name] == s.releases[name]
  {
    hide Leads, ReleaseName, IdOf, PromotionOutcome, NoCollision, Matches, ValidJob;
    var actions;
    actions, t := PromotionIsARun(p, job, s, 0, staging, before, r, releases, pointer);
    hide Inv;
    LeadsKeepsInv(p, s, actions, t);
    LeadsKeepsNamed(p, s, actions, t);
    NamedInPlace(p, s, t, releases, pointer);
  }

  lemma {:induction false} LeadsKeepsNamed(p: Platform, s: State, actions: seq<Action>, t: State)
    requires Inv(p, s) && Leads(p, s, actions, t)
    ensures forall name :: name in s.named ==> name in t.named && t.named[name] == s.named[name]
    decreases |actions|
  {
    hide Next, Inv;
    if actions != [] {
      var u := Next(p, s, actions[0]).value;
      StepKeepsInv(p, s, actions[0]);
      forall name | name in s.named ensures name in u.named && u.named[name] == s.named[name] {
        NamedStep(p, s, actions[0], name);
      }
      LeadsKeepsNamed(p, u, actions[1..], t);
    }
  }

  lemma NamedInPlace(p: Platform, s: State, t: State, releases: map<string, Tree>, pointer: Option<Bytes>)
    requires Inv(p, s) && Inv(p, t) && Matches(t, releases, pointer)
    requires forall name :: name in s.named ==> name in t.named && t.named[name] == s.named[name]
    ensures forall name :: name in s.named ==> name in releases && releases[name] == s.releases[name]
  {
    hide ManifestOk, ReleaseName, PointerOk, PhaseOk;
  }

  /** In every reachable state the retry of a directory as valid as its manifest asks, with a report
      that loads, succeeds, and leaves a pointer that resolves to it: a stale pointer that already
      names the directory never arises there. */
  lemma RetryRestores(p: Platform, s: State, id: string)
    requires ValidPlatform(p) && Inv(p, s) && ReleaseName(id) && id in s.releases
    requires OkAsRecorded(p, id, s.releases[id]) && StoredReport(s.releases[id]).Some?
    ensures var (r, pointer') := Existing(p, s.releases, s.pointer, id);
      && r == Promoted(StoredReport(s.releases[id]).value)
      && References(pointer', id) && Resolve(p, s.releases, pointer') == Some(id)
  {
    hide ValidPlatform, ManifestOk, References, Resolve, PointerFor, ReleaseName, StoredReport, PhaseOk, Deployable;
    RetrySettles(p, s.releases, s.pointer, id);
    if References(s.pointer, id) {
      ReferencedResolves(p, s, id);
    }
    hide Inv, OkAsRecorded;
  }

  lemma ReferencedResolves(p: Platform, s: State, id: string)
    requires ValidPlatform(p) && Inv(p, s) && ReleaseName(id) && id in s.releases
    requires OkAsRecorded(p, id, s.releases[id]) && References(s.pointer, id)
    ensures Resolve(p, s.releases, s.pointer) == Some(id)
  {
    hide ValidPlatform, ManifestOk, Resolve, PointerFor, ReleaseName, PhaseOk, Deployable, ContainedRelative;
    assert s.pointer.Some?;
    var named :| named in s.named && MANIFEST in s.named[named]
                 && s.pointer == Some(PointerFor(p, s.named[named], named));
    hide References;
    WrittenPointerMeans(p, s.releases, named);
  }
}
