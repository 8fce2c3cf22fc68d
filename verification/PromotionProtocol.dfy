/** Any number of promoters of one production directory, as a state machine
    (release/model_release_publisher.py:304-553). Every action is one file-system primitive of
    the process that holds the promotion lock; a process may raise or crash between any two of
    them, a crash drops the lock and keeps the files, and every removal may stop half way. What
    is copied into a staging directory or written into an unpublished release is arbitrary. */
module PromotionProtocol {
  import opened Options
  import opened ReleaseStore
  import opened ReleaseManifest
  import opened ReleaseValidation

  datatype Phase =
    | Sweeping                          // lock acquired, old staging directories are being removed
    | Staging(directory: string)        // candidate files are being copied
    | Publishing                        // renamed; report and manifest are being written
    | Validated                         // the manifest has just validated
    | Committed                         // the pointer has been replaced
    | Found                             // the release directory was already there
    | FoundValid                        // and its manifest validates
    | Cleaning(directory: string)       // the `finally` of the fresh path
    | Leaving                           // about to give the lock back

  datatype Promoter = Promoter(releaseId: string, phase: Phase)

  /** `named` remembers every release the pointer has named, as it was when first named. */
  datatype State = State(
    releases: map<string, Tree>,
    pointer: Option<Bytes>,
    holder: Option<nat>,
    active: map<nat, Promoter>,
    named: map<string, Tree>)

  datatype Action =
    | Acquire(who: nat, releaseId: string)
    | Refuse(who: nat)
    | Sweep(name: string, files: set<Rel>, whole: bool)
    | Look(staging: string)
    | Copy(rel: Rel, bytes: Bytes)
    | Rename
    | Write(rel: Rel, bytes: Bytes)
    | Unlink(rel: Rel)
    | Validate
    | Commit
    | Raise
    | Confirm
    | CheckFound
    | Restore
    | RemoveStaging(files: set<Rel>, whole: bool)
    | RemoveRelease(files: set<Rel>, whole: bool)
    | Release
    | Crash(who: nat)

  predicate Initial(s: State) {
    s.pointer.None? && s.holder.None? && s.active == map[] && s.named == map[]
  }

  /** The directories after some or all of one of them has been removed. */
  function Removed(releases: map<string, Tree>, name: string, files: set<Rel>, whole: bool): map<string, Tree> {
    if name !in releases then releases
    else if whole then releases - {name}
    else releases[name := releases[name] - files]
  }

  /** The running promoter. */
  function Holder(s: State): Option<Promoter> {
    if s.holder.Some? && s.holder.value in s.active then Some(s.active[s.holder.value]) else None
  }

  function At(s: State, phase: Phase): State
    requires Holder(s).Some?
  {
    s.(active := s.active[s.holder.value := Holder(s).value.(phase := phase)])
  }

  /** `_write_current_pointer`: the pointer is replaced at once by one for this directory. */
  function Pointed(p: Platform, s: State, releaseId: string): State
    requires releaseId in s.releases && MANIFEST in s.releases[releaseId]
  {
    s.(pointer := Some(PointerFor(p, s.releases[releaseId], releaseId)),
       named := s.named[releaseId := s.releases[releaseId]])
  }

  /** The pointer written by the holder, which then moves on. */
  function PointedAt(p: Platform, s: State, phase: Phase): State
    requires Holder(s).Some?
  {
    var id := Holder(s).value.releaseId;
    if id in s.releases && MANIFEST in s.releases[id] then At(Pointed(p, s, id), phase) else s
  }

  /** Where an exception leads: the fresh path goes through its `finally`. */
  function Unwinding(phase: Phase): Phase {
    match phase
    case Staging(directory) => Cleaning(directory)
    case Publishing => Cleaning("")
    case Validated => Cleaning("")
    case Committed => Cleaning("")
    case Cleaning(directory) => Cleaning(directory)
    case _ => Leaving
  }

  function Next(p: Platform, s: State, a: Action): Option<State> {
    match a
    case Acquire(who, releaseId) =>
      if s.holder.None? && who !in s.active && ReleaseName(releaseId) then
        Some(s.(holder := Some(who), active := s.active[who := Promoter(releaseId, Sweeping)]))
      else None
    case Refuse(who) => if s.holder.Some? && s.holder.value != who then Some(s) else None
    case Crash(who) =>
      if who in s.active then
        Some(s.(active := s.active - {who}, holder := if s.holder == Some(who) then None else s.holder))
      else None
    case _ => if Holder(s).Some? then Work(p, s, Holder(s).value, a) else None
  }

  /** The moves of the lock holder that only decide how it goes on. */
  predicate Moves(a: Action) {
    a.Validate? || a.Confirm? || a.CheckFound? || a.Raise?
  }

  /** The moves that write or remove files of a directory. */
  predicate Touches(a: Action) {
    a.Sweep? || a.Copy? || a.Rename? || a.Write? || a.Unlink? || a.RemoveStaging? || a.RemoveRelease?
  }

  /** One step of the promoter that holds the lock. */
  function Work(p: Platform, s: State, promoter: Promoter, a: Action): Option<State>
    requires Holder(s) == Some(promoter)
  {
    if Moves(a) then Move(p, s, promoter, a)
    else if Touches(a) then Touch(s, promoter, a)
    else
      match a
      case Look(staging) => LookUp(s, promoter, staging)
      case Commit => if promoter.phase.Validated? then Some(PointedAt(p, s, Committed)) else None
      case Restore =>
        if !promoter.phase.FoundValid? then None
        else Some(if References(s.pointer, promoter.releaseId) then At(s, Leaving) else PointedAt(p, s, Leaving))
      case Release =>
        if promoter.phase.Cleaning? || promoter.phase.Leaving? then
          Some(s.(holder := None, active := s.active - {s.holder.value}))
        else None
      case _ => None
  }

  /** The phase a decision leads to, when it can be taken. */
  function MoveTo(p: Platform, s: State, promoter: Promoter, a: Action): Option<Phase> {
    var id := promoter.releaseId;
    match (a, promoter.phase)
    case (Validate, Publishing) =>
      if id in s.releases && ManifestOk(p, s.releases[id], id) then Some(Phase.Validated) else None
    case (Confirm, Committed) => if Resolve(p, s.releases, s.pointer) == Some(id) then Some(Cleaning("")) else None
    case (CheckFound, Found) =>
      if id in s.releases && ManifestOk(p, s.releases[id], id) then Some(FoundValid) else None
    case (Raise, _) => Some(Unwinding(promoter.phase))
    case _ => None
  }

  function Move(p: Platform, s: State, promoter: Promoter, a: Action): Option<State>
    requires Holder(s) == Some(promoter)
  {
    var phase := MoveTo(p, s, promoter, a);
    if phase.Some? then Some(At(s, phase.value)) else None
  }

  function LookUp(s: State, promoter: Promoter, staging: string): Option<State>
    requires Holder(s) == Some(promoter)
  {
    if !promoter.phase.Sweeping? then None
    else if promoter.releaseId in s.releases then Some(At(s, Found))
    else if STAGING_PREFIX <= staging && staging !in s.releases then
      Some(At(s.(releases := s.releases[staging := map[]]), Staging(staging)))
    else None
  }

  function Touch(s: State, promoter: Promoter, a: Action): Option<State>
    requires Holder(s) == Some(promoter)
  {
    var id := promoter.releaseId;
    match (a, promoter.phase)
    case (Sweep(name, files, whole), Sweeping) =>
      if STAGING_PREFIX <= name then Some(s.(releases := Removed(s.releases, name, files, whole))) else None
    case (Copy(rel, bytes), Staging(directory)) =>
      if directory in s.releases then
        Some(s.(releases := s.releases[directory := s.releases[directory][rel := bytes]]))
      else None
    case (Rename, Staging(directory)) =>
      if directory in s.releases then
        Some(At(s.(releases := (s.releases - {directory})[id := s.releases[directory]]), Publishing))
      else None
    case (Write(rel, bytes), Publishing) =>
      if id in s.releases then Some(s.(releases := s.releases[id := s.releases[id][rel := bytes]])) else None
    case (Unlink(rel), Publishing) =>
      if id in s.releases then Some(s.(releases := s.releases[id := s.releases[id] - {rel}])) else None
    case (RemoveStaging(files, whole), Cleaning(directory)) =>
      if STAGING_PREFIX <= directory then Some(s.(releases := Removed(s.releases, directory, files, whole))) else None
    case (RemoveRelease(files, whole), Cleaning(directory)) =>
      if !References(s.pointer, id) then Some(s.(releases := Removed(s.releases, id, files, whole))) else None
    case _ => None
  }

  // ---- the invariant ----

  ghost predicate NamedOk(p: Platform, s: State) {
    forall id :: id in s.named ==>
      ReleaseName(id) && id in s.releases && s.releases[id] == s.named[id] && ManifestOk(p, s.named[id], id)
  }

  /** The pointer is absent, or is one written for a named release. */
  ghost predicate PointerOk(p: Platform, s: State) {
    s.pointer.Some? ==>
      exists id :: id in s.named && MANIFEST in s.named[id] && s.pointer == Some(PointerFor(p, s.named[id], id))
  }

  ghost predicate PhaseOk(p: Platform, s: State, promoter: Promoter) {
    var id := promoter.releaseId;
    && ReleaseName(id)
    && match promoter.phase
       case Staging(directory) => id !in s.named && STAGING_PREFIX <= directory
       case Publishing => id !in s.named
       case Validated => id !in s.named && id in s.releases && ManifestOk(p, s.releases[id], id)
       case Committed => References(s.pointer, id)
       case FoundValid => id in s.releases && ManifestOk(p, s.releases[id], id)
       case Cleaning(directory) => id in s.named ==> References(s.pointer, id)
       case _ => true
  }

  ghost predicate Inv(p: Platform, s: State) {
    && s.active.Keys == (if s.holder.Some? then {s.holder.value} else {})
    && NamedOk(p, s)
    && PointerOk(p, s)
    && forall who :: who in s.active ==> PhaseOk(p, s, s.active[who])
  }

  lemma NotStaging(id: string, name: string)
    requires ReleaseName(id) && STAGING_PREFIX <= name
    ensures id != name
  {
    hide Nameable;
  }

  /** Changing a directory that was never named keeps the invariant's named part. */
  lemma UnnamedChange(p: Platform, s: State, s': State, name: string)
    requires NamedOk(p, s) && PointerOk(p, s) && name !in s.named
    requires s'.named == s.named && s'.pointer == s.pointer
    requires forall n :: n != name ==> (n in s'.releases <==> n in s.releases)
    requires forall n :: n != name && n in s.releases ==> s'.releases[n] == s.releases[n]
    ensures NamedOk(p, s') && PointerOk(p, s')
  {
    hide ManifestOk, ReleaseName;
  }

  lemma PointedKeeps(p: Platform, s: State, id: string)
    requires NamedOk(p, s) && ReleaseName(id) && id in s.releases && ManifestOk(p, s.releases[id], id)
    requires MANIFEST in s.releases[id]
    ensures NamedOk(p, Pointed(p, s, id)) && PointerOk(p, Pointed(p, s, id))
  {
    hide ManifestOk, ReleaseName, PointerFor;
    var s' := Pointed(p, s, id);
    assert s'.named[id] == s.releases[id] && id in s'.named;
  }

  lemma PointedReferences(p: Platform, s: State, id: string)
    requires ReleaseName(id) && id in s.releases && MANIFEST in s.releases[id]
    ensures References(Pointed(p, s, id).pointer, id)
  {
    PointerSelects(p, s.releases, id);
    hide ReleaseName, References, PointerFor;
  }

  // ---- every step keeps the invariant ----

  lemma PhaseOnly(p: Platform, s: State, phase: Phase)
    requires Inv(p, s) && Holder(s).Some?
    requires PhaseOk(p, s, Holder(s).value.(phase := phase))
    ensures Inv(p, At(s, phase))
  {
    hide ManifestOk, ReleaseName, References, PointerFor;
    var s' := At(s, phase);
    assert s'.active.Keys == s.active.Keys;
    assert forall who :: who in s'.active ==> PhaseOk(p, s, s'.active[who]);
    forall who | who in s'.active ensures PhaseOk(p, s', s'.active[who]) {
      PhaseFrame(p, s, s', s'.active[who]);
    }
  }

  lemma PhaseFrame(p: Platform, s: State, s': State, promoter: Promoter)
    requires PhaseOk(p, s, promoter)
    requires s'.named == s.named && s'.pointer == s.pointer && s'.releases == s.releases
    ensures PhaseOk(p, s', promoter)
  {
    hide ManifestOk, ReleaseName, References;
  }

  /** A step of the holder that changes only directories never named. */
  lemma TreeStep(p: Platform, s: State, s': State, name: string)
    requires Inv(p, s) && Holder(s).Some? && name !in s.named
    requires s' == s.(releases := s'.releases)
    requires forall n :: n != name ==> (n in s'.releases <==> n in s.releases)
    requires forall n :: n != name && n in s.releases ==> s'.releases[n] == s.releases[n]
    requires !Holder(s).value.phase.Validated? && !Holder(s).value.phase.FoundValid?
    ensures Inv(p, s')
  {
    UnnamedChange(p, s, s', name);
    hide ManifestOk, ReleaseName, References, NamedOk, PointerOk;
    var promoter := Holder(s).value;
    assert PhaseOk(p, s', promoter);
  }

  lemma SweepStep(p: Platform, s: State, name: string, files: set<Rel>, whole: bool)
    requires Inv(p, s) && Holder(s).Some? && STAGING_PREFIX <= name
    requires !Holder(s).value.phase.Validated? && !Holder(s).value.phase.FoundValid?
    ensures Inv(p, s.(releases := Removed(s.releases, name, files, whole)))
  {
    if name in s.named { NotStaging(name, name); }
    TreeStep(p, s, s.(releases := Removed(s.releases, name, files, whole)), name);
  }

  lemma UnwindingOk(p: Platform, s: State, promoter: Promoter)
    requires PhaseOk(p, s, promoter)
    ensures PhaseOk(p, s, promoter.(phase := Unwinding(promoter.phase)))
  {
    hide ManifestOk, ReleaseName, References;
  }

  lemma LookStep(p: Platform, s: State, staging: string)
    requires Inv(p, s) && Holder(s).Some? && Holder(s).value.phase.Sweeping?
    requires Holder(s).value.releaseId !in s.releases && STAGING_PREFIX <= staging && staging !in s.releases
    ensures Inv(p, At(s.(releases := s.releases[staging := map[]]), Staging(staging)))
  {
    var t := s.(releases := s.releases[staging := map[]]);
    assert staging !in s.named && Holder(s).value.releaseId !in s.named;
    TreeStep(p, s, t, staging);
    assert PhaseOk(p, t, Holder(t).value);
    hide Inv, ManifestOk, ReleaseName;
    PhaseOnly(p, t, Staging(staging));
  }

  lemma RenameStep(p: Platform, s: State, directory: string)
    requires Inv(p, s) && Holder(s).Some? && Holder(s).value.phase == Staging(directory) && directory in s.releases
    ensures Inv(p, At(s.(releases := (s.releases - {directory})[Holder(s).value.releaseId := s.releases[directory]]),
                      Publishing))
  {
    var id := Holder(s).value.releaseId;
    assert PhaseOk(p, s, Holder(s).value);
    if directory in s.named { NotStaging(directory, directory); }
    var t := s.(releases := s.releases - {directory});
    TreeStep(p, s, t, directory);
    var u := t.(releases := t.releases[id := s.releases[directory]]);
    TreeStep(p, t, u, id);
    assert PhaseOk(p, u, Holder(u).value);
    hide Inv, ManifestOk, ReleaseName;
    PhaseOnly(p, u, Publishing);
  }

  lemma InvOf(p: Platform, s: State, who: nat)
    requires s.holder == Some(who) && s.active.Keys == {who}
    requires NamedOk(p, s) && PointerOk(p, s) && PhaseOk(p, s, s.active[who])
    ensures Inv(p, s)
  {}

  ghost predicate Pointable(p: Platform, s: State) {
    && Holder(s).Some?
    && s.active.Keys == {s.holder.value}
    && NamedOk(p, s)
    && var id := Holder(s).value.releaseId;
       ReleaseName(id) && id in s.releases && MANIFEST in s.releases[id] && ManifestOk(p, s.releases[id], id)
  }

  lemma ReadyToPoint(p: Platform, s: State)
    requires Inv(p, s) && Holder(s).Some?
    requires Holder(s).value.phase.Validated? || Holder(s).value.phase.FoundValid?
    ensures Pointable(p, s)
  {
    var promoter := Holder(s).value;
    assert PhaseOk(p, s, promoter);
    ManifestPresent(p, s.releases[promoter.releaseId], promoter.releaseId);
    hide ManifestOk, ReleaseName, NamedOk, References, PointerOk;
  }

  lemma PointedPublic(p: Platform, s: State, phase: Phase)
    requires Pointable(p, s)
    ensures NamedOk(p, PointedAt(p, s, phase)) && PointerOk(p, PointedAt(p, s, phase))
  {
    var id := Holder(s).value.releaseId;
    hide ManifestOk, ReleaseName, NamedOk, PointerOk, PointerFor;
    PointedKeeps(p, s, id);
    PublicFrame(p, Pointed(p, s, id), PointedAt(p, s, phase));
  }

  lemma PointedPhase(p: Platform, s: State, phase: Phase)
    requires Pointable(p, s) && (phase == Committed || phase == Leaving)
    ensures var t := PointedAt(p, s, phase);
      t.holder == s.holder && t.active.Keys == {s.holder.value} && PhaseOk(p, t, t.active[s.holder.value])
  {
    hide ManifestOk, ReleaseName, References, NamedOk, PointerFor, PhaseOk;
    var id := Holder(s).value.releaseId;
    PointedReferences(p, s, id);
    var t := PointedAt(p, s, phase);
    assert t.active == s.active[s.holder.value := Holder(s).value.(phase := phase)];
    ReferencedOk(p, t, t.active[s.holder.value]);
  }

  lemma ReferencedOk(p: Platform, s: State, promoter: Promoter)
    requires ReleaseName(promoter.releaseId) && References(s.pointer, promoter.releaseId)
    requires promoter.phase == Committed || promoter.phase == Leaving
    ensures PhaseOk(p, s, promoter)
  {
    hide ManifestOk, ReleaseName, References;
  }

  lemma FreeOk(p: Platform, s: State, promoter: Promoter)
    requires ReleaseName(promoter.releaseId) && (promoter.phase == Sweeping || promoter.phase == Leaving)
    ensures PhaseOk(p, s, promoter)
  {
    hide ManifestOk, ReleaseName, References;
  }

  lemma PhaseName(p: Platform, s: State, promoter: Promoter)
    requires PhaseOk(p, s, promoter)
    ensures ReleaseName(promoter.releaseId)
  {
    hide ManifestOk, ReleaseName, References;
  }

  lemma PointStep(p: Platform, s: State, phase: Phase)
    requires Pointable(p, s) && (phase == Committed || phase == Leaving)
    ensures Inv(p, PointedAt(p, s, phase))
  {
    PointedPublic(p, s, phase);
    PointedPhase(p, s, phase);
    hide Pointable, PhaseOk, NamedOk, PointerOk, PointedAt;
    InvOf(p, PointedAt(p, s, phase), s.holder.value);
  }

  lemma PublicFrame(p: Platform, s: State, s': State)
    requires NamedOk(p, s) && PointerOk(p, s)
    requires s'.releases == s.releases && s'.pointer == s.pointer && s'.named == s.named
    ensures NamedOk(p, s') && PointerOk(p, s')
  {
    hide ManifestOk, ReleaseName, PointerFor;
  }

  lemma AcquireStep(p: Platform, s: State, who: nat, releaseId: string)
    requires Inv(p, s) && s.holder.None? && ReleaseName(releaseId)
    ensures Inv(p, s.(holder := Some(who), active := s.active[who := Promoter(releaseId, Sweeping)]))
  {
    hide NamedOk, PointerOk, ReleaseName, PhaseOk;
    var t := s.(holder := Some(who), active := s.active[who := Promoter(releaseId, Sweeping)]);
    PublicFrame(p, s, t);
    assert s.active == map[];
    assert t.active.Keys == {who};
    FreeOk(p, t, t.active[who]);
  }

  lemma LeaveStep(p: Platform, s: State, who: nat)
    requires Inv(p, s) && who in s.active
    ensures Inv(p, s.(active := s.active - {who}, holder := None)) && s.holder == Some(who)
  {
    var t := s.(active := s.active - {who}, holder := None);
    PublicFrame(p, s, t);
    hide NamedOk, PointerOk;
    assert t.active == map[];
  }

  lemma RemoveReleaseStep(p: Platform, s: State, files: set<Rel>, whole: bool)
    requires Inv(p, s) && Holder(s).Some? && Holder(s).value.phase.Cleaning?
    requires !References(s.pointer, Holder(s).value.releaseId)
    ensures Inv(p, s.(releases := Removed(s.releases, Holder(s).value.releaseId, files, whole)))
  {
    hide NamedOk, PointerOk, ManifestOk, ReleaseName, References;
    var id := Holder(s).value.releaseId;
    assert PhaseOk(p, s, Holder(s).value);
    TreeStep(p, s, s.(releases := Removed(s.releases, id, files, whole)), id);
  }

  /** Writing to a directory that was never named. */
  lemma WriteStep(p: Platform, s: State, name: string, tree: Tree)
    requires Inv(p, s) && Holder(s).Some? && name !in s.named
    requires !Holder(s).value.phase.Validated? && !Holder(s).value.phase.FoundValid?
    ensures Inv(p, s.(releases := s.releases[name := tree]))
  {
    TreeStep(p, s, s.(releases := s.releases[name := tree]), name);
  }

  lemma HolderPhase(p: Platform, s: State)
    requires Inv(p, s) && Holder(s).Some?
    ensures PhaseOk(p, s, Holder(s).value)
  {}

  lemma StagingUnnamed(p: Platform, s: State, directory: string)
    requires Inv(p, s) && STAGING_PREFIX <= directory
    ensures directory !in s.named
  {
    if directory in s.named { NotStaging(directory, directory); }
  }

  lemma MovePhase(p: Platform, s: State, promoter: Promoter, a: Action)
    requires PhaseOk(p, s, promoter) && MoveTo(p, s, promoter, a).Some?
    ensures PhaseOk(p, s, promoter.(phase := MoveTo(p, s, promoter, a).value))
  {
    hide ManifestOk, ReleaseName, References, Resolve;
    if a.Raise? {
      assert MoveTo(p, s, promoter, a) == Some(Unwinding(promoter.phase));
      hide MoveTo;
      UnwindingOk(p, s, promoter);
    }
  }

  lemma MoveKeepsInv(p: Platform, s: State, a: Action)
    requires Inv(p, s) && Holder(s).Some? && Move(p, s, Holder(s).value, a).Some?
    ensures Inv(p, Move(p, s, Holder(s).value, a).value)
  {
    hide Inv, PhaseOk, MoveTo;
    HolderPhase(p, s);
    MovePhase(p, s, Holder(s).value, a);
    PhaseOnly(p, s, MoveTo(p, s, Holder(s).value, a).value);
  }

  lemma LookKeepsInv(p: Platform, s: State, staging: string)
    requires Inv(p, s) && Holder(s).Some? && LookUp(s, Holder(s).value, staging).Some?
    ensures Inv(p, LookUp(s, Holder(s).value, staging).value)
  {
    HolderPhase(p, s);
    hide Inv, ManifestOk, ReleaseName, References, NamedOk, PointerOk;
    if Holder(s).value.releaseId in s.releases {
      PhaseOnly(p, s, Found);
    } else {
      LookStep(p, s, staging);
    }
  }

  lemma TouchKeepsInv(p: Platform, s: State, a: Action)
    requires Inv(p, s) && Holder(s).Some? && Touch(s, Holder(s).value, a).Some?
    ensures Inv(p, Touch(s, Holder(s).value, a).value)
  {
    hide Inv, ManifestOk, ReleaseName, References, NamedOk, PointerOk;
    var promoter := Holder(s).value;
    HolderPhase(p, s);
    match a
    case Sweep(name, files, whole) => SweepStep(p, s, name, files, whole);
    case Copy(rel, bytes) =>
      WriteStep(p, s, promoter.phase.directory, s.releases[promoter.phase.directory][rel := bytes]) by {
        StagingUnnamed(p, s, promoter.phase.directory);
      }
    case Rename => RenameStep(p, s, promoter.phase.directory);
    case Write(rel, bytes) => WriteStep(p, s, promoter.releaseId, s.releases[promoter.releaseId][rel := bytes]);
    case Unlink(rel) => WriteStep(p, s, promoter.releaseId, s.releases[promoter.releaseId] - {rel});
    case RemoveStaging(files, whole) => SweepStep(p, s, promoter.phase.directory, files, whole);
    case RemoveRelease(files, whole) => RemoveReleaseStep(p, s, files, whole);
  }

  lemma CommitKeepsInv(p: Platform, s: State)
    requires Inv(p, s) && Holder(s).Some? && Holder(s).value.phase.Validated?
    ensures Inv(p, PointedAt(p, s, Committed))
  {
    hide Inv, Pointable, PointedAt, PhaseOk;
    ReadyToPoint(p, s);
    PointStep(p, s, Committed);
  }

  lemma RestoreKeepsInv(p: Platform, s: State)
    requires Inv(p, s) && Holder(s).Some? && Holder(s).value.phase.FoundValid?
    ensures Inv(p, At(s, Leaving)) && Inv(p, PointedAt(p, s, Leaving))
  {
    hide Inv, Pointable, PointedAt, PhaseOk, ReleaseName, At;
    ReadyToPoint(p, s);
    HolderPhase(p, s);
    PhaseName(p, s, Holder(s).value);
    FreeOk(p, s, Holder(s).value.(phase := Leaving));
    PointStep(p, s, Leaving);
    PhaseOnly(p, s, Leaving);
  }

  lemma WorkKeepsInv(p: Platform, s: State, a: Action)
    requires Inv(p, s) && Holder(s).Some? && Work(p, s, Holder(s).value, a).Some?
    ensures Inv(p, Work(p, s, Holder(s).value, a).value)
  {
    hide Inv, PointedAt, Move, Touch, LookUp, References;
    if Moves(a) {
      MoveKeepsInv(p, s, a);
    } else if Touches(a) {
      TouchKeepsInv(p, s, a);
    } else if a.Look? {
      LookKeepsInv(p, s, a.staging);
    } else if a.Commit? {
      CommitKeepsInv(p, s);
    } else if a.Restore? {
      RestoreKeepsInv(p, s);
    } else {
      HolderIsActive(s);
      LeaveStep(p, s, s.holder.value);
    }
  }

  lemma HolderIsActive(s: State)
    requires Holder(s).Some?
    ensures s.holder.Some? && s.holder.value in s.active
  {}

  /** Every action of every process keeps the invariant. */
  lemma StepKeepsInv(p: Platform, s: State, a: Action)
    requires Inv(p, s) && Next(p, s, a).Some?
    ensures Inv(p, Next(p, s, a).value)
  {
    hide Work, ReleaseName;
    match a
    case Acquire(who, releaseId) => AcquireStep(p, s, who, releaseId);
    case Refuse(who) =>
    case Crash(who) => LeaveStep(p, s, who);
    case _ => WorkKeepsInv(p, s, a);
  }

  // ---- runs ----

  /** A finite run: a first state and an action for every further one. */
  ghost predicate Run(p: Platform, states: seq<State>, actions: seq<Action>) {
    && |states| == |actions| + 1
    && Initial(states[0])
    && forall i :: 0 <= i < |actions| ==> Next(p, states[i], actions[i]) == Some(states[i + 1])
  }

  lemma InitialInv(p: Platform, s: State)
    requires Initial(s)
    ensures Inv(p, s)
  {}

  lemma {:induction false} RunKeepsInv(p: Platform, states: seq<State>, actions: seq<Action>, i: nat)
    requires Run(p, states, actions) && i < |states|
    ensures Inv(p, states[i])
  {
    hide Next, Inv;
    if i == 0 {
      InitialInv(p, states[0]);
    } else {
      RunKeepsInv(p, states, actions, i - 1);
      assert Next(p, states[i - 1], actions[i - 1]) == Some(states[i]);
      StepKeepsInv(p, states[i - 1], actions[i - 1]);
    }
  }

  /** The pointer is absent, or it names a directory whose manifest has the recorded digest and
      validates: right identity and policy, every listed artifact present with its digest. */
  ghost predicate CurrentOk(p: Platform, s: State) {
    s.pointer.Some? ==>
      exists id :: id in s.releases && MANIFEST in s.releases[id]
        && s.pointer == Some(PointerFor(p, s.releases[id], id))
        && References(s.pointer, id)
        && ManifestOk(p, s.releases[id], id)
  }

  /** In every reachable state of any number of promoters, with crashes anywhere and removals cut
      short, the current release is intact. */
  lemma CurrentAlwaysOk(p: Platform, states: seq<State>, actions: seq<Action>, i: nat)
    requires Run(p, states, actions) && i < |states|
    ensures CurrentOk(p, states[i])
  {
    RunKeepsInv(p, states, actions, i);
    var s := states[i];
    if s.pointer.Some? {
      var id :| id in s.named && MANIFEST in s.named[id] && s.pointer == Some(PointerFor(p, s.named[id], id));
      PointerSelects(p, s.releases, id);
    }
    hide ManifestOk, ReleaseName, PointerFor, References;
  }

  lemma {:induction false} NamedForever(p: Platform, states: seq<State>, actions: seq<Action>, i: nat, j: nat,
                                        id: string)
    requires Run(p, states, actions) && i <= j < |states| && id in states[i].named
    ensures id in states[j].named && states[j].named[id] == states[i].named[id]
    decreases j - i
  {
    hide Next, Inv;
    if i < j {
      NamedForever(p, states, actions, i, j - 1, id);
      RunKeepsInv(p, states, actions, j - 1);
      RunKeepsInv(p, states, actions, j);
      assert Next(p, states[j - 1], actions[j - 1]) == Some(states[j]);
      NamedStep(p, states[j - 1], actions[j - 1], id);
    }
  }

  lemma NamedStep(p: Platform, s: State, a: Action, id: string)
    requires Inv(p, s) && Next(p, s, a).Some? && id in s.named
    ensures id in Next(p, s, a).value.named && Next(p, s, a).value.named[id] == s.named[id]
  {
    hide ManifestOk, ReleaseName, References, PointerFor, Resolve, PointerOk, PhaseOk, Removed, Unwinding;
  }

  /** A release the pointer has ever named is never changed or removed by any later step of any
      promoter. */
  lemma NamedNeverChanges(p: Platform, states: seq<State>, actions: seq<Action>, i: nat, j: nat, id: string)
    requires Run(p, states, actions) && i <= j < |states|
    requires ReleaseName(id) && References(states[i].pointer, id)
    ensures id in states[i].releases && id in states[j].releases
    ensures states[j].releases[id] == states[i].releases[id]
  {
    RunKeepsInv(p, states, actions, i);
    RunKeepsInv(p, states, actions, j);
    var s := states[i];
    var named :| named in s.named && MANIFEST in s.named[named]
      && s.pointer == Some(PointerFor(p, s.named[named], named));
    PointerSelects(p, s.releases, named);
    assert named == id;
    hide ManifestOk, ReleaseName, PointerFor, References, Run;
    NamedForever(p, states, actions, i, j, id);
  }

  // ---- how much can happen ----

  /** Directories, pointer and history are as before. */
  predicate SameFiles(s: State, t: Option<State>) {
    t.Some? && t.value.releases == s.releases && t.value.pointer == s.pointer && t.value.named == s.named
  }

  /** Any process may crash at any point and leaves everything as it is, the lock free; the holder may
      raise at any point; a second promoter is turned away; and whoever finds the lock free gets it. */
  lemma AnyoneMayCrash(p: Platform, s: State, who: nat, id: string)
    requires Inv(p, s)
    ensures who in s.active ==>
      var t := Next(p, s, Crash(who)); SameFiles(s, t) && t.value.active == map[] && t.value.holder.None?
    ensures who in s.active ==> SameFiles(s, Next(p, s, Raise)) && who in Next(p, s, Raise).value.active
    ensures s.holder.Some? && s.holder.value != who ==> Next(p, s, Refuse(who)) == Some(s)
    ensures s.holder.None? && ReleaseName(id) ==>
      var t := Next(p, s, Acquire(who, id));
      SameFiles(s, t) && t.value.holder == Some(who) && t.value.active == map[who := Promoter(id, Sweeping)]
  {
    hide NamedOk, PointerOk, PhaseOk, ReleaseName;
    if who in s.active {
      assert s.active.Keys == {who};
      assert (s.active - {who}).Keys == {};
    } else if s.holder.None? {
      assert s.active.Keys == {} && s.active == map[];
    }
  }

  /** What is left of the directories when a removal stops half way, or does not. */
  ghost predicate PartlyGone(s: State, t: Option<State>, name: string, files: set<Rel>, whole: bool) {
    && t.Some? && t.value.pointer == s.pointer && t.value.named == s.named && t.value.active == s.active
    && (forall n :: n != name ==> (n in t.value.releases <==> n in s.releases))
    && (forall n :: n != name && n in s.releases ==> t.value.releases[n] == s.releases[n])
    && (name in t.value.releases <==> name in s.releases && !whole)
    && (name in t.value.releases ==>
          forall rel :: (rel in t.value.releases[name] <==> rel in s.releases[name] && rel !in files)
            && (rel in t.value.releases[name] ==> t.value.releases[name][rel] == s.releases[name][rel]))
  }

  lemma PartlyRemoved(s: State, name: string, files: set<Rel>, whole: bool)
    ensures PartlyGone(s, Some(s.(releases := Removed(s.releases, name, files, whole))), name, files, whole)
  {}

  /** Every removal may stop after any of its files: that of an old staging directory, of the own one,
      and of a release that the pointer does not name. */
  lemma AnyRemovalMayStop(p: Platform, s: State, name: string, files: set<Rel>, whole: bool)
    requires Holder(s).Some?
    ensures var promoter := Holder(s).value;
      && (promoter.phase.Sweeping? && STAGING_PREFIX <= name ==>
            PartlyGone(s, Next(p, s, Action.Sweep(name, files, whole)), name, files, whole))
      && (promoter.phase.Cleaning? && STAGING_PREFIX <= promoter.phase.directory ==>
            PartlyGone(s, Next(p, s, RemoveStaging(files, whole)), promoter.phase.directory, files, whole))
      && (promoter.phase.Cleaning? && !References(s.pointer, promoter.releaseId) ==>
            PartlyGone(s, Next(p, s, RemoveRelease(files, whole)), promoter.releaseId, files, whole))
  {
    hide References, PartlyGone, Removed;
    var promoter := Holder(s).value;
    PartlyRemoved(s, name, files, whole);
    PartlyRemoved(s, promoter.releaseId, files, whole);
    if promoter.phase.Cleaning? {
      PartlyRemoved(s, promoter.phase.directory, files, whole);
    }
  }

  /** One directory changed in one file. */
  ghost predicate OneFile(s: State, t: Option<State>, name: string, rel: Rel, bytes: Option<Bytes>)
    requires name in s.releases
  {
    && t.Some? && t.value.pointer == s.pointer && t.value.named == s.named && t.value.active == s.active
    && t.value.releases.Keys == s.releases.Keys
    && (forall n :: n in s.releases && n != name ==> t.value.releases[n] == s.releases[n])
    && t.value.releases[name] == if bytes.Some? then s.releases[name][rel := bytes.value] else s.releases[name] - {rel}
  }

  /** Anything may be copied into the staging directory, and anything written into or removed from a
      release that is being published. */
  lemma AnythingMayBeWritten(p: Platform, s: State, rel: Rel, bytes: Bytes)
    requires Holder(s).Some?
    ensures var promoter := Holder(s).value;
      && (promoter.phase.Staging? && promoter.phase.directory in s.releases ==>
            OneFile(s, Next(p, s, Copy(rel, bytes)), promoter.phase.directory, rel, Some(bytes)))
      && (promoter.phase.Publishing? && promoter.releaseId in s.releases ==>
            && OneFile(s, Next(p, s, Write(rel, bytes)), promoter.releaseId, rel, Some(bytes))
            && OneFile(s, Next(p, s, Unlink(rel)), promoter.releaseId, rel, None))
  {
    hide OneFile;
    var promoter := Holder(s).value;
    if promoter.phase.Staging? && promoter.phase.directory in s.releases {
      FileSet(s, promoter.phase.directory, rel, bytes);
    }
    if promoter.phase.Publishing? && promoter.releaseId in s.releases {
      FileSet(s, promoter.releaseId, rel, bytes);
    }
  }

  lemma FileSet(s: State, name: string, rel: Rel, bytes: Bytes)
    requires name in s.releases
    ensures OneFile(s, Some(s.(releases := s.releases[name := s.releases[name][rel := bytes]])), name, rel, Some(bytes))
    ensures OneFile(s, Some(s.(releases := s.releases[name := s.releases[name] - {rel}])), name, rel, None)
  {
    assert s.releases[name := s.releases[name][rel := bytes]].Keys == s.releases.Keys;
    assert s.releases[name := s.releases[name] - {rel}].Keys == s.releases.Keys;
  }

  /** The decisions of the holder: what lets it go on, and to what. */
  lemma DecisionsSay(p: Platform, s: State, phase: Phase)
    requires Holder(s).Some?
    ensures var promoter, id := Holder(s).value, Holder(s).value.releaseId;
      && (Next(p, s, Validate) == Some(At(s, Phase.Validated)) <==>
            promoter.phase.Publishing? && id in s.releases && ManifestOk(p, s.releases[id], id))
      && (Next(p, s, CheckFound) == Some(At(s, FoundValid)) <==>
            promoter.phase.Found? && id in s.releases && ManifestOk(p, s.releases[id], id))
      && (Next(p, s, Confirm) == Some(At(s, Cleaning(""))) <==>
            promoter.phase.Committed? && Resolve(p, s.releases, s.pointer) == Some(id))
      && (Next(p, s, Release).Some? <==> promoter.phase.Cleaning? || promoter.phase.Leaving?)
  {
    hide ManifestOk, Resolve;
  }

  /** No promoter is ever stuck: it can raise and give the lock back, leaving the files as they are. */
  lemma NeverStuck(p: Platform, s: State) returns (actions: seq<Action>, t: State)
    requires Inv(p, s)
    ensures t.holder.None? && SameFiles(s, Some(t)) && |actions| <= 2
    ensures actions == [] ==> t == s
    ensures |actions| == 1 ==> Next(p, s, actions[0]) == Some(t)
    ensures |actions| == 2 ==>
      var u := Next(p, s, actions[0]); u.Some? && Inv(p, u.value) && Next(p, u.value, actions[1]) == Some(t)
  {
    hide NamedOk, PointerOk, PhaseOk;
    if s.holder.None? {
      return [], s;
    }
    assert s.holder.value in s.active.Keys;
    StepKeepsInv(p, s, Raise);
    var u := Next(p, s, Raise).value;
    actions, t := [Raise, Release], Next(p, u, Release).value;
  }
}
