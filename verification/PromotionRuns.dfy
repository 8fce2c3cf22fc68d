/** Runs of one promoter at a time: what each action of the protocol does when a single process
    holds the lock (release/model_release_publisher.py:304-553). */
module PromotionRuns {
  import opened Options
  import opened ReleaseStore
  import opened ReleaseManifest
  import opened ReleaseValidation
  import opened PromotionProtocol

  /** The actions, taken one after the other, lead from s to t. */
  ghost predicate Leads(p: Platform, s: State, actions: seq<Action>, t: State)
    decreases |actions|
  {
    if actions == [] then s == t
    else Next(p, s, actions[0]).Some? && Leads(p, Next(p, s, actions[0]).value, actions[1..], t)
  }

  lemma {:induction false} LeadsOn(p: Platform, s: State, a: seq<Action>, t: State, b: seq<Action>, u: State)
    requires Leads(p, s, a, t) && Leads(p, t, b, u)
    ensures Leads(p, s, a + b, u)
    decreases |a|
  {
    hide Next;
    if a == [] {
      assert a + b == b;
    } else {
      assert (a + b)[1..] == a[1..] + b;
      LeadsOn(p, Next(p, s, a[0]).value, a[1..], t, b, u);
    }
  }

  lemma LeadsOne(p: Platform, s: State, a: Action, t: State)
    requires Next(p, s, a) == Some(t)
    ensures Leads(p, s, [a], t)
  {
    hide Next;
    assert [a][1..] == [];
  }

  lemma Then(p: Platform, s: State, actions: seq<Action>, t: State, a: Action, u: State)
    requires Leads(p, s, actions, t) && Next(p, t, a) == Some(u)
    ensures Leads(p, s, actions + [a], u)
  {
    hide Next, Leads;
    LeadsOne(p, t, a, u);
    LeadsOn(p, s, actions, t, [a], u);
  }

  lemma {:induction false} LeadsKeepsInv(p: Platform, s: State, actions: seq<Action>, t: State)
    requires Inv(p, s) && Leads(p, s, actions, t)
    ensures Inv(p, t)
    decreases |actions|
  {
    hide Next, Inv;
    if actions != [] {
      StepKeepsInv(p, s, actions[0]);
      LeadsKeepsInv(p, Next(p, s, actions[0]).value, actions[1..], t);
    }
  }

  /** Nobody holds the lock. */
  predicate Idle(s: State) { s.holder.None? && s.active == map[] }

  /** The idle state, but for one promoter that holds the lock and is in the phase. */
  function Lone(s: State, who: nat, id: string, phase: Phase): State {
    s.(holder := Some(who), active := map[who := Promoter(id, phase)])
  }

  lemma AtLone(s: State, who: nat, id: string, phase: Phase, next: Phase)
    ensures Holder(Lone(s, who, id, phase)) == Some(Promoter(id, phase))
    ensures At(Lone(s, who, id, phase), next) == Lone(s, who, id, next)
  {
    assert map[who := Promoter(id, phase)][who := Promoter(id, next)] == map[who := Promoter(id, next)];
  }

  // ---- the actions ----

  lemma AcquireMoves(p: Platform, s: State, who: nat, id: string)
    requires Idle(s) && ReleaseName(id)
    ensures Next(p, s, Acquire(who, id)) == Some(Lone(s, who, id, Sweeping))
  {
    hide ReleaseName;
  }

  lemma ReleaseMoves(p: Platform, s: State, who: nat, id: string, phase: Phase)
    requires Idle(s) && (phase.Cleaning? || phase.Leaving?)
    ensures Next(p, Lone(s, who, id, phase), Release) == Some(s)
  {
    hide ManifestOk, References, PointerFor, Resolve, ReleaseName;
    assert map[who := Promoter(id, phase)] - {who} == map[];
  }

  lemma RaiseMoves(p: Platform, s: State, who: nat, id: string, phase: Phase)
    ensures Next(p, Lone(s, who, id, phase), Raise) == Some(Lone(s, who, id, Unwinding(phase)))
  {
    hide ManifestOk, References, PointerFor, Resolve, ReleaseName, Unwinding;
    AtLone(s, who, id, phase, Unwinding(phase));
  }

  lemma CrashMoves(p: Platform, s: State, who: nat, id: string, phase: Phase)
    requires Idle(s)
    ensures Next(p, Lone(s, who, id, phase), Crash(who)) == Some(s)
  {
    hide Work, ReleaseName;
    assert map[who := Promoter(id, phase)] - {who} == map[];
  }

  lemma CleanupMoves(p: Platform, s: State, who: nat, id: string, files: set<Rel>)
    requires id in s.releases && !References(s.pointer, id)
    ensures Next(p, Lone(s, who, id, Cleaning("")), RemoveRelease(files, false))
            == Some(Lone(Holding(s, id, s.releases[id] - files), who, id, Cleaning("")))
  {
    hide ManifestOk, References, PointerFor, Resolve, ReleaseName;
  }

  lemma SweepMoves(p: Platform, s: State, who: nat, id: string, name: string)
    requires STAGING_PREFIX <= name && name in s.releases
    ensures Next(p, Lone(s, who, id, Sweeping), Action.Sweep(name, {}, true))
            == Some(Lone(s.(releases := s.releases - {name}), who, id, Sweeping))
  {
    hide ManifestOk, References, PointerFor, Resolve, ReleaseName;
  }

  lemma LookMoves(p: Platform, s: State, who: nat, id: string, staging: string)
    requires id !in s.releases ==> STAGING_PREFIX <= staging && staging !in s.releases
    ensures Next(p, Lone(s, who, id, Sweeping), Look(staging))
            == Some(if id in s.releases then Lone(s, who, id, Found)
                    else Lone(s.(releases := s.releases[staging := map[]]), who, id, Staging(staging)))
  {
    hide ManifestOk, References, PointerFor, Resolve, ReleaseName;
    AtLone(s, who, id, Sweeping, Found);
    AtLone(s.(releases := s.releases[staging := map[]]), who, id, Sweeping, Staging(staging));
  }

  function Holding(s: State, directory: string, tree: Tree): State { s.(releases := s.releases[directory := tree]) }

  lemma CopyMoves(p: Platform, s: State, who: nat, id: string, staging: string, tree: Tree, rel: Rel, bytes: Bytes)
    ensures Next(p, Lone(Holding(s, staging, tree), who, id, Staging(staging)), Copy(rel, bytes))
            == Some(Lone(Holding(s, staging, tree[rel := bytes]), who, id, Staging(staging)))
  {
    hide ManifestOk, References, PointerFor, Resolve, ReleaseName;
    assert s.releases[staging := tree][staging := tree[rel := bytes]] == s.releases[staging := tree[rel := bytes]];
  }

  lemma RenameMoves(p: Platform, s: State, who: nat, id: string, staging: string, tree: Tree)
    requires staging !in s.releases && id !in s.releases && staging != id
    ensures Next(p, Lone(Holding(s, staging, tree), who, id, Staging(staging)), Rename)
            == Some(Lone(Holding(s, id, tree), who, id, Publishing))
  {
    hide ManifestOk, References, PointerFor, Resolve, ReleaseName;
    assert (s.releases[staging := tree] - {staging})[id := tree] == s.releases[id := tree];
    AtLone(Holding(s, id, tree), who, id, Staging(staging), Publishing);
  }

  lemma WriteMoves(p: Platform, s: State, who: nat, id: string, tree: Tree, rel: Rel, bytes: Bytes)
    ensures Next(p, Lone(Holding(s, id, tree), who, id, Publishing), Write(rel, bytes))
            == Some(Lone(Holding(s, id, tree[rel := bytes]), who, id, Publishing))
  {
    hide ManifestOk, References, PointerFor, Resolve, ReleaseName;
    assert s.releases[id := tree][id := tree[rel := bytes]] == s.releases[id := tree[rel := bytes]];
  }

  lemma ValidateMoves(p: Platform, s: State, who: nat, id: string)
    requires id in s.releases && ManifestOk(p, s.releases[id], id)
    ensures Next(p, Lone(s, who, id, Publishing), Validate) == Some(Lone(s, who, id, Phase.Validated))
    ensures Next(p, Lone(s, who, id, Found), CheckFound) == Some(Lone(s, who, id, FoundValid))
  {
    hide ManifestOk, References, PointerFor, Resolve, ReleaseName;
    AtLone(s, who, id, Publishing, Phase.Validated);
    AtLone(s, who, id, Found, FoundValid);
  }

  lemma CommitMoves(p: Platform, s: State, who: nat, id: string)
    requires id in s.releases && MANIFEST in s.releases[id]
    ensures Next(p, Lone(s, who, id, Phase.Validated), Action.Commit)
      == Some(Lone(Pointed(p, s, id), who, id, Committed))
  {
    hide ManifestOk, References, PointerFor, Resolve, ReleaseName;
    AtLone(Pointed(p, s, id), who, id, Phase.Validated, Committed);
  }

  lemma RestoreMoves(p: Platform, s: State, who: nat, id: string)
    requires id in s.releases && MANIFEST in s.releases[id]
    ensures Next(p, Lone(s, who, id, FoundValid), Restore)
            == Some(Lone(if References(s.pointer, id) then s else Pointed(p, s, id), who, id, Leaving))
  {
    hide ManifestOk, References, PointerFor, Resolve, ReleaseName;
    AtLone(s, who, id, FoundValid, Leaving);
    AtLone(Pointed(p, s, id), who, id, FoundValid, Leaving);
  }

  lemma ConfirmMoves(p: Platform, s: State, who: nat, id: string)
    requires Resolve(p, s.releases, s.pointer) == Some(id)
    ensures Next(p, Lone(s, who, id, Committed), Confirm) == Some(Lone(s, who, id, Cleaning("")))
  {
    hide ManifestOk, References, PointerFor, Resolve, ReleaseName;
    AtLone(s, who, id, Committed, Cleaning(""));
  }
}
