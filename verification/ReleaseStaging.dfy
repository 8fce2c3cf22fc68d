/** Staging of a candidate (release/release_staging.py): every evidence file is copied to its
    place in a private directory, and bundles are re-addressed to that place. */
module ReleaseStaging {
  import opened Text
  import opened Options
  import opened Sorting
  import opened ReleaseStore
  import opened EvidenceBundle
  import opened ReleaseManifest

  /** What stands behind an evidence reference when it is staged: its bytes, its name, its place
      below the candidate directory if it has one, and for a checkpoint the checksum sidecar with
      the digest it records. */
  datatype Source = Source(bytes: Bytes, fileName: string, inCandidate: Option<Rel>,
                           sidecar: Option<(Bytes, string)>)

  /** `safe_segment` accepts the name. */
  predicate SafeSegment(s: string) {
    && CleanSegment(s) && '\\' !in s && '\0' !in s
    && !(|s| >= 2 && s[1] == ':')
  }

  /** Where a reference is staged. */
  function TargetOf(name: string, source: Source): Option<Rel> {
    if name == "checkpoint" then Some(CHECKPOINT)
    else if name == "training_metrics" then Some(["evaluation", source.fileName])
    else if source.inCandidate.Some? then source.inCandidate
    else if SafeSegment(name) then Some(["evidence", name, source.fileName])
    else None
  }

  /** Another file stands where a directory is needed, or the other way round. */
  predicate Blocked(tree: Tree, rel: Rel) {
    exists other :: other in tree && (other < rel || rel < other)
  }

  /** `_copy_regular_file`: an existing target must already have the same digest. */
  function CopyFile(p: Platform, tree: Tree, rel: Rel, bytes: Bytes): (r: Option<Tree>)
    ensures r.Some? ==> rel in r.value && p.sha(r.value[rel]) == p.sha(bytes) && Extends(tree, r.value)
  {
    if rel in tree then
      if p.sha(tree[rel]) == p.sha(bytes) then Some(tree) else None
    else if Blocked(tree, rel) then None
    else Some(tree[rel := bytes])
  }

  predicate Extends(tree: Tree, larger: Tree) {
    tree.Keys <= larger.Keys && forall rel :: rel in tree ==> larger[rel] == tree[rel]
  }

  /** `_copy_checkpoint`: model and sidecar are copied and the model has the recorded digest. */
  function CopyCheckpoint(p: Platform, tree: Tree, source: Source): (r: Option<Tree>)
    ensures r.Some? ==> CHECKPOINT in r.value && SIDECAR in r.value && Extends(tree, r.value)
    ensures r.Some? ==> p.sha(r.value[CHECKPOINT]) == p.sha(source.bytes)
  {
    if source.sidecar.None? then None
    else
      var model := CopyFile(p, tree, CHECKPOINT, source.bytes);
      if model.None? then None
      else
        var both := CopyFile(p, model.value, SIDECAR, source.sidecar.value.0);
        if both.None? || p.sha(both.value[CHECKPOINT]) != Lower(source.sidecar.value.1) then None else both
  }

  function StageOne(p: Platform, tree: Tree, name: string, source: Source): (r: Option<Tree>)
    ensures r.Some? ==> TargetOf(name, source).Some? && TargetOf(name, source).value in r.value
    ensures r.Some? ==> p.sha(r.value[TargetOf(name, source).value]) == p.sha(source.bytes)
    ensures r.Some? ==> Extends(tree, r.value)
    ensures r.Some? && name == "checkpoint" ==> SIDECAR in r.value
  {
    var target := TargetOf(name, source);
    if target.None? then None
    else if name == "checkpoint" then CopyCheckpoint(p, tree, source)
    else CopyFile(p, tree, target.value, source.bytes)
  }

  /** One staged reference: its target, with the digest of its source. */
  predicate Staged(p: Platform, tree: Tree, paths: map<string, Rel>, sources: map<string, Source>, name: string) {
    && name in paths && name in sources
    && TargetOf(name, sources[name]) == Some(paths[name])
    && paths[name] in tree
    && p.sha(tree[paths[name]]) == p.sha(sources[name].bytes)
    && (name == "checkpoint" ==> SIDECAR in tree)
  }

  datatype Outcome = Done(tree: Tree, paths: map<string, Rel>) | Rejected

  /** Nothing that was there before is changed, each of the named references is at its target
      with its source's digest, and no two references share a target. */
  ghost predicate AllStaged(p: Platform, before: Tree, tree: Tree, paths: map<string, Rel>,
                            sources: map<string, Source>, names: set<string>)
  {
    && Extends(before, tree)
    && paths.Keys == names
    && (forall n :: n in paths ==> Staged(p, tree, paths, sources, n))
    && (forall m, n :: m in paths && n in paths && m != n ==> paths[m] != paths[n])
  }

  /** The references staged one after the other; one that cannot be copied, or whose target is
      taken, rejects the candidate. */
  function StageAll(p: Platform, tree: Tree, references: seq<Reference>, sources: map<string, Source>): Outcome
    requires forall r :: r in references ==> r.name in sources
  {
    if references == [] then Done(tree, map[])
    else
      var n := |references| - 1;
      StageNext(p, StageAll(p, tree, references[..n], sources), references[n].name, sources[references[n].name])
  }

  function StageNext(p: Platform, so: Outcome, name: string, source: Source): Outcome {
    if so.Rejected? then Rejected
    else
      var next := StageOne(p, so.tree, name, source);
      if next.None? || TargetOf(name, source).value in so.paths.Values then Rejected
      else Done(next.value, so.paths[name := TargetOf(name, source).value])
  }

  lemma StageAllNext(p: Platform, tree: Tree, references: seq<Reference>, sources: map<string, Source>, i: nat)
    requires i < |references| && forall r :: r in references ==> r.name in sources
    ensures references[i].name in sources
    ensures StageAll(p, tree, references[..i + 1], sources)
            == StageNext(p, StageAll(p, tree, references[..i], sources), references[i].name,
                         sources[references[i].name])
  {
    hide StageNext;
    assert references[i] in references && references[..i + 1][..i] == references[..i];
  }

  lemma {:induction false} RejectedStays(p: Platform, tree: Tree, references: seq<Reference>,
                                         sources: map<string, Source>, i: nat)
    requires i <= |references| && forall r :: r in references ==> r.name in sources
    requires StageAll(p, tree, references[..i], sources).Rejected?
    ensures StageAll(p, tree, references, sources).Rejected?
    decreases |references| - i
  {
    if i < |references| {
      StageAllNext(p, tree, references, sources, i);
      hide StageAll;
      RejectedStays(p, tree, references, sources, i + 1);
    } else {
      assert references[..i] == references;
    }
  }

  /** `_stage_evidence`. */
  method StageEvidence(p: Platform, tree: Tree, references: seq<Reference>, sources: map<string, Source>)
    returns (outcome: Outcome)
    requires Distinct(Names(references))
    requires forall r :: r in references ==> r.name in sources
    ensures outcome == StageAll(p, tree, references, sources)
  {
    hide TargetOf, StageAll, StageOne;
    var staged := tree;
    var paths: map<string, Rel> := map[];
    var targets: set<Rel> := {};
    NothingStaged(p, tree, references, sources);
    for i := 0 to |references|
      invariant targets == paths.Values && paths.Keys == Elements(Names(references[..i]))
      invariant Done(staged, paths) == StageAll(p, tree, references[..i], sources)
    {
      StageAllNext(p, tree, references, sources, i);
      var name := references[i].name;
      var next := StageOne(p, staged, name, sources[name]);
      if next.None? {
        RejectedStays(p, tree, references, sources, i + 1);
        return Rejected;
      }
      var target := TargetOf(name, sources[name]).value;
      if target in targets {
        RejectedStays(p, tree, references, sources, i + 1);
        return Rejected;
      }
      FreshName(references, i);
      NamesStep(references, i);
      ValuesAfter(paths, name, target);
      staged := next.value;
      targets := targets + {target};
      paths := paths[name := target];
    }
    assert references[..|references|] == references;
    outcome := Done(staged, paths);
  }

  lemma NothingStaged(p: Platform, tree: Tree, references: seq<Reference>, sources: map<string, Source>)
    requires forall r :: r in references ==> r.name in sources
    ensures AllStaged(p, tree, tree, map[], sources, Elements(Names(references[..0])))
    ensures StageAll(p, tree, references[..0], sources) == Done(tree, map[])
  {}

  /** What was staged one after the other is staged as a whole. */
  lemma {:induction false} StageAllStaged(p: Platform, tree: Tree, references: seq<Reference>,
                                          sources: map<string, Source>)
    requires Distinct(Names(references)) && forall r :: r in references ==> r.name in sources
    requires StageAll(p, tree, references, sources).Done?
    ensures var outcome := StageAll(p, tree, references, sources);
      AllStaged(p, tree, outcome.tree, outcome.paths, sources, Elements(Names(references)))
  {
    hide AllStaged, TargetOf, StageOne;
    if references == [] {
      NothingStaged(p, tree, references, sources);
    } else {
      var n := |references| - 1;
      FreshName(references, n);
      NamesStep(references, n);
      assert references[..n + 1] == references;
      DistinctFront(references, n);
      StageAllStaged(p, tree, references[..n], sources);
      var before := StageAll(p, tree, references[..n], sources);
      var name := references[n].name;
      StagedStep(p, tree, before.tree, StageOne(p, before.tree, name, sources[name]).value, before.paths, sources,
                 Elements(Names(references[..n])), name, TargetOf(name, sources[name]).value);
    }
  }

  lemma DistinctFront(references: seq<Reference>, n: nat)
    requires n <= |references| && Distinct(Names(references))
    ensures Distinct(Names(references[..n]))
  {
    forall i, j | 0 <= i < j < n ensures Names(references[..n])[i] != Names(references[..n])[j] {
      assert Names(references)[i] != Names(references)[j];
    }
  }

  lemma FreshName(references: seq<Reference>, i: nat)
    requires i < |references| && Distinct(Names(references))
    ensures references[i].name !in Elements(Names(references[..i]))
  {
    forall k | 0 <= k < i ensures Names(references[..i])[k] != references[i].name {
      assert Names(references)[k] != Names(references)[i];
    }
  }

  lemma StagedStep(p: Platform, before: Tree, tree: Tree, next: Tree, paths: map<string, Rel>,
                   sources: map<string, Source>, names: set<string>, name: string, target: Rel)
    requires AllStaged(p, before, tree, paths, sources, names)
    requires Extends(tree, next) && name !in names && name in sources && target !in paths.Values
    requires TargetOf(name, sources[name]) == Some(target) && target in next
    requires p.sha(next[target]) == p.sha(sources[name].bytes) && (name == "checkpoint" ==> SIDECAR in next)
    ensures AllStaged(p, before, next, paths[name := target], sources, names + {name})
  {
    hide TargetOf;
    var after := paths[name := target];
    ValuesAfter(paths, name, target);
    forall n | n in after ensures Staged(p, next, after, sources, n) {
      if n != name { assert Staged(p, tree, paths, sources, n); }
    }
  }

  lemma ValuesAfter(paths: map<string, Rel>, name: string, target: Rel)
    requires name !in paths
    ensures paths[name := target].Values == paths.Values + {target}
  {
    var after := paths[name := target];
    assert after[name] == target;
    forall v ensures v in after.Values <==> v in paths.Values + {target} {
      if v in paths.Values {
        var n :| n in paths && paths[n] == v;
        assert after[n] == v;
      }
    }
  }

  /** `_bundle_for_paths`: the same bundle, addressed to files of a directory. */
  function BundleAt(p: Platform, directory: string, tree: Tree, source: Bundle, paths: map<string, Rel>): Bundle
    requires forall r :: r in source.references ==> r.name in paths && paths[r.name] in tree
  {
    source.(references := seq(|source.references|, i requires 0 <= i < |source.references| =>
      var name := source.references[i].name;
      Reference(name, AbsolutePath(Base(p, directory) + paths[name]), p.sha(tree[paths[name]]))))
  }

  // ---- when a candidate can be staged ----

  /** Where a reference goes: the checkpoint to the top, metrics beside the report, a file of the
      candidate where it already is, and any other below a directory of its own name. */
  lemma TargetSays(name: string, source: Source)
    ensures name == "checkpoint" ==> TargetOf(name, source) == Some(["checkpoint.pt"])
    ensures name == "training_metrics" ==> TargetOf(name, source) == Some(["evaluation", source.fileName])
    ensures name != "checkpoint" && name != "training_metrics" && source.inCandidate.Some? ==>
      TargetOf(name, source) == source.inCandidate
    ensures name != "checkpoint" && name != "training_metrics" && source.inCandidate.None? ==>
      TargetOf(name, source)
      == if name == "" || name == "." || name == ".." || '/' in name || '\\' in name || '\0' in name
            || (|name| >= 2 && name[1] == ':')
         then None else Some(["evidence", name, source.fileName])
  {}

  /** A file to be put at a place. */
  datatype Placement = Placement(rel: Rel, bytes: Bytes)

  /** The files of one reference: its own, and the checkpoint's sidecar. */
  function Placements(name: string, source: Source): seq<Placement> {
    if TargetOf(name, source).None? then []
    else
      [Placement(TargetOf(name, source).value, source.bytes)]
      + if name == "checkpoint" && source.sidecar.Some? then [Placement(SIDECAR, source.sidecar.value.0)] else []
  }

  function AllPlacements(references: seq<Reference>, sources: map<string, Source>): seq<Placement>
    requires forall r :: r in references ==> r.name in sources
  {
    if references == [] then []
    else
      var n := |references| - 1;
      AllPlacements(references[..n], sources) + Placements(references[n].name, sources[references[n].name])
  }

  predicate Apart(a: Rel, b: Rel) { !(a < b) && !(b < a) }

  /** Files at one place have one digest, and no new file stands where another file needs a directory
      or has one. */
  ghost predicate Fit(p: Platform, tree: Tree, xs: seq<Placement>) {
    && (forall x :: x in xs && x.rel in tree ==> p.sha(tree[x.rel]) == p.sha(x.bytes))
    && (forall x, y :: x in xs && y in xs && x.rel == y.rel ==> p.sha(x.bytes) == p.sha(y.bytes))
    && (forall x, rel :: x in xs && x.rel !in tree && rel in tree ==> Apart(x.rel, rel))
    && (forall x, y :: x in xs && y in xs && x.rel !in tree ==> Apart(x.rel, y.rel))
  }

  function PlaceAll(p: Platform, tree: Tree, xs: seq<Placement>): Option<Tree> {
    if xs == [] then Some(tree)
    else
      var x, before := xs[|xs| - 1], PlaceAll(p, tree, xs[..|xs| - 1]);
      if before.None? then None else CopyFile(p, before.value, x.rel, x.bytes)
  }

  /** The tree with the files placed: nothing else is new, and what was there is as it was. */
  ghost predicate AllPlaced(p: Platform, tree: Tree, xs: seq<Placement>, after: Tree) {
    && Extends(tree, after)
    && (forall x :: x in xs ==> x.rel in after && p.sha(after[x.rel]) == p.sha(x.bytes))
    && (forall rel :: rel in after && rel !in tree ==> Placement(rel, after[rel]) in xs)
  }

  lemma FitFront(p: Platform, tree: Tree, xs: seq<Placement>)
    requires xs != [] && Fit(p, tree, xs)
    ensures Fit(p, tree, xs[..|xs| - 1])
  {
    assert forall x :: x in xs[..|xs| - 1] ==> x in xs;
  }

  lemma CopyIff(p: Platform, tree: Tree, front: seq<Placement>, before: Tree, x: Placement)
    requires Fit(p, tree, front) && AllPlaced(p, tree, front, before)
    ensures CopyFile(p, before, x.rel, x.bytes).Some? <==> Fit(p, tree, front + [x])
  {
    assert forall y :: y in front + [x] <==> y in front || y == x;
    if x.rel in before {
      if x.rel !in tree { assert Placement(x.rel, before[x.rel]) in front; }
      if p.sha(before[x.rel]) == p.sha(x.bytes) {
        FitSame(p, tree, front, before, x);
      } else if x.rel in tree {
        assert x in front + [x] && p.sha(tree[x.rel]) != p.sha(x.bytes);
      }
    } else {
      BlockedIff(p, tree, front, before, x);
    }
  }

  lemma FitSame(p: Platform, tree: Tree, front: seq<Placement>, before: Tree, x: Placement)
    requires Fit(p, tree, front) && AllPlaced(p, tree, front, before)
    requires x.rel in before && p.sha(before[x.rel]) == p.sha(x.bytes)
    ensures Fit(p, tree, front + [x])
  {
    assert forall y :: y in front + [x] <==> y in front || y == x;
    if x.rel !in tree {
      var same := Placement(x.rel, before[x.rel]);
      assert same in front;
    }
    forall y | y in front && y.rel !in tree ensures Apart(y.rel, x.rel) {
      if x.rel !in tree { assert Apart(y.rel, Placement(x.rel, before[x.rel]).rel); }
    }
  }

  lemma BlockedIff(p: Platform, tree: Tree, front: seq<Placement>, before: Tree, x: Placement)
    requires Fit(p, tree, front) && AllPlaced(p, tree, front, before) && x.rel !in before
    ensures !Blocked(before, x.rel) <==> Fit(p, tree, front + [x])
  {
    assert forall y :: y in front + [x] <==> y in front || y == x;
    if !Blocked(before, x.rel) {
      forall rel | rel in tree ensures Apart(x.rel, rel) { assert rel in before; }
      forall y | y in front ensures Apart(x.rel, y.rel) && Apart(y.rel, x.rel) { assert y.rel in before; }
    } else {
      var other :| other in before && (other < x.rel || x.rel < other);
      assert !Apart(x.rel, other);
      if other !in tree {
        assert Placement(other, before[other]) in front;
        assert !Apart(x.rel, Placement(other, before[other]).rel);
      }
      assert x in front + [x];
    }
  }

  /** Files can be put in place one after the other exactly when they fit all together. */
  lemma {:induction false} PlaceAllIff(p: Platform, tree: Tree, xs: seq<Placement>)
    ensures PlaceAll(p, tree, xs).Some? <==> Fit(p, tree, xs)
    ensures PlaceAll(p, tree, xs).Some? ==> AllPlaced(p, tree, xs, PlaceAll(p, tree, xs).value)
  {
    hide Fit, AllPlaced, CopyFile;
    if xs == [] {
      NothingPlaced(p, tree);
    } else {
      var n := |xs| - 1;
      var x := xs[n];
      assert xs == xs[..n] + [x];
      PlaceAllIff(p, tree, xs[..n]);
      if PlaceAll(p, tree, xs[..n]).Some? {
        var before := PlaceAll(p, tree, xs[..n]).value;
        CopyIff(p, tree, xs[..n], before, x);
        PlacedNext(p, tree, xs[..n], before, x);
      } else if Fit(p, tree, xs) {
        FitFront(p, tree, xs);
      }
    }
  }

  lemma NothingPlaced(p: Platform, tree: Tree)
    ensures Fit(p, tree, []) && AllPlaced(p, tree, [], tree)
  {}

  lemma PlacedNext(p: Platform, tree: Tree, front: seq<Placement>, before: Tree, x: Placement)
    requires AllPlaced(p, tree, front, before)
    ensures CopyFile(p, before, x.rel, x.bytes).Some? ==>
      AllPlaced(p, tree, front + [x], CopyFile(p, before, x.rel, x.bytes).value)
  {
    if CopyFile(p, before, x.rel, x.bytes).Some? {
      var after := CopyFile(p, before, x.rel, x.bytes).value;
      forall rel | rel in after && rel !in tree ensures Placement(rel, after[rel]) in front + [x] {
        if rel in before { assert Placement(rel, before[rel]) in front; }
      }
    }
  }

  lemma {:induction false} PlaceAllAppend(p: Platform, tree: Tree, xs: seq<Placement>, ys: seq<Placement>)
    ensures PlaceAll(p, tree, xs + ys)
      == if PlaceAll(p, tree, xs).None? then None else PlaceAll(p, PlaceAll(p, tree, xs).value, ys)
  {
    hide CopyFile;
    if ys == [] {
      assert xs + ys == xs;
    } else {
      var n := |ys| - 1;
      assert (xs + ys)[..|xs + ys| - 1] == xs + ys[..n];
      PlaceAllAppend(p, tree, xs, ys[..n]);
    }
  }

  /** A reference that has a place; a checkpoint also needs a sidecar that records its digest. */
  predicate HasPlace(p: Platform, name: string, source: Source) {
    && TargetOf(name, source).Some?
    && (name == "checkpoint" ==>
          source.sidecar.Some? && Lower(source.sidecar.value.1) == p.sha(source.bytes))
  }

  lemma StageOneIff(p: Platform, tree: Tree, name: string, source: Source)
    ensures StageOne(p, tree, name, source)
      == if HasPlace(p, name, source) then PlaceAll(p, tree, Placements(name, source)) else None
  {
    hide CopyFile, Lower, SafeSegment;
    if HasPlace(p, name, source) {
      var xs := Placements(name, source);
      var first := [Placement(TargetOf(name, source).value, source.bytes)];
      PlaceOne(p, tree, TargetOf(name, source).value, source.bytes);
      if name == "checkpoint" {
        var second := [Placement(SIDECAR, source.sidecar.value.0)];
        assert xs == first + second;
        PlaceAllAppend(p, tree, first, second);
        if PlaceAll(p, tree, first).Some? {
          PlaceOne(p, PlaceAll(p, tree, first).value, SIDECAR, source.sidecar.value.0);
        }
      } else {
        assert xs == first;
      }
    }
  }

  lemma PlaceOne(p: Platform, tree: Tree, rel: Rel, bytes: Bytes)
    ensures PlaceAll(p, tree, [Placement(rel, bytes)]) == CopyFile(p, tree, rel, bytes)
  {
    hide CopyFile;
    assert [Placement(rel, bytes)][..0] == [];
  }

  /** Every reference has a place of its own. */
  ghost predicate PlacesApart(p: Platform, references: seq<Reference>, sources: map<string, Source>)
    requires forall r :: r in references ==> r.name in sources
  {
    && (forall r :: r in references ==> HasPlace(p, r.name, sources[r.name]))
    && (forall i, j :: 0 <= i < j < |references| ==>
          TargetOf(references[i].name, sources[references[i].name])
          != TargetOf(references[j].name, sources[references[j].name]))
  }

  /** All references are staged exactly when each has a place of its own and their files fit into the
      candidate and together; what is then new are those files. */
  lemma {:induction false} StagesIff(p: Platform, tree: Tree, references: seq<Reference>, sources: map<string, Source>)
    requires Distinct(Names(references)) && forall r :: r in references ==> r.name in sources
    ensures var outcome, files := StageAll(p, tree, references, sources), AllPlacements(references, sources);
      && (outcome.Done? <==> PlacesApart(p, references, sources) && Fit(p, tree, files))
      && (outcome.Done? ==> AllPlaced(p, tree, files, outcome.tree))
  {
    hide Fit, AllPlaced, PlacesApart, StageAll, AllPlacements, Distinct;
    StagesAsPlaced(p, tree, references, sources);
    PlaceAllIff(p, tree, AllPlacements(references, sources));
  }

  lemma {:induction false} StagesAsPlaced(p: Platform, tree: Tree, references: seq<Reference>,
                                          sources: map<string, Source>)
    requires Distinct(Names(references)) && forall r :: r in references ==> r.name in sources
    ensures var outcome, after := StageAll(p, tree, references, sources),
                                  PlaceAll(p, tree, AllPlacements(references, sources));
      && (outcome.Done? <==> PlacesApart(p, references, sources) && after.Some?)
      && (outcome.Done? ==> Some(outcome.tree) == after)
  {
    hide StageOne, PlaceAll, PlacesApart, Placements, TargetOf, AllStaged, Lower;
    if references == [] {
      NoPlaces(p, tree, sources);
    } else {
      var n := |references| - 1;
      var name := references[n].name;
      DistinctFront(references, n);
      StagesAsPlaced(p, tree, references[..n], sources);
      var before := StageAll(p, tree, references[..n], sources);
      PlaceAllAppend(p, tree, AllPlacements(references[..n], sources), Placements(name, sources[name]));
      PlacesNext(p, references, sources);
      if before.Done? {
        StageOneIff(p, before.tree, name, sources[name]);
        StageAllStaged(p, tree, references[..n], sources);
        if HasPlace(p, name, sources[name]) {
          TakenIff(p, tree, references, sources, before.tree, before.paths);
        }
      }
    }
  }

  lemma NoPlaces(p: Platform, tree: Tree, sources: map<string, Source>)
    ensures PlacesApart(p, [], sources) && PlaceAll(p, tree, []) == Some(tree)
  {}

  ghost predicate Taken(references: seq<Reference>, sources: map<string, Source>, n: nat)
    requires n < |references| && forall r :: r in references ==> r.name in sources
  {
    exists i :: 0 <= i < n && TargetOf(references[i].name, sources[references[i].name])
                              == TargetOf(references[n].name, sources[references[n].name])
  }

  lemma PlacesNext(p: Platform, references: seq<Reference>, sources: map<string, Source>)
    requires references != [] && forall r :: r in references ==> r.name in sources
    ensures var n := |references| - 1;
      PlacesApart(p, references, sources) <==>
        && PlacesApart(p, references[..n], sources)
        && HasPlace(p, references[n].name, sources[references[n].name]) && !Taken(references, sources, n)
  {
    hide TargetOf, HasPlace;
    var n := |references| - 1;
    assert forall r :: r in references <==> r in references[..n] || r == references[n];
    assert forall i :: 0 <= i < n ==> references[..n][i] == references[i];
  }

  lemma TakenIff(p: Platform, tree: Tree, references: seq<Reference>, sources: map<string, Source>, staged: Tree,
                 paths: map<string, Rel>)
    requires references != [] && forall r :: r in references ==> r.name in sources
    requires var n := |references| - 1;
      AllStaged(p, tree, staged, paths, sources, Elements(Names(references[..n])))
      && TargetOf(references[n].name, sources[references[n].name]).Some?
    ensures var n := |references| - 1;
      TargetOf(references[n].name, sources[references[n].name]).value in paths.Values <==> Taken(references, sources, n)
  {
    hide TargetOf;
    var n := |references| - 1;
    var target := TargetOf(references[n].name, sources[references[n].name]).value;
    if target in paths.Values {
      var name :| name in paths && paths[name] == target;
      var i :| 0 <= i < n && Names(references[..n])[i] == name;
      assert Staged(p, staged, paths, sources, references[i].name);
    }
    if Taken(references, sources, n) {
      var i :| 0 <= i < n && TargetOf(references[i].name, sources[references[i].name]) == Some(target);
      assert Names(references[..n])[i] == references[i].name;
      assert Staged(p, staged, paths, sources, references[i].name);
    }
  }
}
