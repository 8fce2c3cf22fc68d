/** One augmentation run over a dataset (augmentation/training_dataset_augmenter.py:40-180 and
    augmentation/augmentation_run_accumulator.py:20-230). What the augmenters offer for a sample is
    given; absent or empty metadata is the empty string. */
module AugmentationRun {
  import opened Options
  import Text

  const TRAIN: string := "train"
  const NON_TRAIN_SPLIT: string := "non_train_split"

  datatype Sample = Sample(sampleId: string, textIdentity: string, textLength: nat, ownModality: string,
                           metaModality: string, metaTask: string, metaSplit: string, operation: Option<string>,
                           labelId: Option<int>, sourceUrl: Option<string>, paths: seq<Option<string>>)

  datatype Identity = Identity(text: string, modality: string, task: string, labelId: Option<int>,
                               sourceUrl: Option<string>, operation: Option<string>, paths: seq<Option<string>>)

  datatype Rejection = Rejection(reason: string, sampleId: Option<string>, variantName: Option<string>,
                                 split: Option<string>, modality: Option<string>, task: Option<string>,
                                 labelId: Option<int>, sourceUrl: Option<string>, textLength: Option<nat>)

  function Or(first: string, second: string): string { if first != "" then first else second }

  function OrElse(first: Option<string>, second: string): string {
    if first.Some? && first.value != "" then first.value else second
  }

  function Modality(s: Sample): string { Or(s.metaModality, s.ownModality) }

  function Task(s: Sample): string { Or(s.metaTask, "unknown") }

  /** A sample without text has no identity. */
  function IdentityOf(s: Sample): Option<Identity> {
    if s.textIdentity == "" then None
    else Some(Identity(s.textIdentity, Modality(s), Task(s), s.labelId, s.sourceUrl, s.operation, s.paths))
  }

  function SplitOf(s: Sample): string { Or(Text.Lower(Text.Strip(Or(s.metaSplit, TRAIN))), TRAIN) }

  function RejectionRow(reason: string, s: Sample, variantName: Option<string>): Rejection {
    Rejection(reason, Some(s.sampleId), variantName, Some(Or(s.metaSplit, TRAIN)), Some(Modality(s)), Some(Task(s)),
              s.labelId, s.sourceUrl, Some(s.textLength))
  }

  function Completed(r: Rejection, s: Sample): Rejection {
    Rejection(r.reason, Some(OrElse(r.sampleId, s.sampleId)), r.variantName,
              Some(OrElse(r.split, Or(s.metaSplit, TRAIN))), Some(OrElse(r.modality, Modality(s))),
              Some(OrElse(r.task, Task(s))), if r.labelId.Some? then r.labelId else s.labelId,
              if r.sourceUrl.Some? && r.sourceUrl.value != "" then r.sourceUrl else s.sourceUrl,
              if r.textLength.Some? then r.textLength else Some(s.textLength))
  }

  // ---- a run as a list of events ----

  /** One augmenter's answer for one sample. */
  datatype Group = Group(duplicateReason: string, variants: seq<(string, Sample)>, rejections: seq<Rejection>)

  datatype Event =
    | Skipped(sample: Sample)
    | Refused(rejection: Rejection, sample: Sample)
    | Offered(name: string, variant: Sample, duplicateReason: string, sample: Sample)

  datatype Added = Added(name: string, variant: Sample, split: string)

  datatype Outcome = Outcome(added: seq<Added>, rejected: seq<Rejection>)

  function AddedIdentities(added: seq<Added>): set<Identity> {
    set a | a in added && IdentityOf(a.variant).Some? :: IdentityOf(a.variant).value
  }

  function OriginalIdentities(samples: seq<Sample>): set<Identity> {
    set s | s in samples && IdentityOf(s).Some? :: IdentityOf(s).value
  }

  function Apply(o: Outcome, event: Event, original: set<Identity>): Outcome {
    match event
    case Skipped(sample) =>
      o.(rejected := o.rejected + [Completed(RejectionRow(NON_TRAIN_SPLIT, sample, None), sample)])
    case Refused(rejection, sample) =>
      o.(rejected := o.rejected + [Completed(rejection, sample)])
    case Offered(name, variant, reason, sample) =>
      var identity := IdentityOf(variant);
      if identity.None? || identity.value in original + AddedIdentities(o.added) then
        o.(rejected := o.rejected + [Completed(RejectionRow(reason, sample, Some(name)), sample)])
      else
        o.(added := o.added + [Added(name, variant, SplitOf(sample))])
  }

  function Play(events: seq<Event>, original: set<Identity>): Outcome {
    if events == [] then Outcome([], [])
    else Apply(Play(events[..|events| - 1], original), events[|events| - 1], original)
  }

  function RefusedEvents(rejections: seq<Rejection>, sample: Sample): seq<Event> {
    seq(|rejections|, i requires 0 <= i < |rejections| => Refused(rejections[i], sample))
  }

  function OfferedEvents(variants: seq<(string, Sample)>, reason: string, sample: Sample): seq<Event> {
    seq(|variants|, i requires 0 <= i < |variants| => Offered(variants[i].0, variants[i].1, reason, sample))
  }

  function GroupEvents(group: Group, sample: Sample): seq<Event> {
    RefusedEvents(group.rejections, sample) + OfferedEvents(group.variants, group.duplicateReason, sample)
  }

  function GroupsEvents(groups: seq<Group>, sample: Sample): seq<Event> {
    if groups == [] then []
    else GroupsEvents(groups[..|groups| - 1], sample) + GroupEvents(groups[|groups| - 1], sample)
  }

  function SampleEvents(sample: Sample, groups: seq<Group>): seq<Event> {
    if SplitOf(sample) != TRAIN then [Skipped(sample)] else GroupsEvents(groups, sample)
  }

  function Events(dataset: seq<Sample>, offers: seq<seq<Group>>): seq<Event>
    requires |dataset| == |offers|
  {
    if dataset == [] then []
    else
      var n := |dataset| - 1;
      Events(dataset[..n], offers[..n]) + SampleEvents(dataset[n], offers[n])
  }

  // ---- counters ----

  function Incremented(counter: map<string, nat>, key: string): map<string, nat> {
    counter[key := (if key in counter then counter[key] else 0) + 1]
  }

  function CounterOf(keys: seq<string>): map<string, nat> {
    if keys == [] then map[] else Incremented(CounterOf(keys[..|keys| - 1]), keys[|keys| - 1])
  }

  ghost function Total(counter: map<string, nat>): nat
    decreases |counter|
  {
    if counter == map[] then 0
    else
      var key :| key in counter;
      counter[key] + Total(counter - {key})
  }

  lemma {:induction false} TotalSplit(counter: map<string, nat>, key: string)
    requires key in counter
    ensures Total(counter) == counter[key] + Total(counter - {key})
    decreases |counter|
  {
    var first :| first in counter && Total(counter) == counter[first] + Total(counter - {first});
    if first != key {
      TotalSplit(counter - {first}, key);
      TotalSplit(counter - {key}, first);
      assert counter - {first} - {key} == counter - {key} - {first};
    }
  }

  lemma TotalIncremented(counter: map<string, nat>, key: string)
    ensures Total(Incremented(counter, key)) == Total(counter) + 1
  {
    var after := Incremented(counter, key);
    TotalSplit(after, key);
    assert after - {key} == counter - {key};
    if key in counter { TotalSplit(counter, key); } else { assert counter - {key} == counter; }
  }

  /** A counter sums to the number of keys counted. */
  lemma {:induction false} CounterTotals(keys: seq<string>)
    ensures Total(CounterOf(keys)) == |keys|
  {
    if keys != [] {
      CounterTotals(keys[..|keys| - 1]);
      TotalIncremented(CounterOf(keys[..|keys| - 1]), keys[|keys| - 1]);
    }
  }

  datatype Axis = ByName | ByOperation | ByModality | ByTask | BySplit

  function KeyOf(a: Added, axis: Axis): string {
    match axis
    case ByName => a.name
    case ByOperation => OrElse(a.variant.operation, a.name)
    case ByModality => Modality(a.variant)
    case ByTask => Task(a.variant)
    case BySplit => Or(a.variant.metaSplit, a.split)
  }

  function Keys(added: seq<Added>, axis: Axis): (r: seq<string>)
    ensures |r| == |added|
  {
    seq(|added|, i requires 0 <= i < |added| => KeyOf(added[i], axis))
  }

  function Reasons(rejected: seq<Rejection>): (r: seq<string>)
    ensures |r| == |rejected|
  {
    seq(|rejected|, i requires 0 <= i < |rejected| => rejected[i].reason)
  }

  function Modalities(rejected: seq<Rejection>): (r: seq<string>)
    ensures |r| == |rejected|
  {
    seq(|rejected|, i requires 0 <= i < |rejected| => OrElse(rejected[i].modality, "unknown"))
  }

  // ---- the run state ----

  class AugmentationRunState {
    const originalSamples: nat
    ghost const original: set<Identity>
    var seenKeys: set<Identity>
    var variantsByName: map<string, nat>
    var variantsByOperation: map<string, nat>
    var variantsByModality: map<string, nat>
    var variantsByTask: map<string, nat>
    var variantsBySplit: map<string, nat>
    var rejectedByReason: map<string, nat>
    var rejectionsByModality: map<string, nat>
    var rejected: seq<Rejection>
    /** The variants added so far. */
    ghost var added: seq<Added>

    ghost predicate VariantsCounted()
      reads `variantsByName, `variantsByOperation, `variantsByModality, `variantsByTask, `variantsBySplit, `added
    {
      && variantsByName == CounterOf(Keys(added, ByName)) && variantsByOperation == CounterOf(Keys(added, ByOperation))
      && variantsByModality == CounterOf(Keys(added, ByModality)) && variantsByTask == CounterOf(Keys(added, ByTask))
      && variantsBySplit == CounterOf(Keys(added, BySplit))
    }

    ghost predicate RejectionsCounted()
      reads `rejectedByReason, `rejectionsByModality, `rejected
    {
      rejectedByReason == CounterOf(Reasons(rejected)) && rejectionsByModality == CounterOf(Modalities(rejected))
    }

    ghost predicate Valid()
      reads this
    {
      VariantsCounted() && RejectionsCounted() && seenKeys == original + AddedIdentities(added)
    }

    ghost function Now(): Outcome
      reads this
    {
      Outcome(added, rejected)
    }

    constructor (samples: seq<Sample>)
      ensures Valid() && originalSamples == |samples| && original == OriginalIdentities(samples)
      ensures Now() == Outcome([], [])
    {
      originalSamples := |samples|;
      original := OriginalIdentities(samples);
      seenKeys := OriginalIdentities(samples);
      variantsByName, variantsByOperation, variantsByModality, variantsByTask := map[], map[], map[], map[];
      variantsBySplit, rejectedByReason, rejectionsByModality := map[], map[], map[];
      rejected, added := [], [];
    }

    method Claim(sample: Sample) returns (claimed: bool)
      requires Valid()
      modifies this`seenKeys
      ensures claimed <==> IdentityOf(sample).Some? && IdentityOf(sample).value !in original + AddedIdentities(added)
      ensures seenKeys == if claimed then old(seenKeys) + {IdentityOf(sample).value} else old(seenKeys)
    {
      var identity := IdentityOf(sample);
      if identity.None? || identity.value in seenKeys {
        return false;
      }
      seenKeys := seenKeys + {identity.value};
      return true;
    }

    method AddVariant(name: string, variant: Sample, fallbackSplit: string)
      requires VariantsCounted() && RejectionsCounted()
      requires IdentityOf(variant).Some? && seenKeys == original + AddedIdentities(added) + {IdentityOf(variant).value}
      modifies `variantsByName, `variantsByOperation, `variantsByModality, `variantsByTask, `variantsBySplit, `added
      ensures Valid() && Now() == Outcome(old(added) + [Added(name, variant, fallbackSplit)], old(rejected))
    {
      hide Incremented, IdentityOf, CounterOf, Keys, AddedIdentities, KeyOf, Or, OrElse, Modality, Task,
        RejectionsCounted;
      var next := Added(name, variant, fallbackSplit);
      NextIdentity(original, added, next);
      NextCounters(added, next);
      CountVariant(name, variant, fallbackSplit);
      added := added + [next];
    }

    method CountVariant(name: string, variant: Sample, fallbackSplit: string)
      modifies `variantsByName, `variantsByOperation, `variantsByModality, `variantsByTask, `variantsBySplit
      ensures variantsByName == Incremented(old(variantsByName), name)
      ensures variantsByOperation == Incremented(old(variantsByOperation), OrElse(variant.operation, name))
      ensures variantsByModality == Incremented(old(variantsByModality), Modality(variant))
      ensures variantsByTask == Incremented(old(variantsByTask), Task(variant))
      ensures variantsBySplit == Incremented(old(variantsBySplit), Or(variant.metaSplit, fallbackSplit))
    {
      hide Incremented, OrElse, Or, Modality, Task;
      variantsByName := Incremented(variantsByName, name);
      variantsByOperation := Incremented(variantsByOperation, OrElse(variant.operation, name));
      variantsByModality := Incremented(variantsByModality, Modality(variant));
      variantsByTask := Incremented(variantsByTask, Task(variant));
      variantsBySplit := Incremented(variantsBySplit, Or(variant.metaSplit, fallbackSplit));
    }

    method RejectRow(rejection: Rejection, sample: Sample)
      requires Valid()
      modifies this`rejectedByReason, this`rejectionsByModality, this`rejected
      ensures Valid() && Now() == Outcome(old(added), old(rejected) + [Completed(rejection, sample)])
    {
      hide Incremented, Completed;
      var completed := Completed(rejection, sample);
      NextReasons(rejected, completed);
      rejectedByReason := Incremented(rejectedByReason, completed.reason);
      rejectionsByModality := Incremented(rejectionsByModality, OrElse(completed.modality, "unknown"));
      rejected := rejected + [completed];
    }

    method Reject(reason: string, sample: Sample, variantName: Option<string>)
      requires Valid()
      modifies this`rejectedByReason, this`rejectionsByModality, this`rejected
      ensures Valid()
      ensures Now()
        == Outcome(old(added), old(rejected) + [Completed(RejectionRow(reason, sample, variantName), sample)])
    {
      RejectRow(RejectionRow(reason, sample, variantName), sample);
    }
  }

  lemma NextKey(added: seq<Added>, next: Added, axis: Axis)
    ensures CounterOf(Keys(added + [next], axis)) == Incremented(CounterOf(Keys(added, axis)), KeyOf(next, axis))
  {
    hide KeyOf, Incremented;
    assert Keys(added + [next], axis)[..|added|] == Keys(added, axis);
  }

  lemma NextCounters(added: seq<Added>, next: Added)
    ensures var v := next.variant; var all := added + [next];
      && CounterOf(Keys(all, ByName)) == Incremented(CounterOf(Keys(added, ByName)), next.name)
      && CounterOf(Keys(all, ByOperation))
        == Incremented(CounterOf(Keys(added, ByOperation)), OrElse(v.operation, next.name))
      && CounterOf(Keys(all, ByModality)) == Incremented(CounterOf(Keys(added, ByModality)), Modality(v))
      && CounterOf(Keys(all, ByTask)) == Incremented(CounterOf(Keys(added, ByTask)), Task(v))
      && CounterOf(Keys(all, BySplit)) == Incremented(CounterOf(Keys(added, BySplit)), Or(v.metaSplit, next.split))
  {
    hide Incremented, CounterOf, Keys, Or, OrElse, Modality, Task;
    NextKey(added, next, ByName);
    NextKey(added, next, ByOperation);
    NextKey(added, next, ByModality);
    NextKey(added, next, ByTask);
    NextKey(added, next, BySplit);
  }

  lemma NextIdentity(original: set<Identity>, added: seq<Added>, next: Added)
    requires IdentityOf(next.variant).Some?
    ensures original + AddedIdentities(added + [next])
      == original + AddedIdentities(added) + {IdentityOf(next.variant).value}
  {
    hide IdentityOf;
  }

  lemma NextReasons(rejected: seq<Rejection>, next: Rejection)
    ensures CounterOf(Reasons(rejected + [next])) == Incremented(CounterOf(Reasons(rejected)), next.reason)
    ensures CounterOf(Modalities(rejected + [next]))
      == Incremented(CounterOf(Modalities(rejected)), OrElse(next.modality, "unknown"))
  {
    hide Incremented, OrElse;
    assert Reasons(rejected + [next])[..|rejected|] == Reasons(rejected);
    assert Modalities(rejected + [next])[..|rejected|] == Modalities(rejected);
  }

  // ---- the run ----

  datatype Report = Report(enabled: bool, originalSamples: nat, augmentedSamples: nat, variantsAdded: int,
                           variantsByName: map<string, nat>, variantsByOperation: map<string, nat>,
                           variantsByModality: map<string, nat>, variantsByTask: map<string, nat>,
                           variantsBySplit: map<string, nat>, rejectedByReason: map<string, nat>,
                           rejectionsByModality: map<string, nat>, rejected: seq<Rejection>)

  function Variants(added: seq<Added>): (r: seq<Sample>)
    ensures |r| == |added|
  {
    seq(|added|, i requires 0 <= i < |added| => added[i].variant)
  }

  /** The report that an outcome calls for. */
  function ReportOf(originals: nat, o: Outcome): Report {
    Report(true, originals, originals + |o.added|, |o.added|, CounterOf(Keys(o.added, ByName)),
           CounterOf(Keys(o.added, ByOperation)), CounterOf(Keys(o.added, ByModality)),
           CounterOf(Keys(o.added, ByTask)), CounterOf(Keys(o.added, BySplit)), CounterOf(Reasons(o.rejected)),
           CounterOf(Modalities(o.rejected)), o.rejected)
  }

  method Augment(enabled: bool, dataset: seq<Sample>, offers: seq<seq<Group>>)
    returns (augmented: seq<Sample>, report: Report)
    requires |offers| == |dataset|
    ensures var o := Play(Events(dataset, offers), OriginalIdentities(dataset));
      if enabled then augmented == dataset + Variants(o.added) && report == ReportOf(|dataset|, o)
      else
        && augmented == dataset && !report.enabled && report.rejected == [] && report.variantsAdded == 0
        && report.originalSamples == report.augmentedSamples == |dataset|
        && report.variantsByName == report.variantsByOperation == report.variantsByModality == map[]
        && report.variantsByTask == report.variantsBySplit == map[]
        && report.rejectedByReason == report.rejectionsByModality == map[]
  {
    if !enabled {
      return dataset, Report(false, |dataset|, |dataset|, 0, map[], map[], map[], map[], map[], map[], map[], []);
    }
    hide Reached, Events, SampleEvents, OriginalIdentities;
    var state := new AugmentationRunState(dataset);
    NothingYet(state, dataset);
    augmented := AugmentAll(state, dataset, offers);
    AllCounted(state, Events(dataset, offers), dataset, augmented);
    report := Report(true, state.originalSamples, |augmented|, |augmented| - state.originalSamples,
                     state.variantsByName, state.variantsByOperation, state.variantsByModality, state.variantsByTask,
                     state.variantsBySplit, state.rejectedByReason, state.rejectionsByModality, state.rejected);
  }

  lemma NothingYet(state: AugmentationRunState, dataset: seq<Sample>)
    requires state.Valid() && state.Now() == Outcome([], [])
    ensures Reached(state, [], dataset, dataset)
  {
    hide AugmentationRunState.Valid;
  }

  /** What the counters and the dataset are once all events are played. */
  lemma AllCounted(state: AugmentationRunState, events: seq<Event>, dataset: seq<Sample>, augmented: seq<Sample>)
    requires Reached(state, events, dataset, augmented)
    ensures state.Valid() && state.Now() == Play(events, state.original)
    ensures augmented == dataset + Variants(state.added)
  {}

  /** The loop over the samples. */
  method AugmentAll(state: AugmentationRunState, dataset: seq<Sample>, offers: seq<seq<Group>>)
    returns (augmented: seq<Sample>)
    requires |offers| == |dataset| && Reached(state, [], dataset, dataset)
    modifies state
    ensures Reached(state, Events(dataset, offers), dataset, augmented)
  {
    hide Reached, SampleEvents;
    augmented := dataset;
    for i := 0 to |dataset|
      invariant Reached(state, Events(dataset[..i], offers[..i]), dataset, augmented)
    {
      NextEvents(dataset, offers, i);
      augmented := AugmentSample(state, dataset[i], offers[i], dataset, augmented,
                                 Events(dataset[..i], offers[..i]));
    }
    assert dataset[..|dataset|] == dataset && offers[..|dataset|] == offers;
  }

  lemma NextEvents(dataset: seq<Sample>, offers: seq<seq<Group>>, i: nat)
    requires |dataset| == |offers| && i < |dataset|
    ensures Events(dataset[..i + 1], offers[..i + 1])
      == Events(dataset[..i], offers[..i]) + SampleEvents(dataset[i], offers[i])
  {
    hide SampleEvents;
    assert dataset[..i + 1][..i] == dataset[..i] && offers[..i + 1][..i] == offers[..i];
  }

  /** The state after the events so far, and the dataset it has produced. */
  ghost predicate Reached(state: AugmentationRunState, events: seq<Event>, dataset: seq<Sample>, augmented: seq<Sample>)
    reads state
  {
    state.Valid() && state.Now() == Play(events, state.original) && augmented == dataset + Variants(state.added)
  }

  method AugmentSample(state: AugmentationRunState, sample: Sample, groups: seq<Group>, ghost dataset: seq<Sample>,
                       augmented: seq<Sample>, ghost before: seq<Event>) returns (after: seq<Sample>)
    requires Reached(state, before, dataset, augmented)
    modifies state
    ensures Reached(state, before + SampleEvents(sample, groups), dataset, after)
  {
    hide Reached, SplitOf;
    after := augmented;
    if SplitOf(sample) != TRAIN {
      SkipSample(state, sample, dataset, augmented, before);
      return;
    }
    NoGroups(before, groups, sample);
    for i := 0 to |groups|
      invariant Reached(state, before + GroupsEvents(groups[..i], sample), dataset, after)
    {
      NextGroup(before, groups, sample, i);
      after := AugmentGroup(state, sample, groups[i], dataset, after, before + GroupsEvents(groups[..i], sample));
    }
    assert groups[..|groups|] == groups;
  }

  lemma NoGroups(before: seq<Event>, groups: seq<Group>, sample: Sample)
    ensures before + GroupsEvents(groups[..0], sample) == before
  {}

  lemma NextGroup(before: seq<Event>, groups: seq<Group>, sample: Sample, i: nat)
    requires i < |groups|
    ensures before + GroupsEvents(groups[..i + 1], sample)
            == before + GroupsEvents(groups[..i], sample) + GroupEvents(groups[i], sample)
  {
    hide GroupEvents;
    assert groups[..i + 1][..i] == groups[..i];
  }

  lemma NextEvent(before: seq<Event>, events: seq<Event>, i: nat)
    requires i < |events|
    ensures before + events[..i + 1] == before + events[..i] + [events[i]]
    ensures before + events[..0] == before
  {}

  lemma PlayNext(events: seq<Event>, event: Event, original: set<Identity>)
    ensures Play(events + [event], original) == Apply(Play(events, original), event, original)
  {
    hide Apply;
    assert (events + [event])[..|events|] == events;
  }

  method SkipSample(state: AugmentationRunState, sample: Sample, ghost dataset: seq<Sample>,
                    ghost augmented: seq<Sample>, ghost before: seq<Event>)
    requires Reached(state, before, dataset, augmented)
    modifies state
    ensures Reached(state, before + [Skipped(sample)], dataset, augmented)
  {
    PlayNext(before, Skipped(sample), state.original);
    hide Completed, RejectionRow, Play, Variants, IdentityOf, AddedIdentities;
    state.Reject(NON_TRAIN_SPLIT, sample, None);
  }

  method AugmentGroup(state: AugmentationRunState, sample: Sample, group: Group, ghost dataset: seq<Sample>,
                      augmented: seq<Sample>, ghost before: seq<Event>) returns (after: seq<Sample>)
    requires Reached(state, before, dataset, augmented)
    modifies state
    ensures Reached(state, before + GroupEvents(group, sample), dataset, after)
  {
    hide Reached;
    ghost var refused := RefusedEvents(group.rejections, sample);
    ghost var offered := OfferedEvents(group.variants, group.duplicateReason, sample);
    assert before + GroupEvents(group, sample) == before + refused + offered;
    hide GroupEvents, RefusedEvents, OfferedEvents;
    RefuseAll(state, sample, group.rejections, dataset, augmented, before);
    after := OfferAll(state, sample, group.variants, group.duplicateReason, dataset, augmented, before + refused);
  }

  method RefuseAll(state: AugmentationRunState, sample: Sample, rejections: seq<Rejection>, ghost dataset: seq<Sample>,
                   ghost augmented: seq<Sample>, ghost before: seq<Event>)
    requires Reached(state, before, dataset, augmented)
    modifies state
    ensures Reached(state, before + RefusedEvents(rejections, sample), dataset, augmented)
  {
    hide Reached;
    ghost var refused := RefusedEvents(rejections, sample);
    assert before + refused[..0] == before;
    for i := 0 to |rejections|
      invariant Reached(state, before + refused[..i], dataset, augmented)
    {
      NextEvent(before, refused, i);
      RefuseRow(state, sample, rejections[i], dataset, augmented, before + refused[..i]);
    }
    assert refused[..|refused|] == refused;
  }

  method RefuseRow(state: AugmentationRunState, sample: Sample, rejection: Rejection, ghost dataset: seq<Sample>,
                   ghost augmented: seq<Sample>, ghost before: seq<Event>)
    requires Reached(state, before, dataset, augmented)
    modifies state
    ensures Reached(state, before + [Refused(rejection, sample)], dataset, augmented)
  {
    PlayNext(before, Refused(rejection, sample), state.original);
    hide Completed, Play, Variants, IdentityOf, AddedIdentities;
    state.RejectRow(rejection, sample);
  }

  method OfferAll(state: AugmentationRunState, sample: Sample, variants: seq<(string, Sample)>, duplicateReason: string,
                  ghost dataset: seq<Sample>, augmented: seq<Sample>, ghost before: seq<Event>)
    returns (after: seq<Sample>)
    requires Reached(state, before, dataset, augmented)
    modifies state
    ensures Reached(state, before + OfferedEvents(variants, duplicateReason, sample), dataset, after)
  {
    hide Reached;
    ghost var offered := OfferedEvents(variants, duplicateReason, sample);
    after := augmented;
    assert before + offered[..0] == before;
    for i := 0 to |variants|
      invariant Reached(state, before + offered[..i], dataset, after)
    {
      NextEvent(before, offered, i);
      after := OfferVariant(state, sample, variants[i].0, variants[i].1, duplicateReason, dataset, after,
                            before + offered[..i]);
    }
    assert offered[..|offered|] == offered;
  }

  /** One offered variant: claimed and added, or rejected. */
  method OfferVariant(state: AugmentationRunState, sample: Sample, name: string, variant: Sample,
                      duplicateReason: string, ghost dataset: seq<Sample>, augmented: seq<Sample>,
                      ghost before: seq<Event>) returns (after: seq<Sample>)
    requires Reached(state, before, dataset, augmented)
    modifies state
    ensures Reached(state, before + [Offered(name, variant, duplicateReason, sample)], dataset, after)
  {
    hide Completed, RejectionRow, Play, Apply, IdentityOf, AddedIdentities, SplitOf, Variants;
    hide AugmentationRunState.VariantsCounted, AugmentationRunState.RejectionsCounted;
    OfferNext(before, name, variant, duplicateReason, sample, state.original);
    after := augmented;
    var claimed := state.Claim(variant);
    if !claimed {
      state.Reject(duplicateReason, sample, Some(name));
    } else {
      after := after + [variant];
      NextVariant(state.added, Added(name, variant, SplitOf(sample)));
      state.AddVariant(name, variant, SplitOf(sample));
    }
  }

  lemma NextVariant(added: seq<Added>, next: Added)
    ensures Variants(added + [next]) == Variants(added) + [next.variant]
  {}

  lemma OfferNext(before: seq<Event>, name: string, variant: Sample, duplicateReason: string, sample: Sample,
                  original: set<Identity>)
    ensures var o := Play(before, original); var identity := IdentityOf(variant);
      Play(before + [Offered(name, variant, duplicateReason, sample)], original)
      == if identity.Some? && identity.value !in original + AddedIdentities(o.added)
         then Outcome(o.added + [Added(name, variant, SplitOf(sample))], o.rejected)
         else Outcome(o.added, o.rejected + [Completed(RejectionRow(duplicateReason, sample, Some(name)), sample)])
  {
    hide Completed, RejectionRow, IdentityOf, AddedIdentities, SplitOf;
    PlayNext(before, Offered(name, variant, duplicateReason, sample), original);
  }

  // ---- what a run guarantees ----

  /** Two samples share an identity exactly when both have text and they agree in the text's identity,
      modality (metadata before the sample's own), task, label, source, operation and paths. */
  lemma SameIdentityIff(a: Sample, b: Sample)
    ensures IdentityOf(a).Some? && IdentityOf(a) == IdentityOf(b) <==>
      && a.textIdentity != "" && a.textIdentity == b.textIdentity
      && (if a.metaModality == "" then a.ownModality else a.metaModality)
         == (if b.metaModality == "" then b.ownModality else b.metaModality)
      && (if a.metaTask == "" then "unknown" else a.metaTask) == (if b.metaTask == "" then "unknown" else b.metaTask)
      && a.labelId == b.labelId && a.sourceUrl == b.sourceUrl && a.operation == b.operation && a.paths == b.paths
  {}

  /** The split of a sample: the stripped lower-case metadata, and train when that is blank. */
  lemma SplitSays(s: Sample)
    ensures SplitOf(s) == if Text.Strip(s.metaSplit) == "" then "train" else Text.Lower(Text.Strip(s.metaSplit))
  {
    hide Text.Lower;
    if s.metaSplit == "" {
      assert Text.Lower(Text.Strip("train")) == "train" by { TrainIsPlain(); }
    } else {
      hide Text.Strip;
      assert |Text.Lower(Text.Strip(s.metaSplit))| == |Text.Strip(s.metaSplit)|;
    }
  }

  lemma TrainIsPlain()
    ensures Text.Strip("train") == "train" && Text.Lower("train") == "train"
  {
    Text.LStripFixed("train");
    Text.RStripFixed("train");
    forall c | c in "train" ensures Text.LowerChar(c) == c {}
    assert Text.Lower("train") == "train";
  }

  /** The row of a skipped sample or a duplicate: the sample's own data, with the defaults of the
      report. */
  lemma RowSays(reason: string, s: Sample, variantName: Option<string>)
    ensures Completed(RejectionRow(reason, s, variantName), s)
      == Rejection(reason, Some(s.sampleId), variantName, Some(if s.metaSplit == "" then "train" else s.metaSplit),
                   Some(if s.metaModality == "" then s.ownModality else s.metaModality),
                   Some(if s.metaTask == "" then "unknown" else s.metaTask), s.labelId, s.sourceUrl,
                   Some(s.textLength))
  {}

  predicate Given(x: Option<string>) { x.Some? && x.value != "" }

  /** A row that an augmenter gives keeps what it says and gets the rest from the sample. */
  lemma CompletedSays(r: Rejection, s: Sample)
    ensures var c, plain := Completed(r, s), Completed(RejectionRow(r.reason, s, r.variantName), s);
      && c.reason == r.reason && c.variantName == r.variantName
      && c.sampleId == (if Given(r.sampleId) then r.sampleId else plain.sampleId)
      && c.split == (if Given(r.split) then r.split else plain.split)
      && c.modality == (if Given(r.modality) then r.modality else plain.modality)
      && c.task == (if Given(r.task) then r.task else plain.task)
      && c.labelId == (if r.labelId.Some? then r.labelId else plain.labelId)
      && c.sourceUrl == (if Given(r.sourceUrl) then r.sourceUrl else plain.sourceUrl)
      && c.textLength == (if r.textLength.Some? then r.textLength else plain.textLength)
  {}

  /** The row an event leaves when it adds nothing. */
  ghost predicate RowOf(event: Event, row: Rejection) {
    match event
    case Skipped(sample) => row == Completed(RejectionRow("non_train_split", sample, None), sample)
    case Refused(rejection, sample) => row == Completed(rejection, sample)
    case Offered(name, _, reason, sample) => row == Completed(RejectionRow(reason, sample, Some(name)), sample)
  }

  /** The events that are not novel leave one row each, in their order, and nothing else does. */
  lemma {:induction false} RejectedRows(events: seq<Event>, original: set<Identity>) returns (from: seq<nat>)
    ensures var rejected := Play(events, original).rejected;
      && |from| == |rejected|
      && (forall k :: 0 <= k < |from| ==>
            from[k] < |events| && !Novel(events, original, from[k]) && RowOf(events[from[k]], rejected[k]))
      && (forall j, k :: 0 <= j < k < |from| ==> from[j] < from[k])
      && (forall i: nat :: i < |events| && !Novel(events, original, i) ==> i in from)
  {
    hide IdentityOf, Completed, RejectionRow, AddedIdentities, Novel;
    from := [];
    if events != [] {
      var n := |events| - 1;
      from := RejectedRows(events[..n], original);
      NovelStep(events, original, n);
      forall i: nat | i < n ensures Novel(events[..n], original, i) == Novel(events, original, i) {
        NovelPrefix(events, original, n, i);
      }
      if !Novel(events, original, n) {
        from := from + [n];
      }
    }
  }

  lemma NovelPrefix(events: seq<Event>, original: set<Identity>, n: nat, i: nat)
    requires i < n <= |events|
    ensures Novel(events[..n], original, i) == Novel(events, original, i)
  {
    assert forall j :: 0 <= j <= i ==> events[..n][j] == events[j];
  }

  /** A counter holds exactly the keys counted, each with its number of occurrences. */
  lemma {:induction false} CounterCounts(keys: seq<string>)
    ensures var counter := CounterOf(keys);
      && (forall key :: key in counter <==> key in keys)
      && forall key :: key in counter ==> counter[key] == multiset(keys)[key]
  {
    if keys != [] {
      var n := |keys| - 1;
      CounterCounts(keys[..n]);
      assert keys == keys[..n] + [keys[n]];
    }
  }

  /** What each counter of the report counts, variant by variant and row by row. */
  lemma CountedKeys(o: Outcome, i: nat)
    ensures i < |o.added| ==>
      var a := o.added[i];
      && Keys(o.added, ByName)[i] == a.name
      && Keys(o.added, ByOperation)[i] == (if Given(a.variant.operation) then a.variant.operation.value else a.name)
      && Keys(o.added, ByModality)[i]
         == (if a.variant.metaModality == "" then a.variant.ownModality else a.variant.metaModality)
      && Keys(o.added, ByTask)[i] == (if a.variant.metaTask == "" then "unknown" else a.variant.metaTask)
      && Keys(o.added, BySplit)[i] == (if a.variant.metaSplit == "" then a.split else a.variant.metaSplit)
    ensures i < |o.rejected| ==>
      var r := o.rejected[i];
      && Reasons(o.rejected)[i] == r.reason
      && Modalities(o.rejected)[i] == if Given(r.modality) then r.modality.value else "unknown"
  {}

  /** Every event ends as one added variant or one rejection. */
  lemma {:induction false} EveryEventSettled(events: seq<Event>, original: set<Identity>)
    ensures var o := Play(events, original); |o.added| + |o.rejected| == |events|
  {
    if events != [] { EveryEventSettled(events[..|events| - 1], original); }
  }

  function OfferedIdentity(event: Event): Option<Identity> {
    if event.Offered? then IdentityOf(event.variant) else None
  }

  /** Offered with an identity that no original sample and no earlier offer has. */
  ghost predicate Novel(events: seq<Event>, original: set<Identity>, i: nat)
    requires i < |events|
  {
    var identity := OfferedIdentity(events[i]);
    && identity.Some? && identity.value !in original
    && forall j :: 0 <= j < i ==> OfferedIdentity(events[j]) != identity
  }

  /** The novel offers, in order. */
  ghost function NovelOffers(events: seq<Event>, original: set<Identity>): seq<Added> {
    if events == [] then []
    else
      var n := |events| - 1;
      NovelOffers(events[..n], original)
      + if Novel(events, original, n) then [Added(events[n].name, events[n].variant, SplitOf(events[n].sample))] else []
  }

  /** Claimed or original: exactly the identities offered so far and the original ones. */
  lemma {:induction false} SeenSoFar(events: seq<Event>, original: set<Identity>, identity: Identity)
    ensures identity in original + AddedIdentities(Play(events, original).added) <==>
            identity in original || exists j :: 0 <= j < |events| && OfferedIdentity(events[j]) == Some(identity)
  {
    if events != [] {
      var n := |events| - 1;
      SeenSoFar(events[..n], original, identity);
      SeenStep(Play(events[..n], original), events[n], original, identity);
      assert forall j :: 0 <= j < n ==> events[j] == events[..n][j];
    }
  }

  lemma SeenStep(o: Outcome, event: Event, original: set<Identity>, identity: Identity)
    ensures identity in original + AddedIdentities(Apply(o, event, original).added) <==>
            identity in original + AddedIdentities(o.added) || OfferedIdentity(event) == Some(identity)
  {
    hide IdentityOf, Completed, RejectionRow;
    var after := Apply(o, event, original).added;
    if after != o.added {
      NextIdentity(original, o.added, after[|after| - 1]);
    }
  }

  /** A variant is added exactly when it is the first with its identity in the whole run. */
  lemma {:induction false} AddedAreNovel(events: seq<Event>, original: set<Identity>)
    ensures Play(events, original).added == NovelOffers(events, original)
  {
    hide IdentityOf, Completed, RejectionRow, AddedIdentities, Novel;
    if events != [] {
      var n := |events| - 1;
      AddedAreNovel(events[..n], original);
      NovelStep(events, original, n);
    }
  }

  lemma NovelStep(events: seq<Event>, original: set<Identity>, n: nat)
    requires |events| == n + 1
    ensures var identity := OfferedIdentity(events[n]);
      Novel(events, original, n) <==>
        identity.Some? && identity.value !in original + AddedIdentities(Play(events[..n], original).added)
    ensures Novel(events, original, n) ==> events[n].Offered?
  {
    hide IdentityOf, AddedIdentities, Play;
    var identity := OfferedIdentity(events[n]);
    if identity.Some? {
      SeenSoFar(events[..n], original, identity.value);
      assert forall j :: 0 <= j < n ==> events[j] == events[..n][j];
    }
  }

  ghost predicate DistinctFrom(added: seq<Added>, original: set<Identity>) {
    && (forall i :: 0 <= i < |added| ==>
        IdentityOf(added[i].variant).Some? && IdentityOf(added[i].variant).value !in original)
    && (forall i, j :: 0 <= i < j < |added| ==> IdentityOf(added[i].variant) != IdentityOf(added[j].variant))
  }

  lemma DistinctAppend(added: seq<Added>, original: set<Identity>, next: Added)
    requires DistinctFrom(added, original)
    requires IdentityOf(next.variant).Some? && IdentityOf(next.variant).value !in original + AddedIdentities(added)
    ensures DistinctFrom(added + [next], original)
  {
    hide IdentityOf;
    forall i | 0 <= i < |added| ensures IdentityOf(added[i].variant) != IdentityOf(next.variant) {
      assert added[i] in added;
    }
  }

  /** The identities of the added variants are distinct, and no original sample has one of them. */
  lemma {:induction false} AddedDistinct(events: seq<Event>, original: set<Identity>)
    ensures DistinctFrom(Play(events, original).added, original)
  {
    hide IdentityOf, Completed, RejectionRow, DistinctFrom;
    if events == [] {
      NoneDistinct(original);
    } else {
      var n := |events| - 1;
      AddedDistinct(events[..n], original);
      var o := Play(events[..n], original);
      if Apply(o, events[n], original).added != o.added {
        DistinctAppend(o.added, original, Added(events[n].name, events[n].variant, SplitOf(events[n].sample)));
      }
    }
  }

  lemma NoneDistinct(original: set<Identity>)
    ensures DistinctFrom([], original)
  {}

  /** The report's five variant counters each sum to the variants added, both rejection counters to
      the rejection rows, and the sizes add up. */
  lemma ReportBalances(originals: nat, o: Outcome)
    ensures var r := ReportOf(originals, o);
      && Total(r.variantsByName) == Total(r.variantsByOperation) == Total(r.variantsByModality) == r.variantsAdded
      && Total(r.variantsByTask) == Total(r.variantsBySplit) == r.variantsAdded
      && Total(r.rejectedByReason) == Total(r.rejectionsByModality) == |r.rejected|
      && r.augmentedSamples == r.originalSamples + r.variantsAdded
  {
    hide CounterOf, Total, Keys, Reasons, Modalities;
    CounterTotals(Keys(o.added, ByName));
    CounterTotals(Keys(o.added, ByOperation));
    CounterTotals(Keys(o.added, ByModality));
    CounterTotals(Keys(o.added, ByTask));
    CounterTotals(Keys(o.added, BySplit));
    CounterTotals(Reasons(o.rejected));
    CounterTotals(Modalities(o.rejected));
  }
}
