/** The multi-seed reproducibility evaluation (evaluator/reproducibility.py) and the policy it
    reads (config/releases/release_requirements.py): run receipts are compared against a
    policy, every failed requirement becomes a violation, and `passed` means none was found. */
module Reproducibility {
  import opened Text
  import opened Options
  import opened Sorting

  datatype IdentityField =
    | DatasetManifest | Experiment | Tokenizer | InitializationPolicy | TrainingPlan | Container

  const IDENTITY_FIELDS: seq<IdentityField> :=
    [DatasetManifest, Experiment, Tokenizer, InitializationPolicy, TrainingPlan, Container]

  const DETERMINISM_FIELDS: set<string> :=
    {"python_seeded", "numpy_seeded", "torch_seeded",
     "deterministic_algorithms", "cudnn_deterministic", "tf32_disabled"}

  const RECEIPT_SCHEMA := "3.0"

  datatype Receipt = Receipt(
    schemaVersion: string,
    runId: string,
    seed: int,
    identity: Identity,
    modelStateSha: string,
    hardware: map<string, string>,
    determinism: map<string, bool>,
    metrics: map<string, real>,
    resumedFrom: Option<string>)

  datatype Identity = Identity(
    dataset: string, experiment: string, tokenizer: string,
    initialization: string, plan: string, container: string)
  {
    function Get(field: IdentityField): string {
      match field
      case DatasetManifest => dataset
      case Experiment => experiment
      case Tokenizer => tokenizer
      case InitializationPolicy => initialization
      case TrainingPlan => plan
      case Container => container
    }
  }

  datatype Policy = Policy(
    policyId: string, seeds: seq<int>, deterministic: bool, tolerances: map<string, real>)
  {
    /** What the constructor of the requirements accepts. */
    predicate Valid() { !Blank(policyId) && seeds != [] }
  }

  datatype Violation =
    | NoRunReceipts
    | RequiredSeedsMissing
    | DuplicateSeedReceipt(seed: int)
    | DuplicateRunId(runId: string)
    | Inconsistent(field: IdentityField)
    | NondeterministicRun(runId: string)
    | MissingMetric(runId: string, metric: string)
    | MetricVariation(metric: string)

  datatype Aggregate = Aggregate(mean: real, min: real, max: real, variation: real, tolerance: real)

  datatype Binding = Binding(runId: string, seed: int, sha: string)

  datatype Report = Report(
    runIds: seq<string>,
    seeds: seq<int>,
    requiredSeeds: seq<int>,
    requirementsId: string,
    requirementsSha: string,
    deterministicRequired: bool,
    tolerances: map<string, real>,
    experimentSha: Option<string>,
    datasetSha: Option<string>,
    runReceipts: seq<Binding>,
    metrics: map<string, Aggregate>,
    violations: set<Violation>,
    passed: bool)

  /** A digest field of a receipt or report: lower case and parseable. */
  predicate Sha256String(s: string) { LooksLikeSha256(s) && Lower(s) == s }

  predicate ValidReceipt(r: Receipt) {
    && r.schemaVersion == RECEIPT_SCHEMA
    && !Blank(r.runId) && !Blank(r.identity.container)
    && Sha256String(r.identity.dataset) && Sha256String(r.identity.experiment)
    && Sha256String(r.identity.tokenizer) && Sha256String(r.identity.initialization)
    && Sha256String(r.identity.plan) && Sha256String(r.modelStateSha)
    && (r.resumedFrom.Some? ==> !Blank(r.resumedFrom.value))
    && r.metrics.Keys != {}
    && DETERMINISM_FIELDS <= r.determinism.Keys
  }

  predicate DeterminismComplete(r: Receipt) {
    forall f :: f in DETERMINISM_FIELDS ==> f in r.determinism && r.determinism[f]
  }

  predicate AtMost(a: int, b: int) { a <= b }

  function SeedOf(r: Receipt): int { r.seed }

  function RunIdOf(r: Receipt): string { r.runId }

  function Seeds(receipts: seq<Receipt>): (s: seq<int>)
    ensures |s| == |receipts|
  {
    Map(receipts, SeedOf)
  }

  function RunIds(receipts: seq<Receipt>): (s: seq<string>)
    ensures |s| == |receipts|
  {
    Map(receipts, RunIdOf)
  }

  function Dedupe(s: seq<int>): (r: seq<int>)
    ensures Elements(r) == Elements(s) && Distinct(r)
  {
    if s == [] then []
    else
      var rest := Dedupe(s[1..]);
      assert s == [s[0]] + s[1..];
      assert Elements(s) == Elements(s[1..]) + {s[0]};
      if s[0] in rest then
        assert s[0] in Elements(rest);
        rest
      else
        assert Elements([s[0]] + rest) == Elements(rest) + {s[0]};
        [s[0]] + rest
  }

  /** What canonical digests are taken over. */
  datatype Content =
    | PolicyContent(policyId: string, seeds: seq<int>, deterministic: bool, tolerances: map<string, real>)
    | ReceiptContent(receipt: Receipt)

  function PolicyPayload(policyId: string, seeds: seq<int>, deterministic: bool,
                         tolerances: map<string, real>): Content {
    PolicyContent(policyId, Sort(seeds, AtMost), deterministic, tolerances)
  }

  /** `to_payload` of the requirements: the seeds are listed in order. */
  function ToPayload(policy: Policy): Content {
    PolicyPayload(policy.policyId, policy.seeds, policy.deterministic, policy.tolerances)
  }

  // ---- what the violations are, independently of the order they are found in ----

  predicate Agree(receipts: seq<Receipt>, field: IdentityField) {
    && receipts != []
    && forall r :: r in receipts ==> r.identity.Get(field) == receipts[0].identity.Get(field)
  }

  predicate SeedsMatch(receipts: seq<Receipt>, policy: Policy) {
    && |policy.seeds| == |Elements(policy.seeds)|
    && |receipts| == |policy.seeds|
    && Elements(Seeds(receipts)) == Elements(policy.seeds)
    && |Elements(Seeds(receipts))| == |receipts|
  }

  predicate ShapeValid(receipts: seq<Receipt>, policy: Policy) {
    && SeedsMatch(receipts, policy)
    && |Elements(RunIds(receipts))| == |receipts|
  }

  predicate Reported(receipts: seq<Receipt>, metric: string) {
    forall r :: r in receipts ==> metric in r.metrics
  }

  function Values(receipts: seq<Receipt>, metric: string): (s: seq<real>)
    requires Reported(receipts, metric)
    ensures |s| == |receipts|
  {
    seq(|receipts|, i requires 0 <= i < |receipts| => receipts[i].metrics[metric])
  }

  function MaxOf(s: seq<real>): (m: real)
    requires s != []
    ensures m in s && forall x :: x in s ==> x <= m
  {
    if |s| == 1 then s[0]
    else
      var rest := MaxOf(s[1..]);
      assert forall x :: x in s ==> x == s[0] || x in s[1..];
      if s[0] > rest then s[0] else rest
  }

  function MinOf(s: seq<real>): (m: real)
    requires s != []
    ensures m in s && forall x :: x in s ==> m <= x
  {
    if |s| == 1 then s[0]
    else
      var rest := MinOf(s[1..]);
      assert forall x :: x in s ==> x == s[0] || x in s[1..];
      if s[0] < rest then s[0] else rest
  }

  function Sum(s: seq<real>): real {
    if s == [] then 0.0 else s[0] + Sum(s[1..])
  }

  function Spread(s: seq<real>): real
    requires s != []
  {
    MaxOf(s) - MinOf(s)
  }

  function Missing(receipts: seq<Receipt>, metric: string): set<Violation> {
    set r | r in receipts && metric !in r.metrics :: MissingMetric(r.runId, metric)
  }

  predicate Varies(receipts: seq<Receipt>, metric: string, tolerance: real) {
    receipts != [] && Reported(receipts, metric) && Spread(Values(receipts, metric)) > tolerance
  }

  function OneMetric(receipts: seq<Receipt>, metric: string, tolerance: real): set<Violation> {
    Missing(receipts, metric) + (if Varies(receipts, metric, tolerance) then {MetricVariation(metric)} else {})
  }

  function MetricViolations(receipts: seq<Receipt>, tolerances: map<string, real>): set<Violation> {
    set m, v | m in tolerances && v in OneMetric(receipts, m, tolerances[m]) :: v
  }

  function Repeated<T(==)>(s: seq<T>): set<T> { set x | x in s && multiset(s)[x] != 1 }

  function CampaignViolations(receipts: seq<Receipt>, policy: Policy): set<Violation> {
    (if receipts == [] then {NoRunReceipts} else {})
    + (if SeedsMatch(receipts, policy) then {} else {RequiredSeedsMissing})
    + (set s | s in Repeated(Seeds(receipts)) :: DuplicateSeedReceipt(s))
    + (set i | i in Repeated(RunIds(receipts)) :: DuplicateRunId(i))
  }

  function IdentityViolations(receipts: seq<Receipt>, fields: seq<IdentityField>): set<Violation> {
    set f | f in fields && !Agree(receipts, f) :: Inconsistent(f)
  }

  function DeterminismViolations(receipts: seq<Receipt>): set<Violation> {
    set r | r in receipts && !DeterminismComplete(r) :: NondeterministicRun(r.runId)
  }

  function Violations(receipts: seq<Receipt>, policy: Policy): set<Violation> {
    CampaignViolations(receipts, policy)
    + IdentityViolations(receipts, IDENTITY_FIELDS)
    + (if policy.deterministic then DeterminismViolations(receipts) else {})
    + (if ShapeValid(receipts, policy) then MetricViolations(receipts, policy.tolerances) else {})
  }

  function Aggregated(values: seq<real>, tolerance: real): Aggregate
    requires values != []
  {
    Aggregate(Sum(values) / |values| as real, MinOf(values), MaxOf(values), Spread(values), tolerance)
  }

  function Aggregates(receipts: seq<Receipt>, tolerances: map<string, real>): map<string, Aggregate> {
    map m | m in tolerances && receipts != [] && Reported(receipts, m)
      :: Aggregated(Values(receipts, m), tolerances[m])
  }

  function Bindings(receipts: seq<Receipt>, canonical: Content -> string): (s: seq<Binding>)
    ensures |s| == |receipts|
  {
    seq(|receipts|, i requires 0 <= i < |receipts| =>
      Binding(receipts[i].runId, receipts[i].seed, canonical(ReceiptContent(receipts[i]))))
  }

  function Assembled(receipts: seq<Receipt>, policy: Policy, requirementsId: string, canonical: Content -> string,
                     metrics: map<string, Aggregate>, violations: set<Violation>): Report
  {
    Report(
      RunIds(receipts),
      Sort(Seeds(receipts), AtMost),
      Sort(Dedupe(policy.seeds), AtMost),
      requirementsId,
      canonical(PolicyPayload(requirementsId, policy.seeds, policy.deterministic, policy.tolerances)),
      policy.deterministic,
      policy.tolerances,
      if receipts == [] then None else Some(receipts[0].identity.experiment),
      if receipts == [] then None else Some(receipts[0].identity.dataset),
      Bindings(receipts, canonical),
      metrics,
      violations,
      violations == {})
  }

  function Metrics(receipts: seq<Receipt>, policy: Policy): map<string, Aggregate> {
    if ShapeValid(receipts, policy) then Aggregates(receipts, policy.tolerances) else map[]
  }

  /** The report as a function of the receipts and the policy. */
  function Evaluation(receipts: seq<Receipt>, policy: Policy, requirementsId: string,
                            canonical: Content -> string): Report
  {
    Assembled(receipts, policy, requirementsId, canonical, Metrics(receipts, policy), Violations(receipts, policy))
  }

  /** A digest is sixty-four characters that read as hexadecimal, none of them upper case. */
  lemma DigestIff(s: string)
    ensures Sha256String(s) <==> |s| == 64 && ParsesAsHex(s) && forall c :: c in s ==> !('A' <= c <= 'Z')
  {
    hide ParsesAsHex;
    if Lower(s) == s {
      forall c | c in s ensures !('A' <= c <= 'Z') {
        var i :| 0 <= i < |s| && s[i] == c;
        assert Lower(s)[i] == LowerChar(c);
      }
    }
    if forall c :: c in s ==> !('A' <= c <= 'Z') {
      forall i | 0 <= i < |s| ensures LowerChar(s[i]) == s[i] { assert s[i] in s; }
      assert Lower(s) == s;
    }
  }

  /** The receipts that are accepted: identities and model state as digests, names that are not blank,
      at least one metric, and a value for each of the six determinism settings. */
  lemma ReceiptValidIff(r: Receipt)
    ensures ValidReceipt(r) <==>
      && r.schemaVersion == "3.0" && !Blank(r.runId) && !Blank(r.identity.container)
      && (r.resumedFrom.Some? ==> !Blank(r.resumedFrom.value)) && r.metrics.Keys != {}
      && "python_seeded" in r.determinism && "numpy_seeded" in r.determinism && "torch_seeded" in r.determinism
      && "deterministic_algorithms" in r.determinism && "cudnn_deterministic" in r.determinism
      && "tf32_disabled" in r.determinism
      && Sha256String(r.identity.dataset) && Sha256String(r.identity.experiment)
      && Sha256String(r.identity.tokenizer) && Sha256String(r.identity.initialization)
      && Sha256String(r.identity.plan) && Sha256String(r.modelStateSha)
  {
    hide Sha256String, Blank;
  }

  // ---- the evaluation as it runs ----

  datatype Outcome = Evaluated(report: Report) | InvalidReceipt

  lemma AgreeBySize(receipts: seq<Receipt>, field: IdentityField, values: set<string>)
    requires values == set r | r in receipts :: r.identity.Get(field)
    ensures |values| == 1 <==> Agree(receipts, field)
  {
    if receipts != [] {
      var first := receipts[0].identity.Get(field);
      assert receipts[0] in receipts && first in values;
      if Agree(receipts, field) {
        assert values == {first};
      } else {
        var r :| r in receipts && r.identity.Get(field) != first;
        assert r.identity.Get(field) in values - {first};
        assert |values| == |values - {first}| + 1;
      }
    }
  }

  method RequireSame(receipts: seq<Receipt>, field: IdentityField, violations: seq<Violation>)
    returns (extended: seq<Violation>)
    ensures extended == if Agree(receipts, field) then violations else violations + [Inconsistent(field)]
  {
    var values := set r | r in receipts :: r.identity.Get(field);
    AgreeBySize(receipts, field, values);
    extended := if |values| != 1 then violations + [Inconsistent(field)] else violations;
  }

  lemma ElementsAppend(s: seq<Violation>, v: Violation)
    ensures Elements(s + [v]) == Elements(s) + {v}
  {}

  method CollectMetric(receipts: seq<Receipt>, metric: string, violations: seq<Violation>)
    returns (values: seq<real>, extended: seq<Violation>)
    ensures |values| == |receipts| <==> Reported(receipts, metric)
    ensures Reported(receipts, metric) ==> values == Values(receipts, metric)
    ensures Elements(extended) == Elements(violations) + Missing(receipts, metric)
  {
    values, extended := [], violations;
    for i := 0 to |receipts|
      invariant |values| <= i
      invariant |values| == i <==> forall k :: 0 <= k < i ==> metric in receipts[k].metrics
      invariant |values| == i ==> forall k :: 0 <= k < i ==> values[k] == receipts[k].metrics[metric]
      invariant Elements(extended) == Elements(violations) + Missing(receipts[..i], metric)
    {
      assert receipts[..i + 1] == receipts[..i] + [receipts[i]];
      if metric !in receipts[i].metrics {
        ElementsAppend(extended, MissingMetric(receipts[i].runId, metric));
        extended := extended + [MissingMetric(receipts[i].runId, metric)];
      } else {
        values := values + [receipts[i].metrics[metric]];
      }
    }
    assert receipts[..|receipts|] == receipts;
  }

  lemma MetricStep(receipts: seq<Receipt>, done: map<string, real>, m: string, tolerance: real)
    requires receipts != [] && m !in done
    ensures MetricViolations(receipts, done[m := tolerance]) ==
      MetricViolations(receipts, done) + OneMetric(receipts, m, tolerance)
    ensures Aggregates(receipts, done[m := tolerance]) ==
      if Reported(receipts, m) then Aggregates(receipts, done)[m := Aggregated(Values(receipts, m), tolerance)]
      else Aggregates(receipts, done)
  {
    hide OneMetric, Values, Reported, Aggregated;
    var after := done[m := tolerance];
    forall v ensures v in MetricViolations(receipts, after)
                 <==> v in MetricViolations(receipts, done) + OneMetric(receipts, m, tolerance)
    {
      if v in MetricViolations(receipts, after) {
        var n :| n in after && v in OneMetric(receipts, n, after[n]);
        assert n == m || n in done;
      }
      if v in MetricViolations(receipts, done) {
        var n :| n in done && v in OneMetric(receipts, n, done[n]);
        assert n in after && after[n] == done[n];
      }
      if v in OneMetric(receipts, m, tolerance) { assert m in after; }
    }
  }

  method CompareMetric(receipts: seq<Receipt>, metric: string, tolerance: real,
                       before: map<string, Aggregate>, violations: seq<Violation>)
    returns (aggregates: map<string, Aggregate>, extended: seq<Violation>)
    requires receipts != []
    ensures Elements(extended) == Elements(violations) + OneMetric(receipts, metric, tolerance)
    ensures aggregates == if Reported(receipts, metric)
                          then before[metric := Aggregated(Values(receipts, metric), tolerance)] else before
  {
    var values: seq<real>;
    aggregates := before;
    values, extended := CollectMetric(receipts, metric, violations);
    if |values| == |receipts| {
      aggregates := aggregates[metric := Aggregated(values, tolerance)];
      if Spread(values) > tolerance {
        ElementsAppend(extended, MetricVariation(metric));
        extended := extended + [MetricVariation(metric)];
      }
    }
  }

  ghost predicate Compared(receipts: seq<Receipt>, done: map<string, real>, violations: seq<Violation>,
                           aggregates: map<string, Aggregate>, extended: seq<Violation>)
  {
    && Elements(extended) == Elements(violations) + MetricViolations(receipts, done)
    && aggregates == Aggregates(receipts, done)
  }

  lemma ComparedStart(receipts: seq<Receipt>, violations: seq<Violation>)
    ensures Compared(receipts, map[], violations, map[], violations)
  {}

  lemma ComparedStep(receipts: seq<Receipt>, done: map<string, real>, violations: seq<Violation>,
                     aggregates: map<string, Aggregate>, extended: seq<Violation>, m: string, tolerance: real,
                     aggregates': map<string, Aggregate>, extended': seq<Violation>)
    requires receipts != [] && m !in done && Compared(receipts, done, violations, aggregates, extended)
    requires Elements(extended') == Elements(extended) + OneMetric(receipts, m, tolerance)
    requires aggregates' == if Reported(receipts, m)
                            then aggregates[m := Aggregated(Values(receipts, m), tolerance)] else aggregates
    ensures Compared(receipts, done[m := tolerance], violations, aggregates', extended')
  {
    MetricStep(receipts, done, m, tolerance);
  }

  method CompareMetrics(receipts: seq<Receipt>, tolerances: map<string, real>, violations: seq<Violation>)
    returns (aggregates: map<string, Aggregate>, extended: seq<Violation>)
    requires receipts != []
    ensures Compared(receipts, tolerances, violations, aggregates, extended)
  {
    hide Compared;
    aggregates, extended := map[], violations;
    var remaining := tolerances.Keys;
    ghost var done: map<string, real> := map[];
    ComparedStart(receipts, violations);
    while remaining != {}
      invariant remaining <= tolerances.Keys
      invariant done.Keys == tolerances.Keys - remaining
      invariant forall m :: m in done ==> done[m] == tolerances[m]
      invariant Compared(receipts, done, violations, aggregates, extended)
      decreases |remaining|
    {
      var m :| m in remaining;
      var aggregates', extended' := CompareMetric(receipts, m, tolerances[m], aggregates, extended);
      ComparedStep(receipts, done, violations, aggregates, extended, m, tolerances[m], aggregates', extended');
      aggregates, extended := aggregates', extended';
      done := done[m := tolerances[m]];
      remaining := remaining - {m};
    }
    assert done == tolerances;
  }

  method Extend(violations: seq<Violation>, found: set<Violation>) returns (extended: seq<Violation>)
    ensures Elements(extended) == Elements(violations) + found
  {
    extended := violations;
    var rest := found;
    while rest != {}
      invariant rest <= found && Elements(extended) == Elements(violations) + (found - rest)
      decreases |rest|
    {
      var v :| v in rest;
      ElementsAppend(extended, v);
      extended := extended + [v];
      rest := rest - {v};
    }
  }

  method CompareIdentities(receipts: seq<Receipt>, violations: seq<Violation>) returns (extended: seq<Violation>)
    ensures Elements(extended) == Elements(violations) + IdentityViolations(receipts, IDENTITY_FIELDS)
  {
    extended := violations;
    for i := 0 to |IDENTITY_FIELDS|
      invariant Elements(extended) == Elements(violations) + IdentityViolations(receipts, IDENTITY_FIELDS[..i])
    {
      var field := IDENTITY_FIELDS[i];
      assert IDENTITY_FIELDS[..i + 1] == IDENTITY_FIELDS[..i] + [field];
      ElementsAppend(extended, Inconsistent(field));
      extended := RequireSame(receipts, field, extended);
    }
    assert IDENTITY_FIELDS[..|IDENTITY_FIELDS|] == IDENTITY_FIELDS;
  }

  method RequireDeterminism(receipts: seq<Receipt>, violations: seq<Violation>) returns (extended: seq<Violation>)
    ensures Elements(extended) == Elements(violations) + DeterminismViolations(receipts)
  {
    extended := violations;
    for i := 0 to |receipts|
      invariant Elements(extended) == Elements(violations) + DeterminismViolations(receipts[..i])
    {
      assert receipts[..i + 1] == receipts[..i] + [receipts[i]];
      if !DeterminismComplete(receipts[i]) {
        ElementsAppend(extended, NondeterministicRun(receipts[i].runId));
        extended := extended + [NondeterministicRun(receipts[i].runId)];
      }
    }
    assert receipts[..|receipts|] == receipts;
  }

  lemma NoneRepeated<T(!new)>(s: seq<T>)
    ensures Repeated(s) == {} <==> Distinct(s)
    ensures Repeated(s) == {} <==> |Elements(s)| == |s|
  {
    DistinctCardinality(s);
    DistinctByCount(s);
    if !Distinct(s) {
      var x :| multiset(s)[x] > 1;
      assert x in s && x in Repeated(s);
    }
  }

  /** The campaign-shape part: which seeds and run ids were delivered. */
  method CheckCampaign(receipts: seq<Receipt>, policy: Policy)
    returns (violations: seq<Violation>, shapeValid: bool)
    ensures Elements(violations) == CampaignViolations(receipts, policy)
    ensures shapeValid == ShapeValid(receipts, policy)
  {
    NoneRepeated(Seeds(receipts));
    NoneRepeated(RunIds(receipts));
    var duplicateSeeds := Repeated(Seeds(receipts));
    var duplicateRunIds := Repeated(RunIds(receipts));
    var seedsMatch := |policy.seeds| == |Elements(policy.seeds)| && |receipts| == |policy.seeds|
                      && Elements(Seeds(receipts)) == Elements(policy.seeds) && duplicateSeeds == {};
    violations := if receipts == [] then [NoRunReceipts] else [];
    assert Elements(violations) == if receipts == [] then {NoRunReceipts} else {};
    if !seedsMatch {
      ElementsAppend(violations, RequiredSeedsMissing);
      violations := violations + [RequiredSeedsMissing];
    }
    violations := Extend(violations, set s | s in duplicateSeeds :: DuplicateSeedReceipt(s));
    violations := Extend(violations, set i | i in duplicateRunIds :: DuplicateRunId(i));
    shapeValid := duplicateSeeds == {} && duplicateRunIds == {} && seedsMatch;
  }

  method CollectViolations(receipts: seq<Receipt>, policy: Policy)
    returns (metrics: map<string, Aggregate>, violations: seq<Violation>)
    requires policy.seeds != []
    ensures Elements(violations) == Violations(receipts, policy)
    ensures metrics == Metrics(receipts, policy)
  {
    var shapeValid: bool;
    violations, shapeValid := CheckCampaign(receipts, policy);
    violations := CompareIdentities(receipts, violations);
    if policy.deterministic {
      violations := RequireDeterminism(receipts, violations);
    }
    metrics := map[];
    if shapeValid {
      metrics, violations := CompareMetrics(receipts, policy.tolerances, violations);
    }
  }

  predicate AllValid(receipts: seq<Receipt>) {
    forall r :: r in receipts ==> ValidReceipt(r)
  }

  method ValidateReceipts(receipts: seq<Receipt>) returns (ok: bool)
    ensures ok == AllValid(receipts)
  {
    for i := 0 to |receipts|
      invariant AllValid(receipts[..i])
    {
      assert receipts[..i + 1] == receipts[..i] + [receipts[i]];
      if !ValidReceipt(receipts[i]) {
        return false;
      }
    }
    assert receipts[..|receipts|] == receipts;
    ok := true;
  }

  /** The evaluation as it runs: violations are collected check by check. */
  method EvaluateReproducibility(receipts: seq<Receipt>, policy: Policy, requirementsId: string,
                                 canonical: Content -> string) returns (outcome: Outcome)
    requires policy.seeds != []
    ensures outcome.InvalidReceipt? <==> !AllValid(receipts)
    ensures outcome.Evaluated? ==> outcome.report == Evaluation(receipts, policy, requirementsId, canonical)
  {
    var valid := ValidateReceipts(receipts);
    if !valid {
      return InvalidReceipt;
    }
    var metrics, violations := CollectViolations(receipts, policy);
    outcome := Evaluated(Assembled(receipts, policy, requirementsId, canonical, metrics, Elements(violations)));
  }

  // ---- what passing means ----

  /** One run for each seed of the policy, which repeats none. */
  ghost predicate SeedsRun(receipts: seq<Receipt>, policy: Policy) {
    && (forall i, j :: 0 <= i < j < |policy.seeds| ==> policy.seeds[i] != policy.seeds[j])
    && |receipts| == |policy.seeds|
    && forall s :: s in policy.seeds <==> exists r :: r in receipts && r.seed == s
  }

  ghost predicate IdsDiffer(receipts: seq<Receipt>) {
    forall i, j :: 0 <= i < j < |receipts| ==> receipts[i].runId != receipts[j].runId
  }

  ghost predicate SameIdentity(r: Receipt, q: Receipt) {
    && r.identity.dataset == q.identity.dataset
    && r.identity.experiment == q.identity.experiment
    && r.identity.tokenizer == q.identity.tokenizer
    && r.identity.initialization == q.identity.initialization
    && r.identity.plan == q.identity.plan
    && r.identity.container == q.identity.container
  }

  ghost predicate Set(flags: map<string, bool>, name: string) { name in flags && flags[name] }

  ghost predicate Deterministic(r: Receipt) {
    && Set(r.determinism, "python_seeded") && Set(r.determinism, "numpy_seeded")
    && Set(r.determinism, "torch_seeded") && Set(r.determinism, "deterministic_algorithms")
    && Set(r.determinism, "cudnn_deterministic") && Set(r.determinism, "tf32_disabled")
  }

  /** The declarative reading of a passed campaign. */
  ghost predicate Reproducible(receipts: seq<Receipt>, policy: Policy) {
    && receipts != []
    && SeedsRun(receipts, policy)
    && IdsDiffer(receipts)
    && (forall r, q :: r in receipts && q in receipts ==> SameIdentity(r, q))
    && (policy.deterministic ==> forall r :: r in receipts ==> Deterministic(r))
    && (forall m :: m in policy.tolerances ==> WithinTolerance(receipts, m, policy.tolerances[m]))
  }

  ghost predicate WithinTolerance(receipts: seq<Receipt>, metric: string, tolerance: real) {
    && (forall r :: r in receipts ==> metric in r.metrics)
    && (forall r, q :: r in receipts && q in receipts ==> r.metrics[metric] - q.metrics[metric] <= tolerance)
  }

  lemma SpreadIsLargestGap(receipts: seq<Receipt>, metric: string, tolerance: real)
    requires receipts != []
    ensures OneMetric(receipts, metric, tolerance) == {} <==> WithinTolerance(receipts, metric, tolerance)
  {
    if Reported(receipts, metric) {
      var values := Values(receipts, metric);
      assert Missing(receipts, metric) == {};
      forall r | r in receipts ensures r.metrics[metric] in values {
        var k :| 0 <= k < |receipts| && receipts[k] == r;
        assert values[k] == r.metrics[metric];
      }
      var i :| 0 <= i < |values| && values[i] == MaxOf(values);
      var j :| 0 <= j < |values| && values[j] == MinOf(values);
      assert receipts[i] in receipts && receipts[j] in receipts;
      if Varies(receipts, metric, tolerance) {
        assert MetricVariation(metric) in OneMetric(receipts, metric, tolerance);
      }
    } else {
      var r :| r in receipts && metric !in r.metrics;
      assert MissingMetric(r.runId, metric) in OneMetric(receipts, metric, tolerance);
    }
  }

  lemma NoMetricViolations(receipts: seq<Receipt>, tolerances: map<string, real>)
    requires receipts != []
    ensures MetricViolations(receipts, tolerances) == {} <==>
      forall m :: m in tolerances ==> WithinTolerance(receipts, m, tolerances[m])
  {
    forall m | m in tolerances
      ensures OneMetric(receipts, m, tolerances[m]) == {} <==> WithinTolerance(receipts, m, tolerances[m])
    {
      SpreadIsLargestGap(receipts, m, tolerances[m]);
    }
    if MetricViolations(receipts, tolerances) == {} {
      forall m | m in tolerances ensures OneMetric(receipts, m, tolerances[m]) == {} {
        assert OneMetric(receipts, m, tolerances[m]) <= MetricViolations(receipts, tolerances) by {
          forall v | v in OneMetric(receipts, m, tolerances[m]) ensures v in MetricViolations(receipts, tolerances) {}
        }
      }
    }
  }

  lemma SeedOfReceipt(receipts: seq<Receipt>, s: int)
    ensures s in Seeds(receipts) <==> exists r :: r in receipts && r.seed == s
  {
    if s in Seeds(receipts) {
      var k :| 0 <= k < |receipts| && Seeds(receipts)[k] == s;
      assert receipts[k] in receipts;
    }
    if r :| r in receipts && r.seed == s {
      var k :| 0 <= k < |receipts| && receipts[k] == r;
      assert Seeds(receipts)[k] == s;
    }
  }

  lemma SeedElements(receipts: seq<Receipt>)
    ensures forall s :: s in Elements(Seeds(receipts)) <==> exists r :: r in receipts && r.seed == s
  {
    hide Seeds;
    forall s ensures s in Elements(Seeds(receipts)) <==> exists r :: r in receipts && r.seed == s {
      SeedOfReceipt(receipts, s);
    }
  }

  lemma SeedsMatchMeans(receipts: seq<Receipt>, policy: Policy)
    ensures SeedsMatch(receipts, policy) <==> SeedsRun(receipts, policy)
    ensures SeedsRun(receipts, policy) ==> Distinct(Seeds(receipts))
  {
    DistinctCardinality(policy.seeds);
    DistinctCardinality(Seeds(receipts));
    SeedElements(receipts);
    hide Seeds;
    assert forall s :: s in Elements(policy.seeds) <==> s in policy.seeds;
    if SeedsRun(receipts, policy) {
      forall s ensures s in Elements(Seeds(receipts)) <==> s in Elements(policy.seeds) {
        assert s in policy.seeds <==> exists r :: r in receipts && r.seed == s;
      }
      assert Elements(Seeds(receipts)) == Elements(policy.seeds);
      assert Distinct(policy.seeds);
    }
    if SeedsMatch(receipts, policy) {
      forall s ensures s in policy.seeds <==> exists r :: r in receipts && r.seed == s {
        assert s in policy.seeds <==> s in Elements(Seeds(receipts));
      }
    }
  }

  lemma AllFields(f: IdentityField)
    ensures f in IDENTITY_FIELDS
  {
    match f
    case DatasetManifest => assert IDENTITY_FIELDS[0] == f;
    case Experiment => assert IDENTITY_FIELDS[1] == f;
    case Tokenizer => assert IDENTITY_FIELDS[2] == f;
    case InitializationPolicy => assert IDENTITY_FIELDS[3] == f;
    case TrainingPlan => assert IDENTITY_FIELDS[4] == f;
    case Container => assert IDENTITY_FIELDS[5] == f;
  }

  lemma InconsistentIff(receipts: seq<Receipt>, f: IdentityField)
    requires receipts != []
    ensures Inconsistent(f) in IdentityViolations(receipts, IDENTITY_FIELDS) <==>
      exists r, q :: r in receipts && q in receipts && r.identity.Get(f) != q.identity.Get(f)
  {
    AllFields(f);
    assert receipts[0] in receipts;
  }

  lemma IdentityMeans(receipts: seq<Receipt>)
    requires receipts != []
    ensures IdentityViolations(receipts, IDENTITY_FIELDS) == {} <==>
      forall r, q :: r in receipts && q in receipts ==> SameIdentity(r, q)
  {
    forall f: IdentityField { InconsistentIff(receipts, f); }
    var violations := IdentityViolations(receipts, IDENTITY_FIELDS);
    if violations == {} {
      forall r, q | r in receipts && q in receipts ensures SameIdentity(r, q) {
        forall f: IdentityField ensures r.identity.Get(f) == q.identity.Get(f) {
          assert Inconsistent(f) !in violations;
        }
        assert r.identity.Get(DatasetManifest) == q.identity.Get(DatasetManifest);
        assert r.identity.Get(Experiment) == q.identity.Get(Experiment);
        assert r.identity.Get(Tokenizer) == q.identity.Get(Tokenizer);
        assert r.identity.Get(InitializationPolicy) == q.identity.Get(InitializationPolicy);
        assert r.identity.Get(TrainingPlan) == q.identity.Get(TrainingPlan);
        assert r.identity.Get(Container) == q.identity.Get(Container);
      }
    } else {
      var v :| v in violations;
      var f :| f in IDENTITY_FIELDS && v == Inconsistent(f);
      var r, q :| r in receipts && q in receipts && r.identity.Get(f) != q.identity.Get(f);
      assert !SameIdentity(r, q);
    }
  }

  lemma RunIdsDiffer(receipts: seq<Receipt>)
    ensures Distinct(RunIds(receipts)) <==> IdsDiffer(receipts)
  {}

  lemma CampaignMeans(receipts: seq<Receipt>, policy: Policy)
    ensures CampaignViolations(receipts, policy) == {} <==>
      receipts != [] && SeedsRun(receipts, policy) && IdsDiffer(receipts)
  {
    NoneRepeated(Seeds(receipts));
    NoneRepeated(RunIds(receipts));
    SeedsMatchMeans(receipts, policy);
    RunIdsDiffer(receipts);
    hide Seeds, RunIds, SeedsRun, IdsDiffer, SeedsMatch;
    forall s | s in Repeated(Seeds(receipts))
      ensures DuplicateSeedReceipt(s) in CampaignViolations(receipts, policy) {}
    forall i | i in Repeated(RunIds(receipts))
      ensures DuplicateRunId(i) in CampaignViolations(receipts, policy) {}
    if CampaignViolations(receipts, policy) == {} {
      assert NoRunReceipts !in CampaignViolations(receipts, policy);
      assert RequiredSeedsMissing !in CampaignViolations(receipts, policy);
    }
  }

  lemma DeterminismCompleteIff(r: Receipt)
    ensures DeterminismComplete(r) <==> Deterministic(r)
  {}

  lemma DeterminismMeans(receipts: seq<Receipt>)
    ensures DeterminismViolations(receipts) == {} <==> forall r :: r in receipts ==> Deterministic(r)
  {
    hide DeterminismComplete, Deterministic;
    forall r { DeterminismCompleteIff(r); }
    forall r | r in receipts && !DeterminismComplete(r)
      ensures NondeterministicRun(r.runId) in DeterminismViolations(receipts) {}
  }

  /** `passed` is exactly the declarative reading. */
  lemma PassedIffReproducible(receipts: seq<Receipt>, policy: Policy, requirementsId: string,
                              canonical: Content -> string)
    ensures Evaluation(receipts, policy, requirementsId, canonical).passed <==> Reproducible(receipts, policy)
  {
    CampaignMeans(receipts, policy);
    SeedsMatchMeans(receipts, policy);
    RunIdsDiffer(receipts);
    DistinctCardinality(RunIds(receipts));
    if receipts != [] {
      IdentityMeans(receipts);
      NoMetricViolations(receipts, policy.tolerances);
      DeterminismMeans(receipts);
    }
    hide SeedsRun, IdsDiffer, SameIdentity, Deterministic, WithinTolerance, CampaignViolations, IdentityViolations,
      DeterminismViolations, MetricViolations, SeedsMatch, Seeds, RunIds, Metrics;
  }

  // ---- what each violation says ----

  lemma {:induction false} CountsTwice<T(!new)>(s: seq<T>, x: T)
    ensures multiset(s)[x] > 0 <==> x in s
    ensures multiset(s)[x] > 1 <==> exists i, j :: 0 <= i < j < |s| && s[i] == x && s[j] == x
  {
    if s != [] {
      var t := s[1..];
      CountsTwice(t, x);
      assert s == [s[0]] + t;
      assert multiset(s)[x] == (if s[0] == x then 1 else 0) + multiset(t)[x];
      if i, j :| 0 <= i < j < |t| && t[i] == x && t[j] == x {
        assert s[i + 1] == x && s[j + 1] == x;
      }
      if s[0] == x && x in t {
        var j :| 0 <= j < |t| && t[j] == x;
        assert s[0] == x && s[j + 1] == x;
      }
      if i, j :| 0 <= i < j < |s| && s[i] == x && s[j] == x {
        assert t[j - 1] == x;
        if i > 0 { assert t[i - 1] == x; }
      }
    }
  }

  lemma RepeatedMeans<T(!new)>(s: seq<T>, x: T)
    ensures x in Repeated(s) <==> exists i, j :: 0 <= i < j < |s| && s[i] == x && s[j] == x
  {
    CountsTwice(s, x);
  }

  lemma VariesMeans(receipts: seq<Receipt>, metric: string, tolerance: real)
    ensures Varies(receipts, metric, tolerance) <==>
      && (forall r :: r in receipts ==> metric in r.metrics)
      && exists r, q :: r in receipts && q in receipts && r.metrics[metric] - q.metrics[metric] > tolerance
  {
    if receipts != [] {
      SpreadIsLargestGap(receipts, metric, tolerance);
      if Varies(receipts, metric, tolerance) {
        assert MetricVariation(metric) in OneMetric(receipts, metric, tolerance);
      }
      if Reported(receipts, metric) {
        assert Missing(receipts, metric) == {};
      }
    }
  }

  lemma FromCampaign(receipts: seq<Receipt>, policy: Policy, v: Violation)
    ensures v in CampaignViolations(receipts, policy) <==>
      match v
      case NoRunReceipts => receipts == []
      case RequiredSeedsMissing => !SeedsMatch(receipts, policy)
      case DuplicateSeedReceipt(s) => s in Repeated(Seeds(receipts))
      case DuplicateRunId(id) => id in Repeated(RunIds(receipts))
      case _ => false
  {
    hide SeedsMatch, Seeds, RunIds, Repeated;
  }

  lemma FromIdentities(receipts: seq<Receipt>, v: Violation)
    ensures v in IdentityViolations(receipts, IDENTITY_FIELDS) ==> v.Inconsistent?
  {
    hide Agree;
  }

  lemma FromRuns(receipts: seq<Receipt>, v: Violation)
    ensures v in DeterminismViolations(receipts) <==>
      v.NondeterministicRun? && exists r :: r in receipts && r.runId == v.runId && !Deterministic(r)
  {
    hide DeterminismComplete, Deterministic;
    forall r { DeterminismCompleteIff(r); }
  }

  lemma FromMetrics(receipts: seq<Receipt>, tolerances: map<string, real>, v: Violation)
    ensures v in MetricViolations(receipts, tolerances) <==>
      match v
      case MissingMetric(id, m) => m in tolerances && exists r :: r in receipts && r.runId == id && m !in r.metrics
      case MetricVariation(m) => m in tolerances && Varies(receipts, m, tolerances[m])
      case _ => false
  {
    hide Varies;
    if v.MissingMetric? && v.metric in tolerances {
      assert v in OneMetric(receipts, v.metric, tolerances[v.metric]) <==> v in Missing(receipts, v.metric);
    }
    if v.MetricVariation? && v.metric in tolerances && Varies(receipts, v.metric, tolerances[v.metric]) {
      assert v in OneMetric(receipts, v.metric, tolerances[v.metric]);
    }
  }

  /** Two receipts have the same seed, or the same run id. */
  ghost predicate SharedSeed(receipts: seq<Receipt>, seed: int) {
    exists i, j :: 0 <= i < j < |receipts| && receipts[i].seed == seed && receipts[j].seed == seed
  }

  ghost predicate SharedId(receipts: seq<Receipt>, id: string) {
    exists i, j :: 0 <= i < j < |receipts| && receipts[i].runId == id && receipts[j].runId == id
  }

  lemma SharedMeans(receipts: seq<Receipt>, seed: int, id: string)
    ensures SharedSeed(receipts, seed) <==> seed in Repeated(Seeds(receipts))
    ensures SharedId(receipts, id) <==> id in Repeated(RunIds(receipts))
  {
    RepeatedMeans(Seeds(receipts), seed);
    RepeatedMeans(RunIds(receipts), id);
    hide Repeated;
  }

  /** Two receipts differ in the field. */
  ghost predicate Differ(receipts: seq<Receipt>, f: IdentityField) {
    exists r, q :: r in receipts && q in receipts &&
      match f
      case DatasetManifest => r.identity.dataset != q.identity.dataset
      case Experiment => r.identity.experiment != q.identity.experiment
      case Tokenizer => r.identity.tokenizer != q.identity.tokenizer
      case InitializationPolicy => r.identity.initialization != q.identity.initialization
      case TrainingPlan => r.identity.plan != q.identity.plan
      case Container => r.identity.container != q.identity.container
  }

  lemma DifferMeans(receipts: seq<Receipt>, f: IdentityField)
    requires receipts != []
    ensures Differ(receipts, f) <==> Inconsistent(f) in IdentityViolations(receipts, IDENTITY_FIELDS)
  {
    hide IdentityViolations;
    InconsistentIff(receipts, f);
  }

  /** Each violation is reported exactly when what it says is so. Metrics are compared only for a
      campaign with one run for each seed and run ids that differ; a campaign without receipts is
      reported as inconsistent in every field. */
  lemma ViolationsSay(receipts: seq<Receipt>, policy: Policy, v: Violation)
    ensures v in Violations(receipts, policy) <==>
      match v
      case NoRunReceipts => receipts == []
      case RequiredSeedsMissing => !SeedsRun(receipts, policy)
      case DuplicateSeedReceipt(seed) => SharedSeed(receipts, seed)
      case DuplicateRunId(id) => SharedId(receipts, id)
      case Inconsistent(f) => receipts == [] || Differ(receipts, f)
      case NondeterministicRun(id) =>
        policy.deterministic && exists r :: r in receipts && r.runId == id && !Deterministic(r)
      case MissingMetric(id, m) =>
        && SeedsRun(receipts, policy) && IdsDiffer(receipts) && m in policy.tolerances
        && exists r :: r in receipts && r.runId == id && m !in r.metrics
      case MetricVariation(m) =>
        && SeedsRun(receipts, policy) && IdsDiffer(receipts) && m in policy.tolerances
        && (forall r :: r in receipts ==> m in r.metrics)
        && exists r, q :: r in receipts && q in receipts && r.metrics[m] - q.metrics[m] > policy.tolerances[m]
  {
    SeedsMatchMeans(receipts, policy);
    RunIdsDiffer(receipts);
    DistinctCardinality(RunIds(receipts));
    FromCampaign(receipts, policy, v);
    FromIdentities(receipts, v);
    FromRuns(receipts, v);
    FromMetrics(receipts, policy.tolerances, v);
    hide SeedsRun, IdsDiffer, SeedsMatch, Seeds, RunIds, Deterministic, Varies, SharedSeed, SharedId, Differ, Repeated,
      CampaignViolations, IdentityViolations, DeterminismViolations, MetricViolations;
    match v
    case DuplicateSeedReceipt(seed) => SharedMeans(receipts, seed, "");
    case DuplicateRunId(id) => SharedMeans(receipts, 0, id);
    case Inconsistent(f) => InconsistentSays(receipts, f);
    case MetricVariation(m) => if m in policy.tolerances { VariesMeans(receipts, m, policy.tolerances[m]); }
    case _ =>
  }

  lemma InconsistentSays(receipts: seq<Receipt>, f: IdentityField)
    ensures Inconsistent(f) in IdentityViolations(receipts, IDENTITY_FIELDS) <==> receipts == [] || Differ(receipts, f)
  {
    AllFields(f);
    if receipts != [] { DifferMeans(receipts, f); }
  }

  // ---- what a report does not depend on ----

  lemma SpreadReordered(a: seq<Receipt>, b: seq<Receipt>, metric: string, tolerance: real)
    requires multiset(a) == multiset(b)
    ensures OneMetric(a, metric, tolerance) == OneMetric(b, metric, tolerance)
  {
    SameMembers(a, b);
    if a != [] {
      assert a[0] in b;
      SpreadIsLargestGap(a, metric, tolerance);
      SpreadIsLargestGap(b, metric, tolerance);
    } else {
      assert b == [];
    }
  }

  /** Receipts may be delivered in any order: `violations` and `passed` stay the same. */
  lemma ReceiptOrderIrrelevant(a: seq<Receipt>, b: seq<Receipt>, policy: Policy, requirementsId: string,
                               canonical: Content -> string)
    requires multiset(a) == multiset(b)
    ensures Violations(a, policy) == Violations(b, policy)
    ensures Evaluation(a, policy, requirementsId, canonical).passed
         == Evaluation(b, policy, requirementsId, canonical).passed
  {
    SameMembers(a, b);
    MapReordered(a, b, SeedOf);
    MapReordered(a, b, RunIdOf);
    SameMembers(Seeds(a), Seeds(b));
    SameMembers(RunIds(a), RunIds(b));
    assert Elements(Seeds(a)) == Elements(Seeds(b)) && Elements(RunIds(a)) == Elements(RunIds(b));
    assert Repeated(Seeds(a)) == Repeated(Seeds(b)) && Repeated(RunIds(a)) == Repeated(RunIds(b));
    assert CampaignViolations(a, policy) == CampaignViolations(b, policy);
    IdentityReordered(a, b);
    assert DeterminismViolations(a) == DeterminismViolations(b);
    assert MetricViolations(a, policy.tolerances) == MetricViolations(b, policy.tolerances) by {
      forall m | m in policy.tolerances
        ensures OneMetric(a, m, policy.tolerances[m]) == OneMetric(b, m, policy.tolerances[m])
      {
        SpreadReordered(a, b, m, policy.tolerances[m]);
      }
    }
  }

  lemma IdentityReordered(a: seq<Receipt>, b: seq<Receipt>)
    requires |a| == |b| && forall r :: r in a <==> r in b
    ensures IdentityViolations(a, IDENTITY_FIELDS) == IdentityViolations(b, IDENTITY_FIELDS)
  {
    forall f: IdentityField ensures Agree(a, f) == Agree(b, f) {
      if a != [] { assert a[0] in b && b[0] in a; }
    }
  }

  lemma AtMostIsTotal()
    ensures TotalOrder(AtMost)
  {}

  /** The policy's seeds may be listed in any order: the whole report stays the same. A policy
      read back from a manifest carries them sorted, so its recomputed report is the one
      computed before publication. */
  lemma PolicySeedOrderIrrelevant(receipts: seq<Receipt>, a: Policy, b: Policy, requirementsId: string,
                                  canonical: Content -> string)
    requires multiset(a.seeds) == multiset(b.seeds)
    requires a.deterministic == b.deterministic && a.tolerances == b.tolerances
    ensures Evaluation(receipts, a, requirementsId, canonical) == Evaluation(receipts, b, requirementsId, canonical)
  {
    RequiredSeedsReordered(a.seeds, b.seeds);
    PayloadReordered(a, b, requirementsId);
    ViolationsReordered(receipts, a, b);
  }

  lemma PayloadReordered(a: Policy, b: Policy, id: string)
    requires multiset(a.seeds) == multiset(b.seeds)
    requires a.deterministic == b.deterministic && a.tolerances == b.tolerances
    ensures PolicyPayload(id, a.seeds, a.deterministic, a.tolerances)
         == PolicyPayload(id, b.seeds, b.deterministic, b.tolerances)
  {
    AtMostIsTotal();
    SortCanonical(a.seeds, b.seeds, AtMost);
  }

  lemma ViolationsReordered(receipts: seq<Receipt>, a: Policy, b: Policy)
    requires multiset(a.seeds) == multiset(b.seeds)
    requires a.deterministic == b.deterministic && a.tolerances == b.tolerances
    ensures Violations(receipts, a) == Violations(receipts, b) && Metrics(receipts, a) == Metrics(receipts, b)
  {
    SeedsMatchReordered(receipts, a, b);
  }

  lemma RequiredSeedsReordered(a: seq<int>, b: seq<int>)
    requires multiset(a) == multiset(b)
    ensures Sort(Dedupe(a), AtMost) == Sort(Dedupe(b), AtMost)
  {
    AtMostIsTotal();
    SameMembers(a, b);
    assert Elements(a) == Elements(b);
    DistinctSameElements(Dedupe(a), Dedupe(b));
    SortCanonical(Dedupe(a), Dedupe(b), AtMost);
  }

  lemma SeedsMatchReordered(receipts: seq<Receipt>, a: Policy, b: Policy)
    requires multiset(a.seeds) == multiset(b.seeds)
    ensures SeedsMatch(receipts, a) == SeedsMatch(receipts, b)
  {
    SameMembers(a.seeds, b.seeds);
    assert Elements(a.seeds) == Elements(b.seeds);
  }

  // ---- the loader's test of a persisted report ----

  function BindingIds(bindings: seq<Binding>): seq<string> {
    seq(|bindings|, i requires 0 <= i < |bindings| => bindings[i].runId)
  }

  /** Enough runs, one bound digest for each of them, and identities that are digests. */
  predicate RunsBound(report: Report) {
    && report.runIds != []
    && |report.seeds| == |report.runIds|
    && report.experimentSha.Some? && Sha256String(report.experimentSha.value)
    && report.datasetSha.Some? && Sha256String(report.datasetSha.value)
    && |report.runReceipts| == |report.runIds|
    && (forall b :: b in report.runReceipts ==> !Blank(b.runId) && Sha256String(b.sha))
    && multiset(BindingIds(report.runReceipts)) == multiset(report.runIds)
  }

  /** The declared policy is the one the recorded digest was taken over. */
  predicate PolicyBound(report: Report, canonical: Content -> string) {
    && !Blank(report.requirementsId)
    && Sha256String(report.requirementsSha)
    && canonical(PolicyPayload(report.requirementsId, report.requiredSeeds, report.deterministicRequired,
                               report.tolerances)) == report.requirementsSha
  }

  predicate ValidReport(report: Report, canonical: Content -> string) {
    && (report.passed ==> report.violations == {})
    && RunsBound(report)
    && PolicyBound(report, canonical)
  }

  ghost predicate HexDigests(canonical: Content -> string) {
    forall c :: HexDigest(canonical(c))
  }

  lemma SortLength(s: seq<int>)
    ensures |Sort(s, AtMost)| == |s|
  {
    assert |s| == |multiset(s)| == |multiset(Sort(s, AtMost))| == |Sort(s, AtMost)|;
  }

  lemma PayloadSeeds(id: string, a: seq<int>, b: seq<int>, deterministic: bool, tolerances: map<string, real>)
    requires PolicyPayload(id, a, deterministic, tolerances) == PolicyPayload(id, b, deterministic, tolerances)
    ensures |a| == |b|
  {
    SortLength(a);
    SortLength(b);
  }

  lemma DedupeLength(s: seq<int>)
    ensures |Dedupe(s)| == |s| <==> Distinct(s)
    ensures Distinct(s) ==> multiset(Dedupe(s)) == multiset(s)
  {
    DistinctCardinality(Dedupe(s));
    DistinctCardinality(s);
    if Distinct(s) { DistinctSameElements(Dedupe(s), s); }
  }

  /** A computed report passes its own loader exactly when there is a receipt, the requirements
      id is not blank and the policy lists no seed twice: the report stores the seeds as a set
      but digests them as a list. */
  lemma ReportLoadsIff(receipts: seq<Receipt>, policy: Policy, requirementsId: string, canonical: Content -> string)
    requires AllValid(receipts) && HexDigests(canonical)
    requires var listed := PolicyPayload(requirementsId, policy.seeds, policy.deterministic, policy.tolerances);
             var stored := PolicyPayload(requirementsId, Sort(Dedupe(policy.seeds), AtMost), policy.deterministic,
                                         policy.tolerances);
             canonical(listed) == canonical(stored) ==> listed == stored
    ensures ValidReport(Evaluation(receipts, policy, requirementsId, canonical), canonical)
      <==> receipts != [] && !Blank(requirementsId) && Distinct(policy.seeds)
  {
    var report := Evaluation(receipts, policy, requirementsId, canonical);
    RunsBoundIff(receipts, canonical, report);
    PolicyBoundIff(policy, requirementsId, canonical, report);
  }

  lemma RunsBoundIff(receipts: seq<Receipt>, canonical: Content -> string, report: Report)
    requires AllValid(receipts) && HexDigests(canonical)
    requires report.runIds == RunIds(receipts) && report.seeds == Sort(Seeds(receipts), AtMost)
    requires report.runReceipts == Bindings(receipts, canonical)
    requires receipts == [] || report.experimentSha == Some(receipts[0].identity.experiment)
    requires receipts == [] || report.datasetSha == Some(receipts[0].identity.dataset)
    ensures RunsBound(report) <==> receipts != []
  {
    hide AllValid, HexDigests, Sort, Sha256String, Blank, Bindings, RunIds, Seeds;
    SortLength(Seeds(receipts));
    BindingsValid(receipts, canonical);
    FirstIdentityValid(receipts);
  }

  lemma PolicyBoundIff(policy: Policy, requirementsId: string, canonical: Content -> string, report: Report)
    requires HexDigests(canonical)
    requires var listed := PolicyPayload(requirementsId, policy.seeds, policy.deterministic, policy.tolerances);
             var stored := PolicyPayload(requirementsId, Sort(Dedupe(policy.seeds), AtMost), policy.deterministic,
                                         policy.tolerances);
             canonical(listed) == canonical(stored) ==> listed == stored
    requires report.requirementsId == requirementsId && report.deterministicRequired == policy.deterministic
    requires report.tolerances == policy.tolerances && report.requiredSeeds == Sort(Dedupe(policy.seeds), AtMost)
    requires report.requirementsSha ==
      canonical(PolicyPayload(requirementsId, policy.seeds, policy.deterministic, policy.tolerances))
    ensures PolicyBound(report, canonical) <==> !Blank(requirementsId) && Distinct(policy.seeds)
  {
    StoredSeedsDigest(policy, requirementsId, canonical);
    PolicyDigestValid(policy, requirementsId, canonical);
  }

  lemma PolicyDigestValid(policy: Policy, requirementsId: string, canonical: Content -> string)
    requires HexDigests(canonical)
    ensures Sha256String(canonical(PolicyPayload(requirementsId, policy.seeds, policy.deterministic,
                                                 policy.tolerances)))
  {
    DigestIsSha256(canonical(PolicyPayload(requirementsId, policy.seeds, policy.deterministic, policy.tolerances)));
  }

  lemma FirstIdentityValid(receipts: seq<Receipt>)
    requires AllValid(receipts)
    ensures receipts != [] ==>
      Sha256String(receipts[0].identity.experiment) && Sha256String(receipts[0].identity.dataset)
  {
    if receipts != [] { assert receipts[0] in receipts; }
  }

  lemma BindingsValid(receipts: seq<Receipt>, canonical: Content -> string)
    requires AllValid(receipts) && HexDigests(canonical)
    ensures BindingIds(Bindings(receipts, canonical)) == RunIds(receipts)
    ensures forall b :: b in Bindings(receipts, canonical) ==> !Blank(b.runId) && Sha256String(b.sha)
  {
    forall k | 0 <= k < |receipts|
      ensures !Blank(receipts[k].runId) && Sha256String(canonical(ReceiptContent(receipts[k])))
    {
      assert receipts[k] in receipts && ValidReceipt(receipts[k]);
      DigestIsSha256(canonical(ReceiptContent(receipts[k])));
    }
  }

  lemma DistinctListed(policy: Policy, requirementsId: string)
    requires Distinct(policy.seeds)
    ensures PolicyPayload(requirementsId, policy.seeds, policy.deterministic, policy.tolerances)
      == PolicyPayload(requirementsId, Sort(Dedupe(policy.seeds), AtMost), policy.deterministic, policy.tolerances)
  {
    AtMostIsTotal();
    DedupeLength(policy.seeds);
    SortCanonical(policy.seeds, Sort(Dedupe(policy.seeds), AtMost), AtMost);
  }

  lemma StoredSeedsDigest(policy: Policy, requirementsId: string, canonical: Content -> string)
    requires var listed := PolicyPayload(requirementsId, policy.seeds, policy.deterministic, policy.tolerances);
             var stored := PolicyPayload(requirementsId, Sort(Dedupe(policy.seeds), AtMost), policy.deterministic,
                                         policy.tolerances);
             canonical(listed) == canonical(stored) ==> listed == stored
    ensures Distinct(policy.seeds) <==>
      canonical(PolicyPayload(requirementsId, Sort(Dedupe(policy.seeds), AtMost), policy.deterministic,
                              policy.tolerances))
      == canonical(PolicyPayload(requirementsId, policy.seeds, policy.deterministic, policy.tolerances))
  {
    var stored := Sort(Dedupe(policy.seeds), AtMost);
    DedupeLength(policy.seeds);
    SortLength(Dedupe(policy.seeds));
    if Distinct(policy.seeds) {
      DistinctListed(policy, requirementsId);
    } else if canonical(PolicyPayload(requirementsId, stored, policy.deterministic, policy.tolerances))
           == canonical(PolicyPayload(requirementsId, policy.seeds, policy.deterministic, policy.tolerances)) {
      PayloadSeeds(requirementsId, policy.seeds, stored, policy.deterministic, policy.tolerances);
    }
  }

  /** A policy that lists one seed twice: whatever the receipts, the report does not pass its own
      validation. */
  lemma RepeatedSeedReportFails(receipts: seq<Receipt>, canonical: Content -> string)
    requires AllValid(receipts) && HexDigests(canonical)
    requires canonical(PolicyPayload("policy", [7, 7], true, map[]))
      != canonical(PolicyPayload("policy", [7], true, map[]))
    ensures !ValidReport(Evaluation(receipts, Policy("policy", [7, 7], true, map[]), "policy", canonical), canonical)
  {
    var policy := Policy("policy", [7, 7], true, map[]);
    assert Dedupe([7, 7]) == [7];
    assert !Distinct(policy.seeds) by { assert policy.seeds[0] == policy.seeds[1]; }
    assert Sort(Sort([7], AtMost), AtMost) == Sort([7], AtMost);
    ReportLoadsIff(receipts, policy, "policy", canonical);
  }

  // ---- what the rest of a report says ----

  ghost predicate Ascends(s: seq<int>) { forall i, j :: 0 <= i < j < |s| ==> s[i] <= s[j] }

  lemma SortedAscends(s: seq<int>)
    ensures Ascends(Sort(s, AtMost)) && multiset(Sort(s, AtMost)) == multiset(s)
  {
    AtMostIsTotal();
    SortOrdered(s, AtMost);
    hide Sort;
    var sorted := Sort(s, AtMost);
    forall i, j | 0 <= i < j < |sorted| ensures sorted[i] <= sorted[j] { assert AtMost(sorted[i], sorted[j]); }
  }

  /** Ids and bindings of a report, receipt by receipt. */
  lemma RunsListed(receipts: seq<Receipt>, policy: Policy, requirementsId: string, canonical: Content -> string,
                   e: Report, i: nat)
    requires e == Evaluation(receipts, policy, requirementsId, canonical)
    ensures |e.runIds| == |e.runReceipts| == |e.seeds| == |receipts|
    ensures i < |receipts| ==>
      var r := receipts[i];
      e.runIds[i] == r.runId && e.runReceipts[i] == Binding(r.runId, r.seed, canonical(ReceiptContent(r)))
      && Seeds(receipts)[i] == r.seed
  {
    hide Violations, Metrics, Sort;
    SortLength(Seeds(receipts));
  }

  /** Seeds, digests and policy of a report. */
  lemma ReportSays(receipts: seq<Receipt>, policy: Policy, requirementsId: string, canonical: Content -> string,
                   e: Report)
    returns (listed: seq<int>)
    requires e == Evaluation(receipts, policy, requirementsId, canonical)
    ensures Ascends(listed) && multiset(listed) == multiset(policy.seeds)
    ensures Ascends(e.seeds) && multiset(e.seeds) == multiset(Seeds(receipts))
    ensures e.requirementsId == requirementsId && e.deterministicRequired == policy.deterministic
    ensures e.tolerances == policy.tolerances
    ensures e.requirementsSha
      == canonical(PolicyContent(requirementsId, listed, policy.deterministic, policy.tolerances))
    ensures e.experimentSha == if receipts == [] then None else Some(receipts[0].identity.experiment)
    ensures e.datasetSha == if receipts == [] then None else Some(receipts[0].identity.dataset)
    ensures e.passed <==> e.violations == {}
  {
    hide Violations, Metrics, Sort;
    listed := Sort(policy.seeds, AtMost);
    SortedAscends(policy.seeds);
    SortedAscends(Seeds(receipts));
  }

  /** Which persisted reports are accepted: a passed one has no violations, every run has one binding with
      a digest, the identities are digests, and the requirement digest is that of the declared policy
      with its seeds in order. */
  lemma ReportValidIff(report: Report, canonical: Content -> string, listed: seq<int>)
    requires Ascends(listed) && multiset(listed) == multiset(report.requiredSeeds)
    ensures ValidReport(report, canonical) <==>
      && (report.passed ==> report.violations == {})
      && report.runIds != [] && |report.runIds| == |report.seeds| == |report.runReceipts|
      && (forall b :: b in report.runReceipts ==> !Blank(b.runId) && Sha256String(b.sha))
      && multiset(BindingIds(report.runReceipts)) == multiset(report.runIds)
      && report.experimentSha.Some? && Sha256String(report.experimentSha.value)
      && report.datasetSha.Some? && Sha256String(report.datasetSha.value)
      && !Blank(report.requirementsId) && Sha256String(report.requirementsSha)
      && report.requirementsSha
         == canonical(PolicyContent(report.requirementsId, listed, report.deterministicRequired, report.tolerances))
  {
    hide Blank, Sha256String;
    AtMostIsTotal();
    SortOrdered(report.requiredSeeds, AtMost);
    OrderedUnique(listed, Sort(report.requiredSeeds, AtMost), AtMost);
  }

  /** The required seeds are those of the policy, each once, ascending. */
  lemma RequiredSeedsSay(receipts: seq<Receipt>, policy: Policy, requirementsId: string, canonical: Content -> string)
    ensures var required := Evaluation(receipts, policy, requirementsId, canonical).requiredSeeds;
      && (forall i, j :: 0 <= i < j < |required| ==> required[i] < required[j])
      && (forall s :: s in required <==> s in policy.seeds)
  {
    hide Violations, Metrics, Sort;
    var once := Dedupe(policy.seeds);
    var required := Sort(once, AtMost);
    SortedAscends(once);
    SameMembers(required, once);
    DistinctByCount(once);
    DistinctByCount(required);
    forall s ensures s in required <==> s in policy.seeds {
      assert s in once <==> s in Elements(once);
      assert s in policy.seeds <==> s in Elements(policy.seeds);
    }
  }

  /** The metric over all runs, added up. */
  ghost function Total(receipts: seq<Receipt>, metric: string): real
    requires forall r :: r in receipts ==> metric in r.metrics
  {
    if receipts == [] then 0.0 else receipts[0].metrics[metric] + Total(receipts[1..], metric)
  }

  lemma {:induction false} TotalIsSum(receipts: seq<Receipt>, metric: string)
    requires Reported(receipts, metric)
    ensures Sum(Values(receipts, metric)) == Total(receipts, metric)
  {
    if receipts != [] {
      TotalIsSum(receipts[1..], metric);
      assert Values(receipts, metric)[1..] == Values(receipts[1..], metric);
    }
  }

  /** What an aggregate is of the runs: mean, smallest and largest value, and their distance. */
  ghost predicate Summarises(receipts: seq<Receipt>, metric: string, tolerance: real, a: Aggregate)
    requires forall r :: r in receipts ==> metric in r.metrics
  {
    && a.mean * |receipts| as real == Total(receipts, metric)
    && (exists r :: r in receipts && r.metrics[metric] == a.min)
    && (exists r :: r in receipts && r.metrics[metric] == a.max)
    && (forall r :: r in receipts ==> a.min <= r.metrics[metric] <= a.max)
    && a.variation == a.max - a.min && a.tolerance == tolerance
  }

  /** Exactly the metrics of the policy that every run of a well-shaped campaign reports are
      aggregated. */
  lemma MetricsSay(receipts: seq<Receipt>, policy: Policy, m: string)
    ensures m in Metrics(receipts, policy) <==>
      && receipts != [] && SeedsRun(receipts, policy) && IdsDiffer(receipts) && m in policy.tolerances
      && forall r :: r in receipts ==> m in r.metrics
    ensures m in Metrics(receipts, policy) ==>
      Summarises(receipts, m, policy.tolerances[m], Metrics(receipts, policy)[m])
  {
    SeedsMatchMeans(receipts, policy);
    RunIdsDiffer(receipts);
    DistinctCardinality(RunIds(receipts));
    hide SeedsRun, IdsDiffer, SeedsMatch, Seeds, RunIds, Aggregated;
    if m in Metrics(receipts, policy) {
      AggregateSays(receipts, m, policy.tolerances[m]);
    }
  }

  lemma ExtremesSay(receipts: seq<Receipt>, metric: string)
    requires receipts != [] && Reported(receipts, metric)
    ensures var values := Values(receipts, metric);
      && (exists r :: r in receipts && r.metrics[metric] == MinOf(values))
      && (exists r :: r in receipts && r.metrics[metric] == MaxOf(values))
      && (forall r :: r in receipts ==> MinOf(values) <= r.metrics[metric] <= MaxOf(values))
  {
    var values := Values(receipts, metric);
    hide MaxOf, MinOf;
    forall r | r in receipts ensures r.metrics[metric] in values {
      var k :| 0 <= k < |receipts| && receipts[k] == r;
      assert values[k] == r.metrics[metric];
    }
    var i :| 0 <= i < |values| && values[i] == MaxOf(values);
    var j :| 0 <= j < |values| && values[j] == MinOf(values);
    assert receipts[i] in receipts && receipts[j] in receipts;
  }

  lemma MeanTimes(total: real, n: nat)
    requires n > 0
    ensures total / n as real * n as real == total
  {}

  lemma AggregateSays(receipts: seq<Receipt>, metric: string, tolerance: real)
    requires receipts != [] && Reported(receipts, metric)
    ensures Summarises(receipts, metric, tolerance, Aggregated(Values(receipts, metric), tolerance))
  {
    hide Sum, Total, MaxOf, MinOf, Values;
    TotalIsSum(receipts, metric);
    ExtremesSay(receipts, metric);
    MeanTimes(Sum(Values(receipts, metric)), |receipts|);
  }
}
