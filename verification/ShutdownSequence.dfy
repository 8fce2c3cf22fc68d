/** Closing resources in reverse order of registration within one deadline
    (orchestration/resource_shutdown.py:45-147). The clock and the close handlers are the
    environment; `Close` itself is not cancelled. */
module ShutdownSequence {
  import opened Options
  import Text

  datatype Step = Step(name: string, handler: nat)

  /** What becomes of a started handler before the deadline. */
  datatype Behaviour = CannotStart | Completes | Fails | StillRunning

  datatype Cause = HandlerError | Overran | NeverStarted

  datatype StepError = StepError(name: string, cause: Cause)

  datatype AddError = EmptyName | AlreadyClosed | DuplicateName | NotCallable

  /** `tick(0)` is read when closing begins, `tick(i + 1)` before the i-th step. */
  datatype Environment = Environment(tick: nat -> real, behave: Step -> Behaviour)

  function Tick(e: Environment, i: nat): real { e.tick(i) }

  function Behave(e: Environment, step: Step): Behaviour { e.behave(step) }

  ghost predicate Monotone(e: Environment) { forall i: nat, j: nat :: i <= j ==> Tick(e, i) <= Tick(e, j) }

  function Reversed(steps: seq<Step>): (r: seq<Step>)
    ensures |r| == |steps| && forall i :: 0 <= i < |steps| ==> r[i] == steps[|steps| - 1 - i]
  {
    seq(|steps|, i requires 0 <= i < |steps| => steps[|steps| - 1 - i])
  }

  function Expired(e: Environment, timeout: real, i: nat): bool { Tick(e, 0) + timeout - Tick(e, i + 1) <= 0.0 }

  /** How many of n steps are started: those before the first expired reading. */
  function StartedCount(e: Environment, timeout: real, n: nat): (k: nat)
    ensures k <= n && (k < n ==> Expired(e, timeout, k)) && forall i :: 0 <= i < k ==> !Expired(e, timeout, i)
  {
    StartedFrom(e, timeout, n, 0)
  }

  function StartedFrom(e: Environment, timeout: real, n: nat, i: nat): (k: nat)
    requires i <= n
    ensures i <= k <= n && (k < n ==> Expired(e, timeout, k)) && forall j :: i <= j < k ==> !Expired(e, timeout, j)
    decreases n - i
  {
    if i == n || Expired(e, timeout, i) then i else StartedFrom(e, timeout, n, i + 1)
  }

  function ErrorOf(step: Step, behaviour: Behaviour): seq<StepError> {
    match behaviour
    case Completes => []
    case StillRunning => [StepError(step.name, Overran)]
    case _ => [StepError(step.name, HandlerError)]
  }

  function Own(e: Environment, steps: seq<Step>, started: nat, i: nat): seq<StepError>
    requires i < |steps|
  {
    if i < started then ErrorOf(steps[i], Behave(e, steps[i])) else [StepError(steps[i].name, NeverStarted)]
  }

  /** The errors of the steps from position i on, in order. */
  function Errors(e: Environment, steps: seq<Step>, started: nat, i: nat): seq<StepError>
    requires i <= |steps|
    decreases |steps| - i
  {
    if i == |steps| then []
    else Own(e, steps, started, i) + Errors(e, steps, started, i + 1)
  }

  function Names(steps: seq<Step>): set<string> { set s | s in steps :: s.name }

  ghost predicate DistinctNames(steps: seq<Step>) {
    forall i, j :: 0 <= i < j < |steps| ==> steps[i].name != steps[j].name
  }

  class ResourceShutdownManager {
    const timeout: real
    var steps: seq<Step>
    var stepNames: set<string>
    var closed: bool

    ghost predicate Valid()
      reads this
    {
      && timeout > 0.0
      && stepNames == Names(steps) && DistinctNames(steps)
      && (forall s :: s in steps ==> s.name != "" && Text.Strip(s.name) == s.name)
      && (closed ==> steps == [])
    }

    constructor (timeout: real)
      requires timeout > 0.0
      ensures Valid() && this.timeout == timeout && steps == [] && !closed
    {
      this.timeout := timeout;
      steps, stepNames, closed := [], {}, false;
    }

    method AddStep(name: string, handler: Option<nat>) returns (error: Option<AddError>)
      requires Valid()
      modifies this`steps, this`stepNames
      ensures Valid()
      ensures var stripped := Text.Strip(name);
        error == if stripped == "" then Some(EmptyName)
                 else if closed then Some(AlreadyClosed)
                 else if exists s :: s in old(steps) && s.name == stripped then Some(DuplicateName)
                 else if handler.None? then Some(NotCallable)
                 else None
      ensures steps == if error.Some? then old(steps) else old(steps) + [Step(Text.Strip(name), handler.value)]
    {
      hide Text.Strip;
      var stepName := Text.Strip(name);
      if stepName == "" {
        return Some(EmptyName);
      }
      if closed {
        return Some(AlreadyClosed);
      }
      if stepName in stepNames {
        assert exists s :: s in steps && s.name == stepName;
        return Some(DuplicateName);
      }
      if handler.None? {
        return Some(NotCallable);
      }
      StripTwice(name);
      var step := Step(stepName, handler.value);
      assert Names(steps + [step]) == Names(steps) + {stepName};
      forall s | s in steps ensures s.name != stepName { assert s.name in Names(steps); }
      steps := steps + [step];
      stepNames := stepNames + {stepName};
      return None;
    }

    /** Runs the handlers; raises exactly when some step failed. */
    method Close(e: Environment) returns (started: seq<Step>, raised: Option<seq<StepError>>)
      requires Valid()
      modifies this`steps, this`stepNames, this`closed
      ensures Valid() && closed && steps == []
      ensures var order := Reversed(old(steps));
        var k := StartedCount(e, timeout, |order|);
        && started == order[..k]
        && raised == var errors := Errors(e, order, k, 0); if errors == [] then None else Some(errors)
      ensures old(closed) ==> started == [] && raised == None
    {
      if closed {
        return [], None;
      }
      closed := true;
      var order := Reversed(steps);
      var errors;
      started, errors := RunSteps(e, timeout, order);
      steps, stepNames := [], {};
      raised := if errors == [] then None else Some(errors);
    }
  }

  lemma StripTwice(name: string)
    ensures Text.Strip(Text.Strip(name)) == Text.Strip(name)
  {
    hide Text.LStrip, Text.RStrip;
    var left := Text.LStrip(name);
    var both := Text.RStrip(left);
    if both != [] {
      assert both[0] == left[0];
    }
    Text.LStripFixed(both);
    Text.RStripFixed(both);
  }

  /** The inner loop: an error for each step that is not started. */
  method SkipRest(e: Environment, order: seq<Step>, index: nat) returns (errors: seq<StepError>)
    requires index <= |order|
    ensures errors == Errors(e, order, index, index)
  {
    errors := [];
    for skipped := index to |order|
      invariant errors + Errors(e, order, index, skipped) == Errors(e, order, index, index)
    {
      errors := errors + [StepError(order[skipped].name, NeverStarted)];
    }
  }

  /** The loop of `aclose` over the steps in closing order. */
  method RunSteps(e: Environment, timeout: real, order: seq<Step>) returns (started: seq<Step>, errors: seq<StepError>)
    ensures var k := StartedCount(e, timeout, |order|);
      started == order[..k] && errors == Errors(e, order, k, 0)
  {
    hide ErrorOf, Behave;
    started, errors := [], [];
    var deadline := Tick(e, 0) + timeout;
    ghost var k := StartedCount(e, timeout, |order|);
    var index := 0;
    while index < |order|
      invariant 0 <= index <= k && started == order[..index]
      invariant errors + Errors(e, order, k, index) == Errors(e, order, k, 0)
    {
      var remaining := deadline - Tick(e, index + 1);
      if remaining <= 0.0 {
        assert Expired(e, timeout, index);
        var skipped := SkipRest(e, order, index);
        errors := errors + skipped;
        return;
      }
      started := started + [order[index]];
      errors := errors + ErrorOf(order[index], Behave(e, order[index]));
      index := index + 1;
    }
  }

  // ---- what closing guarantees ----

  predicate Succeeds(e: Environment, steps: seq<Step>, started: nat, i: nat)
    requires i < |steps|
  {
    i < started && Behave(e, steps[i]) == Completes
  }

  function ErrorNames(errors: seq<StepError>): seq<string> {
    if errors == [] then [] else [errors[0].name] + ErrorNames(errors[1..])
  }

  /** The names of the steps that do not succeed, in order. */
  function FailedNames(e: Environment, steps: seq<Step>, started: nat, i: nat): seq<string>
    requires i <= |steps|
    decreases |steps| - i
  {
    if i == |steps| then []
    else (if Succeeds(e, steps, started, i) then [] else [steps[i].name]) + FailedNames(e, steps, started, i + 1)
  }

  /** Every step has one outcome: the errors are the failures and skips, once each, in order. */
  lemma {:induction false} OneOutcomeEach(e: Environment, steps: seq<Step>, started: nat, i: nat)
    requires i <= |steps|
    ensures ErrorNames(Errors(e, steps, started, i)) == FailedNames(e, steps, started, i)
    decreases |steps| - i
  {
    if i < |steps| {
      OneOutcomeEach(e, steps, started, i + 1);
      var own, later := Own(e, steps, started, i), Errors(e, steps, started, i + 1);
      if own == [] {
        assert own + later == later;
      } else {
        assert own == [own[0]] && (own + later)[1..] == later;
      }
    }
  }

  lemma {:induction false} FailedIffListed(e: Environment, steps: seq<Step>, started: nat, i: nat, j: nat)
    requires i <= j < |steps| && DistinctNames(steps)
    ensures steps[j].name in FailedNames(e, steps, started, i) <==> !Succeeds(e, steps, started, j)
    decreases |steps| - i
  {
    if i < j {
      FailedIffListed(e, steps, started, i + 1, j);
    } else {
      LaterNames(e, steps, started, i + 1);
    }
  }

  lemma {:induction false} LaterNames(e: Environment, steps: seq<Step>, started: nat, i: nat)
    requires i <= |steps|
    ensures forall x :: x in FailedNames(e, steps, started, i) ==> exists j :: i <= j < |steps| && steps[j].name == x
    decreases |steps| - i
  {
    if i < |steps| { LaterNames(e, steps, started, i + 1); }
  }

  /** Why one step is listed. */
  predicate Blames(e: Environment, steps: seq<Step>, started: nat, j: nat, x: StepError)
    requires j < |steps|
  {
    && x.name == steps[j].name
    && if j >= started then x.cause == NeverStarted
       else
         || (Behave(e, steps[j]) == StillRunning && x.cause == Overran)
         || (Behave(e, steps[j]) == Fails && x.cause == HandlerError)
         || (Behave(e, steps[j]) == CannotStart && x.cause == HandlerError)
  }

  /** The errors are those of the steps that were not started, did not end in time, could not be
      started or failed, each with that cause. */
  lemma {:induction false} ErrorsSay(e: Environment, steps: seq<Step>, started: nat, i: nat, x: StepError)
    requires i <= |steps|
    ensures x in Errors(e, steps, started, i) <==> exists j :: i <= j < |steps| && Blames(e, steps, started, j, x)
    decreases |steps| - i
  {
    if i < |steps| {
      ErrorsSay(e, steps, started, i + 1, x);
      assert x in Own(e, steps, started, i) <==> Blames(e, steps, started, i, x);
      hide Own, Blames;
      assert x in Errors(e, steps, started, i) <==>
        x in Own(e, steps, started, i) || x in Errors(e, steps, started, i + 1);
    }
  }

  /** `Close` raises exactly when some step did not succeed. */
  lemma RaisesIffSomeFailed(e: Environment, steps: seq<Step>, started: nat)
    requires DistinctNames(steps)
    ensures Errors(e, steps, started, 0) != [] <==> exists j :: 0 <= j < |steps| && !Succeeds(e, steps, started, j)
  {
    OneOutcomeEach(e, steps, started, 0);
    var names := FailedNames(e, steps, started, 0);
    if names != [] {
      LaterNames(e, steps, started, 0);
      assert names[0] in names;
      var j :| 0 <= j < |steps| && steps[j].name == names[0];
      FailedIffListed(e, steps, started, 0, j);
      assert !Succeeds(e, steps, started, j);
    }
    forall j | 0 <= j < |steps| && !Succeeds(e, steps, started, j) ensures names != [] {
      FailedIffListed(e, steps, started, 0, j);
    }
  }

  /** On a monotone clock a step is started exactly when the deadline has not passed at its turn:
      skipping the rest at once skips no step that still had time. */
  lemma StartedIffInTime(e: Environment, timeout: real, n: nat, i: nat)
    requires Monotone(e) && i < n
    ensures i < StartedCount(e, timeout, n) <==> Tick(e, i + 1) < Tick(e, 0) + timeout
  {
    var k := StartedCount(e, timeout, n);
    if i >= k {
      assert Expired(e, timeout, k) && Tick(e, k + 1) <= Tick(e, i + 1);
    } else {
      assert !Expired(e, timeout, i);
    }
  }
}
