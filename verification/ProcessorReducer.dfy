/** The processor requirement reducer: its trial order, budgets and loop. */
module ProcessorReducer {
  import opened Prelude
  import opened Ordering
  import opened ProcessorNames
  import opened ProcessorRequirement
  import opened Prerequisites

  datatype Constraint =
    | InstructionFeature(name: string)
    | OsEnabledState(name: string)
    | IdentityConstraint

  datatype ExecutionOutcome = DifferentFailure | EvaluationError | TargetAbsent | TargetReproduced | Unsupported

  datatype TerminalReason =
    | Complete | CpuLimit | ElapsedLimit | OutputLimit | Timeout | TrialLimit | Uncontrollable | Unstable

  datatype Decision = Removed | Retained

  datatype TrialLimits = TrialLimits(cpu: nat, elapsed: nat, memory: nat, output: nat)

  datatype Policy = Policy(maximumTrials: nat, totalCpu: nat, totalElapsed: nat, totalOutput: nat,
                           trialLimits: TrialLimits)

  datatype TrialResult = TrialResult(
    cpu: u64, elapsed: u64, outcome: ExecutionOutcome, output: u64, timedOut: bool, unstable: bool)

  datatype Trial = Trial(
    candidateRequirementDigest: Digest, decision: Decision, executionResult: ExecutionOutcome,
    testedConstraint: string, trialIndex: nat)

  datatype Receipt = Receipt(
    finalRequirementDigest: Digest, observationDigest: Digest, terminalReason: TerminalReason, trials: seq<Trial>)

  datatype Reduction = Reduction(receipt: Receipt, requirement: Requirement)

  /**
   * An arbitrary executor. The position of the constraint in the run is an
   * argument, so an executor may change its mind between two questions.
   */
  datatype Executor = Executor(
    canControl: (nat, Constraint) -> bool,
    execute: (nat, Requirement, TrialLimits) -> Result<TrialResult>)

  /** The canonical digests the reducer and the checker take of their documents. */
  datatype Digester = Digester(
    observation: ProcessorObservation -> Digest,
    requirement: Requirement -> Digest,
    receipt: Receipt -> Digest)

  const OS_STATE_REQUIRED_FEATURE: seq<(string, string)> := [("xcr0.avx", "AVX"), ("xcr0.avx512", "AVX512F")]

  predicate ValidLimits(limits: TrialLimits) {
    && 0 < limits.cpu <= 60_000
    && limits.cpu <= limits.elapsed <= 120_000
    && 0 < limits.memory <= 1_073_741_824
    && 0 < limits.output <= 1_048_576
  }

  predicate ValidPolicy(policy: Policy) {
    && 0 < policy.maximumTrials <= 16
    && 0 < policy.totalCpu <= 7_200_000
    && 0 < policy.totalElapsed <= 1_800_000
    && 0 < policy.totalOutput <= 16 * 1024 * 1024
    && ValidLimits(policy.trialLimits)
  }

  const PRODUCTION := Policy(16, 7_200_000, 1_800_000, 16 * 1024 * 1024,
                             TrialLimits(30_000, 30_000, 134_217_728, 65_536))

  // Constraints: labels, presence, removal and the trial order.

  const FEATURE_LABEL := "instruction-feature."
  const STATE_LABEL := "os-enabled-state."
  const IDENTITY_LABEL := "processor-identity"

  function Label(constraint: Constraint): string {
    match constraint
    case InstructionFeature(name) => FEATURE_LABEL + name
    case OsEnabledState(name) => STATE_LABEL + name
    case IdentityConstraint => IDENTITY_LABEL
  }

  predicate Present(constraint: Constraint, requirement: Requirement) {
    match constraint
    case InstructionFeature(name) => name in requirement.instructionFeatures
    case OsEnabledState(name) => name in requirement.osEnabledStates
    case IdentityConstraint => requirement.identity.Some?
  }

  /** The guest kernel derives `state` from `feature`. */
  predicate DerivedFrom(state: string, feature: string) {
    (state, feature) in OS_STATE_REQUIRED_FEATURE
  }

  function Remove(constraint: Constraint, requirement: Requirement): Requirement {
    match constraint
    case InstructionFeature(name) =>
      requirement.(
        instructionFeatures := Filter(requirement.instructionFeatures, f => f != name),
        osEnabledStates := Filter(requirement.osEnabledStates, s => !DerivedFrom(s, name)))
    case OsEnabledState(name) =>
      requirement.(osEnabledStates := Filter(requirement.osEnabledStates, s => s != name))
    case IdentityConstraint => requirement.(identity := None)
  }

  /** Dependents first (descending depth), then lexicographic. */
  predicate TrialBefore(a: string, b: string) {
    || FeatureDepth(a) > FeatureDepth(b)
    || (FeatureDepth(a) == FeatureDepth(b) && (a == b || Less(a, b)))
  }

  function InsertFeature(x: string, s: seq<string>): seq<string> {
    if s == [] || TrialBefore(x, s[0]) then [x] + s else [s[0]] + InsertFeature(x, s[1..])
  }

  function SortFeatures(s: seq<string>): seq<string> {
    if s == [] then [] else InsertFeature(s[0], SortFeatures(s[1..]))
  }

  function FeatureConstraints(names: seq<string>): seq<Constraint> {
    seq(|names|, i requires 0 <= i < |names| => InstructionFeature(names[i]))
  }

  function StateConstraints(names: seq<string>): seq<Constraint> {
    seq(|names|, i requires 0 <= i < |names| => OsEnabledState(names[i]))
  }

  function Constraints(requirement: Requirement): seq<Constraint> {
    FeatureConstraints(SortFeatures(requirement.instructionFeatures))
    + StateConstraints(requirement.osEnabledStates)
    + if requirement.identity.Some? then [IdentityConstraint] else []
  }

  /** `dependent_feature_remains`: a feature still required needs this one. */
  ghost predicate Blocked(constraint: Constraint, requirement: Requirement) {
    constraint.InstructionFeature?
    && exists other :: other in requirement.instructionFeatures && other != constraint.name
                       && FeatureReaches(other, constraint.name)
  }

  method DependentFeatureRemains(requirement: Requirement, feature: string) returns (remains: bool)
    ensures remains <==> Blocked(InstructionFeature(feature), requirement)
  {
    FeatureTableRanked();
    for i := 0 to |requirement.instructionFeatures|
      invariant forall k :: 0 <= k < i && requirement.instructionFeatures[k] != feature ==>
        !FeatureReaches(requirement.instructionFeatures[k], feature)
    {
      if requirement.instructionFeatures[i] != feature {
        var required := FeatureRequires(FEATURE_PREREQUISITES, requirement.instructionFeatures[i], feature);
        if required {
          assert requirement.instructionFeatures[i] in requirement.instructionFeatures;
          return true;
        }
      }
    }
    return false;
  }

  // Budgets.

  datatype Usage = Usage(cpu: u64, elapsed: u64, output: u64)

  function RemainingTrialLimits(policy: Policy, used: Usage): Option<TrialLimits> {
    if used.cpu > policy.totalCpu || used.elapsed > policy.totalElapsed || used.output > policy.totalOutput then None
    else
      var cpu := Min(policy.totalCpu - used.cpu, policy.trialLimits.cpu);
      var elapsed := Min(policy.totalElapsed - used.elapsed, policy.trialLimits.elapsed);
      var output := Min(policy.totalOutput - used.output, policy.trialLimits.output);
      if cpu == 0 || elapsed == 0 || output == 0 || cpu > U32_MAX || elapsed > U32_MAX || output > U32_MAX then None
      else Some(TrialLimits(cpu, elapsed, policy.trialLimits.memory, output))
  }

  function AggregateLimitReason(policy: Policy, used: Usage): Option<TerminalReason> {
    if used.cpu >= policy.totalCpu then Some(CpuLimit)
    else if used.elapsed >= policy.totalElapsed then Some(ElapsedLimit)
    else if used.output >= policy.totalOutput then Some(OutputLimit)
    else None
  }

  function ExhaustedReason(policy: Policy, used: Usage): TerminalReason {
    match AggregateLimitReason(policy, used)
    case Some(reason) => reason
    case None => TrialLimit
  }

  /** `ProcessorTrialResult::terminal_reason`. */
  function ResultTerminalReason(result: TrialResult, limits: TrialLimits): Result<Option<TerminalReason>> {
    if result.timedOut && result.unstable then Err(SchemaInvalid)
    else if result.timedOut then Ok(Some(Timeout))
    else if result.unstable then Ok(Some(Unstable))
    else if result.cpu > limits.cpu then Ok(Some(CpuLimit))
    else if result.elapsed > limits.elapsed then Ok(Some(ElapsedLimit))
    else if result.output > limits.output then Ok(Some(OutputLimit))
    else Ok(None)
  }

  function Charge(used: Usage, result: TrialResult): Usage {
    Usage(SaturatingAdd(used.cpu, result.cpu), SaturatingAdd(used.elapsed, result.elapsed),
          SaturatingAdd(used.output, result.output))
  }

  // The run as a fold over the trial order.

  /** One trial: where in the order it ran, what it tested, what it was granted and what came back. */
  datatype Attempt = Attempt(
    at: nat, constraint: Constraint, candidate: Requirement, granted: TrialLimits, usedBefore: Usage,
    result: TrialResult, decision: Decision)

  datatype Progress = Progress(
    reduced: Requirement, attempts: seq<Attempt>, reason: TerminalReason, used: Usage, stopped: bool)

  datatype Setting = Setting(policy: Policy, executor: Executor)

  ghost function Step(setting: Setting, at: nat, constraint: Constraint, p: Progress): Result<Progress> {
    if !Present(constraint, p.reduced) then Ok(p)
    else if |p.attempts| >= setting.policy.maximumTrials then Ok(p.(reason := TrialLimit, stopped := true))
    else if Blocked(constraint, p.reduced) || !setting.executor.canControl(at, constraint) then
      Ok(p.(reason := Uncontrollable))
    else match RemainingTrialLimits(setting.policy, p.used) {
      case None => Ok(p.(reason := ExhaustedReason(setting.policy, p.used), stopped := true))
      case Some(limits) =>
        var candidate := Remove(constraint, p.reduced);
        if !ValidRequirement(candidate) then Err(SchemaInvalid)
        else
          var result :- setting.executor.execute(at, candidate, limits);
          var reason :- ResultTerminalReason(result, limits);
          Conclude(setting, at, constraint, p, candidate, limits, result, reason)
    }
  }

  /** What the loop records once a trial has reported. */
  ghost function Conclude(setting: Setting, at: nat, constraint: Constraint, p: Progress, candidate: Requirement,
                          limits: TrialLimits, result: TrialResult, reason: Option<TerminalReason>): Result<Progress>
  {
    var used := Charge(p.used, result);
    var removed := reason.None? && result.outcome.TargetReproduced?;
    var attempt := Attempt(at, constraint, candidate, limits, p.used, result, if removed then Removed else Retained);
    if |p.attempts| > 255 then Err(SchemaInvalid)
    else
      var next := Progress(if removed then candidate else p.reduced, p.attempts + [attempt], p.reason, used, false);
      match reason
      case Some(stop) => Ok(next.(reason := stop, stopped := true))
      case None =>
        match AggregateLimitReason(setting.policy, used)
        case Some(stop) => Ok(next.(reason := stop, stopped := true))
        case None => Ok(next)
  }

  ghost function RunFrom(setting: Setting, order: seq<Constraint>, at: nat, p: Progress): Result<Progress>
    decreases |order| - at
  {
    if at >= |order| || p.stopped then Ok(p)
    else
      var next :- Step(setting, at, order[at], p);
      RunFrom(setting, order, at + 1, next)
  }

  function Start(requirement: Requirement): Progress {
    Progress(requirement, [], Complete, Usage(0, 0, 0), false)
  }

  ghost function Run(setting: Setting, requirement: Requirement): Result<Progress> {
    RunFrom(setting, Constraints(requirement), 0, Start(requirement))
  }

  function TrialOf(digester: Digester, attempt: Attempt, index: nat): Trial {
    Trial(digester.requirement(attempt.candidate), attempt.decision, attempt.result.outcome,
          Label(attempt.constraint), index)
  }

  function TrialsOf(digester: Digester, attempts: seq<Attempt>): seq<Trial> {
    seq(|attempts|, i requires 0 <= i < |attempts| => TrialOf(digester, attempts[i], i))
  }

  // The receipt and its validation.

  predicate ValidTestedConstraint(value: string) {
    |value| <= 128
    && (value == IDENTITY_LABEL
        || (if FEATURE_LABEL <= value then
              |value| > |FEATURE_LABEL|
              && forall i :: |FEATURE_LABEL| <= i < |value| ==> FeatureChar(value[i])
            else STATE_LABEL <= value && ValidState(value[|STATE_LABEL|..])))
  }

  predicate ValidReceipt(receipt: Receipt) {
    && |receipt.trials| <= 16
    && (forall i :: 0 <= i < |receipt.trials| ==> ValidTrial(receipt.trials[i], i))
    && forall i, j :: 0 <= i < j < |receipt.trials| ==>
         receipt.trials[i].testedConstraint != receipt.trials[j].testedConstraint
  }

  predicate ValidTrial(trial: Trial, index: nat) {
    && trial.trialIndex == index
    && ValidTestedConstraint(trial.testedConstraint)
    && (trial.decision.Removed? ==> trial.executionResult.TargetReproduced?)
  }

  lemma ValidReceiptOutright(receipt: Receipt)
    ensures
      var trials := receipt.trials;
      ValidReceipt(receipt) <==>
        && |trials| <= 16
        && (forall i :: 0 <= i < |trials| ==>
              && trials[i].trialIndex == i && ValidTestedConstraint(trials[i].testedConstraint)
              && !(trials[i].decision.Removed? && !trials[i].executionResult.TargetReproduced?))
        && forall i, j :: 0 <= i < j < |trials| ==> trials[i].testedConstraint != trials[j].testedConstraint
  {
    hide ValidTestedConstraint;
    if ValidReceipt(receipt) {
      assert forall i :: 0 <= i < |receipt.trials| ==> ValidTrial(receipt.trials[i], i);
    }
  }

  /** `ProcessorReductionReceipt::validate`: one pass with a set of labels already seen. */
  method ValidateReceipt(receipt: Receipt) returns (ok: bool)
    ensures ok <==> ValidReceipt(receipt)
    ensures
      var trials := receipt.trials;
      ok <==>
        && |trials| <= 16
        && (forall i :: 0 <= i < |trials| ==>
              && trials[i].trialIndex == i && ValidTestedConstraint(trials[i].testedConstraint)
              && !(trials[i].decision.Removed? && !trials[i].executionResult.TargetReproduced?))
        && forall i, j :: 0 <= i < j < |trials| ==> trials[i].testedConstraint != trials[j].testedConstraint
  {
    ValidReceiptOutright(receipt);
    hide ValidTrial;
    if |receipt.trials| > 16 {
      return false;
    }
    var tested: set<string> := {};
    for i := 0 to |receipt.trials|
      invariant forall k :: 0 <= k < i ==> ValidTrial(receipt.trials[k], k)
      invariant forall k :: 0 <= k < i ==> receipt.trials[k].testedConstraint in tested
      invariant forall name :: name in tested ==> exists k :: 0 <= k < i && receipt.trials[k].testedConstraint == name
      invariant forall j, k :: 0 <= j < k < i ==>
        receipt.trials[j].testedConstraint != receipt.trials[k].testedConstraint
    {
      var trial := receipt.trials[i];
      if !ValidTrial(trial, i) || trial.testedConstraint in tested {
        return false;
      }
      tested := tested + {trial.testedConstraint};
    }
    return true;
  }

  function ReceiptOf(digester: Digester, observation: ProcessorObservation, p: Progress): Receipt {
    Receipt(digester.requirement(p.reduced), digester.observation(observation), p.reason,
            TrialsOf(digester, p.attempts))
  }

  /** `reduce_processor_requirements` as a function of the whole run. */
  ghost function Reduce(digester: Digester, observation: ProcessorObservation, requirement: Requirement,
                        setting: Setting): Result<Reduction>
  {
    if !ValidObservation(observation) || !ValidRequirement(requirement) || !ValidPolicy(setting.policy)
      || observation.architecture != requirement.architecture || observation.abi != requirement.abi
    then Err(SchemaInvalid)
    else
      var p :- Run(setting, requirement);
      var receipt := ReceiptOf(digester, observation, p);
      if !ValidReceipt(receipt) then Err(SchemaInvalid) else Ok(Reduction(receipt, p.reduced))
  }

  lemma TrialsOfAppend(digester: Digester, attempts: seq<Attempt>, attempt: Attempt)
    ensures TrialsOf(digester, attempts + [attempt])
         == TrialsOf(digester, attempts) + [TrialOf(digester, attempt, |attempts|)]
  {
  }

  /** The reducer loop, with the running state the source keeps. */
  method ReduceProcessorRequirements(digester: Digester, observation: ProcessorObservation, requirement: Requirement,
                                     policy: Policy, executor: Executor)
    returns (r: Result<Reduction>)
    ensures r == Reduce(digester, observation, requirement, Setting(policy, executor))
  {
    if !ValidObservation(observation) || !ValidRequirement(requirement) || !ValidPolicy(policy)
      || observation.architecture != requirement.architecture || observation.abi != requirement.abi
    {
      return Err(SchemaInvalid);
    }
    ghost var setting := Setting(policy, executor);
    var order := Constraints(requirement);
    var reduced, reason := requirement, Complete;
    var trials: seq<Trial> := [];
    var used := Usage(0, 0, 0);
    var stopped := false;
    ghost var attempts: seq<Attempt> := [];
    var at := 0;
    while at < |order| && !stopped
      invariant at <= |order|
      invariant trials == TrialsOf(digester, attempts)
      invariant Run(setting, requirement)
             == RunFrom(setting, order, at, Progress(reduced, attempts, reason, used, stopped))
      decreases |order| - at
    {
      var constraint := order[at];
      ghost var before := Progress(reduced, attempts, reason, used, false);
      at := at + 1;
      if !Present(constraint, reduced) {
        continue;
      }
      if |trials| >= policy.maximumTrials {
        reason, stopped := TrialLimit, true;
        continue;
      }
      var blocked := false;
      if constraint.InstructionFeature? {
        blocked := DependentFeatureRemains(reduced, constraint.name);
      }
      if blocked || !executor.canControl(at - 1, constraint) {
        reason := Uncontrollable;
        continue;
      }
      var limits := RemainingTrialLimits(policy, used);
      if limits.None? {
        reason, stopped := ExhaustedReason(policy, used), true;
        continue;
      }
      var candidate := Remove(constraint, reduced);
      if !ValidRequirement(candidate) {
        return Err(SchemaInvalid);
      }
      var result := executor.execute(at - 1, candidate, limits.value);
      if result.Err? {
        return Err(result.error);
      }
      var stop := ResultTerminalReason(result.value, limits.value);
      if stop.Err? {
        return Err(stop.error);
      }
      ghost var usedBefore := used;
      used := Charge(used, result.value);
      var decision := Retained;
      if stop.value.None? && result.value.outcome.TargetReproduced? {
        reduced, decision := candidate, Removed;
      }
      if |trials| > 255 {
        return Err(SchemaInvalid);
      }
      ghost var attempt := Attempt(at - 1, constraint, candidate, limits.value, usedBefore, result.value, decision);
      TrialsOfAppend(digester, attempts, attempt);
      trials := trials + [Trial(digester.requirement(candidate), decision, result.value.outcome, Label(constraint),
                                |trials|)];
      attempts := attempts + [attempt];
      var aggregate := AggregateLimitReason(policy, used);
      if stop.value.Some? {
        reason, stopped := stop.value.value, true;
      } else if aggregate.Some? {
        reason, stopped := aggregate.value, true;
      }
      assert Conclude(setting, at - 1, constraint, before, candidate, limits.value, result.value, stop.value)
          == Ok(Progress(reduced, attempts, reason, used, stopped));
    }
    var receipt := Receipt(digester.requirement(reduced), digester.observation(observation), reason, trials);
    var valid := ValidateReceipt(receipt);
    return if valid then Ok(Reduction(receipt, reduced)) else Err(SchemaInvalid);
  }
}
