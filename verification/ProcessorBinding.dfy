/** Binding a processor requirement into a capsule, and the independent checker of that binding. */
module ProcessorBinding {
  import opened Prelude
  import opened Ordering
  import opened ProcessorNames
  import opened Capsule
  import opened ProcessorRequirement
  import opened ProcessorReducer

  // The producer.

  /** `processor_capabilities`: replace every owned capability by the ones of the requirement. */
  function ProcessorCapabilities(digest: Requirement -> Digest, existing: seq<string>, requirement: Requirement)
    : Result<seq<string>>
  {
    var own :- RequirementCapabilities(digest, requirement);
    var capabilities := SortDedup(Filter(existing, c => !Owned(c)) + own);
    if |capabilities| > 64 then Err(SchemaInvalid) else Ok(capabilities)
  }

  function ReductionCapability(digester: Digester, receipt: Receipt): string {
    REDUCTION_PREFIX + DigestSuffix(digester.receipt(receipt))
  }

  /** The capsule that `bind_processor_reduction` leaves behind, and what it returns. */
  function BindReduction(digester: Digester, capsule: ReplayCapsule, requirement: Requirement, receipt: Receipt)
    : (ReplayCapsule, Result<Unit>)
  {
    if receipt.finalRequirementDigest != digester.requirement(requirement) then (capsule, Err(SchemaInvalid))
    else
      match ProcessorCapabilities(digester.requirement, capsule.requiredCapabilities, requirement)
      case Err(error) => (capsule, Err(error))
      case Ok(own) =>
        if !ValidReceipt(receipt) then (capsule.(requiredCapabilities := own), Err(SchemaInvalid))
        else
          var bound := capsule.(requiredCapabilities := SortDedup(own + [ReductionCapability(digester, receipt)]));
          (bound, if ValidCapsule(bound) then Ok(Unit) else Err(SchemaInvalid))
  }

  /** The admission input that binding edits in place. */
  class AdmissionInput {
    var capsule: ReplayCapsule

    constructor (capsule: ReplayCapsule)
      ensures this.capsule == capsule
    {
      this.capsule := capsule;
    }

    /** `bind_processor_requirement`: a failed bind leaves the capsule alone. */
    method BindProcessorRequirement(digester: Digester, requirement: Requirement) returns (r: Result<Unit>)
      modifies this
      ensures
        var own := ProcessorCapabilities(digester.requirement, old(capsule).requiredCapabilities, requirement);
        if own.Ok? then r == Ok(Unit) && capsule == old(capsule).(requiredCapabilities := own.value)
        else r == Err(own.error) && capsule == old(capsule)
    {
      var own := ComputeRequirementCapabilities(digester.requirement, requirement);
      if own.Err? {
        return Err(own.error);
      }
      var capabilities := SortDedup(Filter(capsule.requiredCapabilities, c => !Owned(c)) + own.value);
      if |capabilities| > 64 {
        return Err(SchemaInvalid);
      }
      capsule := capsule.(requiredCapabilities := capabilities);
      return Ok(Unit);
    }

    /** `bind_processor_reduction`, including what a late failure leaves in the capsule. */
    method BindProcessorReduction(digester: Digester, requirement: Requirement, receipt: Receipt)
      returns (r: Result<Unit>)
      modifies this
      ensures (capsule, r) == BindReduction(digester, old(capsule), requirement, receipt)
    {
      if receipt.finalRequirementDigest != digester.requirement(requirement) {
        return Err(SchemaInvalid);
      }
      r := BindProcessorRequirement(digester, requirement);
      if r.Err? {
        return;
      }
      var valid := ValidateReceipt(receipt);
      if !valid {
        return Err(SchemaInvalid);
      }
      var extra := ReductionCapability(digester, receipt);
      capsule := capsule.(requiredCapabilities := capsule.requiredCapabilities + [extra]);
      capsule := capsule.(requiredCapabilities := SortDedup(capsule.requiredCapabilities));
      return if ValidCapsule(capsule) then Ok(Unit) else Err(SchemaInvalid);
    }
  }

  // The checker.

  predicate HostRequirement(capability: string) {
    ARCHITECTURE_PREFIX <= capability || FEATURE_PREFIX <= capability
    || OS_STATE_PREFIX <= capability || IDENTITY_PREFIX <= capability
  }

  /** `removed_constraint_for_capability`: the checker's own name inversion. */
  function RemovedConstraintFor(capability: string): Option<string> {
    if FEATURE_PREFIX <= capability then
      Some(FEATURE_LABEL + FeatureOfSuffix(capability[|FEATURE_PREFIX|..]))
    else if OS_STATE_PREFIX <= capability then
      Some(STATE_LABEL + capability[|OS_STATE_PREFIX|..])
    else if IDENTITY_PREFIX <= capability then Some(IDENTITY_LABEL)
    else None
  }

  /** `constraint_present`, over the admitted capability list. */
  function ConstraintPresent(constraint: string, capabilities: seq<string>): Result<bool> {
    if FEATURE_LABEL <= constraint then
      var normalized :- Normalize(constraint[|FEATURE_LABEL|..]);
      Ok(FEATURE_PREFIX + normalized in capabilities)
    else if STATE_LABEL <= constraint then
      Ok(OS_STATE_PREFIX + constraint[|STATE_LABEL|..] in capabilities)
    else if constraint == IDENTITY_LABEL then
      Ok(exists c :: c in capabilities && IDENTITY_PREFIX <= c)
    else Err(SchemaInvalid)
  }

  /** The checker's own copy of the cascade from features to os states. */
  predicate RemovedWithFeature(constraint: string, removed: set<string>) {
    || (constraint == "os-enabled-state.xcr0.avx" && "instruction-feature.AVX" in removed)
    || (constraint == "os-enabled-state.xcr0.avx512" && "instruction-feature.AVX512F" in removed)
  }

  /** The capsule without its `processor.*` capabilities. */
  function Strip(capsule: ReplayCapsule): ReplayCapsule {
    capsule.(requiredCapabilities := Filter(capsule.requiredCapabilities, c => !(PROCESSOR_PREFIX <= c)))
  }

  function RemovedLabels(trials: seq<Trial>): set<string> {
    set i | 0 <= i < |trials| && trials[i].decision.Removed? :: trials[i].testedConstraint
  }

  /** A sealed host requirement missing from the admitted list was removed by a trial. */
  predicate LossExplained(capability: string, expected: seq<string>, removed: set<string>) {
    || capability in expected
    || (RemovedConstraintFor(capability).Some?
        && (RemovedConstraintFor(capability).value in removed
            || RemovedWithFeature(RemovedConstraintFor(capability).value, removed)))
  }

  /** A trial's decision agrees with the admitted list. */
  predicate TrialAgrees(trial: Trial, expected: seq<string>) {
    var present := ConstraintPresent(trial.testedConstraint, expected);
    present.Ok? && (trial.decision.Retained? <==> present.value)
  }

  function Expected(digester: Digester, requirement: Requirement, receipt: Receipt): Result<seq<string>> {
    var own :- RequirementCapabilities(digester.requirement, requirement);
    Ok(Sort(own + [ReductionCapability(digester, receipt)]))
  }

  /** What `validate_processor_reduction_capsule_binding` accepts. */
  predicate Accepts(digester: Digester, capsuleDigest: ReplayCapsule -> Digest, sealed: ReplayCapsule,
                    admitted: ReplayCapsule, requirement: Requirement, receipt: Receipt)
  {
    && ValidCapsule(sealed) && ValidCapsule(admitted) && ValidRequirement(requirement) && ValidReceipt(receipt)
    && receipt.finalRequirementDigest == digester.requirement(requirement)
    && capsuleDigest(Strip(sealed)) == capsuleDigest(Strip(admitted))
    && Expected(digester, requirement, receipt).Ok?
    && var expected := Expected(digester, requirement, receipt).value;
    && Filter(admitted.requiredCapabilities, c => Owned(c)) == expected
    && (forall c :: c in expected && HostRequirement(c) ==> c in sealed.requiredCapabilities)
    && (forall c :: c in sealed.requiredCapabilities && HostRequirement(c) ==>
          LossExplained(c, expected, RemovedLabels(receipt.trials)))
    && forall i :: 0 <= i < |receipt.trials| ==> TrialAgrees(receipt.trials[i], expected)
  }

  method CollectRemoved(trials: seq<Trial>) returns (removed: set<string>)
    ensures removed == RemovedLabels(trials)
  {
    removed := {};
    for i := 0 to |trials|
      invariant removed == RemovedLabels(trials[..i])
    {
      if trials[i].decision.Removed? {
        removed := removed + {trials[i].testedConstraint};
      }
      RemovedLabelsStep(trials, i);
    }
    assert trials[..|trials|] == trials;
  }

  method CheckLosses(sealedHost: seq<string>, expected: seq<string>, removed: set<string>) returns (ok: bool)
    ensures ok <==> forall c :: c in sealedHost ==> LossExplained(c, expected, removed)
  {
    for i := 0 to |sealedHost|
      invariant forall k :: 0 <= k < i ==> LossExplained(sealedHost[k], expected, removed)
    {
      if sealedHost[i] !in expected {
        var constraint := RemovedConstraintFor(sealedHost[i]);
        if constraint.None? || (constraint.value !in removed && !RemovedWithFeature(constraint.value, removed)) {
          assert sealedHost[i] in sealedHost;
          return false;
        }
      }
    }
    return true;
  }

  method CheckTrials(trials: seq<Trial>, expected: seq<string>) returns (ok: bool)
    ensures ok <==> forall i :: 0 <= i < |trials| ==> TrialAgrees(trials[i], expected)
  {
    for i := 0 to |trials|
      invariant forall k :: 0 <= k < i ==> TrialAgrees(trials[k], expected)
    {
      var present := ConstraintPresent(trials[i].testedConstraint, expected);
      if present.Err?
        || (trials[i].decision.Removed? && present.value)
        || (trials[i].decision.Retained? && !present.value)
      {
        return false;
      }
    }
    return true;
  }

  /** The checker itself, with its sets and loops. */
  method ValidateBinding(digester: Digester, capsuleDigest: ReplayCapsule -> Digest, sealed: ReplayCapsule,
                         admitted: ReplayCapsule, requirement: Requirement, receipt: Receipt)
    returns (accepted: bool)
    ensures accepted <==> Accepts(digester, capsuleDigest, sealed, admitted, requirement, receipt)
  {
    var validReceipt := ValidateReceipt(receipt);
    if !ValidCapsule(sealed) || !ValidCapsule(admitted) || !ValidRequirement(requirement) || !validReceipt {
      return false;
    }
    if receipt.finalRequirementDigest != digester.requirement(requirement)
      || capsuleDigest(Strip(sealed)) != capsuleDigest(Strip(admitted))
    {
      return false;
    }
    var own := ComputeRequirementCapabilities(digester.requirement, requirement);
    if own.Err? {
      return false;
    }
    var expected := Sort(own.value + [ReductionCapability(digester, receipt)]);
    if Filter(admitted.requiredCapabilities, c => Owned(c)) != expected {
      return false;
    }
    FilterMembers(sealed.requiredCapabilities, c => HostRequirement(c));
    var sealedHost := Filter(sealed.requiredCapabilities, c => HostRequirement(c));
    if exists c :: c in expected && HostRequirement(c) && c !in sealedHost {
      return false;
    }
    var removed := CollectRemoved(receipt.trials);
    var lossesExplained := CheckLosses(sealedHost, expected, removed);
    if !lossesExplained {
      return false;
    }
    accepted := CheckTrials(receipt.trials, expected);
  }

  lemma RemovedLabelsStep(trials: seq<Trial>, n: nat)
    requires n < |trials|
    ensures RemovedLabels(trials[..n + 1])
         == RemovedLabels(trials[..n]) + if trials[n].decision.Removed? then {trials[n].testedConstraint} else {}
  {
    var longer, shorter := trials[..n + 1], trials[..n];
    forall name | name in RemovedLabels(longer)
      ensures name in RemovedLabels(shorter) || (trials[n].decision.Removed? && name == trials[n].testedConstraint)
    {
      var i :| 0 <= i < |longer| && longer[i].decision.Removed? && longer[i].testedConstraint == name;
      if i < n {
        assert shorter[i] == longer[i];
      }
    }
    forall name | name in RemovedLabels(shorter)
      ensures name in RemovedLabels(longer)
    {
      var i :| 0 <= i < |shorter| && shorter[i].decision.Removed? && shorter[i].testedConstraint == name;
      assert longer[i] == shorter[i];
    }
    assert longer[n] == trials[n];
  }
}
