/** What the checker's acceptance guarantees about any admitted capsule, whoever made it. */
module CheckerSoundness {
  import opened Prelude
  import opened Ordering
  import opened ProcessorNames
  import opened Capsule
  import opened ProcessorRequirement
  import opened ProcessorReducer
  import opened ProcessorBinding
  import opened Agreement

  /** The admitted capsule is the sealed one but for its capabilities, and those differ under `processor.` only. */
  ghost predicate SameOutside(sealed: ReplayCapsule, admitted: ReplayCapsule) {
    && admitted.(requiredCapabilities := sealed.requiredCapabilities) == sealed
    && forall c :: !("processor." <= c) ==> (c in admitted.requiredCapabilities <==> c in sealed.requiredCapabilities)
  }

  /** The owned capabilities are those of the requirement and the digest of the receipt. */
  ghost predicate OwnsExactly(digester: Digester, admitted: ReplayCapsule, requirement: Requirement, receipt: Receipt) {
    forall c :: "processor." <= c || "architecture." <= c ==>
      (c in admitted.requiredCapabilities <==>
         CapabilityOf(digester.requirement, requirement, c)
         || c == "processor.reduction." + DigestSuffix(digester.receipt(receipt)))
  }

  /** No host requirement is new. */
  ghost predicate AddsNoHost(sealed: ReplayCapsule, admitted: ReplayCapsule) {
    forall c :: c in admitted.requiredCapabilities && HostRequirement(c) ==> c in sealed.requiredCapabilities
  }

  /** At most sixteen trials in order, each of another constraint, and removed only when the target was reproduced. */
  predicate WellReported(receipt: Receipt) {
    && |receipt.trials| <= 16
    && (forall i :: 0 <= i < |receipt.trials| ==>
          && receipt.trials[i].trialIndex == i
          && (receipt.trials[i].decision.Removed? ==> receipt.trials[i].executionResult.TargetReproduced?))
    && forall i, j :: 0 <= i < j < |receipt.trials| ==>
         receipt.trials[i].testedConstraint != receipt.trials[j].testedConstraint
  }

  /** A sealed host requirement is gone only by a removing trial, its own or that of the feature it derives from. */
  predicate LossesTold(sealed: ReplayCapsule, admitted: ReplayCapsule, trials: seq<Trial>) {
    forall c :: c in sealed.requiredCapabilities && HostRequirement(c) && c !in admitted.requiredCapabilities ==>
      exists i :: 0 <= i < |trials| && trials[i].decision.Removed? && TakesAway(trials[i].testedConstraint, c)
  }

  predicate TakesAway(tested: string, capability: string) {
    || ("processor.feature." <= capability && tested == "instruction-feature." + FeatureOfSuffix(capability[18..]))
    || ("processor.os-state." <= capability && tested == "os-enabled-state." + capability[19..])
    || ("processor.identity." <= capability && tested == "processor-identity")
    || (capability == "processor.os-state.xcr0.avx" && tested == "instruction-feature.AVX")
    || (capability == "processor.os-state.xcr0.avx512" && tested == "instruction-feature.AVX512F")
  }

  /** The capability list gives the constraint a trial tested. */
  ghost predicate Gives(capabilities: seq<string>, tested: string) {
    || (exists name :: tested == "instruction-feature." + name && Normalize(name).Ok?
          && "processor.feature." + Normalize(name).value in capabilities)
    || (exists name :: tested == "os-enabled-state." + name && "processor.os-state." + name in capabilities)
    || (tested == "processor-identity" && exists c :: c in capabilities && "processor.identity." <= c)
  }

  /** What the receipt says of each constraint it tried is what the admitted list says. */
  ghost predicate DecisionsTold(admitted: ReplayCapsule, trials: seq<Trial>) {
    forall i :: 0 <= i < |trials| ==>
      (trials[i].decision.Retained? <==> Gives(admitted.requiredCapabilities, trials[i].testedConstraint))
  }

  ghost predicate Sound(digester: Digester, sealed: ReplayCapsule, admitted: ReplayCapsule, requirement: Requirement,
                        receipt: Receipt)
  {
    && ValidCapsule(sealed) && ValidCapsule(admitted) && ValidRequirement(requirement)
    && SameOutside(sealed, admitted)
    && OwnsExactly(digester, admitted, requirement, receipt)
    && AddsNoHost(sealed, admitted)
    && receipt.finalRequirementDigest == digester.requirement(requirement)
    && WellReported(receipt)
    && LossesTold(sealed, admitted, receipt.trials)
    && DecisionsTold(admitted, receipt.trials)
  }

  ghost predicate InjectiveDigest(capsuleDigest: ReplayCapsule -> Digest) {
    forall a, b :: capsuleDigest(a) == capsuleDigest(b) ==> a == b
  }

  lemma StrippedAreSame(sealed: ReplayCapsule, admitted: ReplayCapsule)
    requires Strip(sealed) == Strip(admitted)
    ensures SameOutside(sealed, admitted)
  {
    var keep := (c: string) => !(PROCESSOR_PREFIX <= c);
    FilterMembers(sealed.requiredCapabilities, keep);
    FilterMembers(admitted.requiredCapabilities, keep);
    assert Strip(sealed).requiredCapabilities == Filter(sealed.requiredCapabilities, keep) by {
      SameFilter(sealed.requiredCapabilities, keep, c => !(PROCESSOR_PREFIX <= c));
    }
    assert Strip(admitted).requiredCapabilities == Filter(admitted.requiredCapabilities, keep) by {
      SameFilter(admitted.requiredCapabilities, keep, c => !(PROCESSOR_PREFIX <= c));
    }
    assert admitted.(requiredCapabilities := sealed.requiredCapabilities)
      == Strip(admitted).(requiredCapabilities := sealed.requiredCapabilities);
    assert sealed == Strip(sealed).(requiredCapabilities := sealed.requiredCapabilities);
  }

  lemma OwnedAreExpected(digester: Digester, admitted: ReplayCapsule, requirement: Requirement, receipt: Receipt)
    requires Expected(digester, requirement, receipt).Ok?
    requires Filter(admitted.requiredCapabilities, c => Owned(c)) == Expected(digester, requirement, receipt).value
    ensures OwnsExactly(digester, admitted, requirement, receipt)
  {
    ExpectedMembers(digester, requirement, receipt);
    FilterMembers(admitted.requiredCapabilities, c => Owned(c));
  }

  lemma HostsAreOld(digester: Digester, sealed: ReplayCapsule, admitted: ReplayCapsule, requirement: Requirement,
                    receipt: Receipt)
    requires Expected(digester, requirement, receipt).Ok?
    requires Filter(admitted.requiredCapabilities, c => Owned(c)) == Expected(digester, requirement, receipt).value
    requires forall c :: c in Expected(digester, requirement, receipt).value && HostRequirement(c) ==>
      c in sealed.requiredCapabilities
    ensures AddsNoHost(sealed, admitted)
  {
    FilterMembers(admitted.requiredCapabilities, c => Owned(c));
    forall c | c in admitted.requiredCapabilities && HostRequirement(c)
      ensures c in sealed.requiredCapabilities
    {
      HostIsOwned(c);
    }
  }

  lemma LossesAreTold(sealed: ReplayCapsule, admitted: ReplayCapsule, expected: seq<string>, trials: seq<Trial>)
    requires Filter(admitted.requiredCapabilities, c => Owned(c)) == expected
    requires forall c :: c in sealed.requiredCapabilities && HostRequirement(c) ==>
      LossExplained(c, expected, RemovedLabels(trials))
    ensures LossesTold(sealed, admitted, trials)
  {
    FilterMembers(admitted.requiredCapabilities, c => Owned(c));
    forall c | c in sealed.requiredCapabilities && HostRequirement(c) && c !in admitted.requiredCapabilities
      ensures exists i :: 0 <= i < |trials| && trials[i].decision.Removed? && TakesAway(trials[i].testedConstraint, c)
    {
      assert LossExplained(c, expected, RemovedLabels(trials));
      LossIsTold(c, RemovedLabels(trials));
      var tested :| tested in RemovedLabels(trials) && TakesAway(tested, c);
    }
  }

  lemma LossIsTold(capability: string, removed: set<string>)
    requires RemovedConstraintFor(capability).Some?
    requires
      || RemovedConstraintFor(capability).value in removed
      || RemovedWithFeature(RemovedConstraintFor(capability).value, removed)
    ensures exists tested :: tested in removed && TakesAway(tested, capability)
  {
    var constraint := RemovedConstraintFor(capability).value;
    if constraint in removed {
      assert TakesAway(constraint, capability);
    } else {
      CascadedCapability(capability, constraint);
      var feature := if constraint == "os-enabled-state.xcr0.avx" then "instruction-feature.AVX"
        else "instruction-feature.AVX512F";
      assert feature in removed && TakesAway(feature, capability);
    }
  }

  lemma StateCapability(capability: string, name: string)
    requires RemovedConstraintFor(capability) == Some(STATE_LABEL + name)
    ensures capability == OS_STATE_PREFIX + name
  {
    hide FeatureOfSuffix;
    assert (STATE_LABEL + name)[0] == 'o';
    if OS_STATE_PREFIX <= capability {
      ProcessorPrefixes(capability);
      assert (STATE_LABEL + name)[|STATE_LABEL|..] == name;
      assert (STATE_LABEL + capability[|OS_STATE_PREFIX|..])[|STATE_LABEL|..] == capability[|OS_STATE_PREFIX|..];
    }
  }

  lemma CascadedCapability(capability: string, constraint: string)
    requires RemovedConstraintFor(capability) == Some(constraint)
    ensures constraint == "os-enabled-state.xcr0.avx" ==> capability == "processor.os-state.xcr0.avx"
    ensures constraint == "os-enabled-state.xcr0.avx512" ==> capability == "processor.os-state.xcr0.avx512"
  {
    hide RemovedConstraintFor;
    if constraint == STATE_LABEL + "xcr0.avx" {
      StateCapability(capability, "xcr0.avx");
    } else if constraint == STATE_LABEL + "xcr0.avx512" {
      StateCapability(capability, "xcr0.avx512");
    }
  }

  lemma DecisionsAreTold(admitted: ReplayCapsule, expected: seq<string>, trials: seq<Trial>)
    requires Filter(admitted.requiredCapabilities, c => Owned(c)) == expected
    requires forall i :: 0 <= i < |trials| ==> TrialAgrees(trials[i], expected)
    ensures DecisionsTold(admitted, trials)
  {
    forall i | 0 <= i < |trials|
      ensures trials[i].decision.Retained? <==> Gives(admitted.requiredCapabilities, trials[i].testedConstraint)
    {
      PresenceIsGiven(trials[i].testedConstraint, expected, admitted.requiredCapabilities);
    }
  }

  lemma PresenceIsGiven(tested: string, expected: seq<string>, capabilities: seq<string>)
    requires Filter(capabilities, c => Owned(c)) == expected
    requires ConstraintPresent(tested, expected).Ok?
    ensures ConstraintPresent(tested, expected).value <==> Gives(capabilities, tested)
  {
    FilterMembers(capabilities, c => Owned(c));
    forall c | PROCESSOR_PREFIX <= c
      ensures c in expected <==> c in capabilities
    {
    }
    if FEATURE_LABEL <= tested {
      assert tested[0] == 'i';
      var name := tested[|FEATURE_LABEL|..];
      assert tested == FEATURE_LABEL + name;
      forall other | tested == FEATURE_LABEL + other
        ensures other == name
      {
        assert tested[|FEATURE_LABEL|..] == other;
      }
    } else if STATE_LABEL <= tested {
      assert tested[0] == 'o';
      var name := tested[|STATE_LABEL|..];
      assert tested == STATE_LABEL + name;
      forall other | tested == STATE_LABEL + other
        ensures other == name
      {
        assert tested[|STATE_LABEL|..] == other;
      }
    }
  }

  /**
   * Acceptance binds: under a collision-free capsule digest the admitted
   * capsule is the sealed one with exactly the capabilities of this requirement
   * and this receipt in place of the sealed ones, and asks nothing new of a host.
   */
  lemma AcceptanceIsSound(digester: Digester, capsuleDigest: ReplayCapsule -> Digest, sealed: ReplayCapsule,
                          admitted: ReplayCapsule, requirement: Requirement, receipt: Receipt)
    requires InjectiveDigest(capsuleDigest)
    requires Accepts(digester, capsuleDigest, sealed, admitted, requirement, receipt)
    ensures Sound(digester, sealed, admitted, requirement, receipt)
  {
    hide SameOutside, OwnsExactly, AddsNoHost, HostRequirement, Strip, Expected, LossExplained, TrialAgrees,
      ValidCapsule, ValidRequirement, RemovedLabels, ValidTestedConstraint, Gives, TakesAway;
    StrippedAreSame(sealed, admitted);
    OwnedAreExpected(digester, admitted, requirement, receipt);
    HostsAreOld(digester, sealed, admitted, requirement, receipt);
    var expected := Expected(digester, requirement, receipt).value;
    LossesAreTold(sealed, admitted, expected, receipt.trials);
    DecisionsAreTold(admitted, expected, receipt.trials);
  }
}
