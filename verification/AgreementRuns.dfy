/** For each run that binds: exactly when the checker accepts what the reducer produced. */
module AgreementRuns {
  import opened Prelude
  import opened ProcessorNames
  import opened Capsule
  import opened ProcessorRequirement
  import opened ProcessorReducer
  import opened ReducerRuns
  import opened ProcessorBinding
  import opened Agreement
  import opened CapabilityNames

  /** A constraint is gone, and yet the checker still reads it out of another name. */
  ghost predicate Splits(original: Requirement, reduced: Requirement) {
    exists c :: Present(c, original) && !Present(c, reduced) && ReadsAsPresent(c, reduced)
  }

  /** A capability is lost, and the name that the checker makes of it was never required. */
  ghost predicate Orphans(original: Requirement, reduced: Requirement) {
    exists c :: Present(c, original) && !Given(c, reduced) && !Present(CanonicalForm(c), original)
  }

  /** A state whose name the checker can never find. */
  predicate Unreadable(c: Constraint) {
    c.OsEnabledState? && !Lacks(c.name, '_')
  }

  ghost predicate RetainsUnreadable(attempts: seq<Attempt>) {
    exists c :: Unreadable(c) && HasRetained(attempts, c)
  }

  /** What is known of a finished run and its receipt. */
  ghost predicate Finished(digester: Digester, original: Requirement, p: Progress, receipt: Receipt,
                           expected: seq<string>) {
    && ValidRequirement(original) && NamesFit(original.instructionFeatures)
    && Accounted(original, Constraints(original), |Constraints(original)|, p)
    && receipt.trials == TrialsOf(digester, p.attempts)
    && forall c :: c in expected <==>
         CapabilityOf(digester.requirement, p.reduced, c) || c == ReductionCapability(digester, receipt)
  }

  lemma FinishedLists(digester: Digester, original: Requirement, p: Progress, receipt: Receipt, expected: seq<string>)
    requires Finished(digester, original, p, receipt, expected)
    ensures ListsReduced(digester, p.reduced, expected)
  {
    ReductionCapabilityIsForeign(digester, p.reduced, receipt);
  }

  // The trials.

  lemma TestedIsPresent(original: Requirement, p: Progress, i: nat)
    requires ValidRequirement(original) && Accounted(original, Constraints(original), |Constraints(original)|, p)
    requires i < |p.attempts|
    ensures Present(p.attempts[i].constraint, original)
    ensures p.attempts[i].decision.Retained? <==> Present(p.attempts[i].constraint, p.reduced)
  {
    ConstraintsAreCanonical(original);
    assert p.attempts[i].constraint in Constraints(original);
  }

  /** A trial agrees exactly when the checker reads its constraint as the run left it. */
  lemma TrialReads(digester: Digester, original: Requirement, p: Progress, receipt: Receipt, expected: seq<string>,
                   i: nat)
    requires Finished(digester, original, p, receipt, expected) && i < |receipt.trials|
    ensures
      var c := p.attempts[i].constraint;
      TrialAgrees(receipt.trials[i], expected) <==> (Present(c, p.reduced) <==> ReadsAsPresent(c, p.reduced))
  {
    hide CapabilityOf, Given, ReadsAsPresent, Accounted, Present, ConstraintPresent;
    FinishedLists(digester, original, p, receipt, expected);
    FinishedTested(digester, original, p, receipt, expected, i);
    PresentByName(digester, p.reduced, original, expected, p.attempts[i].constraint);
    assert receipt.trials[i] == TrialOf(digester, p.attempts[i], i);
  }

  lemma FinishedTested(digester: Digester, original: Requirement, p: Progress, receipt: Receipt, expected: seq<string>,
                       i: nat)
    requires Finished(digester, original, p, receipt, expected) && i < |p.attempts|
    ensures Present(p.attempts[i].constraint, original)
    ensures p.attempts[i].decision.Retained? <==> Present(p.attempts[i].constraint, p.reduced)
  {
    TestedIsPresent(original, p, i);
  }

  /** What is gone and still read was removed by a trial of its own. */
  lemma SplitWasTried(original: Requirement, p: Progress, c: Constraint) returns (i: nat)
    requires ValidRequirement(original) && Accounted(original, Constraints(original), |Constraints(original)|, p)
    requires Present(c, original) && !Present(c, p.reduced) && ReadsAsPresent(c, p.reduced)
    ensures i < |p.attempts| && p.attempts[i].constraint == c
  {
    i :| i < |p.attempts| && p.attempts[i].decision.Removed?
         && (p.attempts[i].constraint == c || Derives(p.attempts[i].constraint, c));
    if p.attempts[i].constraint != c {
      DerivedIsListed(p.attempts[i].constraint, c);
      var d :| Present(d, p.reduced) && SameCapability(c, d);
      assert Present(d, original);
      DerivedHasOneName(d, c);
      assert false;
    }
  }

  lemma PresentReads(c: Constraint, reduced: Requirement)
    requires Present(c, reduced)
    ensures ReadsAsPresent(c, reduced) <==> !Unreadable(c)
  {
    PresentIsGiven(c, reduced);
  }

  /** All trials agree exactly when nothing is split and no unreadable state was retained. */
  lemma TrialsAgreeExactly(digester: Digester, original: Requirement, p: Progress, receipt: Receipt,
                           expected: seq<string>)
    requires Finished(digester, original, p, receipt, expected)
    ensures
      (forall i :: 0 <= i < |receipt.trials| ==> TrialAgrees(receipt.trials[i], expected)) <==>
        !Splits(original, p.reduced) && !RetainsUnreadable(p.attempts)
  {
    if forall i :: 0 <= i < |receipt.trials| ==> TrialAgrees(receipt.trials[i], expected) {
      AgreedTrialsReadWell(digester, original, p, receipt, expected);
    }
    if !Splits(original, p.reduced) && !RetainsUnreadable(p.attempts) {
      forall i | 0 <= i < |receipt.trials|
        ensures TrialAgrees(receipt.trials[i], expected)
      {
        UnsplitTrialAgrees(digester, original, p, receipt, expected, i);
      }
    }
  }

  lemma AgreedTrialsReadWell(digester: Digester, original: Requirement, p: Progress, receipt: Receipt,
                             expected: seq<string>)
    requires Finished(digester, original, p, receipt, expected)
    requires forall i :: 0 <= i < |receipt.trials| ==> TrialAgrees(receipt.trials[i], expected)
    ensures !Splits(original, p.reduced) && !RetainsUnreadable(p.attempts)
  {
    hide ReadsAsPresent, Present, Given, TrialAgrees;
    if Splits(original, p.reduced) {
      var c :| Present(c, original) && !Present(c, p.reduced) && ReadsAsPresent(c, p.reduced);
      var i := SplitWasTried(original, p, c);
      TrialReads(digester, original, p, receipt, expected, i);
    }
    if RetainsUnreadable(p.attempts) {
      var c :| Unreadable(c) && HasRetained(p.attempts, c);
      var i :| 0 <= i < |p.attempts| && p.attempts[i].decision.Retained? && p.attempts[i].constraint == c;
      FinishedTested(digester, original, p, receipt, expected, i);
      TrialReads(digester, original, p, receipt, expected, i);
      assert TrialAgrees(receipt.trials[i], expected);
      PresentReads(c, p.reduced);
    }
  }

  lemma UnsplitTrialAgrees(digester: Digester, original: Requirement, p: Progress, receipt: Receipt,
                           expected: seq<string>, i: nat)
    requires Finished(digester, original, p, receipt, expected) && i < |receipt.trials|
    requires !Splits(original, p.reduced) && !RetainsUnreadable(p.attempts)
    ensures TrialAgrees(receipt.trials[i], expected)
  {
    hide ReadsAsPresent, Present, Given, TrialAgrees, Accounted, CapabilityOf;
    var c := p.attempts[i].constraint;
    FinishedTested(digester, original, p, receipt, expected, i);
    TrialReads(digester, original, p, receipt, expected, i);
    if Present(c, p.reduced) {
      assert HasRetained(p.attempts, c);
      PresentReads(c, p.reduced);
    }
  }

  // The losses.

  /** Only constraints of the requirement are reported, under labels that tell them apart. */
  lemma ReportedIsPresent(digester: Digester, original: Requirement, p: Progress, receipt: Receipt,
                          expected: seq<string>, c: Constraint)
    requires Finished(digester, original, p, receipt, expected) && Label(c) in RemovedLabels(receipt.trials)
    ensures Present(c, original)
  {
    var i :| 0 <= i < |receipt.trials| && receipt.trials[i].decision.Removed?
             && receipt.trials[i].testedConstraint == Label(c);
    assert receipt.trials[i] == TrialOf(digester, p.attempts[i], i);
    FinishedTested(digester, original, p, receipt, expected, i);
    if p.attempts[i].constraint != c {
      LabelsApart(p.attempts[i].constraint, c);
    }
  }

  /** The cascade explains a form only when the form itself was required. */
  lemma CascadedIsPresent(original: Requirement, c: Constraint, removed: set<string>)
    requires ValidRequirement(original) && Present(c, original)
    requires RemovedWithFeature(Label(CanonicalForm(c)), removed)
    ensures CanonicalForm(c) == c
  {
    var d := if Label(CanonicalForm(c)) == "os-enabled-state.xcr0.avx" then OsEnabledState("xcr0.avx")
             else OsEnabledState("xcr0.avx512");
    assert Label(d) == Label(CanonicalForm(c));
    if CanonicalForm(c) != d {
      LabelsApart(CanonicalForm(c), d);
    }
    FormSharesCapability(c);
    DerivedHasOneName(c, d);
  }

  /** One host requirement of the start is explained exactly when it is still given or its form was required. */
  lemma LossExplainedExactly(digester: Digester, original: Requirement, p: Progress, receipt: Receipt,
                             expected: seq<string>, c: Constraint)
    requires Finished(digester, original, p, receipt, expected) && Present(c, original)
    ensures
      LossExplained(HostCapability(c, original), expected, RemovedLabels(receipt.trials)) <==>
        Given(c, p.reduced) || Present(CanonicalForm(c), original)
  {
    hide CapabilityOf, Given, Present, Accounted, RemovedLabels, RemovedWithFeature;
    var capability, form := HostCapability(c, original), CanonicalForm(c);
    FinishedLists(digester, original, p, receipt, expected);
    FinishedNarrows(digester, original, p, receipt, expected);
    ListedWhileGiven(digester, original, p.reduced, c);
    CheckerNamesForm(c, original);
    if !Given(c, p.reduced) {
      if Label(form) in RemovedLabels(receipt.trials) {
        ReportedIsPresent(digester, original, p, receipt, expected, form);
      } else if RemovedWithFeature(Label(form), RemovedLabels(receipt.trials)) {
        CascadedIsPresent(original, c, RemovedLabels(receipt.trials));
      } else if Present(form, original) {
        LostFormIsReported(digester, original, p, receipt, expected, c);
      }
    }
  }

  lemma FinishedNarrows(digester: Digester, original: Requirement, p: Progress, receipt: Receipt, expected: seq<string>)
    requires Finished(digester, original, p, receipt, expected)
    ensures Within(p.reduced, original) && ValidRequirement(original)
  {
  }

  lemma LostFormIsReported(digester: Digester, original: Requirement, p: Progress, receipt: Receipt,
                           expected: seq<string>, c: Constraint)
    requires Finished(digester, original, p, receipt, expected) && Present(c, original) && !Given(c, p.reduced)
    requires Present(CanonicalForm(c), original)
    ensures
      var removed := RemovedLabels(receipt.trials);
      Label(CanonicalForm(c)) in removed || RemovedWithFeature(Label(CanonicalForm(c)), removed)
  {
    var form := CanonicalForm(c);
    if !c.IdentityConstraint? {
      FormSharesCapability(c);
    }
    assert !Present(form, p.reduced);
    RemovalIsReported(digester, p.attempts, form);
  }

  /** All losses are explained exactly when no capability is orphaned. */
  lemma LossesExplainedExactly(digester: Digester, sealed: ReplayCapsule, original: Requirement, p: Progress,
                               receipt: Receipt, expected: seq<string>)
    requires Finished(digester, original, p, receipt, expected) && BoundTo(digester, sealed, original)
    ensures
      (forall k :: k in sealed.requiredCapabilities && HostRequirement(k) ==>
         LossExplained(k, expected, RemovedLabels(receipt.trials))) <==> !Orphans(original, p.reduced)
  {
    hide Given, LossExplained, RemovedLabels, HostCapability, BoundTo, HostRequirement, CanonicalForm;
    if forall k :: k in sealed.requiredCapabilities && HostRequirement(k) ==>
         LossExplained(k, expected, RemovedLabels(receipt.trials))
    {
      forall c | Present(c, original)
        ensures Given(c, p.reduced) || Present(CanonicalForm(c), original)
      {
        HostIsSealed(digester, sealed, original, c);
        LossExplainedExactly(digester, original, p, receipt, expected, c);
      }
    }
    if !Orphans(original, p.reduced) {
      forall k | k in sealed.requiredCapabilities && HostRequirement(k)
        ensures LossExplained(k, expected, RemovedLabels(receipt.trials))
      {
        SealedIsExplained(digester, sealed, original, p, receipt, expected, k);
      }
    }
  }

  lemma HostIsSealed(digester: Digester, sealed: ReplayCapsule, original: Requirement, c: Constraint)
    requires BoundTo(digester, sealed, original) && Present(c, original)
    ensures HostRequirement(HostCapability(c, original)) && HostCapability(c, original) in sealed.requiredCapabilities
  {
    BoundMembers(digester.requirement, sealed.requiredCapabilities, original);
    ListedWhileGiven(digester, original, original, c);
    PresentIsGiven(c, original);
    HostIsOwned(HostCapability(c, original));
  }

  lemma SealedIsExplained(digester: Digester, sealed: ReplayCapsule, original: Requirement, p: Progress,
                          receipt: Receipt, expected: seq<string>, k: string)
    requires Finished(digester, original, p, receipt, expected) && BoundTo(digester, sealed, original)
    requires !Orphans(original, p.reduced) && k in sealed.requiredCapabilities && HostRequirement(k)
    ensures LossExplained(k, expected, RemovedLabels(receipt.trials))
  {
    hide Given, RemovedLabels, CanonicalForm;
    BoundMembers(digester.requirement, sealed.requiredCapabilities, original);
    HostIsOwned(k);
    if k == ArchitectureCapability(original.architecture) {
      assert CapabilityOf(digester.requirement, p.reduced, k);
    } else {
      var c := HostConstraint(digester, original, k);
      LossExplainedExactly(digester, original, p, receipt, expected, c);
    }
  }

  // The whole check.

  /** Nothing is split, nothing is orphaned, and no state that cannot be read was retained. */
  ghost predicate Readable(original: Requirement, p: Progress) {
    !Splits(original, p.reduced) && !Orphans(original, p.reduced) && !RetainsUnreadable(p.attempts)
  }

  lemma RunIsFinished(digester: Digester, sealed: ReplayCapsule, observation: ProcessorObservation,
                      original: Requirement, setting: Setting)
    requires BoundTo(digester, sealed, original) && Reduce(digester, observation, original, setting).Ok?
    requires
      var reduction := Reduce(digester, observation, original, setting).value;
      BindReduction(digester, sealed, reduction.requirement, reduction.receipt).1.Ok?
    ensures
      var reduction := Reduce(digester, observation, original, setting).value;
      var p := Run(setting, original).value;
      && Run(setting, original).Ok? && reduction.requirement == p.reduced
      && Expected(digester, p.reduced, reduction.receipt).Ok?
      && Finished(digester, original, p, reduction.receipt,
                  Expected(digester, p.reduced, reduction.receipt).value)
  {
    var reduction := Reduce(digester, observation, original, setting).value;
    RunInvariant(setting, original);
    CapabilitiesDescribed(digester.requirement, original);
    AdmittedMembers(digester, sealed, reduction.requirement, reduction.receipt);
    ExpectedMembers(digester, reduction.requirement, reduction.receipt);
  }

  /** What acceptance asks beyond the two name-dependent checks always holds for a run that binds. */
  lemma RestHolds(digester: Digester, capsuleDigest: ReplayCapsule -> Digest, sealed: ReplayCapsule,
                  observation: ProcessorObservation, original: Requirement, setting: Setting)
    requires ValidCapsule(sealed) && BoundTo(digester, sealed, original)
    requires Reduce(digester, observation, original, setting).Ok?
    requires
      var reduction := Reduce(digester, observation, original, setting).value;
      BindReduction(digester, sealed, reduction.requirement, reduction.receipt).1.Ok?
    ensures
      var reduction := Reduce(digester, observation, original, setting).value;
      var admitted := BindReduction(digester, sealed, reduction.requirement, reduction.receipt).0;
      var expected := Expected(digester, reduction.requirement, reduction.receipt);
      && expected.Ok?
      && (Accepts(digester, capsuleDigest, sealed, admitted, reduction.requirement, reduction.receipt) <==>
            && (forall k :: k in sealed.requiredCapabilities && HostRequirement(k) ==>
                  LossExplained(k, expected.value, RemovedLabels(reduction.receipt.trials)))
            && forall i :: 0 <= i < |reduction.receipt.trials| ==>
                 TrialAgrees(reduction.receipt.trials[i], expected.value))
  {
    hide LossExplained, TrialAgrees, RemovedLabels, HostRequirement;
    var reduction := Reduce(digester, observation, original, setting).value;
    RunInvariant(setting, original);
    OwnedPartIsExpected(digester, sealed, reduction.requirement, reduction.receipt);
    StripUnchanged(digester, sealed, original, reduction.requirement, reduction.receipt);
    HostsAreSealed(digester, sealed, original, reduction.requirement, reduction.receipt);
  }

  lemma HostsAreSealed(digester: Digester, sealed: ReplayCapsule, original: Requirement, reduced: Requirement,
                       receipt: Receipt)
    requires BoundTo(digester, sealed, original) && Within(reduced, original)
    requires Expected(digester, reduced, receipt).Ok?
    ensures forall k :: k in Expected(digester, reduced, receipt).value && HostRequirement(k) ==>
      k in sealed.requiredCapabilities
  {
    BoundMembers(digester.requirement, sealed.requiredCapabilities, original);
    ExpectedMembers(digester, reduced, receipt);
    ReductionCapabilityIsForeign(digester, reduced, receipt);
    forall k | k in Expected(digester, reduced, receipt).value && HostRequirement(k)
      ensures k in sealed.requiredCapabilities
    {
      HostIsOwned(k);
      HostRequirementsNarrow(digester, original, reduced, k);
    }
  }

  /** A run that binds is accepted if and only if it is readable. */
  lemma RunAgreesExactly(digester: Digester, capsuleDigest: ReplayCapsule -> Digest, sealed: ReplayCapsule,
                         observation: ProcessorObservation, original: Requirement, setting: Setting)
    requires ValidCapsule(sealed) && BoundTo(digester, sealed, original)
    requires Reduce(digester, observation, original, setting).Ok?
    requires
      var reduction := Reduce(digester, observation, original, setting).value;
      BindReduction(digester, sealed, reduction.requirement, reduction.receipt).1.Ok?
    ensures Run(setting, original).Ok?
    ensures
      var reduction := Reduce(digester, observation, original, setting).value;
      var admitted := BindReduction(digester, sealed, reduction.requirement, reduction.receipt).0;
      Accepts(digester, capsuleDigest, sealed, admitted, reduction.requirement, reduction.receipt) <==>
        Readable(original, Run(setting, original).value)
  {
    hide Accepts, BindReduction, Reduce, Run, ValidCapsule, BoundTo, Finished, Expected, Splits, Orphans,
      RetainsUnreadable, TrialAgrees, LossExplained, RemovedLabels, HostRequirement;
    RunIsFinished(digester, sealed, observation, original, setting);
    RestHolds(digester, capsuleDigest, sealed, observation, original, setting);
    var p := Run(setting, original).value;
    var receipt := Reduce(digester, observation, original, setting).value.receipt;
    var expected := Expected(digester, p.reduced, receipt).value;
    LossesExplainedExactly(digester, sealed, original, p, receipt, expected);
    TrialsAgreeExactly(digester, original, p, receipt, expected);
  }

  // Unambiguous names.

  lemma UnambiguousForm(original: Requirement, c: Constraint)
    requires ValidRequirement(original) && Unambiguous(original) && Present(c, original)
    ensures CanonicalForm(c) == c
  {
    match c {
      case InstructionFeature(f) => FeatureInversion(f);
      case OsEnabledState(s) => StateSuffix(s);
      case IdentityConstraint =>
    }
  }

  /** Unambiguous names can neither split nor be orphaned. */
  lemma UnambiguousIsWhole(original: Requirement, reduced: Requirement)
    requires ValidRequirement(original) && Unambiguous(original) && Within(reduced, original)
    ensures !Splits(original, reduced) && !Orphans(original, reduced)
  {
    hide ReadsAsPresent, Within;
    forall c | Present(c, original)
      ensures Present(CanonicalForm(c), original) && (ReadsAsPresent(c, reduced) ==> Present(c, reduced))
    {
      UnambiguousForm(original, c);
      if ReadsAsPresent(c, reduced) {
        ReadIsPresent(original, reduced, c);
      }
    }
  }

  lemma ReadIsPresent(original: Requirement, reduced: Requirement, c: Constraint)
    requires ValidRequirement(original) && Unambiguous(original) && Within(reduced, original)
    requires Present(c, original) && ReadsAsPresent(c, reduced)
    ensures Present(c, reduced)
  {
    if !c.IdentityConstraint? {
      var d :| Present(d, reduced) && SameCapability(c, d);
      UnambiguousForm(original, c);
      UnambiguousForm(original, d);
    }
  }

  /**
   * For every executor and policy: when the sealed capsule was bound to the
   * starting requirement and its names are unambiguous, whatever the reducer
   * and the binder produce together, the checker accepts.
   */
  lemma ProducerCheckerAgree(digester: Digester, capsuleDigest: ReplayCapsule -> Digest, sealed: ReplayCapsule,
                             observation: ProcessorObservation, original: Requirement, setting: Setting)
    requires ValidCapsule(sealed) && BoundTo(digester, sealed, original) && Unambiguous(original)
    requires Reduce(digester, observation, original, setting).Ok?
    requires
      var reduction := Reduce(digester, observation, original, setting).value;
      BindReduction(digester, sealed, reduction.requirement, reduction.receipt).1.Ok?
    ensures
      var reduction := Reduce(digester, observation, original, setting).value;
      var admitted := BindReduction(digester, sealed, reduction.requirement, reduction.receipt).0;
      Accepts(digester, capsuleDigest, sealed, admitted, reduction.requirement, reduction.receipt)
  {
    hide Accepts, BindReduction, Reduce, Run, ValidCapsule, BoundTo, Splits, Orphans, Expected;
    RunAgreesExactly(digester, capsuleDigest, sealed, observation, original, setting);
    RunIsFinished(digester, sealed, observation, original, setting);
    var p := Run(setting, original).value;
    UnambiguousIsWhole(original, p.reduced);
    forall c | HasRetained(p.attempts, c)
      ensures !Unreadable(c)
    {
      RetainedIsReadable(original, p, c);
    }
  }

  lemma RetainedIsReadable(original: Requirement, p: Progress, c: Constraint)
    requires ValidRequirement(original) && Accounted(original, Constraints(original), |Constraints(original)|, p)
    requires Unambiguous(original) && HasRetained(p.attempts, c)
    ensures !Unreadable(c)
  {
    var i :| 0 <= i < |p.attempts| && p.attempts[i].decision.Retained? && p.attempts[i].constraint == c;
    TestedIsPresent(original, p, i);
  }

  predicate BoundAndUnambiguous(digester: Digester, sealed: ReplayCapsule, requirement: Requirement) {
    ValidCapsule(sealed) && BoundTo(digester, sealed, requirement) && Unambiguous(requirement)
  }

  /**
   * `reduce_and_admit` up to admission: reduce, bind in place, and check the
   * binding against the capsule as it was. With unambiguous names and a bound
   * capsule the final check never refuses what the first two steps produced.
   */
  method ReduceAndBind(digester: Digester, capsuleDigest: ReplayCapsule -> Digest, input: AdmissionInput,
                       observation: ProcessorObservation, requirement: Requirement, policy: Policy, executor: Executor)
    returns (r: Result<Reduction>)
    modifies input
    ensures
      var reduced := Reduce(digester, observation, requirement, Setting(policy, executor));
      if reduced.Err? then r == reduced && input.capsule == old(input.capsule)
      else
        var bound := BindReduction(digester, old(input.capsule), reduced.value.requirement, reduced.value.receipt);
        && input.capsule == bound.0
        && (bound.1.Err? ==> r == Err(bound.1.error))
        && (bound.1.Ok? ==>
              (r == reduced <==> Accepts(digester, capsuleDigest, old(input.capsule), bound.0,
                                         reduced.value.requirement, reduced.value.receipt))
              && (r == reduced || r == Err(SchemaInvalid)))
        && (bound.1.Ok? && BoundAndUnambiguous(digester, old(input.capsule), requirement) ==> r == reduced)
  {
    var sealed := input.capsule;
    var reduction := ReduceProcessorRequirements(digester, observation, requirement, policy, executor);
    if reduction.Err? {
      return reduction;
    }
    var bound := input.BindProcessorReduction(digester, reduction.value.requirement, reduction.value.receipt);
    if bound.Err? {
      return Err(bound.error);
    }
    var accepted := ValidateBinding(digester, capsuleDigest, sealed, input.capsule,
                                    reduction.value.requirement, reduction.value.receipt);
    if BoundAndUnambiguous(digester, sealed, requirement) {
      ProducerCheckerAgree(digester, capsuleDigest, sealed, observation, requirement, Setting(policy, executor));
    }
    return if accepted then reduction else Err(SchemaInvalid);
  }
}
