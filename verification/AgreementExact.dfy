/** The exact condition under which the reducer and the checker always agree. */
module AgreementExact {
  import opened Prelude
  import opened Ordering
  import opened Capsule
  import opened ProcessorRequirement
  import opened ProcessorReducer
  import opened ReducerRuns
  import opened Sweeps
  import opened ProcessorBinding
  import opened Agreement
  import opened AgreementRuns
  import opened AgreementRoom

  /** Whatever the executor and policy, a reduction that binds is accepted. */
  ghost predicate AlwaysAgree(digester: Digester, capsuleDigest: ReplayCapsule -> Digest, sealed: ReplayCapsule,
                              observation: ProcessorObservation, original: Requirement)
  {
    forall setting ::
      Reduce(digester, observation, original, setting).Ok? ==>
        var reduction := Reduce(digester, observation, original, setting).value;
        var bound := BindReduction(digester, sealed, reduction.requirement, reduction.receipt);
        bound.1.Ok? ==> Accepts(digester, capsuleDigest, sealed, bound.0, reduction.requirement, reduction.receipt)
  }

  // A requirement without a group of its constraints.

  /** A state whose feature is in the group. */
  predicate DerivedFromGroup(group: set<Constraint>, state: string) {
    exists i :: 0 <= i < |OS_STATE_REQUIRED_FEATURE| && OS_STATE_REQUIRED_FEATURE[i].0 == state
                && InstructionFeature(OS_STATE_REQUIRED_FEATURE[i].1) in group
  }

  function Without(group: set<Constraint>, original: Requirement): Requirement {
    original.(
      identity := if IdentityConstraint in group then None else original.identity,
      instructionFeatures := Filter(original.instructionFeatures, f => InstructionFeature(f) !in group),
      osEnabledStates :=
        Filter(original.osEnabledStates, s => OsEnabledState(s) !in group && !DerivedFromGroup(group, s)))
  }

  lemma GoneWithout(group: set<Constraint>, original: Requirement, c: Constraint)
    ensures Present(c, Without(group, original)) <==> Present(c, original) && !Gone(group, c)
  {
    match c {
      case InstructionFeature(name) =>
        FilterMembers(original.instructionFeatures, f => InstructionFeature(f) !in group);
      case OsEnabledState(name) =>
        FilterMembers(original.osEnabledStates, s => OsEnabledState(s) !in group && !DerivedFromGroup(group, s));
        DerivedIsGone(group, name);
      case IdentityConstraint =>
    }
  }

  lemma DerivedIsGone(group: set<Constraint>, name: string)
    ensures Gone(group, OsEnabledState(name)) <==> OsEnabledState(name) in group || DerivedFromGroup(group, name)
  {
    if DerivedFromGroup(group, name) {
      var i :| 0 <= i < |OS_STATE_REQUIRED_FEATURE| && OS_STATE_REQUIRED_FEATURE[i].0 == name
               && InstructionFeature(OS_STATE_REQUIRED_FEATURE[i].1) in group;
      assert OS_STATE_REQUIRED_FEATURE[i] == (name, OS_STATE_REQUIRED_FEATURE[i].1);
      assert Derives(InstructionFeature(OS_STATE_REQUIRED_FEATURE[i].1), OsEnabledState(name));
    }
    if Gone(group, OsEnabledState(name)) && OsEnabledState(name) !in group {
      var a :| a in group && (a == OsEnabledState(name) || Derives(a, OsEnabledState(name)));
      var i :| 0 <= i < |OS_STATE_REQUIRED_FEATURE| && OS_STATE_REQUIRED_FEATURE[i] == (name, a.name);
    }
  }

  lemma WithoutLeaves(group: set<Constraint>, original: Requirement)
    requires ValidRequirement(original)
    ensures Leaves(group, original, Without(group, original))
  {
    var keepFeature := f => InstructionFeature(f) !in group;
    var keepState := s => OsEnabledState(s) !in group && !DerivedFromGroup(group, s);
    FilterMembers(original.instructionFeatures, keepFeature);
    FilterMembers(original.osEnabledStates, keepState);
    FilterStrict(original.instructionFeatures, keepFeature);
    FilterStrict(original.osEnabledStates, keepState);
    forall c
      ensures Present(c, Without(group, original)) <==> Present(c, original) && !Gone(group, c)
    {
      GoneWithout(group, original, c);
    }
  }

  /** What is left is fixed by what is gone. */
  lemma LeavesOne(group: set<Constraint>, original: Requirement, a: Requirement, b: Requirement)
    requires Leaves(group, original, a) && Leaves(group, original, b)
    ensures a == b
  {
    hide Gone;
    forall f
      ensures f in a.instructionFeatures <==> f in b.instructionFeatures
    {
      assert Present(InstructionFeature(f), a) <==> Present(InstructionFeature(f), b);
    }
    forall s
      ensures s in a.osEnabledStates <==> s in b.osEnabledStates
    {
      assert Present(OsEnabledState(s), a) <==> Present(OsEnabledState(s), b);
    }
    assert Present(IdentityConstraint, a) <==> Present(IdentityConstraint, b);
    StrictOrderIsUnique(a.instructionFeatures, b.instructionFeatures);
    StrictOrderIsUnique(a.osEnabledStates, b.osEnabledStates);
  }

  // The condition.

  /**
   * At most sixteen constraints, with every feature that needs one of them,
   * whose removal splits or orphans a capability, or leaves a trial for a
   * state that cannot be read.
   */
  ghost predicate Divisive(group: set<Constraint>, original: Requirement) {
    var left := Without(group, original);
    && ClosedGroup(group, original) && |group| <= 16
    && (Splits(original, left) || Orphans(original, left)
        || (|group| <= 15 && exists c :: Unreadable(c) && Present(c, left)))
  }

  /** Removing some divisive group leaves a list with a place for the reduction. */
  ghost predicate Refusable(sealed: ReplayCapsule, original: Requirement) {
    exists group ::
      Divisive(group, original)
      && (|sealed.requiredCapabilities| < 64 || FreesPlace(original, Without(group, original)))
  }

  // From a group to a refused run.

  lemma PositionOf(c: Constraint, original: Requirement) returns (at: nat)
    requires ValidRequirement(original) && Present(c, original)
    ensures at < |Constraints(original)| && Constraints(original)[at] == c
  {
    ConstraintsAreCanonical(original);
    at :| at < |Constraints(original)| && Constraints(original)[at] == c;
  }

  /** A sweep of the group that cannot be read out of the capabilities it leaves. */
  lemma DivisiveSweep(group: set<Constraint>, original: Requirement) returns (setting: Setting)
    requires ValidRequirement(original) && Divisive(group, original)
    ensures ValidPolicy(setting.policy) && Run(setting, original).Ok?
    ensures Run(setting, original).value.reduced == Without(group, original)
    ensures !Readable(original, Run(setting, original).value)
  {
    hide Splits, Orphans, Without, ClosedGroup, Run, ValidRequirement, Leaves;
    var left := Without(group, original);
    var kept: Option<nat> := None;
    WithoutLeaves(group, original);
    if !Splits(original, left) && !Orphans(original, left) {
      var c :| Unreadable(c) && Present(c, left);
      GoneWithout(group, original, c);
      var at := PositionOf(c, original);
      kept := Some(at);
    }
    setting := Sweep(group, kept);
    SweepRuns(group, kept, original);
    var p := Run(setting, original).value;
    LeavesOne(group, original, p.reduced, left);
    if kept.Some? {
      assert Unreadable(Constraints(original)[kept.value])
        && HasRetained(p.attempts, Constraints(original)[kept.value]);
    }
  }

  lemma RefusableIsRefused(digester: Digester, capsuleDigest: ReplayCapsule -> Digest, sealed: ReplayCapsule,
                           observation: ProcessorObservation, original: Requirement)
    requires ValidCapsule(sealed) && BoundTo(digester, sealed, original)
    requires ValidObservation(observation)
    requires observation.architecture == original.architecture && observation.abi == original.abi
    requires Refusable(sealed, original)
    ensures !AlwaysAgree(digester, capsuleDigest, sealed, observation, original)
  {
    hide ValidCapsule, BoundTo, Divisive, FreesPlace, Without, Run, BindReduction, Accepts, Reduce, ValidReceipt,
      Within, ValidObservation, Readable;
    BoundIsValid(digester, sealed, original);
    var group :| Divisive(group, original)
                 && (|sealed.requiredCapabilities| < 64 || FreesPlace(original, Without(group, original)));
    var setting := DivisiveSweep(group, original);
    var p := Run(setting, original).value;
    ReducesExactly(digester, observation, original, setting);
    ReceiptIsValid(digester, observation, original, setting);
    RunIsWithin(original, setting);
    BindsExactly(digester, sealed, original, p.reduced, ReceiptOf(digester, observation, p));
    RunAgreesExactly(digester, capsuleDigest, sealed, observation, original, setting);
  }

  lemma BoundIsValid(digester: Digester, sealed: ReplayCapsule, original: Requirement)
    requires BoundTo(digester, sealed, original)
    ensures ValidRequirement(original)
    ensures NamesFit(original.instructionFeatures) && NamesFit(original.osEnabledStates)
  {
    CapabilitiesDescribed(digester.requirement, original);
  }

  lemma RunIsWithin(original: Requirement, setting: Setting)
    requires ValidRequirement(original) && ValidPolicy(setting.policy) && Run(setting, original).Ok?
    ensures Within(Run(setting, original).value.reduced, original)
  {
    RunInvariant(setting, original);
  }

  // From a refused run to a group.

  /** The constraints that the trials removed. */
  function RemovedGroup(attempts: seq<Attempt>): set<Constraint> {
    if attempts == [] then {}
    else
      var last := attempts[|attempts| - 1];
      RemovedGroup(attempts[..|attempts| - 1]) + if last.decision.Removed? then {last.constraint} else {}
  }

  lemma {:induction false} RemovedMembers(attempts: seq<Attempt>, c: Constraint)
    ensures c in RemovedGroup(attempts) <==>
      exists i :: 0 <= i < |attempts| && attempts[i].decision.Removed? && attempts[i].constraint == c
  {
    if attempts != [] {
      var init := attempts[..|attempts| - 1];
      RemovedMembers(init, c);
      if c in RemovedGroup(init) {
        var i :| 0 <= i < |init| && init[i].decision.Removed? && init[i].constraint == c;
        assert attempts[i] == init[i];
      }
      if exists i :: 0 <= i < |init| && attempts[i].decision.Removed? && attempts[i].constraint == c {
        var i :| 0 <= i < |init| && attempts[i].decision.Removed? && attempts[i].constraint == c;
        assert init[i] == attempts[i];
      }
    }
  }

  lemma RetainedBefore(attempts: seq<Attempt>, c: Constraint)
    requires attempts != [] && HasRetained(attempts, c)
    ensures
      attempts[|attempts| - 1].decision.Retained? || HasRetained(attempts[..|attempts| - 1], c)
  {
    var n := |attempts| - 1;
    var i :| 0 <= i < |attempts| && attempts[i].decision.Retained? && attempts[i].constraint == c;
    if i < n {
      assert attempts[..n][i] == attempts[i];
    }
  }

  /** A retained trial is one removal fewer. */
  lemma {:induction false} RemovedSize(attempts: seq<Attempt>, c: Constraint)
    ensures |RemovedGroup(attempts)| <= |attempts|
    ensures HasRetained(attempts, c) ==> |RemovedGroup(attempts)| < |attempts|
  {
    if attempts != [] {
      var init := attempts[..|attempts| - 1];
      RemovedSize(init, c);
      if HasRetained(attempts, c) {
        RetainedBefore(attempts, c);
      }
    }
  }

  /** What a run leaves is its start without the constraints that it removed. */
  lemma RunLeaves(original: Requirement, p: Progress)
    requires ValidRequirement(original) && Accounted(original, Constraints(original), |Constraints(original)|, p)
    requires PrerequisitesKept(original, p.reduced)
    ensures Leaves(RemovedGroup(p.attempts), original, p.reduced)
  {
    forall c
      ensures Present(c, p.reduced) <==> Present(c, original) && !Gone(RemovedGroup(p.attempts), c)
    {
      if Present(c, original) && !Present(c, p.reduced) {
        LostIsGone(original, p, c);
      }
      if Present(c, p.reduced) && Gone(RemovedGroup(p.attempts), c) {
        KeptIsNotGone(original, p, c);
      }
    }
  }

  lemma LostIsGone(original: Requirement, p: Progress, c: Constraint)
    requires RemovalExplained(p.attempts, c)
    ensures Gone(RemovedGroup(p.attempts), c)
  {
    var i :| 0 <= i < |p.attempts| && p.attempts[i].decision.Removed?
             && (p.attempts[i].constraint == c || Derives(p.attempts[i].constraint, c));
    RemovedMembers(p.attempts, p.attempts[i].constraint);
  }

  /** What a removed trial tested is not left, and neither is a state derived from it. */
  lemma KeptIsNotGone(original: Requirement, p: Progress, c: Constraint)
    requires ValidRequirement(original) && Accounted(original, Constraints(original), |Constraints(original)|, p)
    requires PrerequisitesKept(original, p.reduced) && Present(c, p.reduced)
    ensures !Gone(RemovedGroup(p.attempts), c)
  {
    forall a | a in RemovedGroup(p.attempts)
      ensures a != c && !Derives(a, c)
    {
      RemovedIsLost(original, p, a);
    }
  }

  lemma RemovedIsLost(original: Requirement, p: Progress, a: Constraint)
    requires ValidRequirement(original) && Accounted(original, Constraints(original), |Constraints(original)|, p)
    requires a in RemovedGroup(p.attempts)
    ensures Present(a, original) && !Present(a, p.reduced)
  {
    RemovedMembers(p.attempts, a);
    var i :| 0 <= i < |p.attempts| && p.attempts[i].decision.Removed? && p.attempts[i].constraint == a;
    TestedIsPresent(original, p, i);
  }

  lemma RunGroupIsClosed(original: Requirement, p: Progress)
    requires ValidRequirement(original) && Accounted(original, Constraints(original), |Constraints(original)|, p)
    requires PrerequisitesKept(original, p.reduced)
    ensures ClosedGroup(RemovedGroup(p.attempts), original)
  {
    var group := RemovedGroup(p.attempts);
    forall c | c in group
      ensures Present(c, original) && !Present(c, p.reduced)
    {
      RemovedIsLost(original, p, c);
    }
    forall c, g | c in group && g in original.instructionFeatures && Needs(g, c)
      ensures InstructionFeature(g) in group
    {
      NeedyWasRemoved(original, p, c, g);
    }
  }

  lemma NeedyWasRemoved(original: Requirement, p: Progress, c: Constraint, g: string)
    requires Accounted(original, Constraints(original), |Constraints(original)|, p)
    requires PrerequisitesKept(original, p.reduced) && Present(c, original) && !Present(c, p.reduced)
    requires g in original.instructionFeatures && Needs(g, c)
    ensures InstructionFeature(g) in RemovedGroup(p.attempts)
  {
    assert !Present(InstructionFeature(g), p.reduced);
    assert Present(InstructionFeature(g), original);
    var i :| 0 <= i < |p.attempts| && p.attempts[i].decision.Removed?
             && (p.attempts[i].constraint == InstructionFeature(g)
                 || Derives(p.attempts[i].constraint, InstructionFeature(g)));
    RemovedMembers(p.attempts, InstructionFeature(g));
  }

  /** A run that is not readable removed a divisive group. */
  lemma UnreadableIsDivisive(original: Requirement, setting: Setting)
    requires ValidRequirement(original) && ValidPolicy(setting.policy) && Run(setting, original).Ok?
    requires !Readable(original, Run(setting, original).value)
    ensures
      var p := Run(setting, original).value;
      && p.reduced == Without(RemovedGroup(p.attempts), original)
      && Divisive(RemovedGroup(p.attempts), original)
  {
    hide Splits, Orphans, ClosedGroup, Leaves, Without, PrerequisitesKept;
    var p := Run(setting, original).value;
    var group := RemovedGroup(p.attempts);
    RunInvariant(setting, original);
    RunLeaves(original, p);
    WithoutLeaves(group, original);
    LeavesOne(group, original, p.reduced, Without(group, original));
    RunGroupIsClosed(original, p);
    RemovedSize(p.attempts, IdentityConstraint);
    if RetainsUnreadable(p.attempts) {
      RetainedLeavesRoom(original, p);
    }
  }

  lemma RetainedLeavesRoom(original: Requirement, p: Progress)
    requires ValidRequirement(original) && Accounted(original, Constraints(original), |Constraints(original)|, p)
    requires RetainsUnreadable(p.attempts) && |p.attempts| <= 16
    ensures |RemovedGroup(p.attempts)| <= 15 && exists c :: Unreadable(c) && Present(c, p.reduced)
  {
    var c :| Unreadable(c) && HasRetained(p.attempts, c);
    RemovedSize(p.attempts, c);
    var i :| 0 <= i < |p.attempts| && p.attempts[i].decision.Retained? && p.attempts[i].constraint == c;
    TestedIsPresent(original, p, i);
  }

  lemma RefusedIsRefusable(digester: Digester, capsuleDigest: ReplayCapsule -> Digest, sealed: ReplayCapsule,
                           observation: ProcessorObservation, original: Requirement, setting: Setting)
    requires ValidCapsule(sealed) && BoundTo(digester, sealed, original)
    requires Reduce(digester, observation, original, setting).Ok?
    requires
      var reduction := Reduce(digester, observation, original, setting).value;
      var bound := BindReduction(digester, sealed, reduction.requirement, reduction.receipt);
      && bound.1.Ok?
      && !Accepts(digester, capsuleDigest, sealed, bound.0, reduction.requirement, reduction.receipt)
    ensures Refusable(sealed, original)
  {
    BoundIsValid(digester, sealed, original);
    ReductionIsOfRun(digester, observation, original, setting);
    hide ValidCapsule, BoundTo, Divisive, FreesPlace, Without, Run, BindReduction, Accepts, Reduce, ValidReceipt,
      Within, ValidObservation, Readable, ValidRequirement, RemovedGroup, ValidPolicy;
    var reduction := Reduce(digester, observation, original, setting).value;
    var p := Run(setting, original).value;
    RunAgreesExactly(digester, capsuleDigest, sealed, observation, original, setting);
    RunIsWithin(original, setting);
    BindsExactly(digester, sealed, original, p.reduced, reduction.receipt);
    UnreadableIsDivisive(original, setting);
    assert Divisive(RemovedGroup(p.attempts), original);
  }

  lemma ReductionIsOfRun(digester: Digester, observation: ProcessorObservation, original: Requirement, setting: Setting)
    requires Reduce(digester, observation, original, setting).Ok?
    ensures ValidPolicy(setting.policy) && Run(setting, original).Ok?
    ensures
      var reduction := Reduce(digester, observation, original, setting).value;
      && reduction.requirement == Run(setting, original).value.reduced && ValidReceipt(reduction.receipt)
      && reduction.receipt.finalRequirementDigest == digester.requirement(reduction.requirement)
  {
  }

  /**
   * The exact condition. For every capsule bound to a requirement, every run
   * that binds is accepted if and only if no divisive group can be removed
   * with a place left in the list.
   */
  lemma AgreementIsExact(digester: Digester, capsuleDigest: ReplayCapsule -> Digest, sealed: ReplayCapsule,
                         observation: ProcessorObservation, original: Requirement)
    requires ValidCapsule(sealed) && BoundTo(digester, sealed, original)
    requires ValidObservation(observation)
    requires observation.architecture == original.architecture && observation.abi == original.abi
    ensures AlwaysAgree(digester, capsuleDigest, sealed, observation, original) <==> !Refusable(sealed, original)
  {
    hide Refusable, Reduce, Accepts, BindReduction, ValidCapsule, BoundTo;
    if Refusable(sealed, original) {
      RefusableIsRefused(digester, capsuleDigest, sealed, observation, original);
    } else {
      forall setting | Reduce(digester, observation, original, setting).Ok?
        ensures
          var reduction := Reduce(digester, observation, original, setting).value;
          var bound := BindReduction(digester, sealed, reduction.requirement, reduction.receipt);
          bound.1.Ok? ==> Accepts(digester, capsuleDigest, sealed, bound.0, reduction.requirement, reduction.receipt)
      {
        var reduction := Reduce(digester, observation, original, setting).value;
        var bound := BindReduction(digester, sealed, reduction.requirement, reduction.receipt);
        if bound.1.Ok?
          && !Accepts(digester, capsuleDigest, sealed, bound.0, reduction.requirement, reduction.receipt)
        {
          RefusedIsRefusable(digester, capsuleDigest, sealed, observation, original, setting);
        }
      }
    }
  }
}
