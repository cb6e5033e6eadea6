/** When a narrowed requirement reduces and binds: the receipt always validates, and the list needs one place. */
module AgreementRoom {
  import opened Prelude
  import opened Ordering
  import opened ProcessorNames
  import opened Capsule
  import opened ProcessorRequirement
  import opened ProcessorReducer
  import opened ReducerRuns
  import opened ProcessorBinding
  import opened Agreement
  import opened CapabilityNames
  import opened AgreementRuns

  // The receipt.

  lemma LabelIsValid(c: Constraint, original: Requirement)
    requires ValidRequirement(original) && Present(c, original)
    requires NamesFit(original.instructionFeatures) && NamesFit(original.osEnabledStates)
    ensures ValidTestedConstraint(Label(c))
  {
    match c {
      case InstructionFeature(f) =>
        assert ValidFeature(f) && |f| <= 96;
        var text := Label(c);
        assert forall i :: |FEATURE_LABEL| <= i < |text| ==> text[i] == f[i - |FEATURE_LABEL|];
      case OsEnabledState(s) =>
        var text := Label(c);
        assert text[|STATE_LABEL|..] == s;
        assert text[0] == 'o' && FEATURE_LABEL[0] == 'i';
      case IdentityConstraint =>
    }
  }

  lemma LabelsDiffer(original: Requirement, p: Progress, i: nat, j: nat)
    requires ValidRequirement(original) && Accounted(original, Constraints(original), |Constraints(original)|, p)
    requires i < j < |p.attempts|
    ensures Label(p.attempts[i].constraint) != Label(p.attempts[j].constraint)
  {
    ConstraintsAreCanonical(original);
    LabelsApart(p.attempts[i].constraint, p.attempts[j].constraint);
  }

  /** Whatever the executor does, the receipt of a run passes its own validation when the names fit. */
  lemma ReceiptIsValid(digester: Digester, observation: ProcessorObservation, original: Requirement, setting: Setting)
    requires ValidPolicy(setting.policy) && ValidRequirement(original) && Run(setting, original).Ok?
    requires NamesFit(original.instructionFeatures) && NamesFit(original.osEnabledStates)
    ensures ValidReceipt(ReceiptOf(digester, observation, Run(setting, original).value))
  {
    var p := Run(setting, original).value;
    var trials := TrialsOf(digester, p.attempts);
    RunInvariant(setting, original);
    hide Accounted, Settled, Closed, Present, ValidRequirement, ValidTestedConstraint, NamesFit, Label, Run;
    forall i | 0 <= i < |trials|
      ensures ValidTrial(trials[i], i)
    {
      TestedIsPresent(original, p, i);
      LabelIsValid(p.attempts[i].constraint, original);
      assert trials[i] == TrialOf(digester, p.attempts[i], i);
    }
    forall i, j | 0 <= i < j < |trials|
      ensures trials[i].testedConstraint != trials[j].testedConstraint
    {
      LabelsDiffer(original, p, i, j);
    }
  }

  /** So the reducer succeeds exactly when its loop does. */
  lemma ReducesExactly(digester: Digester, observation: ProcessorObservation, original: Requirement, setting: Setting)
    requires ValidObservation(observation) && ValidRequirement(original) && ValidPolicy(setting.policy)
    requires observation.architecture == original.architecture && observation.abi == original.abi
    requires NamesFit(original.instructionFeatures) && NamesFit(original.osEnabledStates)
    ensures Reduce(digester, observation, original, setting).Ok? <==> Run(setting, original).Ok?
    ensures
      Run(setting, original).Ok? ==>
        var p := Run(setting, original).value;
        Reduce(digester, observation, original, setting)
          == Ok(Reduction(ReceiptOf(digester, observation, p), p.reduced))
  {
    if Run(setting, original).Ok? {
      ReceiptIsValid(digester, observation, original, setting);
    }
  }

  // The list.

  lemma NarrowedFits(reduced: Requirement, original: Requirement)
    requires Within(reduced, original)
    requires NamesFit(original.instructionFeatures) && NamesFit(original.osEnabledStates)
    ensures NamesFit(reduced.instructionFeatures) && NamesFit(reduced.osEnabledStates)
  {
    forall f | f in reduced.instructionFeatures
      ensures |f| <= 96
    {
      assert Present(InstructionFeature(f), reduced);
      assert f in original.instructionFeatures;
    }
    forall s | s in reduced.osEnabledStates
      ensures |s| <= 96
    {
      assert Present(OsEnabledState(s), reduced);
      assert s in original.osEnabledStates;
    }
  }

  /** Apart from the requirement binding, a narrowed requirement lists nothing new. */
  lemma NarrowedListIsSealed(digester: Digester, reduced: Requirement, original: Requirement, c: string)
    requires Within(reduced, original) && CapabilityOf(digester.requirement, reduced, c)
    ensures CapabilityOf(digester.requirement, original, c) || c == RequirementBinding(digester.requirement(reduced))
  {
    if c != RequirementBinding(digester.requirement(reduced)) {
      assert HostRequirement(c) by {
        assert ARCHITECTURE_PREFIX <= ArchitectureCapability(reduced.architecture);
      }
      HostRequirementsNarrow(digester, original, reduced, c);
    }
  }

  /** Host requirements that a bound list carries and the narrowed requirement does not. */
  ghost predicate Lost(digester: Digester, existing: seq<string>, reduced: Requirement, lost: set<string>) {
    forall c :: c in lost ==> c in existing && HostRequirement(c) && !CapabilityOf(digester.requirement, reduced, c)
  }

  /** What a rebound list can contain: nothing new but the requirement binding, and nothing that was lost. */
  lemma NarrowedMembers(digester: Digester, existing: seq<string>, reduced: Requirement, original: Requirement,
                        bound: seq<string>, lost: set<string>, c: string)
    requires ProcessorCapabilities(digester.requirement, existing, original) == Ok(existing)
      && Within(reduced, original)
    requires Lost(digester, existing, reduced, lost)
    requires forall x :: x in bound <==>
      if Owned(x) then CapabilityOf(digester.requirement, reduced, x) else x in existing
    requires c in bound
    ensures
      var before := RequirementBinding(digester.requirement(original));
      var after := RequirementBinding(digester.requirement(reduced));
      c == after || (c in existing && c !in lost && c != before)
  {
    BoundMembers(digester.requirement, existing, original);
    if Owned(c) {
      NarrowedListIsSealed(digester, reduced, original, c);
      if CapabilityOf(digester.requirement, original, c) {
        OwnCapabilitiesAreOwned(digester.requirement, original, c);
      }
    } else if c in lost {
      HostIsOwned(c);
    }
    OwnCapabilitiesAreOwned(digester.requirement, original, RequirementBinding(digester.requirement(original)));
    BindingIsUnique(digester, reduced, original);
  }

  lemma SmallerThan(bound: seq<string>, existing: seq<string>, lost: set<string>, before: string, after: string)
    requires Distinct(bound) && Distinct(existing)
    requires before in existing && before !in lost && forall c :: c in lost ==> c in existing
    requires forall c :: c in bound ==> c == after || (c in existing && c !in lost && c != before)
    ensures |bound| <= |existing| - |lost|
  {
    DistinctSize(bound);
    DistinctSize(existing);
    var rest := Members(existing) - lost - {before};
    Subset(Members(bound), rest + {after});
    assert |Members(existing) - lost| == |Members(existing)| - |lost| by {
      assert Members(existing) == (Members(existing) - lost) + lost;
    }
  }

  /** Binding a narrowed requirement takes one place less for every host requirement lost. */
  lemma NarrowedBinds(digester: Digester, sealed: ReplayCapsule, reduced: Requirement, original: Requirement,
                      lost: set<string>)
    requires ValidCapsule(sealed) && BoundTo(digester, sealed, original) && Within(reduced, original)
    requires Lost(digester, sealed.requiredCapabilities, reduced, lost)
    ensures ProcessorCapabilities(digester.requirement, sealed.requiredCapabilities, reduced).Ok?
    ensures |ProcessorCapabilities(digester.requirement, sealed.requiredCapabilities, reduced).value|
         <= |sealed.requiredCapabilities| - |lost|
  {
    var existing := sealed.requiredCapabilities;
    CapabilitiesDescribed(digester.requirement, original);
    NarrowedFits(reduced, original);
    CapabilitiesDescribed(digester.requirement, reduced);
    var bound := Rebound(digester, existing, reduced);
    ReboundMembers(digester, existing, reduced);
    BoundMembers(digester.requirement, existing, original);
    var before := RequirementBinding(digester.requirement(original));
    OwnCapabilitiesAreOwned(digester.requirement, original, before);
    BindingIsNoHost(digester.requirement(original));
    forall c | c in bound
      ensures c == RequirementBinding(digester.requirement(reduced)) || (c in existing && c !in lost && c != before)
    {
      NarrowedMembers(digester, existing, reduced, original, bound, lost, c);
    }
    StrictIsDistinct(bound);
    StrictIsDistinct(existing);
    SmallerThan(bound, existing, lost, before, RequirementBinding(digester.requirement(reduced)));
  }

  /** The list that binding computes before it is measured. */
  function Rebound(digester: Digester, existing: seq<string>, reduced: Requirement): seq<string>
    requires RequirementCapabilities(digester.requirement, reduced).Ok?
  {
    SortDedup(Filter(existing, c => !Owned(c)) + RequirementCapabilities(digester.requirement, reduced).value)
  }

  lemma ReboundMembers(digester: Digester, existing: seq<string>, reduced: Requirement)
    requires RequirementCapabilities(digester.requirement, reduced).Ok?
    ensures StrictlyAscending(Rebound(digester, existing, reduced))
    ensures forall x :: x in Rebound(digester, existing, reduced) <==>
      if Owned(x) then CapabilityOf(digester.requirement, reduced, x) else x in existing
  {
    var own := RequirementCapabilities(digester.requirement, reduced).value;
    var foreign := Filter(existing, c => !Owned(c));
    CapabilitiesDescribed(digester.requirement, reduced);
    FilterMembers(existing, c => !Owned(c));
    SortDedupIsStrict(foreign + own);
    forall x
      ensures x in Rebound(digester, existing, reduced) <==>
        if Owned(x) then CapabilityOf(digester.requirement, reduced, x) else x in existing
    {
      assert x in Rebound(digester, existing, reduced) <==> x in foreign + own;
      if CapabilityOf(digester.requirement, reduced, x) {
        OwnCapabilitiesAreOwned(digester.requirement, reduced, x);
      }
    }
  }

  lemma BindingIsNoHost(digest: Digest)
    ensures !HostRequirement(RequirementBinding(digest))
  {
    var c := RequirementBinding(digest);
    assert REQUIREMENT_PREFIX <= c;
    PrefixesDisjoint(c);
    ProcessorPrefixes(c);
  }

  /** The only requirement binding a list carries is that of its own requirement. */
  lemma BindingIsUnique(digester: Digester, reduced: Requirement, original: Requirement)
    ensures
      var before := RequirementBinding(digester.requirement(original));
      CapabilityOf(digester.requirement, reduced, before) ==>
        before == RequirementBinding(digester.requirement(reduced))
  {
    var before := RequirementBinding(digester.requirement(original));
    assert REQUIREMENT_PREFIX <= before;
    ProcessorPrefixes(before);
    PrefixesDisjoint(before);
    OwnByPrefix(digester.requirement, reduced, before);
    assert ARCHITECTURE_PREFIX <= ArchitectureCapability(reduced.architecture);
  }

  lemma DigestCapabilityIsValid(prefix: string, digest: Digest)
    requires prefix == REQUIREMENT_PREFIX || prefix == REDUCTION_PREFIX
    ensures ValidCapability(prefix + DigestSuffix(digest))
  {
    var c := prefix + DigestSuffix(digest);
    forall i | 0 <= i < |c|
      ensures CapabilityChar(c[i])
    {
      if i >= |prefix| {
        assert c[i] == DigestSuffix(digest)[i - |prefix|];
      }
    }
  }

  lemma OneMoreFits(own: seq<string>, extra: string)
    requires StrictlyAscending(own)
    ensures |SortDedup(own + [extra])| <= |own| + 1
  {
    var bound := SortDedup(own + [extra]);
    SortDedupIsStrict(own + [extra]);
    StrictIsDistinct(own);
    StrictIsDistinct(bound);
    DistinctSize(own);
    DistinctSize(bound);
    assert forall c :: c in bound <==> c in own + [extra];
    Subset(Members(bound), Members(own) + {extra});
  }

  lemma NarrowedListIsValid(digester: Digester, sealed: ReplayCapsule, reduced: Requirement, original: Requirement,
                            c: string)
    requires ValidCapsule(sealed) && BoundTo(digester, sealed, original) && Within(reduced, original)
    requires ProcessorCapabilities(digester.requirement, sealed.requiredCapabilities, reduced).Ok?
    requires c in ProcessorCapabilities(digester.requirement, sealed.requiredCapabilities, reduced).value
    ensures ValidCapability(c)
  {
    BoundMembers(digester.requirement, sealed.requiredCapabilities, reduced);
    BoundMembers(digester.requirement, sealed.requiredCapabilities, original);
    DigestCapabilityIsValid(REQUIREMENT_PREFIX, digester.requirement(reduced));
    if Owned(c) {
      NarrowedListIsSealed(digester, reduced, original, c);
    }
  }

  /**
   * With room for one more capability, before or because of what was lost,
   * binding a narrowed requirement and its receipt succeeds.
   */
  lemma NarrowedReductionBinds(digester: Digester, sealed: ReplayCapsule, reduced: Requirement, original: Requirement,
                               receipt: Receipt, lost: set<string>)
    requires ValidCapsule(sealed) && BoundTo(digester, sealed, original) && Within(reduced, original)
    requires Lost(digester, sealed.requiredCapabilities, reduced, lost)
    requires |sealed.requiredCapabilities| - |lost| < 64
    requires ValidReceipt(receipt) && receipt.finalRequirementDigest == digester.requirement(reduced)
    ensures BindReduction(digester, sealed, reduced, receipt).1.Ok?
  {
    hide Within, Lost, BoundTo, DigestSuffix, ValidCapsuleBody, ValidReceipt, CapabilityOf, Owned;
    NarrowedBinds(digester, sealed, reduced, original, lost);
    BoundMembers(digester.requirement, sealed.requiredCapabilities, reduced);
    var own := ProcessorCapabilities(digester.requirement, sealed.requiredCapabilities, reduced).value;
    var extra := ReductionCapability(digester, receipt);
    OneMoreFits(own, extra);
    SortDedupIsStrict(own + [extra]);
    DigestCapabilityIsValid(REDUCTION_PREFIX, digester.receipt(receipt));
    forall c | c in SortDedup(own + [extra])
      ensures ValidCapability(c)
    {
      if c != extra {
        NarrowedListIsValid(digester, sealed, reduced, original, c);
      }
    }
    BodyIgnoresCapabilities(sealed, SortDedup(own + [extra]));
  }

  /** On a full list a reduction that loses no host requirement never binds. */
  lemma FullListNeedsALoss(digester: Digester, sealed: ReplayCapsule, original: Requirement, reduced: Requirement,
                           receipt: Receipt)
    requires BoundTo(digester, sealed, original) && |sealed.requiredCapabilities| == 64 && Within(reduced, original)
    requires forall c :: HostRequirement(c) && CapabilityOf(digester.requirement, original, c) ==>
      CapabilityOf(digester.requirement, reduced, c)
    ensures BindReduction(digester, sealed, reduced, receipt).1.Err?
  {
    if BindReduction(digester, sealed, reduced, receipt).1.Ok? {
      var existing := sealed.requiredCapabilities;
      var admitted := BindReduction(digester, sealed, reduced, receipt).0.requiredCapabilities;
      var before := RequirementBinding(digester.requirement(original));
      var after := RequirementBinding(digester.requirement(reduced));
      var extra := ReductionCapability(digester, receipt);
      BoundMembers(digester.requirement, existing, original);
      AdmittedMembers(digester, sealed, reduced, receipt);
      ReductionCapabilityIsForeign(digester, original, receipt);
      ReductionCapabilityIsForeign(digester, reduced, receipt);
      OwnCapabilitiesAreOwned(digester.requirement, reduced, after);
      forall c | c in existing && c != before
        ensures c in admitted && c != extra
      {
        if Owned(c) {
          OwnIsHostOrBinding(digester, original, c);
        }
      }
      BindingIsUnique(digester, original, reduced);
      StrictIsDistinct(existing);
      StrictIsDistinct(admitted);
      MoreThan(admitted, existing, before, after, extra);
    }
  }

  lemma OwnIsHostOrBinding(digester: Digester, requirement: Requirement, c: string)
    requires CapabilityOf(digester.requirement, requirement, c)
    ensures HostRequirement(c) || c == RequirementBinding(digester.requirement(requirement))
  {
    if c == ArchitectureCapability(requirement.architecture) {
      assert ARCHITECTURE_PREFIX <= c;
    }
  }

  lemma MoreThan(admitted: seq<string>, existing: seq<string>, before: string, after: string, extra: string)
    requires Distinct(admitted) && Distinct(existing) && after in admitted && extra in admitted && after != extra
    requires forall c :: c in existing && c != before ==> c in admitted && c != extra
    requires after in existing ==> after == before
    ensures |admitted| > |existing|
  {
    DistinctSize(admitted);
    DistinctSize(existing);
    var kept := Members(existing) - {before};
    Subset(kept + {after} + {extra}, Members(admitted));
  }

  /** Some host requirement of the start is no longer given. */
  ghost predicate FreesPlace(original: Requirement, reduced: Requirement) {
    exists c :: Present(c, original) && !Given(c, reduced)
  }

  lemma FreedIsLost(digester: Digester, sealed: ReplayCapsule, original: Requirement, reduced: Requirement,
                    c: Constraint)
    requires BoundTo(digester, sealed, original) && Within(reduced, original)
    requires Present(c, original) && !Given(c, reduced)
    ensures Lost(digester, sealed.requiredCapabilities, reduced, {HostCapability(c, original)})
  {
    HostIsSealed(digester, sealed, original, c);
    ListedWhileGiven(digester, original, reduced, c);
  }

  lemma NothingFreedNothingLost(digester: Digester, original: Requirement, reduced: Requirement, k: string)
    requires Within(reduced, original) && !FreesPlace(original, reduced)
    requires HostRequirement(k) && CapabilityOf(digester.requirement, original, k)
    ensures CapabilityOf(digester.requirement, reduced, k)
  {
    if k != ArchitectureCapability(original.architecture) {
      var c := HostConstraint(digester, original, k);
      ListedWhileGiven(digester, original, reduced, c);
    }
  }

  /** A narrowed requirement and its receipt bind exactly when there is a place or a lost host requirement frees one. */
  lemma BindsExactly(digester: Digester, sealed: ReplayCapsule, original: Requirement, reduced: Requirement,
                     receipt: Receipt)
    requires ValidCapsule(sealed) && BoundTo(digester, sealed, original) && Within(reduced, original)
    requires ValidReceipt(receipt) && receipt.finalRequirementDigest == digester.requirement(reduced)
    ensures
      BindReduction(digester, sealed, reduced, receipt).1.Ok? <==>
        |sealed.requiredCapabilities| < 64 || FreesPlace(original, reduced)
  {
    hide BindReduction, BoundTo, Within, ValidReceipt, CapabilityOf, Given, Present, ValidCapsuleBody;
    if FreesPlace(original, reduced) {
      var c :| Present(c, original) && !Given(c, reduced);
      FreedIsLost(digester, sealed, original, reduced, c);
      NarrowedReductionBinds(digester, sealed, reduced, original, receipt, {HostCapability(c, original)});
    } else if |sealed.requiredCapabilities| < 64 {
      NarrowedReductionBinds(digester, sealed, reduced, original, receipt, {});
    } else {
      forall k | HostRequirement(k) && CapabilityOf(digester.requirement, original, k)
        ensures CapabilityOf(digester.requirement, reduced, k)
      {
        NothingFreedNothingLost(digester, original, reduced, k);
      }
      FullListNeedsALoss(digester, sealed, original, reduced, receipt);
    }
  }
}
