/** Binding a reduction, outright: the one capsule it may leave, and exactly when it does. */
module BinderExact {
  import opened Prelude
  import opened Ordering
  import opened Capsule
  import opened ProcessorRequirement
  import opened ProcessorReducer
  import opened ProcessorBinding
  import opened Agreement

  /** The list in order: foreign capabilities stay, owned ones are those of the requirement and of the receipt. */
  ghost predicate BoundList(digester: Digester, existing: seq<string>, requirement: Requirement, receipt: Receipt,
                            list: seq<string>)
  {
    && StrictlyAscending(list)
    && forall c :: c in list <==>
         if "processor." <= c || "architecture." <= c then
           CapabilityOf(digester.requirement, requirement, c)
           || c == "processor.reduction." + DigestSuffix(digester.receipt(receipt))
         else c in existing
  }

  /** What binding asks of the requirement and the receipt. */
  predicate Bindable(digester: Digester, requirement: Requirement, receipt: Receipt) {
    && receipt.finalRequirementDigest == digester.requirement(requirement)
    && ValidRequirement(requirement)
    && NamesFit(requirement.instructionFeatures) && NamesFit(requirement.osEnabledStates)
    && ValidReceipt(receipt)
  }

  lemma BoundIsOutright(digester: Digester, capsule: ReplayCapsule, requirement: Requirement, receipt: Receipt)
    requires BindReduction(digester, capsule, requirement, receipt).1.Ok?
    ensures
      var admitted := BindReduction(digester, capsule, requirement, receipt).0;
      && Bindable(digester, requirement, receipt) && ValidCapsule(admitted)
      && admitted.(requiredCapabilities := capsule.requiredCapabilities) == capsule
      && BoundList(digester, capsule.requiredCapabilities, requirement, receipt, admitted.requiredCapabilities)
  {
    AdmittedMembers(digester, capsule, requirement, receipt);
    CapabilitiesDescribed(digester.requirement, requirement);
    hide ValidCapsule, ValidReceipt, ValidRequirement, CapabilityOf, RequirementCapabilities;
  }

  /** The requirement's own list inside a bound list. */
  lemma OwnListFits(digester: Digester, existing: seq<string>, requirement: Requirement, receipt: Receipt,
                    list: seq<string>) returns (own: seq<string>)
    requires RequirementCapabilities(digester.requirement, requirement).Ok?
    requires BoundList(digester, existing, requirement, receipt, list) && |list| <= 64
    ensures ProcessorCapabilities(digester.requirement, existing, requirement) == Ok(own)
    ensures SortDedup(own + [ReductionCapability(digester, receipt)]) == list
  {
    var extra := ReductionCapability(digester, receipt);
    own := Filter(list, c => c != extra);
    ReductionCapabilityIsForeign(digester, requirement, receipt);
    FilterMembers(list, c => c != extra);
    FilterStrict(list, c => c != extra);
    FilterShorter(list, c => c != extra);
    BoundSize(digester.requirement, existing, requirement, own);
    SortDedupIsStrict(own + [extra]);
    forall c
      ensures c in SortDedup(own + [extra]) <==> c in list
    {
      assert c in SortDedup(own + [extra]) <==> c in own + [extra];
    }
    StrictOrderIsUnique(SortDedup(own + [extra]), list);
  }

  lemma {:induction false} FilterShorter(list: seq<string>, keep: string -> bool)
    ensures |Filter(list, keep)| <= |list|
  {
    if list != [] {
      FilterShorter(list[1..], keep);
    }
  }

  /** Binding leaves exactly the valid capsule with the bound list, when the inputs are bindable. */
  lemma BindsOutright(digester: Digester, capsule: ReplayCapsule, requirement: Requirement, receipt: Receipt,
                      admitted: ReplayCapsule)
    ensures BindReduction(digester, capsule, requirement, receipt) == (admitted, Ok(Unit)) <==>
      && Bindable(digester, requirement, receipt) && ValidCapsule(admitted)
      && admitted.(requiredCapabilities := capsule.requiredCapabilities) == capsule
      && BoundList(digester, capsule.requiredCapabilities, requirement, receipt, admitted.requiredCapabilities)
  {
    if BindReduction(digester, capsule, requirement, receipt) == (admitted, Ok(Unit)) {
      BoundIsOutright(digester, capsule, requirement, receipt);
    }
    if Bindable(digester, requirement, receipt) && ValidCapsule(admitted)
      && admitted.(requiredCapabilities := capsule.requiredCapabilities) == capsule
      && BoundList(digester, capsule.requiredCapabilities, requirement, receipt, admitted.requiredCapabilities)
    {
      OutrightIsBound(digester, capsule, requirement, receipt, admitted);
    }
  }

  lemma OutrightIsBound(digester: Digester, capsule: ReplayCapsule, requirement: Requirement, receipt: Receipt,
                        admitted: ReplayCapsule)
    requires Bindable(digester, requirement, receipt) && ValidCapsule(admitted)
    requires admitted.(requiredCapabilities := capsule.requiredCapabilities) == capsule
    requires BoundList(digester, capsule.requiredCapabilities, requirement, receipt, admitted.requiredCapabilities)
    ensures BindReduction(digester, capsule, requirement, receipt) == (admitted, Ok(Unit))
  {
    CapabilitiesDescribed(digester.requirement, requirement);
    assert |admitted.requiredCapabilities| <= 64;
    var own := OwnListFits(digester, capsule.requiredCapabilities, requirement, receipt,
                           admitted.requiredCapabilities);
    hide ValidCapsule, ValidReceipt, ValidRequirement, BoundList, ProcessorCapabilities, RequirementCapabilities;
    var bound := capsule.(requiredCapabilities := admitted.requiredCapabilities);
    assert bound == admitted;
  }
}
