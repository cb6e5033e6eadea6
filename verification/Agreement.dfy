/** The capability lists that the binder writes and the checker recomputes. */
module Agreement {
  import opened Prelude
  import opened Ordering
  import opened ProcessorNames
  import opened Capsule
  import opened ProcessorRequirement
  import opened ProcessorReducer
  import opened ReducerRuns
  import opened ProcessorBinding

  /** Names that survive normalization: features without '-', states without '_'. */
  predicate Unambiguous(requirement: Requirement) {
    && (forall f :: f in requirement.instructionFeatures ==> Lacks(f, '-'))
    && (forall s :: s in requirement.osEnabledStates ==> Lacks(s, '_'))
  }

  /** The capsule already carries exactly the capabilities of the requirement. */
  predicate BoundTo(digester: Digester, capsule: ReplayCapsule, requirement: Requirement) {
    ProcessorCapabilities(digester.requirement, capsule.requiredCapabilities, requirement)
      == Ok(capsule.requiredCapabilities)
  }

  // What a bound capability list contains.

  lemma OwnCapabilitiesAreOwned(digest: Requirement -> Digest, requirement: Requirement, c: string)
    requires CapabilityOf(digest, requirement, c)
    ensures Owned(c)
  {
    if c == ArchitectureCapability(requirement.architecture) {
      assert ARCHITECTURE_PREFIX <= c;
    } else {
      ProcessorPrefixes(c);
    }
  }

  /** Under each prefix a requirement emits only the strings built with that prefix. */
  lemma OwnByPrefix(digest: Requirement -> Digest, requirement: Requirement, c: string)
    ensures FEATURE_PREFIX <= c ==>
              (CapabilityOf(digest, requirement, c) <==> Named(FEATURE_PREFIX, requirement.instructionFeatures, c))
    ensures OS_STATE_PREFIX <= c ==>
              (CapabilityOf(digest, requirement, c) <==> Named(OS_STATE_PREFIX, requirement.osEnabledStates, c))
    ensures IDENTITY_PREFIX <= c ==>
              (CapabilityOf(digest, requirement, c) <==> c in IdentityCapabilities(requirement.identity))
    ensures ARCHITECTURE_PREFIX <= c ==>
              (CapabilityOf(digest, requirement, c) <==> c == ArchitectureCapability(requirement.architecture))
    ensures !(REDUCTION_PREFIX <= c && CapabilityOf(digest, requirement, c))
  {
    PrefixesDisjoint(c);
    if FEATURE_PREFIX <= c || OS_STATE_PREFIX <= c || IDENTITY_PREFIX <= c || REDUCTION_PREFIX <= c {
      ProcessorPrefixes(c);
    }
    var architecture := ArchitectureCapability(requirement.architecture);
    assert ARCHITECTURE_PREFIX <= architecture;
    if CapabilityOf(digest, requirement, c) && c != architecture {
      ProcessorPrefixes(c);
    }
  }

  /** Rebinding the same requirement changes nothing. */
  lemma BindIsIdempotent(digest: Requirement -> Digest, existing: seq<string>, requirement: Requirement)
    requires ProcessorCapabilities(digest, existing, requirement).Ok?
    ensures
      var bound := ProcessorCapabilities(digest, existing, requirement).value;
      ProcessorCapabilities(digest, bound, requirement) == Ok(bound)
  {
    var bound := ProcessorCapabilities(digest, existing, requirement).value;
    BoundMembers(digest, existing, requirement);
    BoundSize(digest, bound, requirement, bound);
  }

  /** The members of a bound list: the foreign capabilities and the requirement's own. */
  lemma BoundMembers(digest: Requirement -> Digest, existing: seq<string>, requirement: Requirement)
    requires ProcessorCapabilities(digest, existing, requirement).Ok?
    ensures
      var bound := ProcessorCapabilities(digest, existing, requirement).value;
      && StrictlyAscending(bound)
      && forall c :: c in bound <==> if Owned(c) then CapabilityOf(digest, requirement, c) else c in existing
  {
    var own := RequirementCapabilities(digest, requirement).value;
    var bound := ProcessorCapabilities(digest, existing, requirement).value;
    var foreign := Filter(existing, c => !Owned(c));
    CapabilitiesDescribed(digest, requirement);
    FilterMembers(existing, c => !Owned(c));
    SortDedupIsStrict(foreign + own);
    forall c
      ensures c in bound <==> if Owned(c) then CapabilityOf(digest, requirement, c) else c in existing
    {
      assert c in bound <==> c in foreign + own;
      if CapabilityOf(digest, requirement, c) {
        OwnCapabilitiesAreOwned(digest, requirement, c);
      }
    }
  }

  /** A strictly ascending list with the right members is the bound list. */
  lemma BoundSize(digest: Requirement -> Digest, existing: seq<string>, requirement: Requirement, bound: seq<string>)
    requires RequirementCapabilities(digest, requirement).Ok?
    requires StrictlyAscending(bound) && |bound| <= 64
    requires forall c :: c in bound <==> if Owned(c) then CapabilityOf(digest, requirement, c) else c in existing
    ensures ProcessorCapabilities(digest, existing, requirement) == Ok(bound)
  {
    var own := RequirementCapabilities(digest, requirement).value;
    var foreign := Filter(existing, c => !Owned(c));
    CapabilitiesDescribed(digest, requirement);
    FilterMembers(existing, c => !Owned(c));
    SortDedupIsStrict(foreign + own);
    forall c
      ensures c in SortDedup(foreign + own) <==> c in bound
    {
      assert c in SortDedup(foreign + own) <==> c in foreign + own;
      if CapabilityOf(digest, requirement, c) {
        OwnCapabilitiesAreOwned(digest, requirement, c);
      }
    }
    StrictOrderIsUnique(SortDedup(foreign + own), bound);
  }

  // The expected list and the admitted list.

  lemma ReductionCapabilityIsForeign(digester: Digester, requirement: Requirement, receipt: Receipt)
    ensures Owned(ReductionCapability(digester, receipt))
    ensures !HostRequirement(ReductionCapability(digester, receipt))
    ensures !CapabilityOf(digester.requirement, requirement, ReductionCapability(digester, receipt))
  {
    var c := ReductionCapability(digester, receipt);
    assert REDUCTION_PREFIX <= c;
    ProcessorPrefixes(c);
    PrefixesDisjoint(c);
    OwnByPrefix(digester.requirement, requirement, c);
  }

  lemma ExpectedMembers(digester: Digester, requirement: Requirement, receipt: Receipt)
    requires RequirementCapabilities(digester.requirement, requirement).Ok?
    ensures Expected(digester, requirement, receipt).Ok?
    ensures
      var expected := Expected(digester, requirement, receipt).value;
      && StrictlyAscending(expected)
      && forall c :: c in expected <==>
           CapabilityOf(digester.requirement, requirement, c) || c == ReductionCapability(digester, receipt)
  {
    var own := RequirementCapabilities(digester.requirement, requirement).value;
    var extra := ReductionCapability(digester, receipt);
    CapabilitiesDescribed(digester.requirement, requirement);
    ReductionCapabilityIsForeign(digester, requirement, receipt);
    StrictIsDistinct(own);
    SortDistinct(own + [extra]);
    SortDedupIsStrict(own + [extra]);
    forall c
      ensures c in SortDedup(own + [extra]) <==> c in own || c == extra
    {
      assert c in SortDedup(own + [extra]) <==> c in own + [extra];
    }
  }

  lemma AdmittedMembers(digester: Digester, sealed: ReplayCapsule, requirement: Requirement, receipt: Receipt)
    requires BindReduction(digester, sealed, requirement, receipt).1.Ok?
    ensures RequirementCapabilities(digester.requirement, requirement).Ok?
    ensures
      var admitted := BindReduction(digester, sealed, requirement, receipt).0.requiredCapabilities;
      && StrictlyAscending(admitted)
      && forall c :: c in admitted <==>
           if Owned(c) then
             CapabilityOf(digester.requirement, requirement, c) || c == ReductionCapability(digester, receipt)
           else c in sealed.requiredCapabilities
  {
    var own := ProcessorCapabilities(digester.requirement, sealed.requiredCapabilities, requirement).value;
    var extra := ReductionCapability(digester, receipt);
    var admitted := BindReduction(digester, sealed, requirement, receipt).0.requiredCapabilities;
    BoundMembers(digester.requirement, sealed.requiredCapabilities, requirement);
    ReductionCapabilityIsForeign(digester, requirement, receipt);
    SortDedupIsStrict(own + [extra]);
    forall c
      ensures c in admitted <==> c in own || c == extra
    {
      assert c in admitted <==> c in own + [extra];
    }
  }

  /** The owned part of the admitted list is exactly the expected list. */
  lemma OwnedPartIsExpected(digester: Digester, sealed: ReplayCapsule, requirement: Requirement, receipt: Receipt)
    requires BindReduction(digester, sealed, requirement, receipt).1.Ok?
    ensures Expected(digester, requirement, receipt).Ok?
    ensures Filter(BindReduction(digester, sealed, requirement, receipt).0.requiredCapabilities, c => Owned(c))
         == Expected(digester, requirement, receipt).value
  {
    AdmittedMembers(digester, sealed, requirement, receipt);
    ExpectedMembers(digester, requirement, receipt);
    var admitted := BindReduction(digester, sealed, requirement, receipt).0.requiredCapabilities;
    var expected := Expected(digester, requirement, receipt).value;
    FilterMembers(admitted, c => Owned(c));
    FilterStrict(admitted, c => Owned(c));
    forall c
      ensures c in Filter(admitted, c => Owned(c)) <==> c in expected
    {
      if c in expected {
        if CapabilityOf(digester.requirement, requirement, c) {
          OwnCapabilitiesAreOwned(digester.requirement, requirement, c);
        } else {
          ReductionCapabilityIsForeign(digester, requirement, receipt);
        }
      }
    }
    StrictOrderIsUnique(Filter(admitted, c => Owned(c)), expected);
  }

  /** Binding a requirement of the same architecture changes only `processor.*` capabilities. */
  lemma StripUnchanged(digester: Digester, sealed: ReplayCapsule, original: Requirement, requirement: Requirement,
                       receipt: Receipt)
    requires BoundTo(digester, sealed, original) && requirement.architecture == original.architecture
    requires BindReduction(digester, sealed, requirement, receipt).1.Ok?
    ensures Strip(BindReduction(digester, sealed, requirement, receipt).0) == Strip(sealed)
  {
    AdmittedMembers(digester, sealed, requirement, receipt);
    BoundMembers(digester.requirement, sealed.requiredCapabilities, original);
    ReductionCapabilityIsForeign(digester, requirement, receipt);
    var admitted := BindReduction(digester, sealed, requirement, receipt).0.requiredCapabilities;
    forall c | !(PROCESSOR_PREFIX <= c)
      ensures c in admitted <==> c in sealed.requiredCapabilities
    {
      if ARCHITECTURE_PREFIX <= c {
        OwnByPrefix(digester.requirement, requirement, c);
        OwnByPrefix(digester.requirement, original, c);
      }
    }
    StrictFilterEqual(admitted, sealed.requiredCapabilities, c => !(PROCESSOR_PREFIX <= c));
  }

  // What a narrowed requirement lists.

  /** Every host requirement that survives was sealed. */
  lemma HostRequirementsNarrow(digester: Digester, original: Requirement, reduced: Requirement, c: string)
    requires Within(reduced, original) && HostRequirement(c)
    requires CapabilityOf(digester.requirement, reduced, c)
    ensures CapabilityOf(digester.requirement, original, c)
  {
    OwnByPrefix(digester.requirement, reduced, c);
    OwnByPrefix(digester.requirement, original, c);
    if FEATURE_PREFIX <= c {
      var f :| f in reduced.instructionFeatures && c == FEATURE_PREFIX + CapabilitySuffix(f);
      assert Present(InstructionFeature(f), reduced);
      assert f in original.instructionFeatures;
    } else if OS_STATE_PREFIX <= c {
      var s :| s in reduced.osEnabledStates && c == OS_STATE_PREFIX + CapabilitySuffix(s);
      assert Present(OsEnabledState(s), reduced);
      assert s in original.osEnabledStates;
    }
  }

  ghost predicate ListsReduced(digester: Digester, reduced: Requirement, expected: seq<string>) {
    forall x :: HostRequirement(x) ==> (x in expected <==> CapabilityOf(digester.requirement, reduced, x))
  }

  lemma HostIsOwned(c: string)
    requires HostRequirement(c)
    ensures Owned(c)
  {
    if !(ARCHITECTURE_PREFIX <= c) {
      ProcessorPrefixes(c);
    }
  }
}
