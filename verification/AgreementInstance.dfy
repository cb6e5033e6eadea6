/** Concrete sealed capsules on both sides of the agreement, with room and on a full list. */
module AgreementInstance {
  import opened Prelude
  import opened Ordering
  import opened Capsule
  import opened SampleCapsule
  import opened ProcessorNames
  import opened IdentityToken
  import opened ProcessorRequirement
  import opened ProcessorReducer
  import opened ReducerRuns
  import opened Sweeps
  import opened ProcessorBinding
  import opened Agreement
  import opened AgreementRuns
  import opened AgreementRoom
  import opened AgreementExact
  import opened AgreementNames

  /** Features that all stand for one capability. */
  predicate OneName(features: seq<string>) {
    && 0 < |features| <= 256 && StrictlyAscending(features)
    && forall f :: f in features ==>
         ValidFeature(f) && |f| <= 96 && CapabilitySuffix(f) == CapabilitySuffix(features[0])
  }

  function RequirementOf(features: seq<string>): Requirement {
    Requirement("sysv", X86_64, None, features, [])
  }

  function ObservationOf(features: seq<string>): ProcessorObservation {
    ProcessorObservation("sysv", X86_64, None, features, [])
  }

  lemma RequirementIsValid(features: seq<string>)
    requires OneName(features)
    ensures ValidObservation(ObservationOf(features)) && ValidRequirement(RequirementOf(features))
    ensures NamesFit(RequirementOf(features).instructionFeatures) && NamesFit(RequirementOf(features).osEnabledStates)
  {
  }

  // The capability list: the requirement's own three and some that nothing here owns.

  /** The requirement's own capabilities. */
  function OwnThree(digest: Requirement -> Digest, features: seq<string>): seq<string>
    requires features != []
  {
    [ArchitectureCapability(X86_64), FEATURE_PREFIX + CapabilitySuffix(features[0]),
     RequirementBinding(digest(RequirementOf(features)))]
  }

  function Foreign(i: nat): string
    requires i < 100
  {
    ['x', DigitChar(i / 10), DigitChar(i % 10)]
  }

  function ForeignList(n: nat): seq<string>
    requires n <= 61
  {
    seq(n, i requires 0 <= i < n => Foreign(i))
  }

  lemma ForeignIsForeign(i: nat)
    requires i < 100
    ensures ValidCapability(Foreign(i)) && !Owned(Foreign(i))
  {
    assert Foreign(i)[0] == 'x' && PROCESSOR_PREFIX[0] == 'p' && ARCHITECTURE_PREFIX[0] == 'a';
  }

  lemma ForeignsDiffer(i: nat, j: nat)
    requires i < j < 100
    ensures Foreign(i) != Foreign(j)
  {
  }

  lemma OneNamed(features: seq<string>, c: string)
    requires OneName(features)
    ensures Named(FEATURE_PREFIX, features, c) <==> c == FEATURE_PREFIX + CapabilitySuffix(features[0])
  {
    hide CapabilitySuffix, ValidFeature;
    assert features[0] in features;
  }

  lemma OwnMembers(digest: Requirement -> Digest, features: seq<string>, c: string)
    requires OneName(features)
    ensures CapabilityOf(digest, RequirementOf(features), c) <==> c in OwnThree(digest, features)
  {
    assert features != [];
    OneNamed(features, c);
    hide OneName, CapabilitySuffix, RequirementBinding, ArchitectureCapability, Named, FEATURE_PREFIX;
    var own := OwnThree(digest, features);
    assert own[1] == FEATURE_PREFIX + CapabilitySuffix(features[0]);
  }

  lemma OwnAreValid(digest: Requirement -> Digest, features: seq<string>, c: string)
    requires OneName(features) && c in OwnThree(digest, features)
    ensures Owned(c) && ValidCapability(c)
  {
    assert features != [] && features[0] in features;
    hide ValidCapability, RequirementBinding;
    OwnMembers(digest, features, c);
    OwnCapabilitiesAreOwned(digest, RequirementOf(features), c);
    DigestCapabilityIsValid(REQUIREMENT_PREFIX, digest(RequirementOf(features)));
    FeatureCapabilityIsValid(features[0]);
  }

  lemma FeatureCapabilityIsValid(feature: string)
    requires ValidFeature(feature) && |feature| <= 96
    ensures ValidCapability(FEATURE_PREFIX + CapabilitySuffix(feature))
  {
    var c := FEATURE_PREFIX + CapabilitySuffix(feature);
    forall i | 0 <= i < |c|
      ensures CapabilityChar(c[i])
    {
      if i >= |FEATURE_PREFIX| {
        assert c[i] == LowerChar(feature[i - |FEATURE_PREFIX|]) && FeatureChar(feature[i - |FEATURE_PREFIX|]);
      }
    }
  }

  lemma OwnDiffer(digest: Requirement -> Digest, features: seq<string>)
    requires features != []
    ensures Distinct(OwnThree(digest, features))
  {
    var own := OwnThree(digest, features);
    assert FEATURE_PREFIX <= own[1] && REQUIREMENT_PREFIX <= own[2];
    assert own[0][0] == 'a' && FEATURE_PREFIX[0] == 'p' && REQUIREMENT_PREFIX[0] == 'p';
    assert FEATURE_PREFIX[10] == 'f' && REQUIREMENT_PREFIX[10] == 'r';
    assert own[1][10] == 'f' && own[2][10] == 'r';
  }

  function Listed(digest: Requirement -> Digest, features: seq<string>, n: nat): seq<string>
    requires features != [] && n <= 61
  {
    OwnThree(digest, features) + ForeignList(n)
  }

  lemma ListedShape(digest: Requirement -> Digest, features: seq<string>, n: nat, i: nat)
    requires features != [] && n <= 61 && i < n + 3
    ensures |OwnThree(digest, features)| == 3 && |Listed(digest, features, n)| == n + 3
    ensures i < 3 ==> Listed(digest, features, n)[i] == OwnThree(digest, features)[i]
    ensures i >= 3 ==> Listed(digest, features, n)[i] == Foreign(i - 3)
  {
    hide Foreign, CapabilitySuffix, RequirementBinding, ArchitectureCapability;
  }

  /** The first three entries are owned and valid, the others foreign and valid. */
  lemma ListedAt(digest: Requirement -> Digest, features: seq<string>, n: nat, i: nat)
    requires OneName(features) && n <= 61 && i < n + 3
    ensures |Listed(digest, features, n)| == n + 3
    ensures ValidCapability(Listed(digest, features, n)[i])
    ensures Owned(Listed(digest, features, n)[i]) <==> i < 3
    ensures |OwnThree(digest, features)| == 3
    ensures i < 3 ==> Listed(digest, features, n)[i] == OwnThree(digest, features)[i]
    ensures i >= 3 ==> Listed(digest, features, n)[i] == Foreign(i - 3)
  {
    assert features != [];
    hide Listed, OwnThree, Foreign, ValidCapability, Owned, OneName;
    ListedShape(digest, features, n, i);
    if i < 3 {
      OwnAreValid(digest, features, OwnThree(digest, features)[i]);
    } else {
      ForeignIsForeign(i - 3);
    }
  }

  lemma ListedDiffer(digest: Requirement -> Digest, features: seq<string>, n: nat)
    requires OneName(features) && n <= 61
    ensures Distinct(Listed(digest, features, n)) && |Listed(digest, features, n)| == n + 3
  {
    OwnDiffer(digest, features);
    hide Listed, OwnThree, Foreign, Owned, ValidCapability, OneName;
    ListedAt(digest, features, n, 0);
    forall i, j | 0 <= i < j < n + 3
      ensures Listed(digest, features, n)[i] != Listed(digest, features, n)[j]
    {
      ListedAt(digest, features, n, i);
      ListedAt(digest, features, n, j);
      if i >= 3 {
        ForeignsDiffer(i - 3, j - 3);
      }
    }
  }

  /** The list that binding gives, in order. */
  function BoundList(digest: Requirement -> Digest, features: seq<string>, n: nat): seq<string>
    requires features != [] && n <= 61
  {
    SortDedup(Listed(digest, features, n))
  }

  lemma BoundListSize(digest: Requirement -> Digest, features: seq<string>, n: nat)
    requires OneName(features) && n <= 61
    ensures StrictlyAscending(BoundList(digest, features, n)) && |BoundList(digest, features, n)| == n + 3
  {
    var all := Listed(digest, features, n);
    SortDedupIsStrict(all);
    ListedDiffer(digest, features, n);
    SortDistinct(all);
    SortSorts(all);
    assert |multiset(Sort(all))| == |multiset(all)|;
  }

  lemma ListedMember(digest: Requirement -> Digest, features: seq<string>, n: nat, c: string)
    requires OneName(features) && n <= 61 && c in Listed(digest, features, n)
    ensures ValidCapability(c) && (Owned(c) ==> c in OwnThree(digest, features))
  {
    assert features != [];
    hide Owned, ValidCapability, OneName, OwnThree, Listed, Foreign;
    ListedAt(digest, features, n, 0);
    var i: nat :| i < n + 3 && Listed(digest, features, n)[i] == c;
    ListedAt(digest, features, n, i);
  }

  lemma OwnIsListed(digest: Requirement -> Digest, features: seq<string>, n: nat, c: string)
    requires features != [] && n <= 61 && c in OwnThree(digest, features)
    ensures c in Listed(digest, features, n)
  {
    hide OwnThree, ForeignList;
  }

  lemma BoundListMember(digest: Requirement -> Digest, features: seq<string>, n: nat, c: string)
    requires OneName(features) && n <= 61
    ensures Owned(c) ==> (c in BoundList(digest, features, n) <==> CapabilityOf(digest, RequirementOf(features), c))
    ensures c in BoundList(digest, features, n) ==> ValidCapability(c)
  {
    assert features != [];
    hide Owned, ValidCapability, OneName, CapabilityOf, OwnThree, Listed, SortDedup, RequirementOf;
    SortDedupIsStrict(Listed(digest, features, n));
    OwnMembers(digest, features, c);
    if c in Listed(digest, features, n) {
      ListedMember(digest, features, n, c);
    }
    if c in OwnThree(digest, features) {
      OwnIsListed(digest, features, n, c);
    }
  }

  lemma BoundListIsBound(digest: Requirement -> Digest, features: seq<string>, n: nat)
    requires OneName(features) && n <= 61
    ensures ProcessorCapabilities(digest, BoundList(digest, features, n), RequirementOf(features))
         == Ok(BoundList(digest, features, n))
  {
    assert features != [];
    RequirementIsValid(features);
    hide BoundList, Owned, CapabilityOf, OneName, RequirementOf, ProcessorCapabilities, ValidRequirement;
    BoundListSize(digest, features, n);
    CapabilitiesDescribed(digest, RequirementOf(features));
    var bound := BoundList(digest, features, n);
    forall c
      ensures c in bound <==> if Owned(c) then CapabilityOf(digest, RequirementOf(features), c) else c in bound
    {
      BoundListMember(digest, features, n, c);
    }
    BoundSize(digest, bound, RequirementOf(features), bound);
  }

  // The capsules.

  /** Everything the agreement asks of a capsule and its requirement. */
  predicate Instance(digester: Digester, sealed: ReplayCapsule, observation: ProcessorObservation,
                     original: Requirement)
  {
    && ValidCapsule(sealed) && BoundTo(digester, sealed, original)
    && ValidObservation(observation) && ValidRequirement(original)
    && observation.architecture == original.architecture && observation.abi == original.abi
  }

  lemma SealedCarries(bound: seq<string>)
    requires StrictlyAscending(bound) && |bound| <= 64 && forall c :: c in bound ==> ValidCapability(c)
    ensures SealedWith(bound).requiredCapabilities == bound && ValidCapsule(SealedWith(bound))
  {
    hide ValidCapsuleBody, ValidCapability;
    BodyIsValid(bound);
  }

  lemma InstanceIsMade(digester: Digester, features: seq<string>, sealed: ReplayCapsule)
    requires OneName(features) && ValidCapsule(sealed)
    requires BoundTo(digester, sealed, RequirementOf(features))
    ensures Instance(digester, sealed, ObservationOf(features), RequirementOf(features))
  {
    hide OneName, ValidCapsule, ValidRequirement, ValidObservation, BoundTo;
    RequirementIsValid(features);
  }

  /** For every digest function, every family of names of one capability, and every list size from 3 to 64. */
  lemma AgreementHasInstances(digester: Digester, features: seq<string>, n: nat) returns (sealed: ReplayCapsule)
    requires OneName(features) && n <= 61
    ensures Instance(digester, sealed, ObservationOf(features), RequirementOf(features))
    ensures |sealed.requiredCapabilities| == n + 3
  {
    assert features != [];
    hide Instance, BoundList, OneName, ValidCapsule, SealedWith, ValidCapability, RequirementOf, ObservationOf,
      ProcessorCapabilities;
    var bound := BoundList(digester.requirement, features, n);
    sealed := SealedWith(bound);
    BoundListSize(digester.requirement, features, n);
    forall c | c in bound
      ensures ValidCapability(c)
    {
      BoundListMember(digester.requirement, features, n, c);
    }
    SealedCarries(bound);
    BoundListIsBound(digester.requirement, features, n);
    InstanceIsMade(digester, features, sealed);
  }

  // One run on a single feature.

  function Only(feature: string): set<Constraint> {
    {InstructionFeature(feature)}
  }

  /** The run that removes a closed group reduces, leaves the rest, and binds when that frees a place. */
  lemma GroupIsRemoved(digester: Digester, sealed: ReplayCapsule, observation: ProcessorObservation,
                       original: Requirement, group: set<Constraint>)
    requires Instance(digester, sealed, observation, original)
    requires ClosedGroup(group, original) && |group| <= 16 && FreesPlace(original, Without(group, original))
    ensures
      var setting := Sweep(group, None);
      var reduced := Reduce(digester, observation, original, setting);
      && Run(setting, original).Ok? && reduced.Ok?
      && reduced.value.requirement == Run(setting, original).value.reduced == Without(group, original)
      && BindReduction(digester, sealed, reduced.value.requirement, reduced.value.receipt).1.Ok?
  {
    var setting := Sweep(group, None);
    BoundIsValid(digester, sealed, original);
    hide Run, Reduce, BindReduction, ValidCapsule, BoundTo, ValidRequirement, ValidObservation, Without, ClosedGroup,
      Leaves, FreesPlace, ValidReceipt, Within;
    SweepRuns(group, None, original);
    WithoutLeaves(group, original);
    LeavesOne(group, original, Run(setting, original).value.reduced, Without(group, original));
    ReducesExactly(digester, observation, original, setting);
    ReceiptIsValid(digester, observation, original, setting);
    RunIsWithin(original, setting);
    var p := Run(setting, original).value;
    BindsExactly(digester, sealed, original, p.reduced, ReceiptOf(digester, observation, p));
  }

  /** So it does for the one feature of a requirement, whatever the size of the list. */
  lemma FeatureIsRemoved(digester: Digester, sealed: ReplayCapsule, feature: string)
    requires Instance(digester, sealed, ObservationOf([feature]), RequirementOf([feature]))
    ensures
      var setting := Sweep(Only(feature), None);
      var reduced := Reduce(digester, ObservationOf([feature]), RequirementOf([feature]), setting);
      && Run(setting, RequirementOf([feature])).Ok? && reduced.Ok?
      && reduced.value.requirement == Run(setting, RequirementOf([feature])).value.reduced
      && reduced.value.requirement == Without(Only(feature), RequirementOf([feature]))
      && BindReduction(digester, sealed, reduced.value.requirement, reduced.value.receipt).1.Ok?
  {
    hide Run, Reduce, BindReduction, Without, ClosedGroup, FreesPlace, Instance, Sweep;
    OnlyIsClosed(feature);
    NothingIsGiven(feature);
    GroupIsRemoved(digester, sealed, ObservationOf([feature]), RequirementOf([feature]), Only(feature));
  }

  lemma OnlyIsClosed(feature: string)
    ensures ClosedGroup(Only(feature), RequirementOf([feature]))
  {
  }

  lemma NothingIsGiven(feature: string)
    ensures FreesPlace(RequirementOf([feature]), Without(Only(feature), RequirementOf([feature])))
    ensures Without(Only(feature), RequirementOf([feature])).instructionFeatures == []
  {
    FilterWindow([feature], f => InstructionFeature(f) !in Only(feature), 0, 0);
    assert Filter([], s => OsEnabledState(s) !in Only(feature) && !DerivedFromGroup(Only(feature), s)) == [];
    assert Present(InstructionFeature(feature), RequirementOf([feature]));
  }

  lemma SingleName(feature: string)
    requires ValidFeature(feature) && |feature| <= 96
    ensures OneName([feature])
  {
  }

  /** With the feature "AVX" the run is accepted. */
  lemma AcceptedReductionExists(digester: Digester, capsuleDigest: ReplayCapsule -> Digest)
    returns (sealed: ReplayCapsule, setting: Setting)
    ensures Instance(digester, sealed, ObservationOf(["AVX"]), RequirementOf(["AVX"]))
    ensures
      var reduced := Reduce(digester, ObservationOf(["AVX"]), RequirementOf(["AVX"]), setting);
      && reduced.Ok? && reduced.value.requirement.instructionFeatures == []
      && var bound := BindReduction(digester, sealed, reduced.value.requirement, reduced.value.receipt);
      && bound.1.Ok?
      && Accepts(digester, capsuleDigest, sealed, bound.0, reduced.value.requirement, reduced.value.receipt)
  {
    hide BindReduction, Reduce, Run, Accepts, ValidCapsule, BoundTo, Without, OneName;
    SingleName("AVX");
    sealed := AgreementHasInstances(digester, ["AVX"], 0);
    setting := Sweep(Only("AVX"), None);
    FeatureIsRemoved(digester, sealed, "AVX");
    NothingIsGiven("AVX");
    ProducerCheckerAgree(digester, capsuleDigest, sealed, ObservationOf(["AVX"]), RequirementOf(["AVX"]), setting);
  }

  lemma HyphenDivides()
    ensures
      var original := RequirementOf(["A-B"]);
      Splits(original, Without(Only("A-B"), original)) || Orphans(original, Without(Only("A-B"), original))
  {
    var original := RequirementOf(["A-B"]);
    SingleName("A-B");
    RequirementIsValid(["A-B"]);
    assert "A-B"[1] == '-' && "A-B" in original.instructionFeatures;
    AmbiguousDivides(InstructionFeature("A-B"), Only("A-B"), original);
  }

  /**
   * With the feature "A-B" the same run binds and is refused, on a list of any
   * size: the input at which the agreement fails.
   */
  lemma RefusedReductionExists(digester: Digester, capsuleDigest: ReplayCapsule -> Digest, n: nat)
    returns (sealed: ReplayCapsule, setting: Setting)
    requires n <= 61
    ensures Instance(digester, sealed, ObservationOf(["A-B"]), RequirementOf(["A-B"]))
    ensures |sealed.requiredCapabilities| == n + 3
    ensures
      var reduced := Reduce(digester, ObservationOf(["A-B"]), RequirementOf(["A-B"]), setting);
      && reduced.Ok? && reduced.value.requirement.instructionFeatures == []
      && var bound := BindReduction(digester, sealed, reduced.value.requirement, reduced.value.receipt);
      && bound.1.Ok?
      && !Accepts(digester, capsuleDigest, sealed, bound.0, reduced.value.requirement, reduced.value.receipt)
  {
    hide BindReduction, Reduce, Run, Accepts, ValidCapsule, BoundTo, Without, OneName, Splits, Orphans;
    SingleName("A-B");
    sealed := AgreementHasInstances(digester, ["A-B"], n);
    setting := Sweep(Only("A-B"), None);
    FeatureIsRemoved(digester, sealed, "A-B");
    NothingIsGiven("A-B");
    HyphenDivides();
    RunAgreesExactly(digester, capsuleDigest, sealed, ObservationOf(["A-B"]), RequirementOf(["A-B"]), setting);
  }

  lemma TwoNames()
    ensures OneName(["A-B", "A_B"]) && OneCapability(RequirementOf(["A-B", "A_B"]), "A_B")
    ensures !Unambiguous(RequirementOf(["A-B", "A_B"]))
  {
    var features := ["A-B", "A_B"];
    assert Less("-B", "_B");
    assert "A-B"[1..] == "-B" && "A_B"[1..] == "_B";
    assert CapabilitySuffix("A-B") == "a-b" == CapabilitySuffix("A_B");
    assert "A-B"[1] == '-' && features[0] in features && features[1] in features;
  }

  /** A full list of 64 on which an ambiguous name never leads to a refusal, though with any room it would. */
  lemma FullListAgrees(digester: Digester, capsuleDigest: ReplayCapsule -> Digest) returns (sealed: ReplayCapsule)
    ensures
      var original := RequirementOf(["A-B", "A_B"]);
      && Instance(digester, sealed, ObservationOf(["A-B", "A_B"]), original)
      && |sealed.requiredCapabilities| == 64 && !Unambiguous(original)
      && AlwaysAgree(digester, capsuleDigest, sealed, ObservationOf(["A-B", "A_B"]), original)
  {
    TwoNames();
    hide OneName, OneCapability, Unambiguous, AlwaysAgree, Refusable, ValidCapsule, BoundTo;
    var features := ["A-B", "A_B"];
    sealed := AgreementHasInstances(digester, features, 61);
    OneCapabilityAgrees(sealed, RequirementOf(features), "A_B");
    AgreementIsExact(digester, capsuleDigest, sealed, ObservationOf(features), RequirementOf(features));
  }
}
