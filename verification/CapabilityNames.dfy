/** What the checker reads out of capability names, and what the names keep of the constraints. */
module CapabilityNames {
  import opened Prelude
  import opened ProcessorNames
  import opened IdentityToken
  import opened ProcessorRequirement
  import opened ProcessorReducer
  import opened ReducerRuns
  import opened ProcessorBinding
  import opened Agreement

  /** Two names of one kind that normalize to the same capability. */
  predicate SameCapability(c: Constraint, d: Constraint) {
    match (c, d)
    case (InstructionFeature(f), InstructionFeature(g)) => CapabilitySuffix(f) == CapabilitySuffix(g)
    case (OsEnabledState(s), OsEnabledState(t)) => CapabilitySuffix(s) == CapabilitySuffix(t)
    case _ => false
  }

  /** The one name that the checker makes of the capability. */
  function CanonicalForm(c: Constraint): Constraint {
    match c
    case InstructionFeature(f) => InstructionFeature(FeatureOfSuffix(CapabilitySuffix(f)))
    case OsEnabledState(s) => OsEnabledState(CapabilitySuffix(s))
    case IdentityConstraint => IdentityConstraint
  }

  function HostCapability(c: Constraint, original: Requirement): string
    requires Present(c, original)
  {
    match c
    case InstructionFeature(f) => FEATURE_PREFIX + CapabilitySuffix(f)
    case OsEnabledState(s) => OS_STATE_PREFIX + CapabilitySuffix(s)
    case IdentityConstraint => IDENTITY_PREFIX + EncodeIdentityToken(original.identity.value)
  }

  /** The requirement still gives the capability of this constraint, if need be under another name. */
  ghost predicate Given(c: Constraint, reduced: Requirement) {
    if c.IdentityConstraint? then reduced.identity.Some?
    else exists d :: Present(d, reduced) && SameCapability(c, d)
  }

  lemma PresentIsGiven(c: Constraint, reduced: Requirement)
    requires Present(c, reduced)
    ensures Given(c, reduced)
  {
    if !c.IdentityConstraint? {
      assert SameCapability(c, c);
    }
  }

  /** The host capability of a constraint is listed exactly while it is given. */
  lemma ListedWhileGiven(digester: Digester, original: Requirement, reduced: Requirement, c: Constraint)
    requires Present(c, original) && (reduced.identity.Some? ==> reduced.identity == original.identity)
    ensures CapabilityOf(digester.requirement, reduced, HostCapability(c, original)) <==> Given(c, reduced)
    ensures HostRequirement(HostCapability(c, original))
  {
    var capability := HostCapability(c, original);
    OwnByPrefix(digester.requirement, reduced, capability);
    match c {
      case InstructionFeature(f) => FeatureListed(f, reduced);
      case OsEnabledState(s) => StateListed(s, reduced);
      case IdentityConstraint =>
        assert IDENTITY_PREFIX <= capability;
    }
  }

  lemma FeatureListed(f: string, reduced: Requirement)
    ensures Named(FEATURE_PREFIX, reduced.instructionFeatures, FEATURE_PREFIX + CapabilitySuffix(f)) <==>
      Given(InstructionFeature(f), reduced)
  {
    var capability := FEATURE_PREFIX + CapabilitySuffix(f);
    assert capability[|FEATURE_PREFIX|..] == CapabilitySuffix(f);
    if Named(FEATURE_PREFIX, reduced.instructionFeatures, capability) {
      var g :| g in reduced.instructionFeatures && capability == FEATURE_PREFIX + CapabilitySuffix(g);
      assert capability[|FEATURE_PREFIX|..] == CapabilitySuffix(g);
      assert Present(InstructionFeature(g), reduced) && SameCapability(InstructionFeature(f), InstructionFeature(g));
    }
    if Given(InstructionFeature(f), reduced) {
      var d :| Present(d, reduced) && SameCapability(InstructionFeature(f), d);
      assert d.name in reduced.instructionFeatures;
    }
  }

  lemma StateListed(s: string, reduced: Requirement)
    ensures Named(OS_STATE_PREFIX, reduced.osEnabledStates, OS_STATE_PREFIX + CapabilitySuffix(s)) <==>
      Given(OsEnabledState(s), reduced)
  {
    var capability := OS_STATE_PREFIX + CapabilitySuffix(s);
    assert capability[|OS_STATE_PREFIX|..] == CapabilitySuffix(s);
    if Named(OS_STATE_PREFIX, reduced.osEnabledStates, capability) {
      var t :| t in reduced.osEnabledStates && capability == OS_STATE_PREFIX + CapabilitySuffix(t);
      assert capability[|OS_STATE_PREFIX|..] == CapabilitySuffix(t);
      assert Present(OsEnabledState(t), reduced) && SameCapability(OsEnabledState(s), OsEnabledState(t));
    }
    if Given(OsEnabledState(s), reduced) {
      var d :| Present(d, reduced) && SameCapability(OsEnabledState(s), d);
      assert d.name in reduced.osEnabledStates;
    }
  }

  /** Every host requirement is the architecture or stands for some constraint. */
  lemma HostConstraint(digester: Digester, original: Requirement, capability: string) returns (c: Constraint)
    requires HostRequirement(capability) && CapabilityOf(digester.requirement, original, capability)
    requires capability != ArchitectureCapability(original.architecture)
    ensures Present(c, original) && HostCapability(c, original) == capability
  {
    OwnByPrefix(digester.requirement, original, capability);
    if FEATURE_PREFIX <= capability {
      var f :| f in original.instructionFeatures && capability == FEATURE_PREFIX + CapabilitySuffix(f);
      c := InstructionFeature(f);
    } else if OS_STATE_PREFIX <= capability {
      var s :| s in original.osEnabledStates && capability == OS_STATE_PREFIX + CapabilitySuffix(s);
      c := OsEnabledState(s);
    } else {
      c := IdentityConstraint;
    }
  }

  // The presence test by name.

  /** What the checker's presence test answers: a state with an underscore is never found. */
  ghost predicate ReadsAsPresent(c: Constraint, reduced: Requirement) {
    Given(c, reduced) && (c.OsEnabledState? ==> Lacks(c.name, '_'))
  }

  lemma FeatureReads(digester: Digester, reduced: Requirement, expected: seq<string>, f: string)
    requires ValidFeature(f) && |f| <= 96 && ListsReduced(digester, reduced, expected)
    ensures ConstraintPresent(FEATURE_LABEL + f, expected) == Ok(Given(InstructionFeature(f), reduced))
  {
    assert (FEATURE_LABEL + f)[|FEATURE_LABEL|..] == f;
    FeatureNormalizes(f);
    OwnByPrefix(digester.requirement, reduced, FEATURE_PREFIX + CapabilitySuffix(f));
    FeatureListed(f, reduced);
  }

  lemma StateReads(digester: Digester, reduced: Requirement, expected: seq<string>, s: string)
    requires ValidState(s) && ListsReduced(digester, reduced, expected)
    ensures ConstraintPresent(STATE_LABEL + s, expected) == Ok(ReadsAsPresent(OsEnabledState(s), reduced))
  {
    assert (STATE_LABEL + s)[0] == 'o' && FEATURE_LABEL[0] == 'i';
    assert (STATE_LABEL + s)[|STATE_LABEL|..] == s;
    var capability := OS_STATE_PREFIX + s;
    OwnByPrefix(digester.requirement, reduced, capability);
    StateSuffix(s);
    StateListed(s, reduced);
    if !Lacks(s, '_') {
      UnderscoreIsNotNamed(s, reduced.osEnabledStates);
    }
  }

  /** No capability spells out a name with an underscore. */
  lemma UnderscoreIsNotNamed(s: string, states: seq<string>)
    requires !Lacks(s, '_')
    ensures !Named(OS_STATE_PREFIX, states, OS_STATE_PREFIX + s)
  {
    var capability := OS_STATE_PREFIX + s;
    assert capability[|OS_STATE_PREFIX|..] == s;
    forall t
      ensures capability != OS_STATE_PREFIX + CapabilitySuffix(t)
    {
      SuffixLacksUnderscore(t);
      assert (OS_STATE_PREFIX + CapabilitySuffix(t))[|OS_STATE_PREFIX|..] == CapabilitySuffix(t);
    }
  }

  lemma IdentityPresentByPrefix(digester: Digester, reduced: Requirement, expected: seq<string>)
    requires ListsReduced(digester, reduced, expected)
    ensures ConstraintPresent(IDENTITY_LABEL, expected) == Ok(reduced.identity.Some?)
  {
    assert IDENTITY_LABEL[0] == 'p' && FEATURE_LABEL[0] == 'i' && STATE_LABEL[0] == 'o';
    if reduced.identity.Some? {
      var capability := IDENTITY_PREFIX + EncodeIdentityToken(reduced.identity.value);
      assert capability in IdentityCapabilities(reduced.identity);
      assert capability in expected && IDENTITY_PREFIX <= capability;
    }
    forall x | x in expected && IDENTITY_PREFIX <= x
      ensures reduced.identity.Some?
    {
      OwnByPrefix(digester.requirement, reduced, x);
    }
  }

  /** The checker's presence test by name, for any constraint: exactly what the list lets it see. */
  lemma PresentByName(digester: Digester, reduced: Requirement, original: Requirement, expected: seq<string>,
                      c: Constraint)
    requires ValidRequirement(original) && NamesFit(original.instructionFeatures)
    requires Present(c, original) && ListsReduced(digester, reduced, expected)
    ensures ConstraintPresent(Label(c), expected) == Ok(ReadsAsPresent(c, reduced))
  {
    match c {
      case InstructionFeature(f) => FeatureReads(digester, reduced, expected, f);
      case OsEnabledState(s) => StateReads(digester, reduced, expected, s);
      case IdentityConstraint => IdentityPresentByPrefix(digester, reduced, expected);
    }
  }

  // The name of a loss.

  /** The checker's cascade table names the same states as the reducer's. */
  lemma CascadeTablesAgree(a: Constraint, c: Constraint, removed: set<string>)
    requires Derives(a, c) && Label(a) in removed
    ensures RemovedWithFeature(Label(c), removed)
  {
    assert OS_STATE_REQUIRED_FEATURE[0] == ("xcr0.avx", "AVX");
    assert OS_STATE_REQUIRED_FEATURE[1] == ("xcr0.avx512", "AVX512F");
    if c.name == "xcr0.avx" {
      assert Label(a) == "instruction-feature.AVX" && Label(c) == "os-enabled-state.xcr0.avx";
    } else {
      assert Label(a) == "instruction-feature.AVX512F" && Label(c) == "os-enabled-state.xcr0.avx512";
    }
  }

  lemma RemovalIsReported(digester: Digester, attempts: seq<Attempt>, c: Constraint)
    requires RemovalExplained(attempts, c)
    ensures
      var removed := RemovedLabels(TrialsOf(digester, attempts));
      Label(c) in removed || RemovedWithFeature(Label(c), removed)
  {
    var trials := TrialsOf(digester, attempts);
    var i :| 0 <= i < |attempts| && attempts[i].decision.Removed?
             && (attempts[i].constraint == c || Derives(attempts[i].constraint, c));
    assert trials[i] == TrialOf(digester, attempts[i], i);
    assert trials[i].testedConstraint in RemovedLabels(trials);
    if attempts[i].constraint != c {
      CascadeTablesAgree(attempts[i].constraint, c, RemovedLabels(trials));
    }
  }

  lemma LabelsApart(a: Constraint, b: Constraint)
    requires a != b
    ensures Label(a) != Label(b)
  {
    assert FEATURE_LABEL[0] == 'i' && STATE_LABEL[0] == 'o' && IDENTITY_LABEL[0] == 'p';
    match a {
      case InstructionFeature(f) =>
        assert Label(a)[|FEATURE_LABEL|..] == f;
        assert b.InstructionFeature? ==> Label(b)[|FEATURE_LABEL|..] == b.name;
      case OsEnabledState(s) =>
        assert Label(a)[|STATE_LABEL|..] == s;
        assert b.OsEnabledState? ==> Label(b)[|STATE_LABEL|..] == b.name;
      case IdentityConstraint =>
    }
  }

  lemma FormSharesCapability(c: Constraint)
    requires !c.IdentityConstraint?
    requires c.InstructionFeature? ==> ValidFeature(c.name)
    requires c.OsEnabledState? ==> ValidState(c.name)
    ensures SameCapability(c, CanonicalForm(c))
  {
    var suffix := CapabilitySuffix(c.name);
    forall i | 0 <= i < |suffix|
      ensures CapabilityChar(suffix[i])
    {
      if c.InstructionFeature? {
        assert FeatureChar(c.name[i]);
      } else {
        assert CapabilityChar(c.name[i]) || c.name[i] == '_';
      }
    }
    if c.InstructionFeature? {
      SuffixInversion(suffix);
    } else {
      assert CapabilitySuffix(suffix) == suffix;
    }
  }

  /** The checker turns a host capability into the label of the canonical form. */
  lemma CheckerNamesForm(c: Constraint, original: Requirement)
    requires Present(c, original)
    ensures RemovedConstraintFor(HostCapability(c, original)) == Some(Label(CanonicalForm(c)))
  {
    var capability := HostCapability(c, original);
    PrefixesDisjoint(capability);
    match c {
      case InstructionFeature(f) => assert capability[|FEATURE_PREFIX|..] == CapabilitySuffix(f);
      case OsEnabledState(s) => assert capability[|OS_STATE_PREFIX|..] == CapabilitySuffix(s);
      case IdentityConstraint =>
    }
  }

  /** A state that the kernel derives has no other name. */
  lemma DerivedHasOneName(c: Constraint, d: Constraint)
    requires c.OsEnabledState? && (d == OsEnabledState("xcr0.avx") || d == OsEnabledState("xcr0.avx512"))
    requires SameCapability(c, d) && ValidState(c.name)
    ensures c == d
  {
    var name := d.name;
    assert CapabilitySuffix(name) == name;
    assert forall i :: 0 <= i < |name| ==> name[i] != '-' && CapabilitySuffix(c.name)[i] == LowerChar(c.name[i]);
    forall i | 0 <= i < |c.name|
      ensures c.name[i] == name[i]
    {
      LowerKeeps(c.name[i], name[i]);
    }
    assert c.name == name;
  }

  lemma LowerKeeps(a: char, b: char)
    ensures (CapabilityChar(a) || a == '_') && LowerChar(a) == b && b != '-' ==> a == b
  {
  }

  lemma DerivedIsListed(a: Constraint, c: Constraint)
    requires Derives(a, c)
    ensures c == OsEnabledState("xcr0.avx") || c == OsEnabledState("xcr0.avx512")
  {
    assert OS_STATE_REQUIRED_FEATURE[0] == ("xcr0.avx", "AVX");
    assert OS_STATE_REQUIRED_FEATURE[1] == ("xcr0.avx512", "AVX512F");
  }
}
