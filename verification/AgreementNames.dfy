/** When the names alone decide the agreement, and a full list on which they do not. */
module AgreementNames {
  import opened Prelude
  import opened ProcessorNames
  import opened Capsule
  import opened Prerequisites
  import opened ProcessorRequirement
  import opened ProcessorReducer
  import opened ReducerRuns
  import opened Sweeps
  import opened Agreement
  import opened CapabilityNames
  import opened AgreementRuns
  import opened AgreementRoom
  import opened AgreementExact

  /** A name of the requirement that normalization changes for good. */
  predicate Ambiguous(c: Constraint, original: Requirement) {
    && Present(c, original)
    && ((c.InstructionFeature? && !Lacks(c.name, '-')) || (c.OsEnabledState? && !Lacks(c.name, '_')))
  }

  /** No other constraint stands for the same capability. */
  ghost predicate Unshared(c: Constraint, original: Requirement) {
    forall d :: Present(d, original) && SameCapability(c, d) ==> d == c
  }

  /** Removing this constraint alone frees a place in the list. */
  ghost predicate Frees(c: Constraint, original: Requirement) {
    Present(c, original) && !Blocked(c, original) && Unshared(c, original)
  }

  /** No feature of the prerequisite table has a hyphen, so nothing blocks one that does. */
  lemma HyphenIsNeverBlocked(f: string, requirement: Requirement)
    requires !Lacks(f, '-')
    ensures !Blocked(InstructionFeature(f), requirement)
  {
    var table := FEATURE_PREREQUISITES;
    forall i | 0 <= i < |table|
      ensures Lacks(table[i].prerequisite, '-')
    {
      assert table[i].prerequisite in ["AVX", "AVX512F", "SSE4_1"];
    }
    forall g
      ensures !FeatureReaches(g, f)
    {
      if FeatureReaches(g, f) {
        ReachedIsPrerequisite(table, g, f);
      }
    }
  }

  lemma AmbiguousIsFree(c: Constraint, original: Requirement)
    requires Ambiguous(c, original)
    ensures !Blocked(c, original)
  {
    if c.InstructionFeature? {
      HyphenIsNeverBlocked(c.name, original);
    }
  }

  lemma AmbiguousNameExists(original: Requirement) returns (c: Constraint)
    requires !Unambiguous(original)
    ensures Ambiguous(c, original)
  {
    if exists f :: f in original.instructionFeatures && !Lacks(f, '-') {
      var f :| f in original.instructionFeatures && !Lacks(f, '-');
      c := InstructionFeature(f);
    } else {
      var s :| s in original.osEnabledStates && !Lacks(s, '_');
      c := OsEnabledState(s);
    }
  }

  /** Constraints that nothing blocks make a closed group. */
  lemma UnblockedIsClosed(group: set<Constraint>, original: Requirement)
    requires forall c :: c in group ==> Present(c, original) && !Blocked(c, original)
    ensures ClosedGroup(group, original)
  {
    forall c, g | c in group && g in original.instructionFeatures
      ensures !Needs(g, c)
    {
      assert Needs(g, c) ==> Blocked(c, original);
    }
  }

  /** The canonical form of an ambiguous name is another name of the same capability. */
  lemma FormIsAnother(a: Constraint, original: Requirement)
    requires ValidRequirement(original) && Ambiguous(a, original)
    ensures SameCapability(a, CanonicalForm(a)) && CanonicalForm(a) != a
  {
    FormSharesCapability(a);
    if a.InstructionFeature? {
      InverseLacksHyphen(CapabilitySuffix(a.name));
    } else {
      SuffixLacksUnderscore(a.name);
    }
  }

  lemma AmbiguousIsNotDerived(a: Constraint, group: set<Constraint>, original: Requirement)
    requires Ambiguous(a, original) && Gone(group, a)
    ensures a in group
  {
    var b :| b in group && (b == a || Derives(b, a));
    if b != a {
      DerivedIsListed(b, a);
      assert false;
    }
  }

  /** Removing an ambiguous name without its other names splits its capability or orphans it. */
  lemma AmbiguousDivides(a: Constraint, group: set<Constraint>, original: Requirement)
    requires ValidRequirement(original) && Ambiguous(a, original) && a in group
    requires a.InstructionFeature? || Unshared(a, original)
    requires forall c :: c in group && SameCapability(a, c) ==> c == a
    ensures Splits(original, Without(group, original)) || Orphans(original, Without(group, original))
  {
    var left := Without(group, original);
    FormIsAnother(a, original);
    GoneWithout(group, original, a);
    assert Gone(group, a);
    if Given(a, left) {
      var d :| Present(d, left) && SameCapability(a, d);
      GoneWithout(group, original, d);
      assert a.InstructionFeature?;
      assert ReadsAsPresent(a, left);
    } else {
      FormIsNotLeft(a, group, original);
    }
  }

  lemma FormIsNotLeft(a: Constraint, group: set<Constraint>, original: Requirement)
    requires ValidRequirement(original) && Ambiguous(a, original)
    requires a.InstructionFeature? || Unshared(a, original)
    requires forall c :: c in group && SameCapability(a, c) ==> c == a
    requires !Given(a, Without(group, original))
    ensures !Present(CanonicalForm(a), original)
  {
    var form := CanonicalForm(a);
    FormIsAnother(a, original);
    if Present(form, original) {
      assert a.InstructionFeature? && form !in group;
      GoneWithout(group, original, form);
      if Gone(group, form) {
        var b :| b in group && (b == form || Derives(b, form));
        assert false;
      }
    }
  }

  /** One unshared, unblocked removal loses its capability, whatever else goes. */
  lemma FreedIsNotGiven(f: Constraint, group: set<Constraint>, original: Requirement)
    requires Frees(f, original) && f in group
    ensures FreesPlace(original, Without(group, original))
  {
    var left := Without(group, original);
    GoneWithout(group, original, f);
    assert Gone(group, f);
    if Given(f, left) && !f.IdentityConstraint? {
      var d :| Present(d, left) && SameCapability(f, d);
      GoneWithout(group, original, d);
    }
    assert !Given(f, left);
  }

  /** The group that an ambiguous name and what frees a place make together. */
  function AmbiguousGroup(a: Constraint, free: Option<Constraint>): set<Constraint> {
    (if a.InstructionFeature? then {a} else {}) + (if free.Some? then {free.value} else {})
  }

  lemma GroupDivides(a: Constraint, free: Option<Constraint>, original: Requirement)
    requires ValidRequirement(original) && Ambiguous(a, original)
    requires free.Some? ==> Frees(free.value, original)
    ensures Divisive(AmbiguousGroup(a, free), original)
  {
    var group := AmbiguousGroup(a, free);
    AmbiguousIsFree(a, original);
    UnblockedIsClosed(group, original);
    GroupIsSmall(a, free);
    GroupHasOneName(a, free, original);
    if a in group {
      if !a.InstructionFeature? {
        assert free == Some(a);
      }
      AmbiguousDivides(a, group, original);
    } else {
      StateIsLeft(a, group, original);
    }
  }

  lemma GroupIsSmall(a: Constraint, free: Option<Constraint>)
    ensures |AmbiguousGroup(a, free)| <= 2
  {
  }

  lemma GroupHasOneName(a: Constraint, free: Option<Constraint>, original: Requirement)
    requires Ambiguous(a, original) && (free.Some? ==> Frees(free.value, original))
    ensures forall c :: c in AmbiguousGroup(a, free) && SameCapability(a, c) ==> c == a
  {
    forall c | c in AmbiguousGroup(a, free) && SameCapability(a, c)
      ensures c == a
    {
      assert SameCapability(c, a);
    }
  }

  lemma StateIsLeft(a: Constraint, group: set<Constraint>, original: Requirement)
    requires Ambiguous(a, original) && a !in group && a.OsEnabledState?
    ensures Unreadable(a) && Present(a, Without(group, original))
  {
    GoneWithout(group, original, a);
    if Gone(group, a) {
      AmbiguousIsNotDerived(a, group, original);
    }
  }

  /** There is a place for the reduction's own capability, or some single removal frees one. */
  ghost predicate RoomForReduction(sealed: ReplayCapsule, original: Requirement) {
    |sealed.requiredCapabilities| < 64 || exists f :: Frees(f, original)
  }

  lemma AmbiguousIsRefusable(sealed: ReplayCapsule, original: Requirement)
    requires ValidRequirement(original) && !Unambiguous(original) && RoomForReduction(sealed, original)
    ensures Refusable(sealed, original)
  {
    hide Divisive, Without, FreesPlace, ValidRequirement, Unambiguous;
    var a := AmbiguousNameExists(original);
    var free: Option<Constraint> := None;
    if |sealed.requiredCapabilities| >= 64 {
      var f :| Frees(f, original);
      free := Some(f);
      FreedIsNotGiven(f, AmbiguousGroup(a, free), original);
    }
    GroupDivides(a, free, original);
  }

  lemma UnambiguousIsNotRefusable(sealed: ReplayCapsule, original: Requirement)
    requires ValidRequirement(original) && Unambiguous(original)
    ensures !Refusable(sealed, original)
  {
    hide Splits, Orphans, Without;
    forall group
      ensures !Divisive(group, original)
    {
      WithoutLeaves(group, original);
      UnambiguousIsWhole(original, Without(group, original));
      forall c | Present(c, Without(group, original))
        ensures !Unreadable(c)
      {
        assert Present(c, original);
      }
    }
  }

  /**
   * With a place in the list, or one removal that frees one, the names decide
   * alone: every run that binds is accepted if and only if no feature name has
   * a hyphen and no state name has an underscore.
   */
  lemma NamesDecide(digester: Digester, capsuleDigest: ReplayCapsule -> Digest, sealed: ReplayCapsule,
                    observation: ProcessorObservation, original: Requirement)
    requires ValidCapsule(sealed) && BoundTo(digester, sealed, original)
    requires ValidObservation(observation)
    requires observation.architecture == original.architecture && observation.abi == original.abi
    requires Unambiguous(original) || RoomForReduction(sealed, original)
    ensures AlwaysAgree(digester, capsuleDigest, sealed, observation, original) <==> Unambiguous(original)
  {
    hide Refusable, AlwaysAgree, ValidCapsule, BoundTo, Unambiguous, RoomForReduction, ValidObservation;
    BoundIsValid(digester, sealed, original);
    AgreementIsExact(digester, capsuleDigest, sealed, observation, original);
    if Unambiguous(original) {
      UnambiguousIsNotRefusable(sealed, original);
    } else {
      AmbiguousIsRefusable(sealed, original);
    }
  }

  // One capability under several names.

  /** Nothing but features, all of one capability, and the checker's own name for it among them. */
  predicate OneCapability(original: Requirement, name: string) {
    && original.identity.None? && original.osEnabledStates == []
    && name in original.instructionFeatures && Lacks(name, '-')
    && forall f :: f in original.instructionFeatures ==> CapabilitySuffix(f) == CapabilitySuffix(name)
  }

  /** Losing its capability takes every name of such a requirement. */
  lemma EveryNameIsGone(original: Requirement, name: string, left: Requirement)
    requires OneCapability(original, name) && Within(left, original) && FreesPlace(original, left)
    ensures forall c :: !Present(c, left)
  {
    var c :| Present(c, original) && !Given(c, left);
    forall d | Present(d, left)
      ensures false
    {
      assert Present(d, original) && SameCapability(c, d);
    }
  }

  /**
   * On a full list such a requirement is never refused, though its other names
   * are all ambiguous: to bind, a run must remove them all, and then the
   * checker's own name is among the removals.
   */
  lemma OneCapabilityAgrees(sealed: ReplayCapsule, original: Requirement, name: string)
    requires ValidRequirement(original) && |sealed.requiredCapabilities| == 64 && OneCapability(original, name)
    ensures !Refusable(sealed, original)
  {
    hide Without, ClosedGroup;
    forall group | FreesPlace(original, Without(group, original))
      ensures !Divisive(group, original)
    {
      var left := Without(group, original);
      WithoutLeaves(group, original);
      EveryNameIsGone(original, name, left);
      forall c | Present(c, original)
        ensures !Given(c, left) && Present(CanonicalForm(c), original)
      {
        FeatureInversion(name);
      }
    }
  }
}
