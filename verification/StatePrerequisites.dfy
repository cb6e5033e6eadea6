/** Operating-system states and the features behind their feature: what one pass keeps. */
module StatePrerequisites {
  import opened Prelude
  import opened Prerequisites
  import opened ProcessorRequirement
  import opened ProcessorReducer
  import opened ReducerRuns
  import opened Sweeps

  ghost predicate ChainedTo(f: string, g: string) {
    f == g || FeatureReaches(f, g)
  }

  /** A kept state keeps its own feature and every feature that one requires. */
  ghost predicate ChainsKept(original: Requirement, view: Requirement) {
    forall s, f, g ::
      s in view.osEnabledStates && DerivedFrom(s, f) && ChainedTo(f, g) && g in original.instructionFeatures ==>
        g in view.instructionFeatures
  }

  /** The chain from xcr0.avx512 to AVX misses its middle link. */
  predicate BrokenChain(requirement: Requirement) {
    && "xcr0.avx512" in requirement.osEnabledStates
    && "AVX" in requirement.instructionFeatures
    && "AVX512F" !in requirement.instructionFeatures
  }

  lemma DerivedStates(s: string, f: string)
    requires DerivedFrom(s, f)
    ensures (s == "xcr0.avx" && f == "AVX") || (s == "xcr0.avx512" && f == "AVX512F")
  {
  }

  lemma AvxRequiresNothing(g: string)
    ensures !FeatureReaches("AVX", g)
  {
    if FeatureReaches("AVX", g) {
      var row := FirstRow(FEATURE_PREREQUISITES, "AVX", g);
    }
  }

  lemma Avx512fRequiresAvx(g: string)
    ensures FeatureReaches("AVX512F", g) ==> g == "AVX"
  {
    AvxRequiresNothing(g);
    if FeatureReaches("AVX512F", g) {
      var row := FirstRow(FEATURE_PREREQUISITES, "AVX512F", g);
      assert row == 3;
    }
  }

  /** Prerequisites kept and no broken chain: every chain is kept. */
  lemma KeptChains(original: Requirement, view: Requirement)
    requires PrerequisitesKept(original, view) && Within(view, original) && !BrokenChain(original)
    ensures ChainsKept(original, view)
  {
    forall s, f, g | s in view.osEnabledStates && DerivedFrom(s, f) && ChainedTo(f, g)
      && g in original.instructionFeatures
      ensures g in view.instructionFeatures
    {
      assert Present(OsEnabledState(s), view);
      assert s in original.osEnabledStates;
      DerivedStates(s, f);
      AvxRequiresNothing(g);
      Avx512fRequiresAvx(g);
    }
  }

  // A run that breaks the chain.

  /** Every dependent of the table except AVX512F, and AVX. */
  const AVX_GROUP: set<Constraint> := {
    InstructionFeature("AVX"), InstructionFeature("AVX2"), InstructionFeature("AVX512BW"),
    InstructionFeature("AVX512DQ"), InstructionFeature("AVX512VL"), InstructionFeature("FMA"),
    InstructionFeature("SSE4_2")}

  /** The part of the group that the requirement holds. */
  function AvxGroup(original: Requirement): set<Constraint> {
    set c | c in AVX_GROUP && Present(c, original)
  }

  lemma GroupIsSmall(original: Requirement)
    ensures |AvxGroup(original)| <= 7
  {
    var a, b, c := InstructionFeature("AVX"), InstructionFeature("AVX2"), InstructionFeature("AVX512BW");
    var d, e, f := InstructionFeature("AVX512DQ"), InstructionFeature("AVX512VL"), InstructionFeature("FMA");
    Subset(AvxGroup(original), {a, b} + {c, d} + {e, f} + {InstructionFeature("SSE4_2")});
  }

  lemma DependentIsListed(g: string, f: string)
    requires FeatureReaches(g, f) && g != "AVX512F"
    ensures InstructionFeature(g) in AVX_GROUP
  {
    var row := FirstRow(FEATURE_PREREQUISITES, g, f);
  }

  lemma AvxGroupIsClosed(original: Requirement)
    requires "AVX512F" !in original.instructionFeatures
    ensures ClosedGroup(AvxGroup(original), original)
  {
    hide AVX_GROUP, FeatureReaches;
    forall c, g | c in AvxGroup(original) && g in original.instructionFeatures && Needs(g, c)
      ensures InstructionFeature(g) in AvxGroup(original)
    {
      DependentIsListed(g, c.name);
    }
  }

  lemma GroupDerivesNothing(original: Requirement)
    ensures !Gone(AvxGroup(original), OsEnabledState("xcr0.avx512"))
  {
    forall a | a in AVX_GROUP
      ensures a != OsEnabledState("xcr0.avx512") && !Derives(a, OsEnabledState("xcr0.avx512"))
    {
      if Derives(a, OsEnabledState("xcr0.avx512")) {
        DerivedStates("xcr0.avx512", a.name);
      }
    }
  }

  lemma AvxIsGone(original: Requirement)
    requires "AVX" in original.instructionFeatures
    ensures Gone(AvxGroup(original), InstructionFeature("AVX"))
  {
    assert InstructionFeature("AVX") in AvxGroup(original);
  }

  /** With the middle link missing, some run keeps xcr0.avx512 and removes AVX. */
  lemma BrokenChainLosesAvx(original: Requirement)
    requires ValidRequirement(original) && BrokenChain(original)
    ensures
      var run := Run(Sweep(AvxGroup(original), None), original);
      && run.Ok?
      && "xcr0.avx512" in run.value.reduced.osEnabledStates
      && "AVX" !in run.value.reduced.instructionFeatures
  {
    hide Run, ValidRequirement, Sweep, AvxGroup, ClosedGroup, Gone;
    AvxGroupIsClosed(original);
    GroupIsSmall(original);
    SweepRuns(AvxGroup(original), None, original);
    GroupDerivesNothing(original);
    AvxIsGone(original);
    var left := Run(Sweep(AvxGroup(original), None), original).value.reduced;
    assert Present(OsEnabledState("xcr0.avx512"), left) && !Present(InstructionFeature("AVX"), left);
  }

  /** Every run keeps the chains behind each state in its result and in every trial view. */
  ghost predicate ChainsAlwaysKept(original: Requirement) {
    forall setting: Setting :: ValidPolicy(setting.policy) && Run(setting, original).Ok? ==>
      ChainsKeptIn(original, Run(setting, original).value)
  }

  ghost predicate ChainsKeptIn(original: Requirement, p: Progress) {
    && ChainsKept(original, p.reduced)
    && forall i :: 0 <= i < |p.attempts| ==> ChainsKept(original, p.attempts[i].candidate)
  }

  lemma BrokenChainIsNotKept(original: Requirement)
    requires ValidRequirement(original) && BrokenChain(original)
    ensures
      Run(Sweep(AvxGroup(original), None), original).Ok?
        && !ChainsKept(original, Run(Sweep(AvxGroup(original), None), original).value.reduced)
  {
    BrokenChainLosesAvx(original);
    assert FeatureReaches("AVX512F", "AVX") by {
      assert [3][..0] == [];
      assert Walk(FEATURE_PREREQUISITES, [3], "AVX512F", "AVX");
    }
    assert DerivedFrom("xcr0.avx512", "AVX512F") by {
      assert OS_STATE_REQUIRED_FEATURE[1] == ("xcr0.avx512", "AVX512F");
    }
  }

  lemma UnbrokenChainsAreKept(setting: Setting, original: Requirement)
    requires ValidRequirement(original) && !BrokenChain(original)
    requires ValidPolicy(setting.policy) && Run(setting, original).Ok?
    ensures ChainsKeptIn(original, Run(setting, original).value)
  {
    var p := Run(setting, original).value;
    PrerequisitesSurvive(setting, original);
    RunInvariant(setting, original);
    KeptChains(original, p.reduced);
    forall i | 0 <= i < |p.attempts|
      ensures ChainsKept(original, p.attempts[i].candidate)
    {
      KeptChains(original, p.attempts[i].candidate);
    }
  }

  /**
   * The exact condition for states. Every run keeps the whole chain behind
   * each kept state, in its result and in every trial view, if and only if the
   * starting requirement does not hold xcr0.avx512 and AVX without AVX512F.
   */
  lemma StateChainsAreExact(original: Requirement)
    requires ValidRequirement(original)
    ensures ChainsAlwaysKept(original) <==> !BrokenChain(original)
  {
    if BrokenChain(original) {
      BrokenChainIsNotKept(original);
      assert ValidPolicy(Sweep(AvxGroup(original), None).policy);
      assert !ChainsKeptIn(original, Run(Sweep(AvxGroup(original), None), original).value);
    } else {
      forall setting: Setting | ValidPolicy(setting.policy) && Run(setting, original).Ok?
        ensures ChainsKeptIn(original, Run(setting, original).value)
      {
        UnbrokenChainsAreKept(setting, original);
      }
    }
  }
}
