/** Runs of an executor that removes a chosen group of constraints and may retain one more. */
module Sweeps {
  import opened Prelude
  import opened Ordering
  import opened Prerequisites
  import opened ProcessorRequirement
  import opened ProcessorReducer
  import opened ReducerRuns

  /** The group is removed; the constraint at position `kept`, if any, is tried and retained. */
  function Sweep(group: set<Constraint>, kept: Option<nat>): Setting {
    Setting(PRODUCTION, Executor(
      (at, c) => c in group || kept == Some(at),
      (at, requirement, limits) =>
        Ok(TrialResult(0, 0, if kept == Some(at) then TargetAbsent else TargetReproduced, 0, false, false))))
  }

  /** The group with what the guest kernel derives from it. */
  ghost predicate Gone(group: set<Constraint>, c: Constraint) {
    exists a :: a in group && (a == c || Derives(a, c))
  }

  /** Every feature of the requirement that needs one of the group is in the group too. */
  ghost predicate ClosedGroup(group: set<Constraint>, original: Requirement) {
    && (forall c :: c in group ==> Present(c, original))
    && forall c, g :: c in group && g in original.instructionFeatures && Needs(g, c) ==> InstructionFeature(g) in group
  }

  ghost predicate Needs(g: string, c: Constraint) {
    c.InstructionFeature? && g != c.name && FeatureReaches(g, c.name)
  }

  /** What is left of a requirement without the group. */
  ghost predicate Leaves(group: set<Constraint>, original: Requirement, left: Requirement) {
    Within(left, original) && forall c :: Present(c, left) <==> Present(c, original) && !Gone(group, c)
  }

  /** A state outside the group, so that its trial is neither blocked nor skipped. */
  ghost predicate KeepsState(group: set<Constraint>, original: Requirement, kept: Option<nat>) {
    kept.Some? ==>
      && kept.value < |Constraints(original)| && Constraints(original)[kept.value].OsEnabledState?
      && !Gone(group, Constraints(original)[kept.value])
  }

  /** At most sixteen trials: the group, and the one to retain. */
  predicate FitsSweep(group: set<Constraint>, kept: Option<nat>) {
    |group| + (if kept.Some? then 1 else 0) <= 16
  }

  /** The part of the group among the first `k` constraints. */
  function Swept(group: set<Constraint>, order: seq<Constraint>, k: nat): set<Constraint>
    requires k <= |order|
  {
    set c | c in group && c in order[..k]
  }

  predicate SweptAll(group: set<Constraint>, kept: Option<nat>, order: seq<Constraint>, k: nat)
    requires k <= |order|
  {
    Swept(group, order, k) == group && (kept.Some? ==> kept.value < k)
  }

  ghost predicate SweepProgress(group: set<Constraint>, kept: Option<nat>, original: Requirement, k: nat, x: Progress) {
    && k <= |Constraints(original)|
    && x.used == Usage(0, 0, 0)
    && (x.stopped ==> SweptAll(group, kept, Constraints(original), k))
    && Leaves(Swept(group, Constraints(original), k), original, x.reduced)
    && |x.attempts| <= |Swept(group, Constraints(original), k)| + (if kept.Some? && kept.value < k then 1 else 0)
    && (kept.Some? && kept.value < k ==> HasRetained(x.attempts, Constraints(original)[kept.value]))
  }

  lemma SweptNext(group: set<Constraint>, order: seq<Constraint>, k: nat)
    requires k < |order| && Distinct(order)
    ensures
      Swept(group, order, k + 1) == Swept(group, order, k) + (if order[k] in group then {order[k]} else {})
    ensures order[k] !in Swept(group, order, k) && Swept(group, order, k) <= group
  {
    assert order[..k + 1] == order[..k] + [order[k]];
  }

  lemma GoneNext(group: set<Constraint>, c: Constraint, x: Constraint)
    ensures Gone(group + {c}, x) <==> Gone(group, x) || c == x || Derives(c, x)
  {
    if Gone(group, x) {
      var a :| a in group && (a == x || Derives(a, x));
      assert a in group + {c};
    }
    assert c in group + {c};
  }

  lemma LeavesNext(group: set<Constraint>, c: Constraint, original: Requirement, left: Requirement)
    requires Leaves(group, original, left)
    ensures Leaves(group + {c}, original, Remove(c, left))
  {
    hide Within, Gone, Present, Remove;
    RemovalIsWithin(original, c, left);
    forall x
      ensures Present(x, Remove(c, left)) <==> Present(x, original) && !Gone(group + {c}, x)
    {
      RemovePresence(c, left, x);
      GoneNext(group, c, x);
    }
  }

  /** A state that is already gone changes nothing when its turn comes. */
  lemma LeavesSame(group: set<Constraint>, c: Constraint, original: Requirement, left: Requirement)
    requires Leaves(group, original, left) && Present(c, original) && !Present(c, left) && c !in group
    ensures Leaves(group + {c}, original, left)
  {
    hide Within, Present;
    var a :| a in group && (a == c || Derives(a, c));
    forall x
      ensures Present(x, left) <==> Present(x, original) && !Gone(group + {c}, x)
    {
      GoneNext(group, c, x);
    }
  }

  lemma EarlierIsGone(group: set<Constraint>, order: seq<Constraint>, k: nat, i: nat)
    requires i < k <= |order| && order[i] in group
    ensures Gone(Swept(group, order, k), order[i])
  {
    assert order[..k][i] == order[i];
    assert order[i] in Swept(group, order, k);
  }

  /** A feature comes before every feature that it needs. */
  lemma NeedyComesFirst(original: Requirement, g: string, k: nat) returns (i: nat)
    requires ValidRequirement(original) && k < |Constraints(original)| && g in original.instructionFeatures
    requires Needs(g, Constraints(original)[k])
    ensures i < k && Constraints(original)[i] == InstructionFeature(g)
  {
    var order := Constraints(original);
    ConstraintsAreCanonical(original);
    assert Present(InstructionFeature(g), original);
    i :| i < |order| && order[i] == InstructionFeature(g);
    DependentIsDeeper(g, order[k].name);
    DeeperComesFirst(order, original, i, k);
  }

  /** By its turn every dependent of a feature of the group is gone. */
  lemma SweepIsUnblocked(group: set<Constraint>, original: Requirement, k: nat, left: Requirement)
    requires ValidRequirement(original) && ClosedGroup(group, original) && k < |Constraints(original)|
    requires Leaves(Swept(group, Constraints(original), k), original, left) && Constraints(original)[k] in group
    ensures !Blocked(Constraints(original)[k], left)
  {
    hide Constraints, ValidRequirement, Swept, Gone, Within, FeatureReaches;
    var c := Constraints(original)[k];
    if Blocked(c, left) {
      var g :| g in left.instructionFeatures && g != c.name && FeatureReaches(g, c.name);
      assert Present(InstructionFeature(g), left) && Needs(g, c);
      assert Present(InstructionFeature(g), original);
      var i := NeedyComesFirst(original, g, k);
      EarlierIsGone(group, Constraints(original), k, i);
    }
  }

  /** One unblocked trial at no cost. */
  lemma FreeTrial(group: set<Constraint>, kept: Option<nat>, at: nat, c: Constraint, x: Progress)
    requires c in group || kept == Some(at)
    requires ValidRequirement(x.reduced) && Present(c, x.reduced) && !Blocked(c, x.reduced)
    requires !x.stopped && x.used == Usage(0, 0, 0) && |x.attempts| < 16
    ensures
      var r := Step(Sweep(group, kept), at, c, x);
      && r.Ok? && !r.value.stopped && r.value.used == Usage(0, 0, 0) && |r.value.attempts| == |x.attempts| + 1
      && r.value.attempts[..|x.attempts|] == x.attempts
      && r.value.reduced == (if kept == Some(at) then x.reduced else Remove(c, x.reduced))
      && (kept == Some(at) ==> HasRetained(r.value.attempts, c))
  {
    hide Remove, Present, Blocked, ValidRequirement;
    RemoveKeepsValid(c, x.reduced);
    GrantExists(PRODUCTION, x.used);
    var r := Step(Sweep(group, kept), at, c, x);
    assert r.Ok? && r.value.attempts[|x.attempts|].constraint == c;
  }

  lemma RetainedStays(attempts: seq<Attempt>, longer: seq<Attempt>, c: Constraint)
    requires HasRetained(attempts, c) && |attempts| <= |longer| && longer[..|attempts|] == attempts
    ensures HasRetained(longer, c)
  {
    var i :| 0 <= i < |attempts| && attempts[i].decision.Retained? && attempts[i].constraint == c;
    assert longer[i] == attempts[i];
  }

  lemma SweepTries(group: set<Constraint>, kept: Option<nat>, original: Requirement, k: nat, x: Progress)
    requires ValidRequirement(original) && ClosedGroup(group, original) && FitsSweep(group, kept)
    requires KeepsState(group, original, kept) && k < |Constraints(original)|
    requires SweepProgress(group, kept, original, k, x) && !x.stopped
    requires Constraints(original)[k] in group && Present(Constraints(original)[k], x.reduced)
    ensures
      var r := Step(Sweep(group, kept), k, Constraints(original)[k], x);
      r.Ok? && SweepProgress(group, kept, original, k + 1, r.value)
  {
    var order := Constraints(original);
    ConstraintsAreCanonical(original);
    hide Constraints, CanonicalOrder, Leaves, Present, Blocked, ValidRequirement, ClosedGroup, KeepsState, Step, Swept,
      Sweep;
    SweptNext(group, order, k);
    Subset(Swept(group, order, k) + {order[k]}, group);
    SweepIsUnblocked(group, original, k, x.reduced);
    KeptIsOutside(group, original, kept);
    LeavesValid(Swept(group, order, k), original, x.reduced);
    FreeTrial(group, kept, k, order[k], x);
    LeavesNext(Swept(group, order, k), order[k], original, x.reduced);
    var r := Step(Sweep(group, kept), k, order[k], x).value;
    if kept.Some? && kept.value < k {
      RetainedStays(x.attempts, r.attempts, order[kept.value]);
    }
  }

  lemma LeavesValid(group: set<Constraint>, original: Requirement, left: Requirement)
    requires Leaves(group, original, left)
    ensures ValidRequirement(left)
  {
  }

  lemma KeptIsOutside(group: set<Constraint>, original: Requirement, kept: Option<nat>)
    requires KeepsState(group, original, kept)
    ensures kept.Some? ==> kept.value < |Constraints(original)| && Constraints(original)[kept.value] !in group
  {
  }

  lemma SweepRetains(group: set<Constraint>, kept: Option<nat>, original: Requirement, k: nat, x: Progress)
    requires ValidRequirement(original) && FitsSweep(group, kept) && KeepsState(group, original, kept)
    requires kept == Some(k) && k < |Constraints(original)| && !x.stopped && SweepProgress(group, kept, original, k, x)
    ensures
      var r := Step(Sweep(group, kept), k, Constraints(original)[k], x);
      r.Ok? && SweepProgress(group, kept, original, k + 1, r.value)
  {
    var order := Constraints(original);
    ConstraintsAreCanonical(original);
    SweptNext(group, order, k);
    Subset(Swept(group, order, k), group);
    KeptIsOutside(group, original, kept);
    KeptIsPresent(group, original, k, x.reduced);
    LeavesValid(Swept(group, order, k), original, x.reduced);
    hide Constraints, CanonicalOrder, Leaves, Present;
    FreeTrial(group, kept, k, order[k], x);
  }

  lemma KeptIsPresent(group: set<Constraint>, original: Requirement, k: nat, left: Requirement)
    requires ValidRequirement(original) && k < |Constraints(original)| && !Gone(group, Constraints(original)[k])
    requires Leaves(Swept(group, Constraints(original), k), original, left)
    ensures Present(Constraints(original)[k], left)
  {
    ConstraintsAreCanonical(original);
    assert Constraints(original)[k] in Constraints(original);
  }

  /** An unchanged requirement is what the next position leaves too. */
  lemma LeavesStill(group: set<Constraint>, original: Requirement, k: nat, left: Requirement)
    requires ValidRequirement(original) && k < |Constraints(original)|
    requires Leaves(Swept(group, Constraints(original), k), original, left)
    requires !(Constraints(original)[k] in group && Present(Constraints(original)[k], left))
    ensures Leaves(Swept(group, Constraints(original), k + 1), original, left)
    ensures |Swept(group, Constraints(original), k)| <= |Swept(group, Constraints(original), k + 1)|
  {
    var order := Constraints(original);
    ConstraintsAreCanonical(original);
    assert order[k] in order && Present(order[k], original);
    hide Constraints, CanonicalOrder, Leaves, Present, Swept, ValidRequirement;
    SweptNext(group, order, k);
    if order[k] in group {
      LeavesSame(Swept(group, order, k), order[k], original, left);
    }
    Subset(Swept(group, order, k), Swept(group, order, k + 1));
  }

  /** A constraint outside the sweep changes nothing; only a used-up trial count stops the run. */
  lemma OutsideStep(group: set<Constraint>, kept: Option<nat>, at: nat, c: Constraint, x: Progress)
    requires kept != Some(at) && !(c in group && Present(c, x.reduced)) && !x.stopped
    ensures
      var r := Step(Sweep(group, kept), at, c, x);
      && r.Ok? && r.value.reduced == x.reduced && r.value.attempts == x.attempts && r.value.used == x.used
      && (r.value.stopped ==> |x.attempts| >= 16)
  {
    hide Present, Blocked, RemainingTrialLimits;
  }

  lemma SweepSkips(group: set<Constraint>, kept: Option<nat>, original: Requirement, k: nat, x: Progress)
    requires ValidRequirement(original) && FitsSweep(group, kept)
    requires kept != Some(k) && k < |Constraints(original)| && !x.stopped && SweepProgress(group, kept, original, k, x)
    requires !(Constraints(original)[k] in group && Present(Constraints(original)[k], x.reduced))
    ensures
      var r := Step(Sweep(group, kept), k, Constraints(original)[k], x);
      r.Ok? && SweepProgress(group, kept, original, k + 1, r.value)
  {
    var order := Constraints(original);
    ConstraintsAreCanonical(original);
    LeavesStill(group, original, k, x.reduced);
    hide Constraints, CanonicalOrder, Leaves, Present, Swept, SweptAll, ValidRequirement, Step, Sweep, HasRetained;
    OutsideStep(group, kept, k, order[k], x);
    if |x.attempts| >= 16 {
      EverythingSwept(group, kept, order, k, |x.attempts|);
    }
  }

  /** Sixteen trials are the whole sweep. */
  lemma EverythingSwept(group: set<Constraint>, kept: Option<nat>, order: seq<Constraint>, k: nat, tried: nat)
    requires k < |order| && Distinct(order) && FitsSweep(group, kept)
    requires 16 <= tried <= |Swept(group, order, k)| + (if kept.Some? && kept.value < k then 1 else 0)
    ensures SweptAll(group, kept, order, k) && SweptAll(group, kept, order, k + 1)
  {
    SweptNext(group, order, k);
    Subset(Swept(group, order, k), group);
    Subset(Swept(group, order, k + 1), group);
  }

  lemma SweepStep(group: set<Constraint>, kept: Option<nat>, original: Requirement, k: nat, x: Progress)
    requires ValidRequirement(original) && ClosedGroup(group, original) && FitsSweep(group, kept)
    requires KeepsState(group, original, kept) && k < |Constraints(original)|
    requires SweepProgress(group, kept, original, k, x) && !x.stopped
    ensures
      var r := Step(Sweep(group, kept), k, Constraints(original)[k], x);
      r.Ok? && SweepProgress(group, kept, original, k + 1, r.value)
  {
    hide SweepProgress, ClosedGroup, FitsSweep, KeepsState, Step, Present, Constraints, ValidRequirement;
    if kept == Some(k) {
      SweepRetains(group, kept, original, k, x);
    } else if Constraints(original)[k] in group && Present(Constraints(original)[k], x.reduced) {
      SweepTries(group, kept, original, k, x);
    } else {
      SweepSkips(group, kept, original, k, x);
    }
  }

  lemma SweepStops(group: set<Constraint>, kept: Option<nat>, original: Requirement, k: nat, x: Progress)
    requires SweepProgress(group, kept, original, k, x) && x.stopped
    ensures SweepProgress(group, kept, original, |Constraints(original)|, x)
  {
    var order := Constraints(original);
    assert Swept(group, order, |order|) == group by {
      forall c | c in group
        ensures c in order[..|order|]
      {
        assert c in Swept(group, order, k);
        assert order[..k] <= order;
      }
    }
  }

  lemma SweepStarts(group: set<Constraint>, kept: Option<nat>, original: Requirement)
    requires ValidRequirement(original)
    ensures SweepProgress(group, kept, original, 0, Start(original)) && !Start(original).stopped
  {
    assert Swept(group, Constraints(original), 0) == {};
  }

  /** The sweep succeeds, leaves exactly what is outside the group, and retains the one it should. */
  lemma SweepRuns(group: set<Constraint>, kept: Option<nat>, original: Requirement)
    requires ValidRequirement(original) && ClosedGroup(group, original) && FitsSweep(group, kept)
    requires KeepsState(group, original, kept)
    ensures
      var run := Run(Sweep(group, kept), original);
      && run.Ok? && Leaves(group, original, run.value.reduced)
      && (kept.Some? ==> HasRetained(run.value.attempts, Constraints(original)[kept.value]))
  {
    hide Leaves, HasRetained, Step, Swept, ClosedGroup, KeepsState, FitsSweep;
    var order := Constraints(original);
    var holds := (k: nat, x: Progress) => SweepProgress(group, kept, original, k, x);
    SweepStarts(group, kept, original);
    forall k: nat, x: Progress | k < |order| && !x.stopped && holds(k, x)
      ensures Step(Sweep(group, kept), k, order[k], x).Ok?
      ensures holds(k + 1, Step(Sweep(group, kept), k, order[k], x).value)
    {
      SweepStep(group, kept, original, k, x);
    }
    forall k: nat, x: Progress | k <= |order| && x.stopped && holds(k, x)
      ensures holds(|order|, x)
    {
      SweepStops(group, kept, original, k, x);
    }
    RunSucceeds(Sweep(group, kept), order, 0, Start(original), holds);
    AllSwept(group, original);
    KeptIsOutside(group, original, kept);
  }

  lemma AllSwept(group: set<Constraint>, original: Requirement)
    requires ValidRequirement(original) && ClosedGroup(group, original)
    ensures Swept(group, Constraints(original), |Constraints(original)|) == group
  {
    ConstraintsAreCanonical(original);
    var order := Constraints(original);
    assert order[..|order|] == order;
  }
}
