/** What every run of the reducer keeps, for every executor and every valid policy. */
module ReducerRuns {
  import opened Prelude
  import opened Ordering
  import opened ProcessorRequirement
  import opened Prerequisites
  import opened ProcessorReducer

  // The trial order.

  /** How two constraints may follow one another in the trial order. */
  predicate OrderedPair(a: Constraint, b: Constraint) {
    match a
    case InstructionFeature(x) => b.InstructionFeature? ==> TrialBefore(x, b.name)
    case OsEnabledState(x) => b.IdentityConstraint? || (b.OsEnabledState? && Less(x, b.name))
    case IdentityConstraint => false
  }

  ghost predicate CanonicalOrder(order: seq<Constraint>, requirement: Requirement) {
    && (forall c :: c in order <==> Present(c, requirement))
    && Distinct(order)
    && forall i, j :: 0 <= i < j < |order| ==> OrderedPair(order[i], order[j])
  }

  lemma TrialBeforeTransitive(a: string, b: string, c: string)
    requires TrialBefore(a, b) && TrialBefore(b, c)
    ensures TrialBefore(a, c)
  {
    if Less(a, b) && Less(b, c) {
      LessTransitive(a, b, c);
    }
  }

  lemma {:induction false} InsertFeatureMembers(x: string, s: seq<string>)
    ensures multiset(InsertFeature(x, s)) == multiset(s) + multiset{x}
  {
    hide TrialBefore;
    if s != [] && !TrialBefore(x, s[0]) {
      InsertFeatureMembers(x, s[1..]);
      assert s == [s[0]] + s[1..];
    }
  }

  predicate InTrialOrder(s: seq<string>) {
    forall i, j :: 0 <= i < j < |s| ==> TrialBefore(s[i], s[j])
  }

  lemma TrialBeforeTotal(a: string, b: string)
    ensures TrialBefore(a, b) || TrialBefore(b, a)
  {
    LessTotal(a, b);
  }

  lemma {:induction false} InsertFeatureKeeps(x: string, s: seq<string>)
    requires InTrialOrder(s)
    ensures InTrialOrder(InsertFeature(x, s))
  {
    hide TrialBefore;
    if s == [] {
    } else if TrialBefore(x, s[0]) {
      forall j | 0 < j < |s|
        ensures TrialBefore(x, s[j])
      {
        TrialBeforeTransitive(x, s[0], s[j]);
      }
    } else {
      TrialBeforeTotal(x, s[0]);
      InsertFeatureKeeps(x, s[1..]);
      InsertFeatureMembers(x, s[1..]);
      var t := InsertFeature(x, s[1..]);
      forall j | 0 <= j < |t|
        ensures TrialBefore(s[0], t[j])
      {
        assert t[j] in multiset(t);
        assert t[j] == x || t[j] in s[1..];
      }
    }
  }

  lemma {:induction false} SortFeaturesSorts(s: seq<string>)
    ensures InTrialOrder(SortFeatures(s)) && multiset(SortFeatures(s)) == multiset(s)
  {
    hide InTrialOrder;
    if s != [] {
      SortFeaturesSorts(s[1..]);
      InsertFeatureKeeps(s[0], SortFeatures(s[1..]));
      InsertFeatureMembers(s[0], SortFeatures(s[1..]));
      assert s == [s[0]] + s[1..];
    } else {
      NothingInOrder();
    }
  }

  lemma NothingInOrder()
    ensures InTrialOrder([])
  {
  }

  /**
   * The trial order lists each constraint of a valid requirement once: features
   * by descending depth then name, then states by name, then the identity.
   */
  lemma SortedFeatureNames(requirement: Requirement)
    requires StrictlyAscending(requirement.instructionFeatures)
    ensures Distinct(SortFeatures(requirement.instructionFeatures))
    ensures forall f :: f in SortFeatures(requirement.instructionFeatures) <==> f in requirement.instructionFeatures
  {
    var features := SortFeatures(requirement.instructionFeatures);
    SortFeaturesSorts(requirement.instructionFeatures);
    StrictIsDistinct(requirement.instructionFeatures);
    forall i, j | 0 <= i < j < |features|
      ensures features[i] != features[j]
    {
      MultisetOfDistinct(requirement.instructionFeatures, features[i]);
      RepeatedMember(features, i, j);
    }
    forall f
      ensures f in features <==> f in requirement.instructionFeatures
    {
      assert f in multiset(features) <==> f in multiset(requirement.instructionFeatures);
    }
  }

  lemma ConstraintAt(requirement: Requirement, i: nat)
    requires i < |Constraints(requirement)|
    ensures
      var order, features := Constraints(requirement), SortFeatures(requirement.instructionFeatures);
      var n, m := |features|, |requirement.osEnabledStates|;
      && (i < n ==> order[i] == InstructionFeature(features[i]))
      && (n <= i < n + m ==> order[i] == OsEnabledState(requirement.osEnabledStates[i - n]))
      && (n + m <= i ==> order[i] == IdentityConstraint && i == n + m && requirement.identity.Some?)
  {
  }

  lemma ConstraintIsListed(requirement: Requirement, c: Constraint)
    requires Present(c, requirement)
    requires forall f :: f in SortFeatures(requirement.instructionFeatures) <==> f in requirement.instructionFeatures
    ensures c in Constraints(requirement)
  {
    var order, features := Constraints(requirement), SortFeatures(requirement.instructionFeatures);
    var n, m := |features|, |requirement.osEnabledStates|;
    match c {
      case InstructionFeature(name) =>
        var i :| 0 <= i < n && features[i] == name;
        assert order[i] == c;
      case OsEnabledState(name) =>
        var i :| 0 <= i < m && requirement.osEnabledStates[i] == name;
        assert order[n + i] == c;
      case IdentityConstraint =>
        assert order[n + m] == c;
    }
  }

  lemma ConstraintsAreOrdered(requirement: Requirement, i: nat, j: nat)
    requires StrictlyAscending(requirement.osEnabledStates) && i < j < |Constraints(requirement)|
    requires Distinct(SortFeatures(requirement.instructionFeatures))
    ensures OrderedPair(Constraints(requirement)[i], Constraints(requirement)[j])
    ensures Constraints(requirement)[i] != Constraints(requirement)[j]
  {
    SortFeaturesSorts(requirement.instructionFeatures);
    StrictIsDistinct(requirement.osEnabledStates);
    ConstraintAt(requirement, i);
    ConstraintAt(requirement, j);
  }

  lemma ConstraintsAreCanonical(requirement: Requirement)
    requires ValidRequirement(requirement)
    ensures CanonicalOrder(Constraints(requirement), requirement)
  {
    SortedFeatureNames(requirement);
    hide Constraints, OrderedPair, SortFeatures;
    forall i, j | 0 <= i < j < |Constraints(requirement)|
      ensures OrderedPair(Constraints(requirement)[i], Constraints(requirement)[j])
      ensures Constraints(requirement)[i] != Constraints(requirement)[j]
    {
      ConstraintsAreOrdered(requirement, i, j);
    }
    forall c
      ensures c in Constraints(requirement) <==> Present(c, requirement)
    {
      if c in Constraints(requirement) {
        var i: nat :| i < |Constraints(requirement)| && Constraints(requirement)[i] == c;
        ConstraintAt(requirement, i);
      }
      if Present(c, requirement) {
        ConstraintIsListed(requirement, c);
      }
    }
  }

  // One step, seen from outside.

  ghost predicate Skipped(setting: Setting, at: nat, c: Constraint, p: Progress, q: Progress) {
    && q.reduced == p.reduced && q.attempts == p.attempts && q.used == p.used
    && ( || (q == p && !Present(c, p.reduced))
         || (q == p.(reason := TrialLimit, stopped := true)
             && Present(c, p.reduced) && |p.attempts| >= setting.policy.maximumTrials)
         || (q == p.(reason := Uncontrollable)
             && Present(c, p.reduced) && |p.attempts| < setting.policy.maximumTrials
             && (Blocked(c, p.reduced) || !setting.executor.canControl(at, c)))
         || (RemainingTrialLimits(setting.policy, p.used).None?
             && q == p.(reason := ExhaustedReason(setting.policy, p.used), stopped := true)))
  }

  ghost predicate Tried(setting: Setting, at: nat, c: Constraint, p: Progress, q: Progress) {
    && q.attempts != []
    && var a := q.attempts[|q.attempts| - 1];
    && q.attempts == p.attempts + [a]
    && |p.attempts| < setting.policy.maximumTrials
    && Present(c, p.reduced) && !Blocked(c, p.reduced) && setting.executor.canControl(at, c)
    && a.at == at && a.constraint == c && a.usedBefore == p.used
    && RemainingTrialLimits(setting.policy, p.used) == Some(a.granted)
    && a.candidate == Remove(c, p.reduced) && ValidRequirement(a.candidate)
    && setting.executor.execute(at, a.candidate, a.granted) == Ok(a.result)
    && ResultTerminalReason(a.result, a.granted).Ok?
    && var stop := ResultTerminalReason(a.result, a.granted).value;
    && (a.decision.Removed? <==> stop.None? && a.result.outcome.TargetReproduced?)
    && q.reduced == (if a.decision.Removed? then a.candidate else p.reduced)
    && q.used == Charge(p.used, a.result)
    && var aggregate := AggregateLimitReason(setting.policy, q.used);
    && q.stopped == (stop.Some? || aggregate.Some?)
    && q.reason == (if stop.Some? then stop.value else if aggregate.Some? then aggregate.value else p.reason)
  }

  lemma StepSkips(setting: Setting, at: nat, c: Constraint, p: Progress)
    requires !p.stopped && Step(setting, at, c, p).Ok?
    requires
      || !Present(c, p.reduced) || |p.attempts| >= setting.policy.maximumTrials
      || Blocked(c, p.reduced) || !setting.executor.canControl(at, c)
      || RemainingTrialLimits(setting.policy, p.used).None?
    ensures Skipped(setting, at, c, p, Step(setting, at, c, p).value)
  {
    hide Present, Blocked, Remove, ValidRequirement, RemainingTrialLimits, ExhaustedReason, Conclude;
  }

  lemma StepTries(setting: Setting, at: nat, c: Constraint, p: Progress)
    requires !p.stopped && Step(setting, at, c, p).Ok?
    requires Present(c, p.reduced) && |p.attempts| < setting.policy.maximumTrials
    requires !Blocked(c, p.reduced) && setting.executor.canControl(at, c)
    requires RemainingTrialLimits(setting.policy, p.used).Some?
    ensures Tried(setting, at, c, p, Step(setting, at, c, p).value)
  {
    hide Present, Blocked, Remove, ValidRequirement, RemainingTrialLimits, AggregateLimitReason, Charge,
      ResultTerminalReason;
  }

  /** Every successful step either leaves the requirement alone or records exactly one trial. */
  lemma StepCases(setting: Setting, at: nat, c: Constraint, p: Progress)
    requires !p.stopped && Step(setting, at, c, p).Ok?
    ensures Skipped(setting, at, c, p, Step(setting, at, c, p).value)
         || Tried(setting, at, c, p, Step(setting, at, c, p).value)
  {
    hide Present, Blocked, RemainingTrialLimits, Step, Skipped, Tried;
    if !Present(c, p.reduced) || |p.attempts| >= setting.policy.maximumTrials
      || Blocked(c, p.reduced) || !setting.executor.canControl(at, c)
      || RemainingTrialLimits(setting.policy, p.used).None?
    {
      StepSkips(setting, at, c, p);
    } else {
      StepTries(setting, at, c, p);
    }
  }

  // Presence under removal.

  predicate Derives(a: Constraint, c: Constraint) {
    a.InstructionFeature? && c.OsEnabledState? && DerivedFrom(c.name, a.name)
  }

  /** Removing a constraint removes it, the states derived from it, and nothing else. */
  lemma RemovePresence(c: Constraint, requirement: Requirement, x: Constraint)
    ensures Present(x, Remove(c, requirement)) <==> Present(x, requirement) && x != c && !Derives(c, x)
  {
    match c {
      case InstructionFeature(name) =>
        FilterMembers(requirement.instructionFeatures, f => f != name);
        FilterMembers(requirement.osEnabledStates, s => !DerivedFrom(s, name));
      case OsEnabledState(name) =>
        FilterMembers(requirement.osEnabledStates, s => s != name);
      case IdentityConstraint =>
    }
  }

  /** Every trial view of a valid requirement validates, so that error branch never runs. */
  lemma RemoveKeepsValid(c: Constraint, requirement: Requirement)
    requires ValidRequirement(requirement)
    ensures ValidRequirement(Remove(c, requirement))
  {
    match c {
      case InstructionFeature(name) =>
        FilterMembers(requirement.instructionFeatures, f => f != name);
        FilterMembers(requirement.osEnabledStates, s => !DerivedFrom(s, name));
        FilterStrict(requirement.instructionFeatures, f => f != name);
        FilterStrict(requirement.osEnabledStates, s => !DerivedFrom(s, name));
      case OsEnabledState(name) =>
        FilterMembers(requirement.osEnabledStates, s => s != name);
        FilterStrict(requirement.osEnabledStates, s => s != name);
      case IdentityConstraint =>
    }
  }

  // Invariant 1: the trials account for the difference between the two requirements.

  ghost predicate HasRetained(attempts: seq<Attempt>, c: Constraint) {
    exists i :: 0 <= i < |attempts| && attempts[i].decision.Retained? && attempts[i].constraint == c
  }

  ghost predicate RemovalExplained(attempts: seq<Attempt>, c: Constraint) {
    exists i :: 0 <= i < |attempts| && attempts[i].decision.Removed?
                && (attempts[i].constraint == c || Derives(attempts[i].constraint, c))
  }

  ghost predicate Recorded(order: seq<Constraint>, at: nat, attempts: seq<Attempt>) {
    && (forall i :: 0 <= i < |attempts| ==>
          attempts[i].at < at && attempts[i].at < |order| && order[attempts[i].at] == attempts[i].constraint)
    && forall i, j :: 0 <= i < j < |attempts| ==> attempts[i].at < attempts[j].at
  }

  ghost predicate Within(reduced: Requirement, original: Requirement) {
    && ValidRequirement(reduced)
    && reduced.abi == original.abi && reduced.architecture == original.architecture
    && (reduced.identity.Some? ==> reduced.identity == original.identity)
    && forall c :: Present(c, reduced) ==> Present(c, original)
  }

  ghost predicate Accounted(original: Requirement, order: seq<Constraint>, at: nat, p: Progress) {
    && Within(p.reduced, original)
    && Recorded(order, at, p.attempts)
    && (forall i :: 0 <= i < |p.attempts| ==>
          (p.attempts[i].decision.Retained? <==> Present(p.attempts[i].constraint, p.reduced)))
    && forall c :: Present(c, original) && !Present(c, p.reduced) ==> RemovalExplained(p.attempts, c)
  }

  lemma TriedKeepsRecorded(setting: Setting, order: seq<Constraint>, at: nat, p: Progress, q: Progress)
    requires at < |order| && Recorded(order, at, p.attempts) && Tried(setting, at, order[at], p, q)
    ensures Recorded(order, at + 1, q.attempts)
  {
    forall i | 0 <= i < |p.attempts|
      ensures q.attempts[i] == p.attempts[i]
    {
    }
  }

  /** No earlier trial is touched by a later removal: states and identities come after the features they hang on. */
  lemma EarlierTrialsStand(original: Requirement, order: seq<Constraint>, at: nat, p: Progress, i: nat)
    requires CanonicalOrder(order, original) && at < |order|
    requires Recorded(order, at, p.attempts) && i < |p.attempts|
    ensures p.attempts[i].constraint != order[at] && !Derives(order[at], p.attempts[i].constraint)
  {
    assert OrderedPair(order[p.attempts[i].at], order[at]);
  }

  lemma TriedKeepsDecisions(setting: Setting, original: Requirement, order: seq<Constraint>, at: nat, p: Progress,
                            q: Progress)
    requires CanonicalOrder(order, original) && at < |order|
    requires Accounted(original, order, at, p) && Tried(setting, at, order[at], p, q)
    ensures forall i :: 0 <= i < |q.attempts| ==>
      (q.attempts[i].decision.Retained? <==> Present(q.attempts[i].constraint, q.reduced))
  {
    hide CanonicalOrder, Within, Recorded, RemovalExplained, Present, Remove, Derives, AggregateLimitReason,
      ResultTerminalReason, RemainingTrialLimits, Charge;
    var c := order[at];
    var n := |p.attempts|;
    RemovePresence(c, p.reduced, c);
    forall i | 0 <= i < |q.attempts|
      ensures q.attempts[i].decision.Retained? <==> Present(q.attempts[i].constraint, q.reduced)
    {
      if i < n {
        assert q.attempts[i] == p.attempts[i];
        EarlierTrialsStand(original, order, at, p, i);
        RemovePresence(c, p.reduced, p.attempts[i].constraint);
      }
    }
  }

  lemma TriedKeepsExplained(setting: Setting, original: Requirement, at: nat, c: Constraint, p: Progress, q: Progress,
                            x: Constraint)
    requires Tried(setting, at, c, p, q) && Present(x, original) && !Present(x, q.reduced)
    requires !Present(x, p.reduced) ==> RemovalExplained(p.attempts, x)
    ensures RemovalExplained(q.attempts, x)
  {
    hide Present, Remove, Blocked, AggregateLimitReason, ResultTerminalReason, RemainingTrialLimits, Charge;
    var n := |p.attempts|;
    if Present(x, p.reduced) {
      RemovePresence(c, p.reduced, x);
      assert q.attempts[n].decision.Removed?;
    } else {
      var i :| 0 <= i < n && p.attempts[i].decision.Removed?
               && (p.attempts[i].constraint == x || Derives(p.attempts[i].constraint, x));
      assert q.attempts[i] == p.attempts[i];
    }
  }

  lemma TriedKeepsAccounted(setting: Setting, original: Requirement, order: seq<Constraint>, at: nat, p: Progress,
                            q: Progress)
    requires CanonicalOrder(order, original) && at < |order|
    requires Accounted(original, order, at, p) && Tried(setting, at, order[at], p, q)
    ensures Accounted(original, order, at + 1, q)
  {
    RemovalIsWithin(original, order[at], p.reduced);
    TriedKeepsRecorded(setting, order, at, p, q);
    TriedKeepsDecisions(setting, original, order, at, p, q);
    hide CanonicalOrder, Within, Recorded, RemovalExplained, Present, Remove, AggregateLimitReason,
      ResultTerminalReason, RemainingTrialLimits, Charge;
    forall x | Present(x, original) && !Present(x, q.reduced)
      ensures RemovalExplained(q.attempts, x)
    {
      TriedKeepsExplained(setting, original, at, order[at], p, q, x);
    }
  }

  // Invariant 2: budgets.

  predicate Obeys(result: TrialResult, granted: TrialLimits) {
    result.cpu <= granted.cpu && result.elapsed <= granted.elapsed && result.output <= granted.output
  }

  predicate BelowCaps(policy: Policy, used: Usage) {
    used.cpu < policy.totalCpu && used.elapsed < policy.totalElapsed && used.output < policy.totalOutput
  }

  predicate AtMostCaps(policy: Policy, used: Usage) {
    used.cpu <= policy.totalCpu && used.elapsed <= policy.totalElapsed && used.output <= policy.totalOutput
  }

  /** The grant is positive, obeys the per-trial policy and fits what is left. */
  predicate GrantFits(policy: Policy, a: Attempt) {
    && BelowCaps(policy, a.usedBefore)
    && 0 < a.granted.cpu <= Min(policy.trialLimits.cpu, policy.totalCpu - a.usedBefore.cpu)
    && 0 < a.granted.elapsed <= Min(policy.trialLimits.elapsed, policy.totalElapsed - a.usedBefore.elapsed)
    && 0 < a.granted.output <= Min(policy.trialLimits.output, policy.totalOutput - a.usedBefore.output)
    && a.granted.memory == policy.trialLimits.memory
  }

  /** Usage before trial `i`, or at the end of the run. */
  function UsedAt(attempts: seq<Attempt>, used: Usage, i: nat): Usage
    requires i <= |attempts|
  {
    if i < |attempts| then attempts[i].usedBefore else used
  }

  ghost predicate Budgeted(setting: Setting, p: Progress) {
    && |p.attempts| <= setting.policy.maximumTrials
    && Charged(setting, p)
    && (!p.stopped ==> BelowCaps(setting.policy, p.used))
    && FaultIsLast(p)
    && (forall i :: 0 <= i < |p.attempts| && p.attempts[i].decision.Removed? ==>
          p.attempts[i].result.outcome.TargetReproduced?)
    && (AllObey(p.attempts) ==> AtMostCaps(setting.policy, p.used))
  }

  /** Every grant fits what was left, and every report is charged once. */
  predicate Charged(setting: Setting, p: Progress) {
    && UsedAt(p.attempts, p.used, 0) == Usage(0, 0, 0)
    && forall i :: 0 <= i < |p.attempts| ==>
         GrantFits(setting.policy, p.attempts[i])
         && UsedAt(p.attempts, p.used, i + 1) == Charge(p.attempts[i].usedBefore, p.attempts[i].result)
  }

  /** A faulty report is retained, and it is the last one. */
  predicate FaultIsLast(p: Progress) {
    forall i :: 0 <= i < |p.attempts| && !CleanReport(p.attempts[i]) ==>
      p.attempts[i].decision.Retained? && i == |p.attempts| - 1 && p.stopped
  }

  predicate AllObey(attempts: seq<Attempt>) {
    forall i :: 0 <= i < |attempts| ==> Obeys(attempts[i].result, attempts[i].granted)
  }

  /** The trial neither timed out, nor was unstable, nor went over its grant. */
  predicate CleanReport(a: Attempt) {
    !a.result.timedOut && !a.result.unstable && Obeys(a.result, a.granted)
  }

  /** Below every cap a positive grant exists, so the exhausted branch of the loop never runs. */
  lemma GrantExists(policy: Policy, used: Usage)
    requires ValidPolicy(policy) && BelowCaps(policy, used)
    ensures RemainingTrialLimits(policy, used).Some?
  {
  }

  lemma GrantIsWithinCaps(policy: Policy, a: Attempt)
    requires ValidPolicy(policy) && BelowCaps(policy, a.usedBefore)
    requires RemainingTrialLimits(policy, a.usedBefore) == Some(a.granted)
    ensures GrantFits(policy, a)
    ensures Obeys(a.result, a.granted) ==> AtMostCaps(policy, Charge(a.usedBefore, a.result))
  {
  }

  lemma TriedKeepsCharged(setting: Setting, at: nat, c: Constraint, p: Progress, q: Progress)
    requires ValidPolicy(setting.policy) && !p.stopped && Budgeted(setting, p) && Tried(setting, at, c, p, q)
    ensures Charged(setting, q)
  {
    var n := |p.attempts|;
    GrantIsWithinCaps(setting.policy, q.attempts[n]);
    forall i | 0 <= i < n
      ensures q.attempts[i] == p.attempts[i]
      ensures UsedAt(q.attempts, q.used, i + 1) == UsedAt(p.attempts, p.used, i + 1)
    {
    }
    assert UsedAt(q.attempts, q.used, 0) == UsedAt(p.attempts, p.used, 0);
  }

  lemma TriedKeepsFaultLast(setting: Setting, at: nat, c: Constraint, p: Progress, q: Progress)
    requires !p.stopped && FaultIsLast(p) && Tried(setting, at, c, p, q)
    ensures FaultIsLast(q)
  {
    var n := |p.attempts|;
    assert !CleanReport(q.attempts[n]) ==> q.attempts[n].decision.Retained? && q.stopped;
    forall i | 0 <= i < n
      ensures CleanReport(q.attempts[i])
    {
      assert q.attempts[i] == p.attempts[i];
    }
  }

  lemma TriedKeepsCaps(setting: Setting, at: nat, c: Constraint, p: Progress, q: Progress)
    requires ValidPolicy(setting.policy) && !p.stopped && BelowCaps(setting.policy, p.used)
    requires Tried(setting, at, c, p, q)
    ensures q.stopped || BelowCaps(setting.policy, q.used)
    ensures AllObey(q.attempts) ==> AtMostCaps(setting.policy, q.used)
  {
    GrantIsWithinCaps(setting.policy, q.attempts[|p.attempts|]);
  }

  lemma TriedKeepsBudget(setting: Setting, at: nat, c: Constraint, p: Progress, q: Progress)
    requires ValidPolicy(setting.policy) && !p.stopped && Budgeted(setting, p)
    requires Tried(setting, at, c, p, q)
    ensures Budgeted(setting, q)
  {
    TriedKeepsCharged(setting, at, c, p, q);
    TriedKeepsFaultLast(setting, at, c, p, q);
    TriedKeepsCaps(setting, at, c, p, q);
    hide Charged, FaultIsLast, AllObey, AtMostCaps, BelowCaps, RemainingTrialLimits, AggregateLimitReason;
    forall i | 0 <= i < |p.attempts|
      ensures q.attempts[i] == p.attempts[i]
    {
    }
  }

  lemma StepKeepsBudget(setting: Setting, at: nat, c: Constraint, p: Progress, q: Progress)
    requires ValidPolicy(setting.policy) && !p.stopped && Budgeted(setting, p)
    requires Skipped(setting, at, c, p, q) || Tried(setting, at, c, p, q)
    ensures Budgeted(setting, q)
  {
    if Tried(setting, at, c, p, q) {
      TriedKeepsBudget(setting, at, c, p, q);
    } else {
      assert forall i :: 0 <= i <= |p.attempts| ==> UsedAt(q.attempts, q.used, i) == UsedAt(p.attempts, p.used, i);
    }
  }

  // Invariant 3: what is still required was tried, or could not be.

  ghost predicate CannotTry(setting: Setting, j: nat, c: Constraint, reduced: Requirement) {
    !setting.executor.canControl(j, c) || Blocked(c, reduced)
  }

  ghost predicate Settled(setting: Setting, order: seq<Constraint>, at: nat, p: Progress) {
    && (p.stopped <==> !(p.reason.Complete? || p.reason.Uncontrollable?))
    && (!p.stopped ==> forall j :: 0 <= j < at && j < |order| && Present(order[j], p.reduced) ==>
          HasRetained(p.attempts, order[j])
          || (p.reason.Uncontrollable? && CannotTry(setting, j, order[j], p.reduced)))
  }

  lemma DeeperComesFirst(order: seq<Constraint>, original: Requirement, i: nat, j: nat)
    requires CanonicalOrder(order, original) && i < |order| && j < |order|
    requires order[i].InstructionFeature? && order[j].InstructionFeature?
    requires FeatureDepth(order[i].name) > FeatureDepth(order[j].name)
    ensures i < j
  {
  }

  /** A feature blocked at its turn stays blocked: its dependents were settled before it. */
  lemma BlockedStays(setting: Setting, original: Requirement, order: seq<Constraint>, j: nat, at: nat, p: Progress,
                     q: Progress)
    requires CanonicalOrder(order, original) && j < at < |order|
    requires Within(p.reduced, original)
    requires Tried(setting, at, order[at], p, q) && Blocked(order[j], p.reduced)
    ensures Blocked(order[j], q.reduced)
  {
    var other :| other in p.reduced.instructionFeatures && other != order[j].name
                 && FeatureReaches(other, order[j].name);
    var c := InstructionFeature(other);
    assert Present(c, p.reduced);
    assert Present(c, original);
    var i :| 0 <= i < |order| && order[i] == c;
    DependentIsDeeper(other, order[j].name);
    DeeperComesFirst(order, original, i, j);
    RemovePresence(order[at], p.reduced, c);
    assert Present(c, q.reduced);
  }

  lemma StepKeepsSettled(setting: Setting, original: Requirement, order: seq<Constraint>, at: nat, p: Progress,
                         q: Progress)
    requires ValidPolicy(setting.policy) && CanonicalOrder(order, original) && at < |order| && !p.stopped
    requires Within(p.reduced, original) && Settled(setting, order, at, p)
    requires Skipped(setting, at, order[at], p, q) || Tried(setting, at, order[at], p, q)
    ensures Settled(setting, order, at + 1, q)
  {
    if !q.stopped {
      forall j | 0 <= j < at + 1 && Present(order[j], q.reduced)
        ensures HasRetained(q.attempts, order[j])
             || (q.reason.Uncontrollable? && CannotTry(setting, j, order[j], q.reduced))
      {
        if Tried(setting, at, order[at], p, q) {
          RemovePresence(order[at], p.reduced, order[j]);
          if j == at {
            assert q.attempts[|p.attempts|].decision.Retained?;
          } else if HasRetained(p.attempts, order[j]) {
            var i :| 0 <= i < |p.attempts| && p.attempts[i].decision.Retained? && p.attempts[i].constraint == order[j];
            assert q.attempts[i] == p.attempts[i];
          } else if Blocked(order[j], p.reduced) {
            BlockedStays(setting, original, order, j, at, p, q);
          }
        }
      }
    }
  }

  // Invariant 4: prerequisites stay while something needs them.

  ghost predicate PrerequisitesKept(original: Requirement, view: Requirement) {
    && (forall g, f :: g in view.instructionFeatures && f in original.instructionFeatures && FeatureReaches(g, f) ==>
          f in view.instructionFeatures)
    && forall s, f :: s in view.osEnabledStates && f in original.instructionFeatures && DerivedFrom(s, f) ==>
         f in view.instructionFeatures
  }

  ghost predicate Closed(original: Requirement, p: Progress) {
    && PrerequisitesKept(original, p.reduced)
    && forall i :: 0 <= i < |p.attempts| ==> ViewKept(original, p.attempts[i].candidate)
  }

  /** A trial view drops constraints only, and no prerequisite of what it still holds. */
  ghost predicate ViewKept(original: Requirement, view: Requirement) {
    PrerequisitesKept(original, view) && Within(view, original)
  }

  lemma RemovalIsWithin(original: Requirement, c: Constraint, view: Requirement)
    requires Within(view, original)
    ensures Within(Remove(c, view), original)
  {
    RemoveKeepsValid(c, view);
    forall x
      ensures Present(x, Remove(c, view)) ==> Present(x, original)
    {
      RemovePresence(c, view, x);
    }
  }

  lemma UnblockedRemovalKeepsPrerequisites(original: Requirement, c: Constraint, view: Requirement)
    requires PrerequisitesKept(original, view) && !Blocked(c, view)
    ensures PrerequisitesKept(original, Remove(c, view))
  {
    var after := Remove(c, view);
    forall x
      ensures Present(x, after) <==> Present(x, view) && x != c && !Derives(c, x)
    {
      RemovePresence(c, view, x);
    }
    forall g, f | g in after.instructionFeatures && f in original.instructionFeatures && FeatureReaches(g, f)
      ensures f in after.instructionFeatures
    {
      assert Present(InstructionFeature(g), after);
      assert g in view.instructionFeatures;
      assert Present(InstructionFeature(f), view);
      assert InstructionFeature(f) == c && g != f ==> Blocked(c, view);
      assert Present(InstructionFeature(f), after);
    }
    forall s, f | s in after.osEnabledStates && f in original.instructionFeatures && DerivedFrom(s, f)
      ensures f in after.instructionFeatures
    {
      assert Present(OsEnabledState(s), after);
      assert Present(InstructionFeature(f), view);
      assert Present(InstructionFeature(f), after);
    }
  }

  // All four together, over whole runs.

  ghost predicate Invariant(setting: Setting, original: Requirement, order: seq<Constraint>, at: nat, p: Progress) {
    && Accounted(original, order, at, p)
    && Budgeted(setting, p)
    && Settled(setting, order, at, p)
    && Closed(original, p)
  }

  lemma StepKeepsInvariant(setting: Setting, original: Requirement, order: seq<Constraint>, at: nat, p: Progress)
    requires ValidPolicy(setting.policy) && CanonicalOrder(order, original) && at < |order| && !p.stopped
    requires Invariant(setting, original, order, at, p) && Step(setting, at, order[at], p).Ok?
    ensures Invariant(setting, original, order, at + 1, Step(setting, at, order[at], p).value)
  {
    hide Budgeted, Settled, PrerequisitesKept, Step, Blocked, Present, Remove, Within, RemovalExplained;
    var q := Step(setting, at, order[at], p).value;
    StepCases(setting, at, order[at], p);
    StepKeepsBudget(setting, at, order[at], p, q);
    StepKeepsSettled(setting, original, order, at, p, q);
    if Tried(setting, at, order[at], p, q) {
      TriedKeepsAccounted(setting, original, order, at, p, q);
      UnblockedRemovalKeepsPrerequisites(original, order[at], p.reduced);
      RemovalIsWithin(original, order[at], p.reduced);
    }
  }

  /** A stopped run holds the invariant for the rest of the order too. */
  lemma StoppedHoldsToTheEnd(setting: Setting, original: Requirement, order: seq<Constraint>, at: nat, p: Progress)
    requires at <= |order| && (at == |order| || p.stopped) && Invariant(setting, original, order, at, p)
    ensures Invariant(setting, original, order, |order|, p)
  {
  }

  /** Induction over a run, for any property of the position and the progress. */
  lemma {:induction false} RunInduction(setting: Setting, order: seq<Constraint>, at: nat, p: Progress,
                                        holds: (nat, Progress) -> bool)
    requires at <= |order| && holds(at, p) && RunFrom(setting, order, at, p).Ok?
    requires forall k: nat, x: Progress ::
      k < |order| && !x.stopped && holds(k, x) && Step(setting, k, order[k], x).Ok? ==>
        holds(k + 1, Step(setting, k, order[k], x).value)
    requires forall k: nat, x: Progress :: k <= |order| && x.stopped && holds(k, x) ==> holds(|order|, x)
    ensures holds(|order|, RunFrom(setting, order, at, p).value)
    decreases |order| - at
  {
    if at < |order| && !p.stopped {
      RunInduction(setting, order, at + 1, Step(setting, at, order[at], p).value, holds);
    }
  }

  /** A run succeeds when a property under which every step succeeds is kept, and survives a stop. */
  lemma {:induction false} RunSucceeds(setting: Setting, order: seq<Constraint>, at: nat, p: Progress,
                                       holds: (nat, Progress) -> bool)
    requires at <= |order| && holds(at, p)
    requires forall k: nat, x: Progress :: k < |order| && !x.stopped && holds(k, x) ==>
      Step(setting, k, order[k], x).Ok? && holds(k + 1, Step(setting, k, order[k], x).value)
    requires forall k: nat, x: Progress :: k <= |order| && x.stopped && holds(k, x) ==> holds(|order|, x)
    ensures RunFrom(setting, order, at, p).Ok? && holds(|order|, RunFrom(setting, order, at, p).value)
    decreases |order| - at
  {
    if at < |order| && !p.stopped {
      RunSucceeds(setting, order, at + 1, Step(setting, at, order[at], p).value, holds);
    }
  }

  lemma StartHoldsInvariant(setting: Setting, original: Requirement)
    requires ValidPolicy(setting.policy) && ValidRequirement(original)
    ensures Invariant(setting, original, Constraints(original), 0, Start(original))
  {
  }

  lemma RunInvariant(setting: Setting, original: Requirement)
    requires ValidPolicy(setting.policy) && ValidRequirement(original) && Run(setting, original).Ok?
    ensures Invariant(setting, original, Constraints(original), |Constraints(original)|, Run(setting, original).value)
  {
    var order := Constraints(original);
    var holds := (k: nat, x: Progress) => Invariant(setting, original, order, k, x);
    ConstraintsAreCanonical(original);
    StartHoldsInvariant(setting, original);
    forall k: nat, x: Progress | k < |order| && !x.stopped && holds(k, x) && Step(setting, k, order[k], x).Ok?
      ensures holds(k + 1, Step(setting, k, order[k], x).value)
    {
      StepKeepsInvariant(setting, original, order, k, x);
    }
    forall k: nat, x: Progress | k <= |order| && x.stopped && holds(k, x)
      ensures holds(|order|, x)
    {
      StoppedHoldsToTheEnd(setting, original, order, k, x);
    }
    RunInduction(setting, order, 0, Start(original), holds);
  }

  // The main results about runs.

  /** The run up to position `k` of the trial order. */
  ghost function RunTo(setting: Setting, original: Requirement, k: nat): Result<Progress>
    requires k <= |Constraints(original)|
  {
    RunFrom(setting, Constraints(original)[..k], 0, Start(original))
  }

  /** A run is the run up to a position, continued from there. */
  lemma {:induction false} RunSplits(setting: Setting, order: seq<Constraint>, at: nat, k: nat, p: Progress)
    requires at <= k <= |order|
    ensures
      var first := RunFrom(setting, order[..k], at, p);
      RunFrom(setting, order, at, p) == if first.Err? then first else RunFrom(setting, order, k, first.value)
    decreases k - at
  {
    if at < k && !p.stopped {
      assert order[..k][at] == order[at];
      var next := Step(setting, at, order[at], p);
      if next.Ok? {
        RunSplits(setting, order, at + 1, k, next.value);
      }
    }
  }

  /** The budgets hold after any list of constraints, in any order. */
  lemma AnyRunStaysInBudget(setting: Setting, order: seq<Constraint>, original: Requirement)
    requires ValidPolicy(setting.policy) && RunFrom(setting, order, 0, Start(original)).Ok?
    ensures Budgeted(setting, RunFrom(setting, order, 0, Start(original)).value)
  {
    var holds := (k: nat, x: Progress) => Budgeted(setting, x);
    forall k: nat, x: Progress | k < |order| && !x.stopped && holds(k, x) && Step(setting, k, order[k], x).Ok?
      ensures holds(k + 1, Step(setting, k, order[k], x).value)
    {
      StepCases(setting, k, order[k], x);
      StepKeepsBudget(setting, k, order[k], x, Step(setting, k, order[k], x).value);
    }
    StartIsInBudget(setting, original);
    RunInduction(setting, order, 0, Start(original), holds);
  }

  lemma StartIsInBudget(setting: Setting, original: Requirement)
    requires ValidPolicy(setting.policy)
    ensures Budgeted(setting, Start(original))
  {
  }

  /** While a run goes on, the budgets have a grant for the next trial. */
  ghost predicate GrantReady(setting: Setting, r: Result<Progress>) {
    r.Ok? && !r.value.stopped ==> RemainingTrialLimits(setting.policy, r.value.used).Some?
  }

  /**
   * Every run stays inside its budgets: at most `maximumTrials` trials, each
   * grant fits what is left, the totals are the saturating sums of the reports
   * and stay below every cap before each trial, and an over-limit, timed-out
   * or unstable trial is retained and last. No total passes its cap while the
   * executor obeys its grants, and at no position does the run find its
   * budgets exhausted without having stopped.
   */
  lemma RunStaysInBudget(setting: Setting, original: Requirement)
    requires ValidPolicy(setting.policy) && ValidRequirement(original) && Run(setting, original).Ok?
    ensures Budgeted(setting, Run(setting, original).value)
    ensures forall k: nat :: k <= |Constraints(original)| ==> GrantReady(setting, RunTo(setting, original, k))
    ensures forall k: nat :: k <= |Constraints(original)| && RunTo(setting, original, k).Ok? ==>
      Run(setting, original) == RunFrom(setting, Constraints(original), k, RunTo(setting, original, k).value)
  {
    RunInvariant(setting, original);
    forall k: nat | k <= |Constraints(original)|
      ensures GrantReady(setting, RunTo(setting, original, k))
      ensures RunTo(setting, original, k).Ok? ==>
        Run(setting, original) == RunFrom(setting, Constraints(original), k, RunTo(setting, original, k).value)
    {
      PrefixIsReady(setting, original, k);
      RunSplits(setting, Constraints(original), 0, k, Start(original));
    }
  }

  lemma PrefixIsReady(setting: Setting, original: Requirement, k: nat)
    requires ValidPolicy(setting.policy) && k <= |Constraints(original)|
    ensures GrantReady(setting, RunTo(setting, original, k))
  {
    hide Constraints, Step;
    var r := RunTo(setting, original, k);
    if r.Ok? && !r.value.stopped {
      AnyRunStaysInBudget(setting, Constraints(original)[..k], original);
      GrantExists(setting.policy, r.value.used);
    }
  }

  /** A run that ends Complete keeps exactly the constraints with a retained trial. */
  lemma CompleteRunKeepsRetained(setting: Setting, original: Requirement, c: Constraint)
    requires ValidPolicy(setting.policy) && ValidRequirement(original) && Run(setting, original).Ok?
    requires Run(setting, original).value.reason.Complete?
    ensures Present(c, Run(setting, original).value.reduced) <==> HasRetained(Run(setting, original).value.attempts, c)
  {
    var p := Run(setting, original).value;
    RunInvariant(setting, original);
    ConstraintsAreCanonical(original);
    var order := Constraints(original);
    if Present(c, p.reduced) {
      var j :| 0 <= j < |order| && order[j] == c;
    }
  }

  /**
   * One pass is enough. In a run that ends Uncontrollable each constraint left
   * has a retained trial, or the executor refused it at its turn, or a feature
   * of the final requirement depends on it.
   */
  lemma UncontrollableRunIsExplained(setting: Setting, original: Requirement, j: nat)
    requires ValidPolicy(setting.policy) && ValidRequirement(original) && Run(setting, original).Ok?
    requires Run(setting, original).value.reason.Uncontrollable?
    requires j < |Constraints(original)| && Present(Constraints(original)[j], Run(setting, original).value.reduced)
    ensures
      var p := Run(setting, original).value;
      var c := Constraints(original)[j];
      || HasRetained(p.attempts, c)
      || !setting.executor.canControl(j, c)
      || (c.InstructionFeature?
          && exists g :: g in p.reduced.instructionFeatures && g != c.name && FeatureReaches(g, c.name))
  {
    RunInvariant(setting, original);
  }

  /** Prerequisites survive in the result and in the view of every trial. */
  lemma PrerequisitesSurvive(setting: Setting, original: Requirement)
    requires ValidPolicy(setting.policy) && ValidRequirement(original) && Run(setting, original).Ok?
    ensures
      var p := Run(setting, original).value;
      && PrerequisitesKept(original, p.reduced)
      && forall i :: 0 <= i < |p.attempts| ==> ViewKept(original, p.attempts[i].candidate)
  {
    RunInvariant(setting, original);
  }
}
