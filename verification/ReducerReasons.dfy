/** What every run reports, said from its trials alone: views, grants, reports and the terminal reason. */
module ReducerReasons {
  import opened Prelude
  import opened Prerequisites
  import opened ProcessorRequirement
  import opened ProcessorReducer
  import opened ReducerRuns

  // The trials.

  /** The requirement before trial `i`: the view of the last trial that was removed, or the start. */
  function ViewBefore(original: Requirement, attempts: seq<Attempt>, i: nat): Requirement
    requires i <= |attempts|
  {
    if i == 0 then original
    else if attempts[i - 1].decision.Removed? then attempts[i - 1].candidate
    else ViewBefore(original, attempts, i - 1)
  }

  /** The view of a trial lacks its constraint, the states derived from it, and nothing else. */
  ghost predicate LacksJust(view: Requirement, before: Requirement, c: Constraint) {
    && view.abi == before.abi && view.architecture == before.architecture
    && forall x :: Present(x, view) <==> Present(x, before) && x != c && !Derives(c, x)
  }

  /** Per resource the smaller of the trial's own limit and what is left of the total. */
  predicate GrantedExactly(policy: Policy, a: Attempt) {
    && a.usedBefore.cpu < policy.totalCpu && a.usedBefore.elapsed < policy.totalElapsed
    && a.usedBefore.output < policy.totalOutput
    && a.granted.cpu <= policy.trialLimits.cpu && a.granted.cpu + a.usedBefore.cpu <= policy.totalCpu
    && (a.granted.cpu == policy.trialLimits.cpu || a.granted.cpu + a.usedBefore.cpu == policy.totalCpu)
    && a.granted.elapsed <= policy.trialLimits.elapsed
         && a.granted.elapsed + a.usedBefore.elapsed <= policy.totalElapsed
    && (a.granted.elapsed == policy.trialLimits.elapsed
        || a.granted.elapsed + a.usedBefore.elapsed == policy.totalElapsed)
    && a.granted.output <= policy.trialLimits.output && a.granted.output + a.usedBefore.output <= policy.totalOutput
    && (a.granted.output == policy.trialLimits.output || a.granted.output + a.usedBefore.output == policy.totalOutput)
    && a.granted.memory == policy.trialLimits.memory
  }

  predicate OverCpu(a: Attempt) { a.result.cpu > a.granted.cpu }

  predicate OverElapsed(a: Attempt) { a.result.elapsed > a.granted.elapsed }

  predicate OverOutput(a: Attempt) { a.result.output > a.granted.output }

  predicate InGrant(a: Attempt) {
    !OverCpu(a) && !OverElapsed(a) && !OverOutput(a)
  }

  predicate Quiet(a: Attempt) {
    !a.result.timedOut && !a.result.unstable
  }

  /** One trial: an unblocked constraint that the executor controls, its view run under the grant, its report kept. */
  ghost predicate TrialTold(setting: Setting, a: Attempt, before: Requirement) {
    && Present(a.constraint, before) && setting.executor.canControl(a.at, a.constraint)
    && (a.constraint.InstructionFeature? ==>
          forall g :: g in before.instructionFeatures && g != a.constraint.name ==>
            !FeatureReaches(g, a.constraint.name))
    && LacksJust(a.candidate, before, a.constraint)
    && GrantedExactly(setting.policy, a)
    && setting.executor.execute(a.at, a.candidate, a.granted) == Ok(a.result)
    && !(a.result.timedOut && a.result.unstable)
    && (a.decision.Removed? <==> a.result.outcome.TargetReproduced? && Quiet(a) && InGrant(a))
  }

  /** What the run used: every report once, each resource stopping at the largest value. */
  predicate UsedTold(attempts: seq<Attempt>, used: Usage) {
    && UsedAt(attempts, used, 0) == Usage(0, 0, 0)
    && forall i :: 0 <= i < |attempts| ==>
         AddsUp(attempts[i].usedBefore, attempts[i].result, UsedAt(attempts, used, i + 1))
  }

  predicate AddsUp(before: Usage, result: TrialResult, after: Usage) {
    && after.cpu == Min(before.cpu + result.cpu, U64_MAX)
    && after.elapsed == Min(before.elapsed + result.elapsed, U64_MAX)
    && after.output == Min(before.output + result.output, U64_MAX)
  }

  ghost predicate TrialsTold(setting: Setting, original: Requirement, order: seq<Constraint>, p: Progress) {
    && Recorded(order, |order|, p.attempts)
    && |p.attempts| <= setting.policy.maximumTrials
    && (forall i :: 0 <= i < |p.attempts| ==>
          TrialTold(setting, p.attempts[i], ViewBefore(original, p.attempts, i)))
    && p.reduced == ViewBefore(original, p.attempts, |p.attempts|)
    && UsedTold(p.attempts, p.used)
  }

  // The reason.

  /** A total has reached its cap. */
  predicate CpuFull(policy: Policy, p: Progress) { p.used.cpu >= policy.totalCpu }

  predicate ElapsedFull(policy: Policy, p: Progress) { p.used.elapsed >= policy.totalElapsed }

  predicate OutputFull(policy: Policy, p: Progress) { p.used.output >= policy.totalOutput }

  /** No report stopped the run and no total is full. */
  predicate NothingStopped(policy: Policy, p: Progress) {
    p.attempts == []
    || (var last := p.attempts[|p.attempts| - 1];
        Quiet(last) && InGrant(last) && !CpuFull(policy, p) && !ElapsedFull(policy, p) && !OutputFull(policy, p))
  }

  ghost predicate Untried(order: seq<Constraint>, p: Progress, j: nat) {
    && j < |order| && Present(order[j], p.reduced)
    && forall i :: 0 <= i < |p.attempts| ==> p.attempts[i].at != j
  }

  predicate AfterTrials(p: Progress, j: nat) {
    p.attempts == [] || p.attempts[|p.attempts| - 1].at < j
  }

  /** A constraint that is still present comes after a full list of trials. */
  ghost predicate TrialsFull(policy: Policy, order: seq<Constraint>, p: Progress) {
    |p.attempts| == policy.maximumTrials
    && PresentAfter(order, p, |order|)
  }

  ghost predicate LastReport(p: Progress, reports: Attempt -> bool) {
    p.attempts != [] && reports(p.attempts[|p.attempts| - 1])
  }

  /** The terminal reason, said case by case from the last report, the grants, the totals and what is left. */
  ghost predicate ReasonTold(policy: Policy, order: seq<Constraint>, p: Progress) {
    && (p.reason.Timeout? <==> LastReport(p, (a: Attempt) => a.result.timedOut))
    && (p.reason.Unstable? <==> LastReport(p, (a: Attempt) => a.result.unstable))
    && (p.reason.CpuLimit? <==>
          LastReport(p, (a: Attempt) => Quiet(a) && (OverCpu(a) || (InGrant(a) && CpuFull(policy, p)))))
    && (p.reason.ElapsedLimit? <==>
          LastReport(p, (a: Attempt) => Quiet(a) && !OverCpu(a)
                             && (OverElapsed(a) || (InGrant(a) && !CpuFull(policy, p) && ElapsedFull(policy, p)))))
    && (p.reason.OutputLimit? <==>
          LastReport(p, (a: Attempt) => Quiet(a) && !OverCpu(a) && !OverElapsed(a)
                             && (OverOutput(a) || (!CpuFull(policy, p) && !ElapsedFull(policy, p)
                                                   && OutputFull(policy, p)))))
    && (p.reason.TrialLimit? <==> NothingStopped(policy, p) && TrialsFull(policy, order, p))
    && (p.reason.Uncontrollable? <==>
          NothingStopped(policy, p) && !TrialsFull(policy, order, p) && exists j: nat :: Untried(order, p, j))
    && (p.reason.Complete? <==> NothingStopped(policy, p) && forall j: nat :: !Untried(order, p, j))
  }

  // The invariant behind it.

  ghost predicate Passed(setting: Setting, order: seq<Constraint>, p: Progress, k: nat) {
    forall j: nat :: j < k && Untried(order, p, j) ==> CannotTry(setting, j, order[j], p.reduced)
  }

  /** Before position `k` of a run that goes on. */
  ghost predicate Going(setting: Setting, order: seq<Constraint>, k: nat, p: Progress) {
    && NothingStopped(setting.policy, p) && Passed(setting, order, p, k)
    && (p.reason.Complete? || p.reason.Uncontrollable?)
    && (p.reason.Uncontrollable? <==> exists j: nat :: j < k && Untried(order, p, j))
    && (|p.attempts| == setting.policy.maximumTrials ==> !PresentAfter(order, p, k))
  }

  /** Some constraint before position `k` is still present and comes after every trial. */
  ghost predicate PresentAfter(order: seq<Constraint>, p: Progress, k: nat) {
    exists j: nat :: j < k && j < |order| && Present(order[j], p.reduced) && AfterTrials(p, j)
  }

  /** The last report stopped the run, and this is why. */
  predicate StoppedByReport(policy: Policy, p: Progress) {
    && p.attempts != []
    && var a := p.attempts[|p.attempts| - 1];
    match p.reason
    case Timeout => a.result.timedOut && !a.result.unstable
    case Unstable => a.result.unstable && !a.result.timedOut
    case CpuLimit => Quiet(a) && (OverCpu(a) || (InGrant(a) && CpuFull(policy, p)))
    case ElapsedLimit =>
      Quiet(a) && !OverCpu(a) && (OverElapsed(a) || (InGrant(a) && !CpuFull(policy, p) && ElapsedFull(policy, p)))
    case OutputLimit =>
      Quiet(a) && !OverCpu(a) && !OverElapsed(a)
      && (OverOutput(a) || (!CpuFull(policy, p) && !ElapsedFull(policy, p) && OutputFull(policy, p)))
    case _ => false
  }

  ghost predicate StoppedByCount(setting: Setting, order: seq<Constraint>, p: Progress) {
    p.reason.TrialLimit? && NothingStopped(setting.policy, p) && TrialsFull(setting.policy, order, p)
  }

  ghost predicate Told(setting: Setting, original: Requirement, order: seq<Constraint>, k: nat, p: Progress) {
    && Recorded(order, k, p.attempts) && TrialsTold(setting, original, order, p)
    && (!p.stopped ==> Going(setting, order, k, p))
    && (p.stopped ==> StoppedByReport(setting.policy, p) || StoppedByCount(setting, order, p))
  }

  lemma StartIsTold(setting: Setting, original: Requirement, order: seq<Constraint>)
    ensures Told(setting, original, order, 0, Start(original))
  {
  }

  // A skipped position.

  lemma SkipKeepsUntried(order: seq<Constraint>, p: Progress, q: Progress)
    requires q.reduced == p.reduced && q.attempts == p.attempts
    ensures forall j: nat :: Untried(order, q, j) <==> Untried(order, p, j)
  {
  }

  lemma EarlierAttempts(order: seq<Constraint>, at: nat, p: Progress)
    requires Recorded(order, at, p.attempts)
    ensures AfterTrials(p, at) && forall i :: 0 <= i < |p.attempts| ==> p.attempts[i].at != at
  {
  }

  lemma SkippedStaysPassed(setting: Setting, order: seq<Constraint>, at: nat, p: Progress, q: Progress)
    requires at < |order| && Recorded(order, at, p.attempts) && Passed(setting, order, p, at)
    requires q.reduced == p.reduced && q.attempts == p.attempts
    requires Present(order[at], p.reduced) ==> CannotTry(setting, at, order[at], p.reduced)
    ensures Passed(setting, order, q, at + 1)
    ensures (exists j: nat :: j < at + 1 && Untried(order, q, j)) <==>
      Present(order[at], p.reduced) || exists j: nat :: j < at && Untried(order, p, j)
  {
    hide Present, CannotTry;
    SkipKeepsUntried(order, p, q);
    EarlierAttempts(order, at, p);
    assert Untried(order, q, at) <==> Present(order[at], p.reduced);
    if j: nat :| j < at && Untried(order, p, j) {
      assert j < at + 1 && Untried(order, q, j);
    }
  }

  lemma SkippedGoesOn(setting: Setting, order: seq<Constraint>, at: nat, p: Progress, q: Progress)
    requires at < |order| && Recorded(order, at, p.attempts) && Going(setting, order, at, p)
    requires q.reduced == p.reduced && q.attempts == p.attempts && q.used == p.used
    requires
      if Present(order[at], p.reduced) then
        q.reason.Uncontrollable? && CannotTry(setting, at, order[at], p.reduced)
        && |p.attempts| < setting.policy.maximumTrials
      else q.reason == p.reason
    ensures Going(setting, order, at + 1, q)
  {
    SkippedStaysPassed(setting, order, at, p, q);
    hide Present, CannotTry, Passed, Untried, Quiet, InGrant, CpuFull, ElapsedFull, OutputFull, AfterTrials;
    assert AfterTrials(q, at) && PresentAfter(order, q, at + 1) ==>
      Present(order[at], p.reduced) || PresentAfter(order, p, at)
      by { EarlierAttempts(order, at, p); SameAfter(order, p, q); }
  }

  lemma SameAfter(order: seq<Constraint>, p: Progress, q: Progress)
    requires q.reduced == p.reduced && q.attempts == p.attempts
    ensures forall j: nat :: AfterTrials(q, j) <==> AfterTrials(p, j)
  {
  }

  lemma BudgetGoesOn(setting: Setting, p: Progress)
    requires ValidPolicy(setting.policy) && Budgeted(setting, p) && !p.stopped
    ensures RemainingTrialLimits(setting.policy, p.used).Some?
  {
    GrantExists(setting.policy, p.used);
  }

  lemma TrialsStillTold(setting: Setting, original: Requirement, order: seq<Constraint>, p: Progress, q: Progress)
    requires TrialsTold(setting, original, order, p)
    requires q.reduced == p.reduced && q.attempts == p.attempts && q.used == p.used
    ensures TrialsTold(setting, original, order, q)
  {
  }

  lemma SkippedIsTold(setting: Setting, original: Requirement, order: seq<Constraint>, at: nat, p: Progress,
                      q: Progress)
    requires ValidPolicy(setting.policy) && Budgeted(setting, p) && !p.stopped
    requires at < |order| && Told(setting, original, order, at, p)
    requires Skipped(setting, at, order[at], p, q)
    ensures Told(setting, original, order, at + 1, q)
  {
    hide TrialsTold, Budgeted, Going, RemainingTrialLimits, ExhaustedReason, Present, ValidPolicy, Blocked,
      StoppedByCount, StoppedByReport;
    BudgetGoesOn(setting, p);
    TrialsStillTold(setting, original, order, p, q);
    if q.stopped {
      SkippedByCount(setting, original, order, at, p, q);
    } else {
      SkippedGoesOn(setting, order, at, p, q);
    }
  }

  lemma SkippedByCount(setting: Setting, original: Requirement, order: seq<Constraint>, at: nat, p: Progress,
                       q: Progress)
    requires at < |order| && Told(setting, original, order, at, p) && !p.stopped
    requires q == p.(reason := TrialLimit, stopped := true)
    requires Present(order[at], p.reduced) && |p.attempts| >= setting.policy.maximumTrials
    ensures StoppedByCount(setting, order, q)
  {
    EarlierAttempts(order, at, p);
    assert Present(order[at], q.reduced) && AfterTrials(q, at);
  }

  // A trial.

  lemma GrantIsExact(policy: Policy, a: Attempt)
    requires ValidPolicy(policy) && BelowCaps(policy, a.usedBefore)
    requires RemainingTrialLimits(policy, a.usedBefore) == Some(a.granted)
    ensures GrantedExactly(policy, a)
  {
  }

  lemma ViewIsExact(c: Constraint, before: Requirement)
    ensures LacksJust(Remove(c, before), before, c)
  {
    forall x
      ensures Present(x, Remove(c, before)) <==> Present(x, before) && x != c && !Derives(c, x)
    {
      RemovePresence(c, before, x);
    }
  }

  lemma TriedTrialIsTold(setting: Setting, at: nat, c: Constraint, p: Progress, q: Progress)
    requires ValidPolicy(setting.policy) && Budgeted(setting, p) && !p.stopped && Tried(setting, at, c, p, q)
    ensures TrialTold(setting, q.attempts[|p.attempts|], p.reduced)
  {
    ViewIsExact(c, p.reduced);
    GrantIsExact(setting.policy, q.attempts[|p.attempts|]);
    hide LacksJust, GrantedExactly, RemainingTrialLimits, Present, Remove, Charge, AggregateLimitReason;
  }

  lemma {:induction false} ViewsStay(original: Requirement, attempts: seq<Attempt>, longer: seq<Attempt>, i: nat)
    requires i <= |attempts| <= |longer| && longer[..|attempts|] == attempts
    ensures ViewBefore(original, longer, i) == ViewBefore(original, attempts, i)
  {
    if i > 0 {
      ViewsStay(original, attempts, longer, i - 1);
      assert longer[i - 1] == attempts[i - 1];
    }
  }

  lemma UseIsTold(p: Progress, a: Attempt, used: Usage)
    requires UsedTold(p.attempts, p.used) && a.usedBefore == p.used && used == Charge(p.used, a.result)
    ensures UsedTold(p.attempts + [a], used)
  {
    assert AddsUp(a.usedBefore, a.result, used);
    var n, longer := |p.attempts|, p.attempts + [a];
    hide AddsUp, Charge;
    forall i | 0 <= i < n
      ensures longer[i] == p.attempts[i] && UsedAt(longer, used, i + 1) == UsedAt(p.attempts, p.used, i + 1)
    {
    }
    assert UsedAt(longer, used, 0) == UsedAt(p.attempts, p.used, 0);
  }

  /** What a trial adds to the run, without its reasons. */
  lemma TriedGrows(setting: Setting, at: nat, c: Constraint, p: Progress, q: Progress)
    requires Tried(setting, at, c, p, q)
    ensures |q.attempts| == |p.attempts| + 1 <= setting.policy.maximumTrials && q.attempts[..|p.attempts|] == p.attempts
    ensures q.attempts == p.attempts + [q.attempts[|p.attempts|]]
    ensures
      var a := q.attempts[|p.attempts|];
      && a.usedBefore == p.used && q.used == Charge(p.used, a.result)
      && q.reduced == if a.decision.Removed? then a.candidate else p.reduced
  {
    hide Present, Blocked, Remove, Charge, RemainingTrialLimits, AggregateLimitReason, ResultTerminalReason;
  }

  lemma OneMoreTold(setting: Setting, original: Requirement, attempts: seq<Attempt>, longer: seq<Attempt>)
    requires |longer| == |attempts| + 1 && longer[..|attempts|] == attempts
    requires forall i :: 0 <= i < |attempts| ==> TrialTold(setting, attempts[i], ViewBefore(original, attempts, i))
    requires TrialTold(setting, longer[|attempts|], ViewBefore(original, attempts, |attempts|))
    ensures forall i :: 0 <= i < |longer| ==> TrialTold(setting, longer[i], ViewBefore(original, longer, i))
  {
    hide TrialTold, ViewBefore;
    forall i | 0 <= i < |longer|
      ensures TrialTold(setting, longer[i], ViewBefore(original, longer, i))
    {
      ViewsStay(original, attempts, longer, i);
      assert i < |attempts| ==> longer[i] == attempts[i];
    }
  }

  lemma RecordedEarlier(order: seq<Constraint>, at: nat, attempts: seq<Attempt>)
    requires Recorded(order, at, attempts) && at <= |order|
    ensures Recorded(order, |order|, attempts)
  {
  }

  /** The view after one more trial. */
  lemma NextView(original: Requirement, attempts: seq<Attempt>, longer: seq<Attempt>)
    requires |longer| == |attempts| + 1 && longer[..|attempts|] == attempts
    ensures
      var a := longer[|attempts|];
      ViewBefore(original, longer, |longer|) ==
        if a.decision.Removed? then a.candidate else ViewBefore(original, attempts, |attempts|)
  {
    ViewsStay(original, attempts, longer, |attempts|);
  }

  lemma TriedTrialsAreTold(setting: Setting, original: Requirement, order: seq<Constraint>, at: nat, p: Progress,
                           q: Progress)
    requires ValidPolicy(setting.policy) && Budgeted(setting, p) && !p.stopped && at < |order|
    requires Recorded(order, at, p.attempts) && TrialsTold(setting, original, order, p)
    requires Tried(setting, at, order[at], p, q)
    ensures Recorded(order, at + 1, q.attempts) && TrialsTold(setting, original, order, q)
  {
    hide TrialTold, UsedTold, Budgeted, Tried, ValidPolicy, Charge, Recorded, ViewBefore;
    var n := |p.attempts|;
    TriedKeepsRecorded(setting, order, at, p, q);
    TriedTrialIsTold(setting, at, order[at], p, q);
    TriedGrows(setting, at, order[at], p, q);
    UseIsTold(p, q.attempts[n], q.used);
    OneMoreTold(setting, original, p.attempts, q.attempts);
    NextView(original, p.attempts, q.attempts);
    RecordedEarlier(order, at + 1, q.attempts);
  }

  /** What a trial removes was never passed over before. */
  lemma TriedKeepsUntried(setting: Setting, original: Requirement, order: seq<Constraint>, at: nat, p: Progress,
                          q: Progress, j: nat)
    requires CanonicalOrder(order, original) && at < |order| && j < at
    requires Tried(setting, at, order[at], p, q)
    ensures Untried(order, q, j) <==> Untried(order, p, j)
  {
    var n := |p.attempts|;
    assert forall i :: 0 <= i < n ==> q.attempts[i] == p.attempts[i];
    RemovePresence(order[at], p.reduced, order[j]);
    assert OrderedPair(order[j], order[at]);
  }

  lemma TriedCannotTry(setting: Setting, original: Requirement, order: seq<Constraint>, at: nat, p: Progress,
                       q: Progress, j: nat)
    requires CanonicalOrder(order, original) && at < |order| && j < at && Within(p.reduced, original)
    requires Tried(setting, at, order[at], p, q) && Untried(order, q, j)
    requires CannotTry(setting, j, order[j], p.reduced)
    ensures CannotTry(setting, j, order[j], q.reduced)
  {
    if setting.executor.canControl(j, order[j]) {
      BlockedStays(setting, original, order, j, at, p, q);
    }
  }

  lemma TriedIsPassed(setting: Setting, original: Requirement, order: seq<Constraint>, at: nat, p: Progress,
                      q: Progress)
    requires CanonicalOrder(order, original) && at < |order| && Within(p.reduced, original)
    requires Going(setting, order, at, p) && Tried(setting, at, order[at], p, q)
    ensures Passed(setting, order, q, at + 1)
    ensures (exists j: nat :: j < at + 1 && Untried(order, q, j)) <==> p.reason.Uncontrollable?
  {
    hide Present, CannotTry, Blocked, Remove, Charge, Within, RemainingTrialLimits, AggregateLimitReason,
      ResultTerminalReason, NothingStopped, CanonicalOrder;
    assert q.attempts[|p.attempts|].at == at;
    assert !Untried(order, q, at);
    forall j: nat | j < at
      ensures Untried(order, q, j) <==> Untried(order, p, j)
      ensures Untried(order, q, j) ==> CannotTry(setting, j, order[j], q.reduced)
    {
      TriedKeepsUntried(setting, original, order, at, p, q, j);
      if Untried(order, q, j) {
        TriedCannotTry(setting, original, order, at, p, q, j);
      }
    }
  }

  lemma TriedReason(setting: Setting, at: nat, c: Constraint, p: Progress, q: Progress)
    requires Tried(setting, at, c, p, q)
    ensures q.stopped ==> StoppedByReport(setting.policy, q)
    ensures !q.stopped ==> NothingStopped(setting.policy, q) && q.reason == p.reason
  {
    hide Present, Blocked, Remove, Charge, RemainingTrialLimits, ValidRequirement;
  }

  lemma TriedIsLast(setting: Setting, order: seq<Constraint>, at: nat, p: Progress, q: Progress)
    requires at < |order| && Tried(setting, at, order[at], p, q)
    ensures !PresentAfter(order, q, at + 1)
  {
    hide Present, Blocked, Remove, Charge, RemainingTrialLimits, AggregateLimitReason, ResultTerminalReason;
  }

  lemma TriedIsTold(setting: Setting, original: Requirement, order: seq<Constraint>, at: nat, p: Progress, q: Progress)
    requires ValidPolicy(setting.policy) && Budgeted(setting, p) && !p.stopped && Within(p.reduced, original)
    requires CanonicalOrder(order, original) && at < |order| && Told(setting, original, order, at, p)
    requires Tried(setting, at, order[at], p, q)
    ensures Told(setting, original, order, at + 1, q)
  {
    hide TrialsTold, Budgeted, Tried, StoppedByReport, NothingStopped, Passed, Untried, Within, CanonicalOrder,
      Recorded, PresentAfter;
    TriedTrialsAreTold(setting, original, order, at, p, q);
    TriedIsLast(setting, order, at, p, q);
    TriedReason(setting, at, order[at], p, q);
    TriedIsPassed(setting, original, order, at, p, q);
  }

  // Whole runs.

  lemma StepIsTold(setting: Setting, original: Requirement, order: seq<Constraint>, at: nat, p: Progress)
    requires ValidPolicy(setting.policy) && CanonicalOrder(order, original) && at < |order| && !p.stopped
    requires Invariant(setting, original, order, at, p) && Told(setting, original, order, at, p)
    requires Step(setting, at, order[at], p).Ok?
    ensures Told(setting, original, order, at + 1, Step(setting, at, order[at], p).value)
  {
    hide Told, Budgeted, Step, Skipped, Tried, Settled, Closed, Within, CanonicalOrder;
    var q := Step(setting, at, order[at], p).value;
    StepCases(setting, at, order[at], p);
    if Tried(setting, at, order[at], p, q) {
      TriedIsTold(setting, original, order, at, p, q);
    } else {
      SkippedIsTold(setting, original, order, at, p, q);
    }
  }

  lemma StoppedIsTold(setting: Setting, original: Requirement, order: seq<Constraint>, k: nat, p: Progress)
    requires k <= |order| && p.stopped && Told(setting, original, order, k, p)
    ensures Told(setting, original, order, |order|, p)
  {
    hide TrialsTold;
  }

  lemma RunIsTold(setting: Setting, original: Requirement)
    requires ValidPolicy(setting.policy) && ValidRequirement(original) && Run(setting, original).Ok?
    ensures
      Told(setting, original, Constraints(original), |Constraints(original)|, Run(setting, original).value)
  {
    var order := Constraints(original);
    var holds := (k: nat, x: Progress) =>
      Invariant(setting, original, order, k, x) && Told(setting, original, order, k, x);
    ConstraintsAreCanonical(original);
    StartHoldsInvariant(setting, original);
    StartIsTold(setting, original, order);
    hide Invariant, Told, Constraints, CanonicalOrder, ValidPolicy, Step;
    forall k: nat, x: Progress | k < |order| && !x.stopped && holds(k, x) && Step(setting, k, order[k], x).Ok?
      ensures holds(k + 1, Step(setting, k, order[k], x).value)
    {
      StepKeepsInvariant(setting, original, order, k, x);
      StepIsTold(setting, original, order, k, x);
    }
    forall k: nat, x: Progress | k <= |order| && x.stopped && holds(k, x)
      ensures holds(|order|, x)
    {
      StoppedHoldsToTheEnd(setting, original, order, k, x);
      StoppedIsTold(setting, original, order, k, x);
    }
    RunInduction(setting, order, 0, Start(original), holds);
  }

  lemma UntriedComesLater(order: seq<Constraint>, p: Progress, j: nat)
    requires Recorded(order, |order|, p.attempts) && j < |order| && Present(order[j], p.reduced) && AfterTrials(p, j)
    ensures Untried(order, p, j)
  {
  }

  /** A run that was not stopped ends for want of constraints that it may try. */
  lemma GoingReason(setting: Setting, order: seq<Constraint>, p: Progress)
    requires Going(setting, order, |order|, p)
    ensures ReasonTold(setting.policy, order, p)
  {
    hide Present, CannotTry, CpuFull, ElapsedFull, OutputFull, AfterTrials, PresentAfter;
    assert forall j: nat :: Untried(order, p, j) ==> j < |order|;
  }

  lemma CountReason(setting: Setting, order: seq<Constraint>, p: Progress)
    requires Recorded(order, |order|, p.attempts) && StoppedByCount(setting, order, p)
    ensures ReasonTold(setting.policy, order, p)
  {
    var j: nat :| j < |order| && Present(order[j], p.reduced) && AfterTrials(p, j);
    UntriedComesLater(order, p, j);
    hide Present, CpuFull, ElapsedFull, OutputFull, AfterTrials, PresentAfter, Untried;
  }

  lemma ReportReason(policy: Policy, order: seq<Constraint>, p: Progress)
    requires StoppedByReport(policy, p)
    ensures ReasonTold(policy, order, p)
  {
    hide Present, CpuFull, ElapsedFull, OutputFull, AfterTrials, PresentAfter, Untried;
  }

  /**
   * The terminal reason of every run, from the last report, the grants, the
   * totals, the policy and what is left, case by case.
   */
  lemma ReasonIsExact(setting: Setting, original: Requirement)
    requires ValidPolicy(setting.policy) && ValidRequirement(original) && Run(setting, original).Ok?
    ensures ReasonTold(setting.policy, Constraints(original), Run(setting, original).value)
  {
    var p := Run(setting, original).value;
    RunIsTold(setting, original);
    hide ReasonTold, Run, Constraints, TrialsTold, Going, StoppedByReport, StoppedByCount, ValidPolicy,
      ValidRequirement;
    if !p.stopped {
      GoingReason(setting, Constraints(original), p);
    } else if StoppedByReport(setting.policy, p) {
      ReportReason(setting.policy, Constraints(original), p);
    } else {
      CountReason(setting, Constraints(original), p);
    }
  }

  /** Every trial of every run: its view, its grant, its report and its decision. */
  lemma TrialsAreExact(setting: Setting, original: Requirement)
    requires ValidPolicy(setting.policy) && ValidRequirement(original) && Run(setting, original).Ok?
    ensures TrialsTold(setting, original, Constraints(original), Run(setting, original).value)
  {
    RunIsTold(setting, original);
  }

  /** A receipt carries, for each trial in order, the digest of the view that ran and the outcome reported. */
  ghost predicate ReceiptTold(digester: Digester, observation: ProcessorObservation, p: Progress, receipt: Receipt) {
    && receipt.finalRequirementDigest == digester.requirement(p.reduced)
    && receipt.observationDigest == digester.observation(observation)
    && receipt.terminalReason == p.reason
    && |receipt.trials| == |p.attempts|
    && forall i :: 0 <= i < |p.attempts| ==>
         var trial, a := receipt.trials[i], p.attempts[i];
         && trial.trialIndex == i && trial.decision == a.decision
         && trial.candidateRequirementDigest == digester.requirement(a.candidate)
         && trial.executionResult == a.result.outcome
         && (match a.constraint
             case InstructionFeature(f) => trial.testedConstraint == "instruction-feature." + f
             case OsEnabledState(s) => trial.testedConstraint == "os-enabled-state." + s
             case IdentityConstraint => trial.testedConstraint == "processor-identity")
  }

  lemma ReceiptIsTold(digester: Digester, observation: ProcessorObservation, p: Progress)
    ensures ReceiptTold(digester, observation, p, ReceiptOf(digester, observation, p))
  {
  }

  /** Bounds that every policy keeps. */
  predicate PolicyInBounds(policy: Policy) {
    var limits := policy.trialLimits;
    && 1 <= policy.maximumTrials <= 16
    && 1 <= policy.totalCpu <= 7_200_000 && 1 <= policy.totalElapsed <= 1_800_000
    && 1 <= policy.totalOutput <= 16_777_216
    && 1 <= limits.cpu <= 60_000 && limits.cpu <= limits.elapsed <= 120_000
    && 1 <= limits.memory <= 1_073_741_824 && 1 <= limits.output <= 1_048_576
  }

  /** The reducer answers exactly for valid inputs of one processor, a run without failure and a valid receipt. */
  lemma ReducesWhen(digester: Digester, observation: ProcessorObservation, original: Requirement, setting: Setting)
    ensures Reduce(digester, observation, original, setting).Ok? <==>
      && ValidObservation(observation) && ValidRequirement(original) && PolicyInBounds(setting.policy)
      && observation.architecture == original.architecture && observation.abi == original.abi
      && Run(setting, original).Ok?
      && ValidReceipt(ReceiptOf(digester, observation, Run(setting, original).value))
  {
    hide Run, ValidReceipt, ValidRequirement, ValidObservation, ReceiptOf;
  }

  lemma ReductionOfRun(digester: Digester, observation: ProcessorObservation, original: Requirement, setting: Setting)
    requires Reduce(digester, observation, original, setting).Ok?
    ensures ValidPolicy(setting.policy) && ValidRequirement(original) && Run(setting, original).Ok?
    ensures
      var p := Run(setting, original).value;
      Reduce(digester, observation, original, setting) == Ok(Reduction(ReceiptOf(digester, observation, p), p.reduced))
  {
    hide Run, ValidReceipt, ValidPolicy, ValidRequirement, ValidObservation, ReceiptOf;
  }

  /** What the reducer returns tells its run. */
  lemma ReductionIsTold(digester: Digester, observation: ProcessorObservation, original: Requirement, setting: Setting)
    requires Reduce(digester, observation, original, setting).Ok?
    ensures observation.architecture == original.architecture && observation.abi == original.abi
    ensures PolicyInBounds(setting.policy) && Run(setting, original).Ok?
    ensures
      var p := Run(setting, original).value;
      var r := Reduce(digester, observation, original, setting).value;
      && r.requirement == p.reduced && ReceiptTold(digester, observation, p, r.receipt)
      && TrialsTold(setting, original, Constraints(original), p)
      && ReasonTold(setting.policy, Constraints(original), p)
  {
    hide TrialsTold, ReasonTold, ReceiptTold, Run, Reduce, Constraints, ReceiptOf, ValidPolicy, ValidRequirement,
      PolicyInBounds;
    ReducesWhen(digester, observation, original, setting);
    ReductionOfRun(digester, observation, original, setting);
    TrialsAreExact(setting, original);
    ReasonIsExact(setting, original);
    ReceiptIsTold(digester, observation, Run(setting, original).value);
  }

  // When a run fails.

  /** A trial at this position fails: the executor failed, or its report contradicts itself. */
  ghost predicate FailsAt(setting: Setting, c: Constraint, at: nat, p: Progress) {
    && !p.stopped && Present(c, p.reduced) && |p.attempts| < setting.policy.maximumTrials
    && setting.executor.canControl(at, c) && !Blocked(c, p.reduced)
    && exists view, granted ::
         var report := setting.executor.execute(at, view, granted);
         && LacksJust(view, p.reduced, c)
         && (report.Err? || (report.value.timedOut && report.value.unstable))
  }

  /** Where a step can fail. */
  lemma FailingStep(setting: Setting, at: nat, c: Constraint, p: Progress)
    requires Step(setting, at, c, p).Err? && RemainingTrialLimits(setting.policy, p.used).Some?
    requires ValidRequirement(Remove(c, p.reduced)) && |p.attempts| <= 255
    ensures Present(c, p.reduced) && |p.attempts| < setting.policy.maximumTrials
    ensures setting.executor.canControl(at, c) && !Blocked(c, p.reduced)
    ensures
      var granted := RemainingTrialLimits(setting.policy, p.used).value;
      var report := setting.executor.execute(at, Remove(c, p.reduced), granted);
      report.Err? || ResultTerminalReason(report.value, granted).Err?
  {
    hide Present, Remove, ValidRequirement, RemainingTrialLimits, Blocked, ResultTerminalReason, AggregateLimitReason,
      Charge;
  }

  lemma FailedStep(setting: Setting, at: nat, c: Constraint, p: Progress)
    requires ValidPolicy(setting.policy) && Budgeted(setting, p) && !p.stopped && ValidRequirement(p.reduced)
    requires Step(setting, at, c, p).Err?
    ensures FailsAt(setting, c, at, p)
  {
    hide Present, Remove, ValidRequirement, RemainingTrialLimits, LacksJust, Budgeted, ValidPolicy, Step, Blocked;
    BudgetGoesOn(setting, p);
    RemoveKeepsValid(c, p.reduced);
    ViewIsExact(c, p.reduced);
    CountIsSmall(setting, p);
    FailingStep(setting, at, c, p);
  }

  lemma CountIsSmall(setting: Setting, p: Progress)
    requires ValidPolicy(setting.policy) && Budgeted(setting, p)
    ensures |p.attempts| <= 16
  {
  }

  /** A run fails only where a trial does: no check of the reducer's own ever makes it fail. */
  lemma {:induction false} RunFailsAt(setting: Setting, original: Requirement, k: nat) returns (at: nat)
    requires ValidPolicy(setting.policy) && ValidRequirement(original) && k <= |Constraints(original)|
    requires RunTo(setting, original, k).Err?
    ensures at < k && RunTo(setting, original, at).Ok?
    ensures FailsAt(setting, Constraints(original)[at], at, RunTo(setting, original, at).value)
    decreases k
  {
    var order := Constraints(original);
    if k == 0 {
      assert false;
    } else if RunTo(setting, original, k - 1).Err? {
      at := RunFailsAt(setting, original, k - 1);
    } else {
      at := k - 1;
      var p := RunTo(setting, original, at).value;
      NextOfRun(setting, original, at);
      AnyRunStaysInBudget(setting, order[..at], original);
      PrefixIsValid(setting, original, at);
      FailedStep(setting, at, order[at], p);
    }
  }

  lemma NextOfRun(setting: Setting, original: Requirement, k: nat)
    requires k < |Constraints(original)| && RunTo(setting, original, k).Ok?
    ensures
      var p := RunTo(setting, original, k).value;
      RunTo(setting, original, k + 1) == if p.stopped then Ok(p) else Step(setting, k, Constraints(original)[k], p)
  {
    var order := Constraints(original);
    var longer := order[..k + 1];
    hide Constraints, Step;
    assert longer[..k] == order[..k] && longer[k] == order[k];
    RunSplits(setting, longer, 0, k, Start(original));
  }

  lemma PrefixIsValid(setting: Setting, original: Requirement, k: nat)
    requires ValidRequirement(original) && k <= |Constraints(original)| && RunTo(setting, original, k).Ok?
    ensures ValidRequirement(RunTo(setting, original, k).value.reduced)
  {
    var order := Constraints(original)[..k];
    var holds := (i: nat, x: Progress) => ValidRequirement(x.reduced);
    hide ValidRequirement, Constraints;
    forall i: nat, x: Progress | i < |order| && !x.stopped && holds(i, x) && Step(setting, i, order[i], x).Ok?
      ensures holds(i + 1, Step(setting, i, order[i], x).value)
    {
      StepIsValid(setting, i, order[i], x);
    }
    RunInduction(setting, order, 0, Start(original), holds);
  }

  lemma StepIsValid(setting: Setting, at: nat, c: Constraint, p: Progress)
    requires ValidRequirement(p.reduced) && !p.stopped && Step(setting, at, c, p).Ok?
    ensures ValidRequirement(Step(setting, at, c, p).value.reduced)
  {
    StepCases(setting, at, c, p);
    hide ValidRequirement, Step, Present, Blocked, Charge, AggregateLimitReason, ResultTerminalReason,
      RemainingTrialLimits, Remove;
  }
}
