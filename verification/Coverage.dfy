/** World coverage: the receipts a capture collects against its closure policy. */
module Coverage {
  import opened Prelude
  import opened Ordering

  datatype Mechanism = Blocked | ExactTranscript | FixedExecutorCapability | ImmutableObject | VerifiedSimulator

  type ObservationClass = nat

  datatype ClosureRule = ClosureRule(
    allowedMechanisms: seq<Mechanism>, boundaryId: string, observationClass: ObservationClass)

  datatype ClosurePolicy = ClosurePolicy(rules: seq<ClosureRule>)

  datatype ClosureReceipt = ClosureReceipt(
    boundaryId: string, evidenceDigest: Digest, mechanism: Mechanism, observationClass: ObservationClass, version: nat)

  datatype WorldClosure = WorldClosure(policyDigest: Digest, receipts: seq<ClosureReceipt>)

  type PolicyDigest = ClosurePolicy -> Digest

  predicate ValidBoundaryId(value: string) {
    && 1 <= |value| <= 128
    && forall i :: 0 <= i < |value| ==>
         || 'a' <= value[i] <= 'z'
         || (i > 0 && ('0' <= value[i] <= '9' || value[i] in ".-"))
  }

  function RuleIds(rules: seq<ClosureRule>): seq<string> {
    seq(|rules|, i requires 0 <= i < |rules| => rules[i].boundaryId)
  }

  function ReceiptIds(receipts: seq<ClosureReceipt>): seq<string> {
    seq(|receipts|, i requires 0 <= i < |receipts| => receipts[i].boundaryId)
  }

  predicate ValidRule(rule: ClosureRule) {
    ValidBoundaryId(rule.boundaryId) && 1 <= |rule.allowedMechanisms| <= 5
    && forall i, j :: 0 <= i < j < |rule.allowedMechanisms| ==> rule.allowedMechanisms[i] != rule.allowedMechanisms[j]
  }

  predicate ValidPolicy(policy: ClosurePolicy) {
    && 1 <= |policy.rules| <= 256
    && StrictlyAscending(RuleIds(policy.rules))
    && forall i :: 0 <= i < |policy.rules| ==> ValidRule(policy.rules[i])
  }

  predicate ValidVersion(version: nat) {
    1 <= version <= MAX_EXACT_INTEGER
  }

  predicate ValidClosure(closure: WorldClosure) {
    && 1 <= |closure.receipts| <= 256
    && StrictlyAscending(ReceiptIds(closure.receipts))
    && forall i :: 0 <= i < |closure.receipts| ==>
         ValidBoundaryId(closure.receipts[i].boundaryId) && ValidVersion(closure.receipts[i].version)
  }

  predicate Answers(rule: ClosureRule, receipt: ClosureReceipt) {
    && rule.boundaryId == receipt.boundaryId
    && rule.observationClass == receipt.observationClass
    && receipt.mechanism in rule.allowedMechanisms
  }

  /** The closure answers the policy rule by rule, in the policy's order. */
  predicate ClosesWorld(digestOf: PolicyDigest, policy: ClosurePolicy, closure: WorldClosure) {
    && ValidPolicy(policy) && ValidClosure(closure)
    && closure.policyDigest == digestOf(policy)
    && |closure.receipts| == |policy.rules|
    && forall i :: 0 <= i < |policy.rules| ==> Answers(policy.rules[i], closure.receipts[i])
  }

  /** The rule's boundary and class, one of its mechanisms, and a version in range. */
  predicate AnswersInFull(rule: ClosureRule, receipt: ClosureReceipt) {
    && receipt.boundaryId == rule.boundaryId
    && receipt.observationClass == rule.observationClass
    && receipt.mechanism in rule.allowedMechanisms
    && 1 <= receipt.version <= 9_007_199_254_740_991
  }

  /** One receipt for each rule, in the policy's order. */
  predicate RuleByRule(rules: seq<ClosureRule>, receipts: seq<ClosureReceipt>) {
    && |receipts| == |rules|
    && forall i :: 0 <= i < |rules| ==> AnswersInFull(rules[i], receipts[i])
  }

  /** At most 256 rules, of different boundaries in order. */
  predicate RulesInOrder(rules: seq<ClosureRule>) {
    && 1 <= |rules| <= 256
    && (forall i, j :: 0 <= i < j < |rules| ==> Less(rules[i].boundaryId, rules[j].boundaryId))
    && forall i :: 0 <= i < |rules| ==> ValidRule(rules[i])
  }

  /** Closing the world, rule by rule: no receipt test but the one against its own rule is left. */
  lemma ClosesRuleByRule(digestOf: PolicyDigest, policy: ClosurePolicy, closure: WorldClosure)
    ensures ClosesWorld(digestOf, policy, closure) <==>
      && RulesInOrder(policy.rules)
      && closure.policyDigest == digestOf(policy)
      && RuleByRule(policy.rules, closure.receipts)
  {
    hide ValidBoundaryId, AnswersInFull, Answers, ValidVersion, RulesInOrder;
    var rules, receipts := policy.rules, closure.receipts;
    OrderedRules(policy);
    if |receipts| == |rules| {
      forall i | 0 <= i < |rules|
        ensures AnswersInFull(rules[i], receipts[i]) <==>
          Answers(rules[i], receipts[i]) && ValidVersion(receipts[i].version)
        ensures Answers(rules[i], receipts[i]) ==> receipts[i].boundaryId == rules[i].boundaryId
      {
        AnswersMeans(rules[i], receipts[i]);
      }
      if forall i :: 0 <= i < |rules| ==> Answers(rules[i], receipts[i]) {
        assert ReceiptIds(receipts) == RuleIds(rules);
      }
    }
  }

  lemma AnswersMeans(rule: ClosureRule, receipt: ClosureReceipt)
    ensures AnswersInFull(rule, receipt) <==> Answers(rule, receipt) && ValidVersion(receipt.version)
    ensures Answers(rule, receipt) ==> receipt.boundaryId == rule.boundaryId
  {
  }

  lemma OrderedRules(policy: ClosurePolicy)
    ensures ValidPolicy(policy) <==> RulesInOrder(policy.rules)
  {
    hide ValidRule;
    var ids, rules := RuleIds(policy.rules), policy.rules;
    assert forall i, j :: 0 <= i < j < |rules| ==>
      (Less(ids[i], ids[j]) <==> Less(rules[i].boundaryId, rules[j].boundaryId));
  }

  method ValidateWorldClosure(digestOf: PolicyDigest, policy: ClosurePolicy, closure: WorldClosure)
    returns (r: Result<Unit>)
    ensures r.Ok? <==> ClosesWorld(digestOf, policy, closure)
    ensures
      r.Ok? <==>
        && RulesInOrder(policy.rules)
        && closure.policyDigest == digestOf(policy)
        && RuleByRule(policy.rules, closure.receipts)
  {
    ClosesRuleByRule(digestOf, policy, closure);
    if !ValidPolicy(policy) || !ValidClosure(closure) {
      return Err(SchemaInvalid);
    }
    if closure.policyDigest != digestOf(policy) || |closure.receipts| != |policy.rules| {
      return Err(WorldNotClosed);
    }
    for i := 0 to |policy.rules|
      invariant forall k :: 0 <= k < i ==> Answers(policy.rules[k], closure.receipts[k])
    {
      var rule, receipt := policy.rules[i], closure.receipts[i];
      if rule.boundaryId != receipt.boundaryId || rule.observationClass != receipt.observationClass
        || receipt.mechanism !in rule.allowedMechanisms
      {
        assert !Answers(policy.rules[i], closure.receipts[i]);
        return Err(WorldNotClosed);
      }
    }
    return Ok(Unit.Unit);
  }

  // Collecting receipts.

  datatype CoverageState = CoverageState(receipts: map<string, ClosureReceipt>, invalid: bool)

  /** The position of the first rule for a boundary. */
  function FindRule(rules: seq<ClosureRule>, boundaryId: string): (r: Option<nat>)
    ensures r.Some? ==> r.value < |rules| && rules[r.value].boundaryId == boundaryId
    ensures r.None? ==> forall i :: 0 <= i < |rules| ==> rules[i].boundaryId != boundaryId
  {
    if rules == [] then None
    else if rules[0].boundaryId == boundaryId then Some(0)
    else
      var rest := FindRule(rules[1..], boundaryId);
      if rest.None? then None else Some(rest.value + 1)
  }

  /** A receipt is welcome when its rule allows it and nothing arrived for that boundary yet. */
  predicate Welcome(policy: ClosurePolicy, s: CoverageState, receipt: ClosureReceipt) {
    var found := FindRule(policy.rules, receipt.boundaryId);
    found.Some? && Answers(policy.rules[found.value], receipt) && receipt.boundaryId !in s.receipts
  }

  function RecordStep(policy: ClosurePolicy, s: CoverageState, receipt: ClosureReceipt): CoverageState {
    if Welcome(policy, s, receipt) then s.(receipts := s.receipts[receipt.boundaryId := receipt])
    else s.(invalid := true)
  }

  /** Every receipt stands under its own boundary and answers that boundary's rule. */
  ghost predicate Sound(policy: ClosurePolicy, s: CoverageState) {
    forall id :: id in s.receipts ==>
      && s.receipts[id].boundaryId == id
      && FindRule(policy.rules, id).Some?
      && Answers(policy.rules[FindRule(policy.rules, id).value], s.receipts[id])
  }

  predicate Closable(policy: ClosurePolicy, s: CoverageState) {
    && !s.invalid
    && |s.receipts| == |policy.rules|
    && forall id :: id in s.receipts ==> ValidVersion(s.receipts[id].version)
  }

  /** The keys of a sorted map. */
  method SortedKeys(receipts: map<string, ClosureReceipt>) returns (keys: seq<string>)
    ensures StrictlyAscending(keys)
    ensures forall id :: id in keys <==> id in receipts
  {
    var found: seq<string> := [];
    var remaining := receipts.Keys;
    while remaining != {}
      invariant remaining <= receipts.Keys
      invariant forall id :: id in found <==> id in receipts.Keys - remaining
      decreases |remaining|
    {
      var id :| id in remaining;
      found := found + [id];
      remaining := remaining - {id};
    }
    SortDedupIsStrict(found);
    keys := SortDedup(found);
  }

  // Policy order and map order.

  lemma FoundRule(policy: ClosurePolicy, i: nat)
    requires ValidPolicy(policy) && i < |policy.rules|
    ensures FindRule(policy.rules, policy.rules[i].boundaryId) == Some(i)
  {
    var found := FindRule(policy.rules, policy.rules[i].boundaryId).value;
    var ids := RuleIds(policy.rules);
    assert ids[i] == ids[found];
    StrictIsDistinct(ids);
  }

  /** As many answers as rules means an answer for every rule. */
  lemma FullCoverage(policy: ClosurePolicy, s: CoverageState)
    requires ValidPolicy(policy) && Sound(policy, s) && |s.receipts| == |policy.rules|
    ensures forall id :: id in s.receipts <==> id in RuleIds(policy.rules)
  {
    var ids := RuleIds(policy.rules);
    StrictIsDistinct(ids);
    DistinctSize(ids);
    forall id | id in s.receipts ensures id in Members(ids) {
      assert id == ids[FindRule(policy.rules, id).value];
    }
    var missing := Members(ids) - s.receipts.Keys;
    assert Members(ids) == s.receipts.Keys + missing;
    assert |s.receipts.Keys| == |s.receipts|;
  }

  /** The receipts of a full state in the policy's order. */
  ghost function PolicyOrder(policy: ClosurePolicy, s: CoverageState): seq<ClosureReceipt>
    requires forall id :: id in RuleIds(policy.rules) ==> id in s.receipts
  {
    seq(|policy.rules|, i requires 0 <= i < |policy.rules| =>
      assert RuleIds(policy.rules)[i] in s.receipts; s.receipts[policy.rules[i].boundaryId])
  }

  /** What `close` returns, stated without any sorting. */
  ghost function Closed(digestOf: PolicyDigest, policy: ClosurePolicy, s: CoverageState): Option<WorldClosure>
    requires ValidPolicy(policy) && Sound(policy, s)
  {
    if Closable(policy, s) then
      FullCoverage(policy, s);
      Some(WorldClosure(digestOf(policy), PolicyOrder(policy, s)))
    else None
  }

  predicate InVersionRange(receipts: map<string, ClosureReceipt>) {
    forall id :: id in receipts ==> 1 <= receipts[id].version <= 9_007_199_254_740_991
  }

  /** The receipts taken out of the map boundary by boundary, as the rules come. */
  predicate InRuleOrder(rules: seq<ClosureRule>, receipts: map<string, ClosureReceipt>, listed: seq<ClosureReceipt>) {
    |listed| == |rules|
    && forall i :: 0 <= i < |rules| ==>
         rules[i].boundaryId in receipts && listed[i] == receipts[rules[i].boundaryId]
  }

  /** A capture closes exactly when it is full, unspoiled and every version is in range; then rule by rule. */
  lemma ClosedOutright(digestOf: PolicyDigest, policy: ClosurePolicy, s: CoverageState)
    requires ValidPolicy(policy) && Sound(policy, s)
    ensures
      var closed := Closed(digestOf, policy, s);
      && (closed.Some? <==> !s.invalid && |s.receipts| == |policy.rules| && InVersionRange(s.receipts))
      && (closed.Some? ==>
            && closed.value.policyDigest == digestOf(policy) && RuleByRule(policy.rules, closed.value.receipts)
            && InRuleOrder(policy.rules, s.receipts, closed.value.receipts))
  {
    var closed := Closed(digestOf, policy, s);
    if closed.Some? {
      hide ValidBoundaryId, ValidVersion, RuleByRule, ClosesWorld, RulesInOrder;
      FullCoverage(policy, s);
      InPolicyOrder(digestOf, policy, s, closed.value);
      ClosesRuleByRule(digestOf, policy, closed.value);
      var ids := RuleIds(policy.rules);
      forall i | 0 <= i < |policy.rules|
        ensures policy.rules[i].boundaryId in s.receipts
      {
        assert ids[i] in ids;
      }
    }
  }

  class CaptureCoverage {
    const digestOf: PolicyDigest
    const policy: ClosurePolicy
    var receipts: map<string, ClosureReceipt>
    var coverageInvalid: bool

    constructor (digestOf: PolicyDigest, policy: ClosurePolicy)
      requires ValidPolicy(policy)
      ensures this.digestOf == digestOf && this.policy == policy
      ensures View() == CoverageState(map[], false) && Valid()
    {
      this.digestOf := digestOf;
      this.policy := policy;
      receipts := map[];
      coverageInvalid := false;
    }

    function View(): CoverageState
      reads this
    {
      CoverageState(receipts, coverageInvalid)
    }

    ghost predicate Valid()
      reads this
    {
      ValidPolicy(policy) && Sound(policy, View())
    }

    method Record(receipt: ClosureReceipt) returns (r: Result<Unit>)
      requires Valid()
      modifies this
      ensures Valid() && View() == RecordStep(policy, old(View()), receipt)
      ensures r == if Welcome(policy, old(View()), receipt) then Ok(Unit.Unit) else Err(WorldNotClosed)
      ensures
        r.Ok? <==>
          && receipt.boundaryId !in old(receipts)
          && exists i :: 0 <= i < |policy.rules| && policy.rules[i].boundaryId == receipt.boundaryId
               && policy.rules[i].observationClass == receipt.observationClass
               && receipt.mechanism in policy.rules[i].allowedMechanisms
      ensures receipts == if r.Ok? then old(receipts)[receipt.boundaryId := receipt] else old(receipts)
      ensures coverageInvalid <==> old(coverageInvalid) || r.Err?
    {
      forall i | 0 <= i < |policy.rules|
        ensures FindRule(policy.rules, policy.rules[i].boundaryId) == Some(i)
      {
        FoundRule(policy, i);
      }
      var found := FindRule(policy.rules, receipt.boundaryId);
      if found.None? {
        coverageInvalid := true;
        return Err(WorldNotClosed);
      }
      var rule := policy.rules[found.value];
      if rule.observationClass != receipt.observationClass || receipt.mechanism !in rule.allowedMechanisms
        || receipt.boundaryId in receipts
      {
        coverageInvalid := true;
        return Err(WorldNotClosed);
      }
      receipts := receipts[receipt.boundaryId := receipt];
      return Ok(Unit.Unit);
    }

    method MarkUnowned()
      modifies this
      ensures View() == old(View()).(invalid := true)
    {
      coverageInvalid := true;
    }

    /** Taking the receipts out of the sorted map yields them in the policy's order. */
    method Close() returns (r: Result<WorldClosure>)
      requires Valid()
      ensures r.Ok? <==> Closed(digestOf, policy, View()).Some?
      ensures r.Ok? ==> r.value == Closed(digestOf, policy, View()).value && ClosesWorld(digestOf, policy, r.value)
      ensures
        r.Ok? <==>
          && !coverageInvalid && |receipts| == |policy.rules|
          && InVersionRange(receipts)
      ensures
        r.Ok? ==>
          && r.value.policyDigest == digestOf(policy) && RuleByRule(policy.rules, r.value.receipts)
          && InRuleOrder(policy.rules, receipts, r.value.receipts)
    {
      ClosedOutright(digestOf, policy, View());
      hide ClosesWorld, ValidVersion, ValidBoundaryId, RuleByRule, InVersionRange, InRuleOrder;
      if coverageInvalid || |receipts| != |policy.rules| {
        return Err(WorldNotClosed);
      }
      var collected := receipts;
      var keys := SortedKeys(collected);
      FullCoverage(policy, View());
      StrictOrderIsUnique(keys, RuleIds(policy.rules));
      var values := seq(|keys|, i requires 0 <= i < |keys| =>
        assert keys[i] in collected; collected[keys[i]]);
      var closure := WorldClosure(digestOf(policy), values);
      InPolicyOrder(digestOf, policy, View(), closure);
      var validated := ValidateWorldClosure(digestOf, policy, closure);
      if validated.Err? {
        return Err(validated.error);
      }
      return Ok(closure);
    }
  }

  /** In a full state the receipts in policy order close the world exactly when every version is in range. */
  lemma InPolicyOrder(digestOf: PolicyDigest, policy: ClosurePolicy, s: CoverageState, closure: WorldClosure)
    requires ValidPolicy(policy) && Sound(policy, s)
    requires forall id :: id in s.receipts <==> id in RuleIds(policy.rules)
    requires closure == WorldClosure(digestOf(policy), PolicyOrder(policy, s))
    ensures
      ClosesWorld(digestOf, policy, closure) <==>
        forall id :: id in s.receipts ==> ValidVersion(s.receipts[id].version)
  {
    hide ValidVersion, ValidBoundaryId;
    var ids := RuleIds(policy.rules);
    forall i | 0 <= i < |policy.rules|
      ensures
        && ids[i] in s.receipts && closure.receipts[i] == s.receipts[ids[i]]
        && Answers(policy.rules[i], closure.receipts[i])
    {
      FoundRule(policy, i);
      assert ids[i] in s.receipts;
    }
    assert ReceiptIds(closure.receipts) == ids;
    if ClosesWorld(digestOf, policy, closure) {
      forall id | id in s.receipts ensures ValidVersion(s.receipts[id].version) {
        var i :| 0 <= i < |ids| && ids[i] == id;
        assert closure.receipts[i] == s.receipts[id];
      }
    }
    if forall id :: id in s.receipts ==> ValidVersion(s.receipts[id].version) {
      forall i | 0 <= i < |closure.receipts|
        ensures ValidBoundaryId(closure.receipts[i].boundaryId) && ValidVersion(closure.receipts[i].version)
      {
        assert ValidRule(policy.rules[i]) && ids[i] in s.receipts;
      }
    }
  }
}
