/** When a capture closes, over every order in which its observations arrive. */
module CoverageRuns {
  import opened Ordering
  import opened Coverage

  datatype Event = Recorded(receipt: ClosureReceipt) | Unowned

  function Step(policy: ClosurePolicy, s: CoverageState, event: Event): CoverageState {
    match event
    case Recorded(receipt) => RecordStep(policy, s, receipt)
    case Unowned => s.(invalid := true)
  }

  const NEW := CoverageState(map[], false)

  function Run(policy: ClosurePolicy, events: seq<Event>): CoverageState {
    if events == [] then NEW else Step(policy, Run(policy, events[..|events| - 1]), events[|events| - 1])
  }

  /** Nothing unowned, every receipt answers its rule, and no boundary twice. */
  predicate Clean(policy: ClosurePolicy, events: seq<Event>) {
    && (forall e :: e in events ==> e.Recorded? && Allowed(policy, e.receipt))
    && forall i, j :: 0 <= i < j < |events| ==> events[i].receipt.boundaryId != events[j].receipt.boundaryId
  }

  predicate Allowed(policy: ClosurePolicy, receipt: ClosureReceipt) {
    var found := FindRule(policy.rules, receipt.boundaryId);
    found.Some? && Answers(policy.rules[found.value], receipt)
  }

  /** What a state without faults holds: the receipts that arrived, each under its boundary. */
  ghost predicate HoldsExactly(s: CoverageState, events: seq<Event>) {
    && |s.receipts| == |events|
    && (forall e :: e in events ==> e.Recorded? && e.receipt.boundaryId in s.receipts
                                      && s.receipts[e.receipt.boundaryId] == e.receipt)
    && forall id :: id in s.receipts ==> Recorded(s.receipts[id]) in events
  }

  lemma CleanGrows(policy: ClosurePolicy, events: seq<Event>, last: Event)
    ensures
      Clean(policy, events + [last]) <==>
        && Clean(policy, events)
        && last.Recorded? && Allowed(policy, last.receipt)
        && forall e :: e in events ==> e.receipt.boundaryId != last.receipt.boundaryId
  {
    var all := events + [last];
    assert all[|events|] == last;
    assert forall i :: 0 <= i < |events| ==> all[i] == events[i];
    assert forall e :: e in events ==> e in all;
    assert forall e :: e in all ==> e in events || e == last;
    if Clean(policy, all) {
      assert last in all;
      forall e | e in events ensures e.receipt.boundaryId != last.receipt.boundaryId {
        var i :| 0 <= i < |events| && events[i] == e;
        assert all[i].receipt.boundaryId != all[|events|].receipt.boundaryId;
      }
    }
  }

  lemma {:induction false} RunIsSound(policy: ClosurePolicy, events: seq<Event>)
    ensures Sound(policy, Run(policy, events))
  {
    if events != [] {
      RunIsSound(policy, events[..|events| - 1]);
    }
  }

  lemma WelcomeWhenNew(policy: ClosurePolicy, s: CoverageState, events: seq<Event>, receipt: ClosureReceipt)
    requires HoldsExactly(s, events) && Sound(policy, s)
    ensures
      Welcome(policy, s, receipt) <==>
        Allowed(policy, receipt) && forall e :: e in events ==> e.receipt.boundaryId != receipt.boundaryId
    ensures
      Welcome(policy, s, receipt) ==> HoldsExactly(RecordStep(policy, s, receipt), events + [Recorded(receipt)])
  {
    if receipt.boundaryId in s.receipts {
      var e := Recorded(s.receipts[receipt.boundaryId]);
      assert e in events && e.receipt.boundaryId in s.receipts && s.receipts[e.receipt.boundaryId] == e.receipt;
      assert e.receipt.boundaryId == receipt.boundaryId;
    }
    if Welcome(policy, s, receipt) {
      var t, grown := RecordStep(policy, s, receipt), events + [Recorded(receipt)];
      assert grown[|events|] == Recorded(receipt);
      forall id | id in t.receipts ensures Recorded(t.receipts[id]) in grown {
        if id in s.receipts {
          assert Recorded(s.receipts[id]) in events;
        }
      }
    }
  }

  /** A capture stays valid exactly while its events are clean, and then holds exactly their receipts. */
  lemma {:induction false} ValidWhenClean(policy: ClosurePolicy, events: seq<Event>)
    ensures !Run(policy, events).invalid <==> Clean(policy, events)
    ensures Clean(policy, events) ==> HoldsExactly(Run(policy, events), events)
  {
    if events != [] {
      var before, last := events[..|events| - 1], events[|events| - 1];
      var s := Run(policy, before);
      assert events == before + [last];
      ValidWhenClean(policy, before);
      RunIsSound(policy, before);
      CleanGrows(policy, before, last);
      if Clean(policy, before) && last.Recorded? {
        WelcomeWhenNew(policy, s, before, last.receipt);
      }
    }
  }

  predicate InRange(events: seq<Event>) {
    forall e :: e in events && e.Recorded? ==> ValidVersion(e.receipt.version)
  }

  /**
   * `close` succeeds exactly when every `record` succeeded, nothing was marked
   * unowned, every rule got its one receipt and every version is in range; the
   * closure then passes the independent check.
   */
  lemma ClosesExactly(digestOf: PolicyDigest, policy: ClosurePolicy, events: seq<Event>)
    requires ValidPolicy(policy)
    ensures Sound(policy, Run(policy, events))
    ensures
      Closed(digestOf, policy, Run(policy, events)).Some? <==>
        Clean(policy, events) && |events| == |policy.rules| && InRange(events)
    ensures
      var closed := Closed(digestOf, policy, Run(policy, events));
      closed.Some? ==> ClosesWorld(digestOf, policy, closed.value)
  {
    var s := Run(policy, events);
    RunIsSound(policy, events);
    ValidWhenClean(policy, events);
    if Closed(digestOf, policy, s).Some? {
      FullCoverage(policy, s);
      InPolicyOrder(digestOf, policy, s, Closed(digestOf, policy, s).value);
    }
  }

  lemma CleanInAnyOrder(policy: ClosurePolicy, events: seq<Event>, other: seq<Event>)
    requires multiset(events) == multiset(other) && Clean(policy, events)
    ensures Clean(policy, other)
  {
    forall e | e in other ensures e in events {
      assert e in multiset(other);
    }
    assert Distinct(events);
    forall i, j | 0 <= i < j < |other|
      ensures other[i].receipt.boundaryId != other[j].receipt.boundaryId
    {
      MultisetOfDistinct(events, other[i]);
      RepeatedMember(other, i, j);
      assert other[i] != other[j];
      var a :| 0 <= a < |events| && events[a] == other[i];
      var b :| 0 <= b < |events| && events[b] == other[j];
      assert if a < b then events[a].receipt.boundaryId != events[b].receipt.boundaryId
             else events[b].receipt.boundaryId != events[a].receipt.boundaryId;
    }
  }

  /** The same events in any order give the same closure, or none. */
  lemma ArrivalOrderDoesNotMatter(digestOf: PolicyDigest, policy: ClosurePolicy, events: seq<Event>, other: seq<Event>)
    requires ValidPolicy(policy) && multiset(events) == multiset(other)
    ensures Sound(policy, Run(policy, events)) && Sound(policy, Run(policy, other))
    ensures Closed(digestOf, policy, Run(policy, events)) == Closed(digestOf, policy, Run(policy, other))
  {
    ClosesExactly(digestOf, policy, events);
    ClosesExactly(digestOf, policy, other);
    assert |events| == |multiset(events)| == |multiset(other)| == |other|;
    SameMembersOf(events, other);
    if Clean(policy, events) {
      CleanInAnyOrder(policy, events, other);
    }
    if Clean(policy, other) {
      CleanInAnyOrder(policy, other, events);
    }
    if Closed(digestOf, policy, Run(policy, events)).Some? {
      ValidWhenClean(policy, events);
      ValidWhenClean(policy, other);
      SameHoldings(Run(policy, events), Run(policy, other), events, other);
    }
  }

  lemma SameMembersOf(events: seq<Event>, other: seq<Event>)
    requires multiset(events) == multiset(other)
    ensures forall e :: e in events <==> e in other
  {
    forall e ensures e in events <==> e in other {
      assert e in multiset(events) <==> e in multiset(other);
    }
  }

  lemma SameHoldings(s: CoverageState, t: CoverageState, events: seq<Event>, other: seq<Event>)
    requires HoldsExactly(s, events) && HoldsExactly(t, other)
    requires forall e :: e in events <==> e in other
    requires forall id :: id in s.receipts ==> s.receipts[id].boundaryId == id
    requires forall id :: id in t.receipts ==> t.receipts[id].boundaryId == id
    ensures s.receipts == t.receipts
  {
    forall id | id in s.receipts ensures id in t.receipts && t.receipts[id] == s.receipts[id] {
      assert Recorded(s.receipts[id]) in other;
    }
    forall id | id in t.receipts ensures id in s.receipts {
      assert Recorded(t.receipts[id]) in events;
    }
  }
}
