/** What every run of reservations and releases keeps. */
module ReservationRuns {
  import opened Prelude
  import opened Reservation

  datatype Action =
    | Reserve(id: Digest, service: ServiceId, claim: Claim)
    | Release(id: Digest, service: ServiceId)

  ghost function Apply(capacity: Capacity, active: Active, action: Action): Active {
    match action
    case Reserve(id, service, claim) =>
      var r := ReserveOutcome(capacity, active, id, service, claim);
      if r.Ok? then r.value.1 else active
    case Release(id, service) =>
      var r := ReleaseOutcome(active, id, service);
      if r.Ok? then r.value else active
  }

  ghost function Run(capacity: Capacity, active: Active, actions: seq<Action>): Active
    decreases |actions|
  {
    if actions == [] then active else Run(capacity, Apply(capacity, active, actions[0]), actions[1..])
  }

  ghost predicate WithinShare(active: Active, maximumLeases: nat, maximumClaim: Claim) {
    |active| <= maximumLeases && ClaimFits(Total(active), maximumClaim)
  }

  /** Both levels hold, and every reservation is a valid claim of a known service. */
  ghost predicate Within(capacity: Capacity, active: Active) {
    && WithinShare(active, capacity.maximumActiveLeases, capacity.maximumResourceClaim)
    && (forall service :: service in capacity.serviceShares ==> ServiceWithin(capacity, active, service))
    && forall id :: id in active ==> ValidClaim(active[id].claim) && active[id].serviceId in capacity.serviceShares
  }

  ghost predicate ServiceWithin(capacity: Capacity, active: Active, service: ServiceId)
    requires service in capacity.serviceShares
  {
    var share := capacity.serviceShares[service];
    WithinShare(OfService(active, service), share.maximumActiveLeases, share.maximumResourceClaim)
  }

  lemma NotReservedThere(active: Active, id: Digest, service: ServiceId)
    requires id !in active
    ensures id !in OfService(active, service)
  {
  }

  /** Room is exactly what keeps a share within its bounds. */
  lemma RoomKeepsShare(active: Active, id: Digest, r: ActiveReservation, maximumLeases: nat, maximumClaim: Claim)
    requires id !in active && Room(active, r.claim, maximumLeases, maximumClaim)
    ensures WithinShare(active[id := r], maximumLeases, maximumClaim)
  {
    TotalInsert(active, id, r);
  }

  /** The service that reserves stays within its share, and no other share changes. */
  lemma ReserveKeepsShare(capacity: Capacity, active: Active, id: Digest, r: ActiveReservation, other: ServiceId)
    requires other in capacity.serviceShares && ServiceWithin(capacity, active, other) && id !in active
    requires
      other == r.serviceId ==>
        var share := capacity.serviceShares[other];
        Room(OfService(active, other), r.claim, share.maximumActiveLeases, share.maximumResourceClaim)
    ensures ServiceWithin(capacity, active[id := r], other)
  {
    hide OfService, Room, WithinShare;
    ServiceInsert(active, id, r, other);
    NotReservedThere(active, id, other);
    if other == r.serviceId {
      var share := capacity.serviceShares[other];
      RoomKeepsShare(OfService(active, other), id, r, share.maximumActiveLeases, share.maximumResourceClaim);
    }
  }

  lemma ReserveKeepsWithin(capacity: Capacity, active: Active, id: Digest, service: ServiceId, claim: Claim)
    requires Within(capacity, active) && ReserveOutcome(capacity, active, id, service, claim).Ok?
    ensures Within(capacity, ReserveOutcome(capacity, active, id, service, claim).value.1)
  {
    hide OfService, Room, WithinShare, ValidClaim, ServiceWithin;
    if id !in active {
      var r := ActiveReservation(claim, service);
      RoomKeepsShare(active, id, r, capacity.maximumActiveLeases, capacity.maximumResourceClaim);
      forall other | other in capacity.serviceShares
        ensures ServiceWithin(capacity, active[id := r], other)
      {
        ReserveKeepsShare(capacity, active, id, r, other);
      }
    }
  }

  lemma ShareShrinks(active: Active, id: Digest, maximumLeases: nat, maximumClaim: Claim)
    requires WithinShare(active, maximumLeases, maximumClaim)
    ensures WithinShare(active - {id}, maximumLeases, maximumClaim)
  {
    if id in active {
      TotalRemove(active, id);
    } else {
      assert active - {id} == active;
    }
  }

  lemma ReleaseKeepsWithin(capacity: Capacity, active: Active, id: Digest)
    requires Within(capacity, active)
    ensures Within(capacity, active - {id})
  {
    ShareShrinks(active, id, capacity.maximumActiveLeases, capacity.maximumResourceClaim);
    forall other | other in capacity.serviceShares ensures ServiceWithin(capacity, active - {id}, other) {
      var share := capacity.serviceShares[other];
      ServiceRemove(active, id, other);
      assert ServiceWithin(capacity, active, other);
      ShareShrinks(OfService(active, other), id, share.maximumActiveLeases, share.maximumResourceClaim);
    }
  }

  lemma {:induction false} RunKeepsWithin(capacity: Capacity, active: Active, actions: seq<Action>)
    requires Within(capacity, active)
    ensures Within(capacity, Run(capacity, active, actions))
    decreases |actions|
  {
    if actions != [] {
      var action := actions[0];
      if action.Reserve? {
        if ReserveOutcome(capacity, active, action.id, action.service, action.claim).Ok? {
          ReserveKeepsWithin(capacity, active, action.id, action.service, action.claim);
        }
      } else if ReleaseOutcome(active, action.id, action.service).Ok? {
        ReleaseKeepsWithin(capacity, active, action.id);
      }
      RunKeepsWithin(capacity, Apply(capacity, active, action), actions[1..]);
    }
  }

  lemma EmptyIsWithin(capacity: Capacity)
    ensures Within(capacity, map[])
  {
    TotalEmpty();
    forall service | service in capacity.serviceShares ensures ServiceWithin(capacity, map[], service) {
      assert OfService(map[], service) == map[];
    }
  }

  /** No run of a new model ever exceeds any limit of either level. */
  lemma CapacityIsNeverExceeded(capacity: Capacity, actions: seq<Action>)
    requires ValidCapacity(capacity)
    ensures Within(capacity, Run(capacity, map[], actions))
  {
    EmptyIsWithin(capacity);
    RunKeepsWithin(capacity, map[], actions);
  }

  /** In a reachable state no checked addition of `reserve` can fail: every refusal is a real one. */
  lemma NoRefusalIsOverflow(capacity: Capacity, actions: seq<Action>, service: ServiceId, claim: Claim)
    requires ValidCapacity(capacity) && ValidClaim(claim)
    ensures
      var active := Run(capacity, map[], actions);
      && InU64(Total(active)) && |active| + 1 <= U64_MAX && AddClaim(Total(active), claim).Ok?
    ensures
      var mine := OfService(Run(capacity, map[], actions), service);
      && InU64(Total(mine)) && |mine| + 1 <= U64_MAX
      && (service in capacity.serviceShares ==> AddClaim(Total(mine), claim).Ok?)
  {
    CapacityIsNeverExceeded(capacity, actions);
    var active := Run(capacity, map[], actions);
    if service in capacity.serviceShares {
      assert ServiceWithin(capacity, active, service);
      assert ShareWithin(capacity.serviceShares[service], capacity);
    } else {
      assert OfService(active, service) == map[];
      TotalEmpty();
    }
  }

  /** A release gives back exactly its own claim, to the whole and to its own service, and to nobody else. */
  lemma ReleaseGivesBack(active: Active, id: Digest, service: ServiceId, other: ServiceId)
    requires ReleaseOutcome(active, id, service).Ok?
    ensures
      var after := ReleaseOutcome(active, id, service).value;
      && Total(active) == Plus(Total(after), active[id].claim) && |active| == |after| + 1
      && Total(OfService(active, service)) == Plus(Total(OfService(after, service)), active[id].claim)
      && |OfService(active, service)| == |OfService(after, service)| + 1
      && (other != service ==> OfService(after, other) == OfService(active, other))
  {
    TotalRemove(active, id);
    ServiceRemove(active, id, service);
    TotalRemove(OfService(active, service), id);
  }

  /** Reserving and releasing is the identity, and a reservation that was granted once is granted again at no cost. */
  lemma ReserveThenRelease(capacity: Capacity, active: Active, id: Digest, service: ServiceId, claim: Claim)
    requires ReserveOutcome(capacity, active, id, service, claim).Ok?
    ensures
      var (result, after) := ReserveOutcome(capacity, active, id, service, claim).value;
      && ReserveOutcome(capacity, after, id, service, claim) == Ok((AlreadyReserved, after))
      && (result == AlreadyReserved <==> id in active)
      && (result == Reserved ==> ReleaseOutcome(after, id, service) == Ok(active))
      && (result == AlreadyReserved ==> after == active)
  {
    if id !in active {
      assert active[id := ActiveReservation(claim, service)] - {id} == active;
    }
  }
}
