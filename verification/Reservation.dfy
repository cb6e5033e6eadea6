/** The two-level provider lease allocator. */
module Reservation {
  import opened Prelude
  import opened MapSums

  type ServiceId = nat

  datatype Claim = Claim(materializedBytes: nat, objects: nat, pinnedBytes: nat, temporaryBytes: nat)

  const NOTHING := Claim(0, 0, 0, 0)

  datatype ServiceCapacity = ServiceCapacity(maximumActiveLeases: nat, maximumResourceClaim: Claim)

  datatype Capacity = Capacity(
    maximumActiveLeases: nat, maximumResourceClaim: Claim, serviceShares: map<ServiceId, ServiceCapacity>)

  datatype ReservationResult = Reserved | AlreadyReserved

  datatype ActiveReservation = ActiveReservation(claim: Claim, serviceId: ServiceId)

  type Active = map<Digest, ActiveReservation>

  /** Every component at most the largest exactly representable integer. */
  predicate ValidClaim(claim: Claim) {
    ClaimFits(claim, Claim(MAX_EXACT_INTEGER, MAX_EXACT_INTEGER, MAX_EXACT_INTEGER, MAX_EXACT_INTEGER))
  }

  predicate ClaimFits(claim: Claim, maximum: Claim) {
    && claim.materializedBytes <= maximum.materializedBytes
    && claim.objects <= maximum.objects
    && claim.pinnedBytes <= maximum.pinnedBytes
    && claim.temporaryBytes <= maximum.temporaryBytes
  }

  predicate ValidShare(maximumActiveLeases: nat, maximumResourceClaim: Claim) {
    ValidClaim(maximumResourceClaim) && 0 < maximumActiveLeases <= 1_024
  }

  predicate ShareWithin(share: ServiceCapacity, capacity: Capacity) {
    && ValidShare(share.maximumActiveLeases, share.maximumResourceClaim)
    && share.maximumActiveLeases <= capacity.maximumActiveLeases
    && ClaimFits(share.maximumResourceClaim, capacity.maximumResourceClaim)
  }

  predicate ValidCapacity(capacity: Capacity) {
    && ValidShare(capacity.maximumActiveLeases, capacity.maximumResourceClaim)
    && 1 <= |capacity.serviceShares| <= 10_000
    && forall service :: service in capacity.serviceShares ==> ShareWithin(capacity.serviceShares[service], capacity)
  }

  predicate Representable(claim: Claim) {
    && claim.materializedBytes <= 9_007_199_254_740_991 && claim.objects <= 9_007_199_254_740_991
    && claim.pinnedBytes <= 9_007_199_254_740_991 && claim.temporaryBytes <= 9_007_199_254_740_991
  }

  /** A share that the whole capacity covers, component by component. */
  predicate Covered(share: ServiceCapacity, capacity: Capacity) {
    var claim, whole := share.maximumResourceClaim, capacity.maximumResourceClaim;
    && 1 <= share.maximumActiveLeases <= capacity.maximumActiveLeases
    && claim.materializedBytes <= whole.materializedBytes && claim.objects <= whole.objects
    && claim.pinnedBytes <= whole.pinnedBytes && claim.temporaryBytes <= whole.temporaryBytes
  }

  lemma ValidWhenCovered(capacity: Capacity)
    ensures ValidCapacity(capacity) <==>
      && 1 <= capacity.maximumActiveLeases <= 1_024 && Representable(capacity.maximumResourceClaim)
      && 1 <= |capacity.serviceShares| <= 10_000
      && forall service :: service in capacity.serviceShares ==> Covered(capacity.serviceShares[service], capacity)
  {
  }

  method ValidateCapacity(capacity: Capacity) returns (r: Result<Unit>)
    ensures r == if ValidCapacity(capacity) then Ok(Unit.Unit) else Err(SchemaInvalid)
    ensures
      r.Ok? <==>
        && 1 <= capacity.maximumActiveLeases <= 1_024 && Representable(capacity.maximumResourceClaim)
        && 1 <= |capacity.serviceShares| <= 10_000
        && forall service :: service in capacity.serviceShares ==> Covered(capacity.serviceShares[service], capacity)
  {
    ValidWhenCovered(capacity);
    hide Covered, Representable;
    if !ValidShare(capacity.maximumActiveLeases, capacity.maximumResourceClaim) {
      return Err(SchemaInvalid);
    }
    if capacity.serviceShares == map[] || |capacity.serviceShares| > 10_000 {
      return Err(SchemaInvalid);
    }
    var remaining := capacity.serviceShares.Keys;
    while remaining != {}
      invariant remaining <= capacity.serviceShares.Keys
      invariant forall service :: service in capacity.serviceShares && service !in remaining ==>
                  ShareWithin(capacity.serviceShares[service], capacity)
      decreases |remaining|
    {
      var service :| service in remaining;
      if !ShareWithin(capacity.serviceShares[service], capacity) {
        return Err(SchemaInvalid);
      }
      remaining := remaining - {service};
    }
    return Ok(Unit.Unit);
  }

  function Plus(left: Claim, right: Claim): Claim {
    Claim(left.materializedBytes + right.materializedBytes, left.objects + right.objects,
          left.pinnedBytes + right.pinnedBytes, left.temporaryBytes + right.temporaryBytes)
  }

  predicate InU64(claim: Claim) {
    ClaimFits(claim, Claim(U64_MAX, U64_MAX, U64_MAX, U64_MAX))
  }

  /** Checked component by component; any overflow is a quota refusal. */
  function AddClaim(left: Claim, right: Claim): Result<Claim> {
    if left.materializedBytes + right.materializedBytes > U64_MAX then Err(RuntimeQuota)
    else if left.objects + right.objects > U64_MAX then Err(RuntimeQuota)
    else if left.pinnedBytes + right.pinnedBytes > U64_MAX then Err(RuntimeQuota)
    else if left.temporaryBytes + right.temporaryBytes > U64_MAX then Err(RuntimeQuota)
    else Ok(Plus(left, right))
  }

  // Totals over the active reservations, in no particular order.

  function Materialized(r: ActiveReservation): nat { r.claim.materializedBytes }
  function Objects(r: ActiveReservation): nat { r.claim.objects }
  function Pinned(r: ActiveReservation): nat { r.claim.pinnedBytes }
  function Temporary(r: ActiveReservation): nat { r.claim.temporaryBytes }

  ghost function Total(active: Active): Claim {
    Claim(Sum(active, Materialized), Sum(active, Objects), Sum(active, Pinned), Sum(active, Temporary))
  }

  function OfService(active: Active, service: ServiceId): Active {
    map id | id in active && active[id].serviceId == service :: active[id]
  }

  lemma TotalEmpty()
    ensures Total(map[]) == NOTHING
  {
  }

  lemma TotalRemove(active: Active, id: Digest)
    requires id in active
    ensures Total(active) == Plus(Total(active - {id}), active[id].claim)
    ensures |active - {id}| == |active| - 1
  {
    SumRemove(active, id, Materialized);
    SumRemove(active, id, Objects);
    SumRemove(active, id, Pinned);
    SumRemove(active, id, Temporary);
    RemovalShrinks(active, id);
  }

  lemma TotalInsert(active: Active, id: Digest, r: ActiveReservation)
    requires id !in active
    ensures Total(active[id := r]) == Plus(Total(active), r.claim)
    ensures |active[id := r]| == |active| + 1
  {
    TotalRemove(active[id := r], id);
    assert active[id := r] - {id} == active;
  }

  lemma ServiceInsert(active: Active, id: Digest, r: ActiveReservation, service: ServiceId)
    requires id !in active
    ensures
      OfService(active[id := r], service) ==
        if r.serviceId == service then OfService(active, service)[id := r] else OfService(active, service)
  {
  }

  lemma ServiceRemove(active: Active, id: Digest, service: ServiceId)
    ensures OfService(active - {id}, service) == OfService(active, service) - {id}
  {
  }

  datatype Usage = Usage(claim: Claim, leases: nat)

  /** The checked running total fails only when the whole total does not fit in u64. */
  method UsageOf(active: Active) returns (r: Result<Usage>)
    ensures r.Ok? <==> InU64(Total(active)) && |active| <= U64_MAX
    ensures r.Ok? ==> r.value == Usage(Total(active), |active|)
    ensures r.Err? ==> r.error == RuntimeQuota
  {
    var claim, leases := NOTHING, 0;
    var remaining := active;
    TotalEmpty();
    while remaining != map[]
      invariant Plus(claim, Total(remaining)) == Total(active)
      invariant leases + |remaining| == |active|
      invariant InU64(claim) && leases <= U64_MAX
      decreases |remaining|
    {
      var id :| id in remaining;
      TotalRemove(remaining, id);
      if leases + 1 > U64_MAX {
        return Err(RuntimeQuota);
      }
      leases := leases + 1;
      claim :- AddClaim(claim, remaining[id].claim);
      remaining := remaining - {id};
    }
    return Ok(Usage(claim, leases));
  }

  /** Room for one more lease of this claim under these maxima. */
  ghost predicate Room(active: Active, claim: Claim, maximumLeases: nat, maximumClaim: Claim) {
    |active| < maximumLeases && ClaimFits(Plus(Total(active), claim), maximumClaim)
  }

  method RequireAvailable(usage: Usage, requested: Claim, maximumLeases: nat, maximumClaim: Claim)
    returns (r: Result<Unit>)
    requires InU64(maximumClaim)
    ensures r.Ok? <==> usage.leases < maximumLeases && ClaimFits(Plus(usage.claim, requested), maximumClaim)
    ensures r.Err? ==> r.error == RuntimeQuota
  {
    var nextClaim :- AddClaim(usage.claim, requested);
    if usage.leases >= maximumLeases || !ClaimFits(nextClaim, maximumClaim) {
      return Err(RuntimeQuota);
    }
    return Ok(Unit.Unit);
  }

  /**
   * What `reserve` decides, over unbounded sums: the arithmetic checks never
   * decide anything the capacity does not.
   */
  ghost function ReserveOutcome(capacity: Capacity, active: Active, id: Digest, service: ServiceId, claim: Claim)
    : Result<(ReservationResult, Active)>
  {
    if !ValidClaim(claim) then Err(SchemaInvalid)
    else if id in active then
      if active[id] == ActiveReservation(claim, service) then Ok((AlreadyReserved, active)) else Err(SchemaInvalid)
    else if service !in capacity.serviceShares then Err(RuntimeQuota)
    else
      var share := capacity.serviceShares[service];
      if Room(active, claim, capacity.maximumActiveLeases, capacity.maximumResourceClaim)
        && Room(OfService(active, service), claim, share.maximumActiveLeases, share.maximumResourceClaim)
      then Ok((Reserved, active[id := ActiveReservation(claim, service)]))
      else Err(RuntimeQuota)
  }

  /** The claims of these reservations and one more, component by component, and their number, are within a share. */
  ghost predicate OneMoreFits(active: Active, claim: Claim, maximumLeases: nat, maximumClaim: Claim) {
    && |active| + 1 <= maximumLeases
    && Sum(active, Materialized) + claim.materializedBytes <= maximumClaim.materializedBytes
    && Sum(active, Objects) + claim.objects <= maximumClaim.objects
    && Sum(active, Pinned) + claim.pinnedBytes <= maximumClaim.pinnedBytes
    && Sum(active, Temporary) + claim.temporaryBytes <= maximumClaim.temporaryBytes
  }

  function ReleaseOutcome(active: Active, id: Digest, service: ServiceId): Result<Active> {
    if id !in active || active[id].serviceId != service then Err(SchemaInvalid) else Ok(active - {id})
  }

  class ProviderReservationModel {
    const capacity: Capacity
    var active: Active

    constructor (capacity: Capacity)
      requires ValidCapacity(capacity)
      ensures this.capacity == capacity && active == map[]
    {
      this.capacity := capacity;
      active := map[];
    }

    static method New(capacity: Capacity) returns (r: Result<ProviderReservationModel>)
      ensures r.Ok? <==> ValidCapacity(capacity)
      ensures r.Err? ==> r.error == SchemaInvalid
      ensures r.Ok? ==> fresh(r.value) && r.value.capacity == capacity && r.value.active == map[]
    {
      var validated := ValidateCapacity(capacity);
      if validated.Err? {
        return Err(validated.error);
      }
      var model := new ProviderReservationModel(capacity);
      return Ok(model);
    }

    /** A refusal changes nothing. */
    method Reserve(id: Digest, service: ServiceId, claim: Claim) returns (r: Result<ReservationResult>)
      requires ValidCapacity(capacity)
      modifies this
      ensures
        match ReserveOutcome(capacity, old(active), id, service, claim)
        case Err(error) => r == Err(error) && active == old(active)
        case Ok(pair) => r == Ok(pair.0) && active == pair.1
      ensures
        r == Ok(Reserved) <==>
          && Representable(claim) && id !in old(active) && service in capacity.serviceShares
          && OneMoreFits(old(active), claim, capacity.maximumActiveLeases, capacity.maximumResourceClaim)
          && OneMoreFits(OfService(old(active), service), claim, capacity.serviceShares[service].maximumActiveLeases,
                         capacity.serviceShares[service].maximumResourceClaim)
      ensures
        r == Ok(AlreadyReserved) <==>
          Representable(claim) && id in old(active) && old(active)[id] == ActiveReservation(claim, service)
      ensures
        r == Err(SchemaInvalid) <==>
          !Representable(claim) || (id in old(active) && old(active)[id] != ActiveReservation(claim, service))
      ensures active == if r == Ok(Reserved) then old(active)[id := ActiveReservation(claim, service)] else old(active)
    {
      if !ValidClaim(claim) {
        return Err(SchemaInvalid);
      }
      if id in active {
        var reserved := active[id];
        return if reserved.serviceId == service && reserved.claim == claim then Ok(AlreadyReserved)
          else Err(SchemaInvalid);
      }
      if service !in capacity.serviceShares {
        return Err(RuntimeQuota);
      }
      var share := capacity.serviceShares[service];
      var environmentUsage :- UsageOf(active);
      var serviceUsage :- UsageOf(OfService(active, service));
      var _ :- RequireAvailable(environmentUsage, claim, capacity.maximumActiveLeases, capacity.maximumResourceClaim);
      var _ :- RequireAvailable(serviceUsage, claim, share.maximumActiveLeases, share.maximumResourceClaim);
      active := active[id := ActiveReservation(claim, service)];
      return Ok(Reserved);
    }

    method Release(id: Digest, service: ServiceId) returns (r: Result<Unit>)
      modifies this
      ensures
        match ReleaseOutcome(old(active), id, service)
        case Err(error) => r == Err(error) && active == old(active)
        case Ok(after) => r == Ok(Unit.Unit) && active == after
      ensures r.Ok? <==> id in old(active) && old(active)[id].serviceId == service
      ensures active == if r.Ok? then old(active) - {id} else old(active)
    {
      if id !in active || active[id].serviceId != service {
        return Err(SchemaInvalid);
      }
      active := active - {id};
      return Ok(Unit.Unit);
    }

    method UsageForService(service: ServiceId) returns (r: Result<Claim>)
      ensures r.Ok? <==> InU64(Total(OfService(active, service))) && |OfService(active, service)| <= U64_MAX
      ensures r.Ok? ==> r.value == Total(OfService(active, service))
    {
      var usage :- UsageOf(OfService(active, service));
      return Ok(usage.claim);
    }
  }
}
