/** The file checkpoint provider's lease table, and its quota rebuilt on every pin. */
module Checkpoint {
  import opened Prelude
  import opened MapSums
  import opened Reservation

  type LeaseId = nat
  type CaptureId = nat
  type ProviderId = nat

  datatype Config = Config(
    configurationDigest: Digest, maximumActiveLeases: nat, maximumCheckpointBytes: nat, maximumResourceClaim: Claim,
    providerId: ProviderId, serviceId: ServiceId)

  predicate ValidConfig(config: Config) {
    1 <= config.maximumActiveLeases <= 1_024 && config.maximumCheckpointBytes != 0
    && ValidClaim(config.maximumResourceClaim)
  }

  /** `artifacts` maps each artifact digest of the point to its size. */
  datatype RecoverablePoint = RecoverablePoint(
    artifacts: map<Digest, nat>, configurationDigest: Digest, pointDigest: Digest, providerId: ProviderId,
    recoverableUntil: nat, resourceClaim: Claim, fullScope: bool)

  datatype ProviderLease = ProviderLease(
    captureId: CaptureId, expiresAt: nat, leaseId: LeaseId, pointDigest: Digest, providerId: ProviderId,
    worldId: Digest)

  datatype ActiveLease = ActiveLease(lease: ProviderLease, resourceClaim: Claim)

  type Leases = map<LeaseId, ActiveLease>

  /** The two hashes: a pin's lease id, and the reservation id of a lease. */
  datatype Names = Names(leaseIdOf: (CaptureId, Digest, Digest) -> LeaseId, digestOf: LeaseId -> Digest)

  ghost predicate DigestsApart(names: Names) {
    forall a, b :: names.digestOf(a) == names.digestOf(b) ==> a == b
  }

  /** The configured maximum as the whole capacity and as the share of the one service. */
  function OneService(config: Config): Capacity {
    Capacity(config.maximumActiveLeases, config.maximumResourceClaim,
             map[config.serviceId := ServiceCapacity(config.maximumActiveLeases, config.maximumResourceClaim)])
  }

  /** The reservations an incremental model would hold for these leases. */
  ghost function Image(names: Names, config: Config, leases: Leases): Active
    requires DigestsApart(names)
  {
    map id | id in leases :: names.digestOf(id) := ActiveReservation(leases[id].resourceClaim, config.serviceId)
  }

  lemma ImageInsert(names: Names, config: Config, leases: Leases, id: LeaseId, active: ActiveLease)
    requires DigestsApart(names)
    ensures
      Image(names, config, leases[id := active]) ==
        Image(names, config, leases)[names.digestOf(id) := ActiveReservation(active.resourceClaim, config.serviceId)]
    ensures names.digestOf(id) in Image(names, config, leases) <==> id in leases
  {
    var grown := Image(names, config, leases[id := active]);
    var reservation := ActiveReservation(active.resourceClaim, config.serviceId);
    var direct := Image(names, config, leases)[names.digestOf(id) := reservation];
    assert grown.Keys == direct.Keys;
    assert forall d :: d in grown ==> grown[d] == direct[d];
  }

  lemma ImageRemove(names: Names, config: Config, leases: Leases, id: LeaseId)
    requires DigestsApart(names)
    ensures Image(names, config, leases - {id}) == Image(names, config, leases) - {names.digestOf(id)}
  {
    var shrunk := Image(names, config, leases - {id});
    var direct := Image(names, config, leases) - {names.digestOf(id)};
    forall d
      ensures d in shrunk <==> d in direct
      ensures d in shrunk ==> shrunk[d] == direct[d]
    {
    }
  }

  lemma NothingImaged(names: Names, config: Config)
    requires DigestsApart(names)
    ensures Image(names, config, map[]) == map[]
  {
  }

  lemma ImageIsOneService(names: Names, config: Config, leases: Leases)
    requires DigestsApart(names)
    ensures OfService(Image(names, config, leases), config.serviceId) == Image(names, config, leases)
  {
  }

  lemma {:induction false} ImageSize(names: Names, config: Config, leases: Leases)
    requires DigestsApart(names)
    ensures |Image(names, config, leases)| == |leases|
    decreases |leases|
  {
    if leases == map[] {
      assert Image(names, config, leases) == map[];
    } else {
      var id :| id in leases;
      RemovalShrinks(leases, id);
      ImageSize(names, config, leases - {id});
      ImageRemove(names, config, leases, id);
      assert names.digestOf(id) in Image(names, config, leases);
      RemovalShrinks(Image(names, config, leases), names.digestOf(id));
    }
  }

  /** What the incrementally kept model decides about one more lease. */
  ghost predicate Admits(names: Names, config: Config, leases: Leases, id: LeaseId, claim: Claim)
    requires DigestsApart(names)
  {
    ReserveOutcome(OneService(config), Image(names, config, leases), names.digestOf(id), config.serviceId, claim).Ok?
  }

  ghost predicate ConfigRoom(config: Config, active: Active, claim: Claim) {
    Room(active, claim, config.maximumActiveLeases, config.maximumResourceClaim)
  }

  lemma AdmitsIsRoom(names: Names, config: Config, leases: Leases, id: LeaseId, claim: Claim)
    requires DigestsApart(names) && id !in leases
    ensures
      Admits(names, config, leases, id, claim) <==>
        ValidClaim(claim) && ConfigRoom(config, Image(names, config, leases), claim)
  {
    ImageInsert(names, config, leases, id, ActiveLease(ProviderLease(0, 0, id, 0, 0, 0), claim));
    ImageIsOneService(names, config, leases);
  }

  ghost predicate PartOf(part: Leases, leases: Leases) {
    part.Keys <= leases.Keys && forall id :: id in part ==> part[id] == leases[id]
  }

  lemma TotalShrinks(active: Active, keys: set<Digest>)
    ensures ClaimFits(Total(active - keys), Total(active)) && |active - keys| <= |active|
  {
    SumMonotone(active, keys, Materialized);
    SumMonotone(active, keys, Objects);
    SumMonotone(active, keys, Pinned);
    SumMonotone(active, keys, Temporary);
  }

  lemma ImagePart(names: Names, config: Config, leases: Leases, part: Leases)
    requires DigestsApart(names) && PartOf(part, leases)
    ensures
      var whole, few := Image(names, config, leases), Image(names, config, part);
      few == whole - (whole.Keys - few.Keys)
  {
    var whole, few := Image(names, config, leases), Image(names, config, part);
    assert few.Keys <= whole.Keys;
    assert (whole - (whole.Keys - few.Keys)).Keys == few.Keys;
  }

  lemma ImageGrows(names: Names, config: Config, leases: Leases, part: Leases)
    requires DigestsApart(names) && PartOf(part, leases)
    ensures ClaimFits(Total(Image(names, config, part)), Total(Image(names, config, leases)))
    ensures |Image(names, config, part)| <= |Image(names, config, leases)|
  {
    var whole, few := Image(names, config, leases), Image(names, config, part);
    ImagePart(names, config, leases, part);
    TotalShrinks(whole, whole.Keys - few.Keys);
  }

  lemma NoRoomInMore(config: Config, few: Active, whole: Active, first: Claim, claim: Claim)
    requires !ConfigRoom(config, few, first)
    requires ClaimFits(Plus(Total(few), first), Total(whole)) && |few| <= |whole|
    ensures !ConfigRoom(config, whole, claim)
  {
  }

  /** A replayed prefix that has no room for its next lease has none for the whole table either. */
  lemma NoRoomStaysNoRoom(names: Names, config: Config, leases: Leases, done: Leases, id: LeaseId, claim: Claim)
    requires DigestsApart(names) && id in leases && id !in done && PartOf(done, leases)
    requires !ConfigRoom(config, Image(names, config, done), leases[id].resourceClaim)
    ensures !ConfigRoom(config, Image(names, config, leases), claim)
  {
    var r := ActiveReservation(leases[id].resourceClaim, config.serviceId);
    ImageInsert(names, config, done, id, leases[id]);
    TotalInsert(Image(names, config, done), names.digestOf(id), r);
    ImageGrows(names, config, leases, done[id := leases[id]]);
    NoRoomInMore(config, Image(names, config, done), Image(names, config, leases), leases[id].resourceClaim, claim);
  }

  lemma LeaseOutcome(names: Names, config: Config, done: Leases, id: LeaseId, claim: Claim)
    requires DigestsApart(names) && id !in done
    ensures
      var image := Image(names, config, done);
      ReserveOutcome(OneService(config), image, names.digestOf(id), config.serviceId, claim) ==
        if !ValidClaim(claim) then Err(SchemaInvalid)
        else if ConfigRoom(config, image, claim)
        then Ok((Reserved, image[names.digestOf(id) := ActiveReservation(claim, config.serviceId)]))
        else Err(RuntimeQuota)
  {
    ImageInsert(names, config, done, id, ActiveLease(ProviderLease(0, 0, id, 0, 0, 0), claim));
    ImageIsOneService(names, config, done);
  }

  /** One lease into a model that holds the image of `done`: accepted exactly when it has room. */
  method ReplayLease(
    names: Names, config: Config, model: ProviderReservationModel, id: LeaseId, claim: Claim, ghost done: Leases)
    returns (r: Result<ReservationResult>)
    requires DigestsApart(names) && ValidCapacity(OneService(config)) && id !in done
    requires model.capacity == OneService(config) && model.active == Image(names, config, done)
    modifies model
    ensures r.Ok? <==> ValidClaim(claim) && ConfigRoom(config, Image(names, config, done), claim)
    ensures r.Err? && ValidClaim(claim) ==> r.error == RuntimeQuota
    ensures
      r.Ok? ==>
        model.active == Image(names, config, done)[names.digestOf(id) := ActiveReservation(claim, config.serviceId)]
  {
    LeaseOutcome(names, config, done, id, claim);
    r := model.Reserve(names.digestOf(id), config.serviceId, claim);
  }

  lemma NextImage(names: Names, config: Config, leases: Leases, remaining: set<LeaseId>, id: LeaseId)
    requires DigestsApart(names) && id in remaining && id in leases
    ensures
      Image(names, config, leases - (remaining - {id})) ==
        Image(names, config, leases - remaining)
          [names.digestOf(id) := ActiveReservation(leases[id].resourceClaim, config.serviceId)]
  {
    ImageInsert(names, config, leases - remaining, id, leases[id]);
    assert leases - (remaining - {id}) == (leases - remaining)[id := leases[id]];
  }

  /** Replays every lease, in whatever order, into an empty model. */
  method ReplayLeases(names: Names, config: Config, leases: Leases, model: ProviderReservationModel)
    returns (r: Result<Unit>)
    requires DigestsApart(names) && ValidCapacity(OneService(config))
    requires forall id :: id in leases ==> ValidClaim(leases[id].resourceClaim)
    requires model.capacity == OneService(config) && model.active == map[]
    modifies model
    ensures r.Ok? ==> model.active == Image(names, config, leases)
    ensures r.Err? ==> r.error == RuntimeQuota && !ConfigRoom(config, Image(names, config, leases), NOTHING)
  {
    hide Image, DigestsApart, ConfigRoom;
    NothingImaged(names, config);
    var remaining := leases.Keys;
    assert leases - remaining == map[];
    while remaining != {}
      invariant remaining <= leases.Keys
      invariant model.active == Image(names, config, leases - remaining)
      decreases |remaining|
    {
      var id :| id in remaining;
      var reserved := ReplayLease(names, config, model, id, leases[id].resourceClaim, leases - remaining);
      if reserved.Err? {
        NoRoomStaysNoRoom(names, config, leases, leases - remaining, id, NOTHING);
        return Err(reserved.error);
      }
      NextImage(names, config, leases, remaining, id);
      remaining := remaining - {id};
    }
    assert leases - {} == leases;
    return Ok(Unit.Unit);
  }

  /**
   * Rebuilds a model from every active lease, in whatever order, and asks it
   * for one more. For a lease id that is not active yet this decides exactly
   * what an incrementally kept model decides: no replayed step is refused
   * unless the final one would be.
   */
  method ReserveClaim(names: Names, config: Config, leases: Leases, leaseId: LeaseId, requested: Claim)
    returns (r: Result<Unit>)
    requires DigestsApart(names) && leaseId !in leases
    requires forall id :: id in leases ==> ValidClaim(leases[id].resourceClaim)
    ensures
      if ValidCapacity(OneService(config)) then r.Ok? <==> Admits(names, config, leases, leaseId, requested)
      else r == Err(SchemaInvalid)
    ensures r.Err? && ValidCapacity(OneService(config)) && ValidClaim(requested) ==> r.error == RuntimeQuota
  {
    var built := ProviderReservationModel.New(OneService(config));
    if built.Err? {
      return Err(built.error);
    }
    var model := built.value;
    AdmitsIsRoom(names, config, leases, leaseId, requested);
    var replayed := ReplayLeases(names, config, leases, model);
    if replayed.Err? {
      return replayed;
    }
    var reserved := ReplayLease(names, config, model, leaseId, requested, leases);
    if reserved.Err? {
      return Err(reserved.error);
    }
    return Ok(Unit.Unit);
  }

  // The critical sections.

  /** The tests `pin` makes before it takes the lock. */
  function PointChecks(config: Config, point: RecoverablePoint): Result<Unit> {
    if point.providerId != config.providerId || point.configurationDigest != config.configurationDigest
      || !point.fullScope || |point.artifacts| != 1
    then Err(WorldProviderMissing)
    else if !ValidClaim(point.resourceClaim) then Err(SchemaInvalid)
    else if exists digest :: digest in point.artifacts && point.artifacts[digest] > config.maximumCheckpointBytes
    then Err(WorldProviderMissing)
    else if (exists digest :: digest in point.artifacts && point.artifacts[digest] > point.resourceClaim.pinnedBytes)
      || point.resourceClaim.objects < 1
    then Err(RuntimeQuota)
    else Ok(Unit.Unit)
  }

  /** The first critical section of `pin`: the whole new lease table, or a refusal. */
  ghost function PinSection(names: Names, config: Config, leases: Leases, lease: ProviderLease, claim: Claim)
    : Result<Leases>
    requires DigestsApart(names)
  {
    if |leases| >= config.maximumActiveLeases && lease.leaseId !in leases then Err(RuntimeQuota)
    else if lease.leaseId in leases then
      if leases[lease.leaseId].lease == lease then Ok(leases) else Err(SchemaInvalid)
    else if Admits(names, config, leases, lease.leaseId, claim) then
      Ok(leases[lease.leaseId := ActiveLease(lease, claim)])
    else Err(RuntimeQuota)
  }

  // The same, from the point and the table alone.

  /** Not a full-scope point of this provider and configuration with a single artifact. */
  predicate Foreign(config: Config, point: RecoverablePoint) {
    || point.providerId != config.providerId || point.configurationDigest != config.configurationDigest
    || !point.fullScope || |point.artifacts| != 1
  }

  predicate TooLarge(config: Config, point: RecoverablePoint) {
    exists digest :: digest in point.artifacts && point.artifacts[digest] > config.maximumCheckpointBytes
  }

  /** The claim covers less than the artifact. */
  predicate Underclaimed(point: RecoverablePoint) {
    || point.resourceClaim.objects == 0
    || exists digest :: digest in point.artifacts && point.artifacts[digest] > point.resourceClaim.pinnedBytes
  }

  predicate Acceptable(config: Config, point: RecoverablePoint) {
    !Foreign(config, point) && Representable(point.resourceClaim) && !TooLarge(config, point) && !Underclaimed(point)
  }

  function LeasedMaterialized(active: ActiveLease): nat { active.resourceClaim.materializedBytes }
  function LeasedObjects(active: ActiveLease): nat { active.resourceClaim.objects }
  function LeasedPinned(active: ActiveLease): nat { active.resourceClaim.pinnedBytes }
  function LeasedTemporary(active: ActiveLease): nat { active.resourceClaim.temporaryBytes }

  /** The claims of the active leases and one more, component by component, and their number, are within the maximum. */
  ghost predicate LeaseFits(config: Config, leases: Leases, claim: Claim) {
    && |leases| + 1 <= config.maximumActiveLeases
    && Sum(leases, LeasedMaterialized) + claim.materializedBytes <= config.maximumResourceClaim.materializedBytes
    && Sum(leases, LeasedObjects) + claim.objects <= config.maximumResourceClaim.objects
    && Sum(leases, LeasedPinned) + claim.pinnedBytes <= config.maximumResourceClaim.pinnedBytes
    && Sum(leases, LeasedTemporary) + claim.temporaryBytes <= config.maximumResourceClaim.temporaryBytes
  }

  lemma ImageEntry(names: Names, config: Config, leases: Leases, id: LeaseId)
    requires DigestsApart(names) && id in leases
    ensures names.digestOf(id) in Image(names, config, leases)
    ensures Image(names, config, leases)[names.digestOf(id)]
         == ActiveReservation(leases[id].resourceClaim, config.serviceId)
  {
  }

  /** A sum over the rebuilt reservations is the sum over the leases. */
  lemma {:induction false} ImageSum(names: Names, config: Config, leases: Leases, f: ActiveReservation -> nat,
                                    g: ActiveLease -> nat)
    requires DigestsApart(names)
    requires forall l :: g(l) == f(ActiveReservation(l.resourceClaim, config.serviceId))
    ensures Sum(Image(names, config, leases), f) == Sum(leases, g)
    decreases |leases|
  {
    hide Image, DigestsApart;
    if leases == map[] {
      NothingImaged(names, config);
      SumEmpty<Digest, ActiveReservation>(f);
      SumEmpty<LeaseId, ActiveLease>(g);
    } else {
      var id :| id in leases;
      RemovalShrinks(leases, id);
      ImageSum(names, config, leases - {id}, f, g);
      ImageRemove(names, config, leases, id);
      ImageEntry(names, config, leases, id);
      SumRemove(Image(names, config, leases), names.digestOf(id), f);
      SumRemove(leases, id, g);
    }
  }

  lemma RoomIsFit(names: Names, config: Config, leases: Leases, claim: Claim)
    requires DigestsApart(names)
    ensures ConfigRoom(config, Image(names, config, leases), claim) <==> LeaseFits(config, leases, claim)
  {
    ImageSum(names, config, leases, Materialized, LeasedMaterialized);
    ImageSum(names, config, leases, Objects, LeasedObjects);
    ImageSum(names, config, leases, Pinned, LeasedPinned);
    ImageSum(names, config, leases, Temporary, LeasedTemporary);
    ImageSize(names, config, leases);
  }

  lemma PinnedWhenFit(names: Names, config: Config, leases: Leases, lease: ProviderLease, claim: Claim)
    requires DigestsApart(names) && ValidClaim(claim)
    ensures PinSection(names, config, leases, lease, claim) ==
      if lease.leaseId in leases then
        if leases[lease.leaseId].lease == lease then Ok(leases) else Err(SchemaInvalid)
      else if LeaseFits(config, leases, claim) then Ok(leases[lease.leaseId := ActiveLease(lease, claim)])
      else Err(RuntimeQuota)
  {
    hide Image, ConfigRoom, DigestsApart;
    if lease.leaseId !in leases {
      AdmitsIsRoom(names, config, leases, lease.leaseId, claim);
      RoomIsFit(names, config, leases, claim);
    }
  }

  /** `release` takes the lease out before it compares it, so a mismatching release also removes it. */
  function ReleaseSection(leases: Leases, lease: ProviderLease): (Leases, Result<Unit>) {
    if lease.leaseId !in leases then (leases, Err(WorldProviderMissing))
    else (leases - {lease.leaseId}, if leases[lease.leaseId].lease == lease then Ok(Unit.Unit) else Err(SchemaInvalid))
  }

  class FileCheckpointProvider {
    const config: Config
    const names: Names
    var leases: Leases

    constructor (names: Names, config: Config)
      requires ValidConfig(config)
      ensures this.names == names && this.config == config && leases == map[]
    {
      this.names := names;
      this.config := config;
      leases := map[];
    }

    ghost predicate Valid()
      reads this
    {
      && DigestsApart(names) && ValidConfig(config)
      && (forall id :: id in leases ==> ValidClaim(leases[id].resourceClaim))
    }

    function LeaseFor(point: RecoverablePoint, captureId: CaptureId, worldId: Digest): ProviderLease {
      ProviderLease(captureId, point.recoverableUntil, names.leaseIdOf(captureId, point.pointDigest, worldId),
                    point.pointDigest, point.providerId, worldId)
    }

    /** `done` when the lease was active already, so that `pin` returns without reading the checkpoint. */
    method PinFirstSection(point: RecoverablePoint, captureId: CaptureId, worldId: Digest) returns (r: Result<bool>)
      requires Valid() && PointChecks(config, point).Ok?
      modifies this
      ensures Valid()
      ensures
        var lease := LeaseFor(point, captureId, worldId);
        match PinSection(names, config, old(leases), lease, point.resourceClaim)
        case Err(error) => r == Err(error) && leases == old(leases)
        case Ok(after) => r == Ok(lease.leaseId in old(leases)) && leases == after
    {
      var lease := LeaseFor(point, captureId, worldId);
      if |leases| >= config.maximumActiveLeases && lease.leaseId !in leases {
        return Err(RuntimeQuota);
      }
      if lease.leaseId in leases {
        return if leases[lease.leaseId].lease == lease then Ok(true) else Err(SchemaInvalid);
      }
      var reserved := ReserveClaim(names, config, leases, lease.leaseId, point.resourceClaim);
      if reserved.Err? {
        return Err(reserved.error);
      }
      leases := leases[lease.leaseId := ActiveLease(lease, point.resourceClaim)];
      return Ok(false);
    }

    /** The second critical section of `pin`, entered only when the checkpoint file does not verify. */
    method PinSecondSection(leaseId: LeaseId)
      requires Valid()
      modifies this
      ensures Valid() && leases == old(leases) - {leaseId}
    {
      leases := leases - {leaseId};
    }

    /** Without interference `pin` either adds its lease, finds it active, or leaves the table as it was. */
    method Pin(point: RecoverablePoint, captureId: CaptureId, worldId: Digest, verified: bool)
      returns (r: Result<ProviderLease>)
      requires Valid()
      modifies this
      ensures Valid()
      ensures
        var lease := ProviderLease(captureId, point.recoverableUntil,
                                   names.leaseIdOf(captureId, point.pointDigest, worldId), point.pointDigest,
                                   point.providerId, worldId);
        var known := lease.leaseId in old(leases);
        var fits := LeaseFits(config, old(leases), point.resourceClaim);
        && (r.Ok? ==> r.value == lease)
        && (r.Ok? <==> Acceptable(config, point)
                       && if known then old(leases)[lease.leaseId].lease == lease else fits && verified)
        && (r == Err(WorldProviderMissing) <==>
              Foreign(config, point) || (Representable(point.resourceClaim) && TooLarge(config, point)))
        && (r == Err(SchemaInvalid) <==>
              || (!Foreign(config, point) && !Representable(point.resourceClaim))
              || (Acceptable(config, point) && known && old(leases)[lease.leaseId].lease != lease))
        && (r == Err(ObjectDigestMismatch) <==> Acceptable(config, point) && !known && fits && !verified)
        && (r.Err? ==> r.error in {WorldProviderMissing, SchemaInvalid, RuntimeQuota, ObjectDigestMismatch})
        && leases == if r.Ok? && !known then old(leases)[lease.leaseId := ActiveLease(lease, point.resourceClaim)]
                     else old(leases)
      ensures
        var lease := LeaseFor(point, captureId, worldId);
        r.Ok? <==>
          && PointChecks(config, point).Ok?
          && PinSection(names, config, old(leases), lease, point.resourceClaim).Ok?
          && (lease.leaseId in old(leases) || verified)
    {
      hide Admits, DigestsApart, ValidConfig, Image, LeaseFits;
      var lease := LeaseFor(point, captureId, worldId);
      var checked := PointChecks(config, point);
      if checked.Err? {
        return Err(checked.error);
      }
      PinnedWhenFit(names, config, leases, lease, point.resourceClaim);
      var done :- PinFirstSection(point, captureId, worldId);
      if done {
        return Ok(lease);
      }
      if !verified {
        ghost var before := old(leases);
        PinSecondSection(lease.leaseId);
        assert leases == before;
        return Err(ObjectDigestMismatch);
      }
      return Ok(lease);
    }

    method Release(lease: ProviderLease) returns (r: Result<Unit>)
      requires Valid()
      modifies this
      ensures Valid() && (leases, r) == ReleaseSection(old(leases), lease)
      ensures leases == old(leases) - {lease.leaseId}
      ensures r.Ok? <==> lease.leaseId in old(leases) && old(leases)[lease.leaseId].lease == lease
      ensures r == Err(WorldProviderMissing) <==> lease.leaseId !in old(leases)
    {
      if lease.leaseId !in leases {
        return Err(WorldProviderMissing);
      }
      var active := leases[lease.leaseId];
      leases := leases - {lease.leaseId};
      return if active.lease == lease then Ok(Unit.Unit) else Err(SchemaInvalid);
    }
  }
}
