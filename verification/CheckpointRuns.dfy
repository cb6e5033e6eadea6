/** Every interleaving of the checkpoint provider's critical sections. */
module CheckpointRuns {
  import opened Prelude
  import opened MapSums
  import opened Reservation
  import opened ReservationRuns
  import opened Checkpoint

  /**
   * `PinFail` is the second critical section of some earlier `pin`. It may come
   * after any number of other sections, and even after its lease was released.
   */
  datatype Section =
    | PinEnter(lease: ProviderLease, claim: Claim)
    | PinFail(leaseId: LeaseId)
    | ReleaseLease(lease: ProviderLease)

  ghost function Enter(names: Names, config: Config, leases: Leases, section: Section): Leases
    requires DigestsApart(names)
  {
    match section
    case PinEnter(lease, claim) =>
      var r := PinSection(names, config, leases, lease, claim);
      if r.Ok? then r.value else leases
    case PinFail(leaseId) => leases - {leaseId}
    case ReleaseLease(lease) => ReleaseSection(leases, lease).0
  }

  ghost function RunSections(names: Names, config: Config, leases: Leases, sections: seq<Section>): Leases
    requires DigestsApart(names)
    decreases |sections|
  {
    if sections == [] then leases
    else RunSections(names, config, Enter(names, config, leases, sections[0]), sections[1..])
  }

  /** The active leases together stay within the configured maximum. */
  ghost predicate Fit(names: Names, config: Config, leases: Leases)
    requires DigestsApart(names)
  {
    && WithinShare(Image(names, config, leases), config.maximumActiveLeases, config.maximumResourceClaim)
    && |leases| <= config.maximumActiveLeases
    && forall id :: id in leases ==> ValidClaim(leases[id].resourceClaim) && leases[id].lease.leaseId == id
  }

  lemma RemovalFits(names: Names, config: Config, leases: Leases, id: LeaseId)
    requires DigestsApart(names) && Fit(names, config, leases) && id in leases
    ensures Fit(names, config, leases - {id})
  {
    RemovalShrinks(leases, id);
    ImageRemove(names, config, leases, id);
    ShareShrinks(
      Image(names, config, leases), names.digestOf(id), config.maximumActiveLeases, config.maximumResourceClaim);
  }

  lemma ForgottenFits(names: Names, config: Config, leases: Leases, id: LeaseId)
    requires DigestsApart(names) && Fit(names, config, leases)
    ensures Fit(names, config, leases - {id})
    ensures id !in leases ==> leases - {id} == leases
  {
    if id in leases {
      RemovalFits(names, config, leases, id);
    } else {
      assert leases - {id} == leases;
    }
  }

  lemma AdmissionFits(names: Names, config: Config, leases: Leases, lease: ProviderLease, claim: Claim)
    requires DigestsApart(names) && Fit(names, config, leases) && lease.leaseId !in leases
    requires Admits(names, config, leases, lease.leaseId, claim)
    ensures Fit(names, config, leases[lease.leaseId := ActiveLease(lease, claim)])
  {
    hide Image, DigestsApart;
    var active := ActiveLease(lease, claim);
    AdmitsIsRoom(names, config, leases, lease.leaseId, claim);
    ImageInsert(names, config, leases, lease.leaseId, active);
    TotalInsert(
      Image(names, config, leases), names.digestOf(lease.leaseId), ActiveReservation(claim, config.serviceId));
    ImageSize(names, config, leases[lease.leaseId := active]);
  }

  lemma PinKeepsFit(names: Names, config: Config, leases: Leases, lease: ProviderLease, claim: Claim)
    requires DigestsApart(names) && Fit(names, config, leases)
    ensures Fit(names, config, Enter(names, config, leases, PinEnter(lease, claim)))
  {
    if lease.leaseId !in leases && Admits(names, config, leases, lease.leaseId, claim) {
      AdmissionFits(names, config, leases, lease, claim);
    }
  }

  lemma SectionKeepsFit(names: Names, config: Config, leases: Leases, section: Section)
    requires DigestsApart(names) && Fit(names, config, leases)
    ensures Fit(names, config, Enter(names, config, leases, section))
  {
    match section {
      case PinEnter(lease, claim) => PinKeepsFit(names, config, leases, lease, claim);
      case PinFail(leaseId) => ForgottenFits(names, config, leases, leaseId);
      case ReleaseLease(lease) => ForgottenFits(names, config, leases, lease.leaseId);
    }
  }

  lemma {:induction false} RunKeepsFit(names: Names, config: Config, leases: Leases, sections: seq<Section>)
    requires DigestsApart(names) && Fit(names, config, leases)
    ensures Fit(names, config, RunSections(names, config, leases, sections))
    decreases |sections|
  {
    if sections != [] {
      SectionKeepsFit(names, config, leases, sections[0]);
      RunKeepsFit(names, config, Enter(names, config, leases, sections[0]), sections[1..]);
    }
  }

  /** A provider that keeps one reservation model beside its leases instead of rebuilding it. */
  datatype Kept = Kept(leases: Leases, active: Active)

  function Forget(names: Names, config: Config, kept: Kept, id: LeaseId): Kept {
    var released := ReleaseOutcome(kept.active, names.digestOf(id), config.serviceId);
    Kept(kept.leases - {id}, if released.Ok? then released.value else kept.active)
  }

  ghost function EnterKept(names: Names, config: Config, kept: Kept, section: Section): Kept {
    match section
    case PinEnter(lease, claim) =>
      if lease.leaseId in kept.leases then kept
      else
        (match ReserveOutcome(OneService(config), kept.active, names.digestOf(lease.leaseId), config.serviceId, claim)
         case Err(_) => kept
         case Ok(pair) => Kept(kept.leases[lease.leaseId := ActiveLease(lease, claim)], pair.1))
    case PinFail(leaseId) => Forget(names, config, kept, leaseId)
    case ReleaseLease(lease) => Forget(names, config, kept, lease.leaseId)
  }

  ghost function RunKept(names: Names, config: Config, kept: Kept, sections: seq<Section>): Kept
    decreases |sections|
  {
    if sections == [] then kept else RunKept(names, config, EnterKept(names, config, kept, sections[0]), sections[1..])
  }

  lemma ForgetAgrees(names: Names, config: Config, kept: Kept, id: LeaseId)
    requires DigestsApart(names) && kept.active == Image(names, config, kept.leases)
    ensures Forget(names, config, kept, id).active == Image(names, config, kept.leases - {id})
  {
    ImageRemove(names, config, kept.leases, id);
    if names.digestOf(id) !in kept.active {
      assert kept.active - {names.digestOf(id)} == kept.active;
    }
  }

  lemma PinAgrees(names: Names, config: Config, kept: Kept, lease: ProviderLease, claim: Claim)
    requires DigestsApart(names) && kept.active == Image(names, config, kept.leases)
    ensures
      var after := EnterKept(names, config, kept, PinEnter(lease, claim));
      && after.leases == Enter(names, config, kept.leases, PinEnter(lease, claim))
      && after.active == Image(names, config, after.leases)
  {
    hide Image, DigestsApart;
    if lease.leaseId !in kept.leases {
      ImageSize(names, config, kept.leases);
      AdmitsIsRoom(names, config, kept.leases, lease.leaseId, claim);
      LeaseOutcome(names, config, kept.leases, lease.leaseId, claim);
      ImageInsert(names, config, kept.leases, lease.leaseId, ActiveLease(lease, claim));
    }
  }

  /** Rebuilding on every pin and keeping one model give the same lease table after every interleaving. */
  lemma {:induction false} RebuildRefinesIncremental(names: Names, config: Config, kept: Kept, sections: seq<Section>)
    requires DigestsApart(names) && kept.active == Image(names, config, kept.leases)
    ensures
      var after := RunKept(names, config, kept, sections);
      && after.leases == RunSections(names, config, kept.leases, sections)
      && after.active == Image(names, config, after.leases)
    decreases |sections|
  {
    if sections != [] {
      var section := sections[0];
      match section {
        case PinEnter(lease, claim) => PinAgrees(names, config, kept, lease, claim);
        case PinFail(leaseId) => ForgetAgrees(names, config, kept, leaseId);
        case ReleaseLease(lease) =>
          ForgetAgrees(names, config, kept, lease.leaseId);
          assert lease.leaseId !in kept.leases ==> kept.leases - {lease.leaseId} == kept.leases;
      }
      RebuildRefinesIncremental(names, config, EnterKept(names, config, kept, section), sections[1..]);
    }
  }

  /** From an empty table, every interleaving stays within the maximum and in step with the incremental model. */
  lemma EveryInterleavingFits(names: Names, config: Config, sections: seq<Section>)
    requires DigestsApart(names) && ValidConfig(config)
    ensures Fit(names, config, RunSections(names, config, map[], sections))
    ensures RunKept(names, config, Kept(map[], map[]), sections).leases == RunSections(names, config, map[], sections)
  {
    assert Image(names, config, map[]) == map[];
    TotalEmpty();
    RunKeepsFit(names, config, map[], sections);
    RebuildRefinesIncremental(names, config, Kept(map[], map[]), sections);
  }

  /**
   * A refused release is not without effect: it leaves the table alone exactly
   * when the lease was not active. A lease that names an active one but differs
   * from it is refused and takes the active one out all the same.
   */
  lemma RefusedReleaseStillRemoves(leases: Leases, lease: ProviderLease)
    ensures
      ReleaseSection(leases, lease).1.Err? ==>
        (ReleaseSection(leases, lease).0 == leases <==> lease.leaseId !in leases)
    ensures
      var active := ProviderLease(1, 9, 7, 3, 4, 5);
      var other := active.(expiresAt := 8);
      ReleaseSection(map[7 := ActiveLease(active, NOTHING)], other) == (map[], Err(SchemaInvalid))
  {
    if lease.leaseId in leases {
      assert lease.leaseId !in leases - {lease.leaseId};
    }
    assert map[7 := ActiveLease(ProviderLease(1, 9, 7, 3, 4, 5), NOTHING)] - {7} == map[];
  }
}
