/** Recording, closing and checking one operation's dependency transcript. */
module HttpTranscript {
  import opened Prelude
  import opened MapSums
  import opened TranscriptPool

  type OperationId = nat
  type Bytes = seq<byte>
  type Hash = Bytes -> Digest

  const MAX_TRANSCRIPT_INTERACTIONS := 1_024

  datatype TranscriptInteraction = TranscriptInteraction(
    causalParentId: Option<OperationId>, operationId: OperationId,
    requestDigest: Digest, requestObjectId: ObjectId, responseDigest: Digest, responseObjectId: ObjectId,
    sequence: nat, sessionPosition: nat)

  datatype TranscriptState = TranscriptState(
    bytes: nat, interactions: seq<TranscriptInteraction>, objects: map<ObjectId, Bytes>)

  const CLEARED := TranscriptState(0, [], map[])

  datatype ClosedDependencyTranscript = ClosedDependencyTranscript(
    interactions: seq<TranscriptInteraction>, objects: map<ObjectId, Bytes>)

  datatype Bounds = Bounds(interactions: nat, bytes: nat)

  function Length(bytes: Bytes): nat { |bytes| }

  // What a transcript means.

  /** Interaction `k` stands at its own position and names objects that hash to its digests. */
  predicate Placed(hash: Hash, k: nat, interaction: TranscriptInteraction, objects: map<ObjectId, Bytes>) {
    && interaction.sequence == k && interaction.sessionPosition == k
    && interaction.requestObjectId in objects && hash(objects[interaction.requestObjectId]) == interaction.requestDigest
    && interaction.responseObjectId in objects
         && hash(objects[interaction.responseObjectId]) == interaction.responseDigest
  }

  predicate CausedBy(operationId: OperationId, interaction: TranscriptInteraction) {
    interaction.operationId == operationId || interaction.causalParentId == Some(operationId)
  }

  predicate AllPlaced(hash: Hash, interactions: seq<TranscriptInteraction>, objects: map<ObjectId, Bytes>) {
    forall k :: 0 <= k < |interactions| ==> Placed(hash, k, interactions[k], objects)
  }

  predicate AllCaused(operationId: OperationId, interactions: seq<TranscriptInteraction>) {
    forall k :: 0 <= k < |interactions| ==> CausedBy(operationId, interactions[k])
  }

  predicate Verified(
    hash: Hash, operationId: OperationId, interactions: seq<TranscriptInteraction>, objects: map<ObjectId, Bytes>)
  {
    && 1 <= |interactions| <= MAX_TRANSCRIPT_INTERACTIONS
    && AllPlaced(hash, interactions, objects)
    && AllCaused(operationId, interactions)
  }

  function OwnIds(interaction: TranscriptInteraction): set<ObjectId> {
    {interaction.requestObjectId, interaction.responseObjectId}
  }

  function AllIds(interactions: seq<TranscriptInteraction>): set<ObjectId> {
    if interactions == [] then {}
    else
      var last := |interactions| - 1;
      AllIds(interactions[..last]) + OwnIds(interactions[last])
  }

  /** No two of the `2n` object names of a transcript coincide. */
  predicate NamesApart(interactions: seq<TranscriptInteraction>) {
    interactions != [] ==>
      var last := |interactions| - 1;
      NamesApart(interactions[..last]) && NamesNew(interactions[last], AllIds(interactions[..last]))
  }

  predicate NamesNew(interaction: TranscriptInteraction, used: set<ObjectId>) {
    && interaction.requestObjectId != interaction.responseObjectId
    && interaction.requestObjectId !in used && interaction.responseObjectId !in used
  }

  /** Each object belongs to exactly one side of one interaction, and the bytes fit. */
  ghost predicate ValidTranscript(hash: Hash, operationId: OperationId, t: ClosedDependencyTranscript) {
    && Verified(hash, operationId, t.interactions, t.objects)
    && NamesApart(t.interactions)
    && t.objects.Keys == AllIds(t.interactions)
    && (forall id :: id in t.objects ==> |t.objects[id]| <= V1.objectBytes)
    && Sum(t.objects, Length) <= V1.candidateBytes
  }

  lemma NamesGrow(interactions: seq<TranscriptInteraction>, interaction: TranscriptInteraction)
    ensures AllIds(interactions + [interaction]) == AllIds(interactions) + OwnIds(interaction)
    ensures
      NamesApart(interactions + [interaction]) <==>
        NamesApart(interactions) && NamesNew(interaction, AllIds(interactions))
  {
    assert (interactions + [interaction])[..|interactions|] == interactions;
  }

  lemma PrefixGrows(interactions: seq<TranscriptInteraction>, index: nat)
    requires index < |interactions|
    ensures AllIds(interactions[..index + 1]) == AllIds(interactions[..index]) + OwnIds(interactions[index])
    ensures
      NamesApart(interactions[..index + 1]) <==>
        NamesApart(interactions[..index]) && NamesNew(interactions[index], AllIds(interactions[..index]))
  {
    NamesGrow(interactions[..index], interactions[index]);
    assert interactions[..index + 1] == interactions[..index] + [interactions[index]];
  }

  lemma {:induction false} PrefixApart(interactions: seq<TranscriptInteraction>, index: nat)
    requires NamesApart(interactions) && index <= |interactions|
    ensures NamesApart(interactions[..index])
    decreases |interactions|
  {
    if index == |interactions| {
      assert interactions[..index] == interactions;
    } else {
      var last := |interactions| - 1;
      PrefixApart(interactions[..last], index);
      assert interactions[..last][..index] == interactions[..index];
    }
  }

  // The two checkers.

  method VerifyDependencyTranscript(
    hash: Hash, operationId: OperationId, interactions: seq<TranscriptInteraction>, objects: map<ObjectId, Bytes>)
    returns (r: Result<Unit>)
    ensures r.Ok? <==> Verified(hash, operationId, interactions, objects)
    ensures r.Err? ==> r.error in {SchemaInvalid, DependencyTranscriptMismatch}
    ensures r == Err(SchemaInvalid) <==> interactions == [] || |interactions| > MAX_TRANSCRIPT_INTERACTIONS
  {
    if interactions == [] || |interactions| > MAX_TRANSCRIPT_INTERACTIONS {
      return Err(SchemaInvalid);
    }
    for index := 0 to |interactions|
      invariant forall k :: 0 <= k < index ==> Placed(hash, k, interactions[k], objects)
      invariant forall k :: 0 <= k < index ==> CausedBy(operationId, interactions[k])
    {
      var interaction := interactions[index];
      var causalMatch := interaction.operationId == operationId || interaction.causalParentId == Some(operationId);
      var requestMatches := interaction.requestObjectId in objects
        && hash(objects[interaction.requestObjectId]) == interaction.requestDigest;
      var responseMatches := interaction.responseObjectId in objects
        && hash(objects[interaction.responseObjectId]) == interaction.responseDigest;
      if interaction.sequence != index || interaction.sessionPosition != index
        || !causalMatch || !requestMatches || !responseMatches
      {
        assert !(Placed(hash, index, interactions[index], objects) && CausedBy(operationId, interactions[index]));
        return Err(DependencyTranscriptMismatch);
      }
    }
    return Ok(Unit.Unit);
  }

  method CollectIds(interactions: seq<TranscriptInteraction>) returns (ids: Option<set<ObjectId>>)
    ensures ids.Some? <==> NamesApart(interactions)
    ensures ids.Some? ==> ids.value == AllIds(interactions)
  {
    var objectIds: set<ObjectId> := {};
    for index := 0 to |interactions|
      invariant NamesApart(interactions[..index])
      invariant objectIds == AllIds(interactions[..index])
    {
      var interaction := interactions[index];
      PrefixGrows(interactions, index);
      if interaction.requestObjectId == interaction.responseObjectId
        || interaction.requestObjectId in objectIds || interaction.responseObjectId in objectIds
      {
        RepeatedName(interactions, index + 1);
        return None;
      }
      objectIds := objectIds + {interaction.requestObjectId} + {interaction.responseObjectId};
    }
    assert interactions[..|interactions|] == interactions;
    return Some(objectIds);
  }

  lemma RepeatedName(interactions: seq<TranscriptInteraction>, index: nat)
    requires index <= |interactions| && !NamesApart(interactions[..index])
    ensures !NamesApart(interactions)
  {
    if NamesApart(interactions) {
      PrefixApart(interactions, index);
    }
  }

  method TotalBytes(ids: set<ObjectId>, objects: map<ObjectId, Bytes>) returns (r: Result<nat>)
    ensures r.Ok? <==> objects.Keys <= ids && forall id :: id in objects ==> |objects[id]| <= V1.objectBytes
    ensures r.Ok? ==> r.value == Sum(objects, Length)
  {
    var remaining := objects;
    var total := 0;
    SumEmpty<ObjectId, Bytes>(Length);
    while remaining != map[]
      invariant remaining.Keys <= objects.Keys
      invariant forall id :: id in remaining ==> remaining[id] == objects[id]
      invariant forall id :: id in objects && id !in remaining ==> id in ids && |objects[id]| <= V1.objectBytes
      invariant total + Sum(remaining, Length) == Sum(objects, Length)
      decreases |remaining|
    {
      var id :| id in remaining;
      if id !in ids || |remaining[id]| > V1.objectBytes {
        assert id in objects.Keys;
        return Err(DependencyTranscriptMismatch);
      }
      SumRemove(remaining, id, Length);
      RemovalShrinks(remaining, id);
      total := total + |remaining[id]|;
      remaining := remaining - {id};
    }
    return Ok(total);
  }

  /** `ClosedDependencyTranscript::validate`. */
  method ValidateTranscript(hash: Hash, operationId: OperationId, t: ClosedDependencyTranscript)
    returns (r: Result<Unit>)
    ensures r.Ok? <==> ValidTranscript(hash, operationId, t)
    ensures r.Ok? <==> Whole(hash, operationId, t)
  {
    ValidIsWhole(hash, operationId, t);
    hide Whole;
    var verified := VerifyDependencyTranscript(hash, operationId, t.interactions, t.objects);
    if verified.Err? {
      return verified;
    }
    var objectIds := CollectIds(t.interactions);
    if objectIds.None? {
      return Err(DependencyTranscriptMismatch);
    }
    var ids := objectIds.value;
    if |ids| != |t.objects| {
      assert t.objects.Keys != ids;
      return Err(DependencyTranscriptMismatch);
    }
    assert ids <= t.objects.Keys by { PlacedIdsExist(hash, t.interactions, t.objects); }
    assert |t.objects| == |t.objects.Keys|;
    Subset(ids, t.objects.Keys);
    var total := TotalBytes(ids, t.objects);
    if total.Err? {
      return Err(total.error);
    }
    if total.value > V1.candidateBytes {
      return Err(DependencyTranscriptMismatch);
    }
    return Ok(Unit.Unit);
  }

  // The same, name by name.

  predicate NamedBy(interaction: TranscriptInteraction, id: ObjectId) {
    id == interaction.requestObjectId || id == interaction.responseObjectId
  }

  /** Numbered, of this operation, and both sides present under their digests. */
  predicate StandsAt(hash: Hash, operationId: OperationId, k: nat, i: TranscriptInteraction,
                     objects: map<ObjectId, Bytes>)
  {
    && i.sequence == k && i.sessionPosition == k
    && (i.operationId == operationId || i.causalParentId == Some(operationId))
    && i.requestObjectId in objects && hash(objects[i.requestObjectId]) == i.requestDigest
    && i.responseObjectId in objects && hash(objects[i.responseObjectId]) == i.responseDigest
    && i.requestObjectId != i.responseObjectId
  }

  predicate Disjoint(a: TranscriptInteraction, b: TranscriptInteraction) {
    && !NamedBy(b, a.requestObjectId) && !NamedBy(b, a.responseObjectId)
  }

  /** Between one and 1024 interactions in their places, no shared object, no stray object, all sizes in bounds. */
  ghost predicate Whole(hash: Hash, operationId: OperationId, t: ClosedDependencyTranscript) {
    && 1 <= |t.interactions| <= 1_024
    && AllStand(hash, operationId, t.interactions, t.objects)
    && (forall j, k :: 0 <= j < k < |t.interactions| ==> Disjoint(t.interactions[j], t.interactions[k]))
    && (forall id :: id in t.objects ==>
          && |t.objects[id]| <= V1.objectBytes
          && exists k :: 0 <= k < |t.interactions| && NamedBy(t.interactions[k], id))
    && Sum(t.objects, Length) <= V1.candidateBytes
  }

  lemma {:induction false} IdsAreNamed(interactions: seq<TranscriptInteraction>, id: ObjectId)
    ensures id in AllIds(interactions) <==> exists k :: 0 <= k < |interactions| && NamedBy(interactions[k], id)
  {
    if interactions != [] {
      var before, last := interactions[..|interactions| - 1], interactions[|interactions| - 1];
      IdsAreNamed(before, id);
      if k :| 0 <= k < |before| && NamedBy(before[k], id) {
        assert NamedBy(interactions[k], id);
      }
      if NamedBy(last, id) {
        assert NamedBy(interactions[|interactions| - 1], id);
      }
    }
  }

  ghost predicate PairwiseApart(interactions: seq<TranscriptInteraction>) {
    && (forall k :: 0 <= k < |interactions| ==>
          interactions[k].requestObjectId != interactions[k].responseObjectId)
    && forall j, k :: 0 <= j < k < |interactions| ==> Disjoint(interactions[j], interactions[k])
  }

  lemma {:induction false} ApartIsPairwise(interactions: seq<TranscriptInteraction>)
    ensures NamesApart(interactions) <==> PairwiseApart(interactions)
  {
    if interactions != [] {
      var n := |interactions| - 1;
      var before, last := interactions[..n], interactions[n];
      ApartIsPairwise(before);
      IdsAreNamed(before, last.requestObjectId);
      IdsAreNamed(before, last.responseObjectId);
      if PairwiseApart(interactions) {
        assert forall k :: 0 <= k < n ==> Disjoint(interactions[k], interactions[n]);
        assert PairwiseApart(before);
      }
      if NamesApart(interactions) {
        LastIsDisjoint(before, last);
      }
    }
  }

  lemma LastIsDisjoint(before: seq<TranscriptInteraction>, last: TranscriptInteraction)
    requires NamesNew(last, AllIds(before))
    ensures forall k :: 0 <= k < |before| ==> Disjoint(before[k], last)
  {
    forall k | 0 <= k < |before|
      ensures Disjoint(before[k], last)
    {
      assert NamedBy(before[k], before[k].requestObjectId) && NamedBy(before[k], before[k].responseObjectId);
      IdsAreNamed(before, before[k].requestObjectId);
      IdsAreNamed(before, before[k].responseObjectId);
    }
  }

  lemma KeysAreNamed(hash: Hash, interactions: seq<TranscriptInteraction>, objects: map<ObjectId, Bytes>)
    requires AllPlaced(hash, interactions, objects)
    ensures objects.Keys == AllIds(interactions) <==>
      forall id :: id in objects ==> exists k :: 0 <= k < |interactions| && NamedBy(interactions[k], id)
  {
    PlacedIdsExist(hash, interactions, objects);
    forall id
      ensures id in AllIds(interactions) <==> exists k :: 0 <= k < |interactions| && NamedBy(interactions[k], id)
    {
      IdsAreNamed(interactions, id);
    }
  }

  predicate AllStand(hash: Hash, operationId: OperationId, interactions: seq<TranscriptInteraction>,
                     objects: map<ObjectId, Bytes>)
  {
    forall k :: 0 <= k < |interactions| ==> StandsAt(hash, operationId, k, interactions[k], objects)
  }

  lemma PlacedStand(hash: Hash, operationId: OperationId, interactions: seq<TranscriptInteraction>,
                    objects: map<ObjectId, Bytes>)
    requires forall k :: 0 <= k < |interactions| ==>
      interactions[k].requestObjectId != interactions[k].responseObjectId
    ensures AllStand(hash, operationId, interactions, objects) <==>
      AllPlaced(hash, interactions, objects) && AllCaused(operationId, interactions)
  {
    hide StandsAt, Placed, CausedBy;
    forall k | 0 <= k < |interactions|
      ensures StandsAt(hash, operationId, k, interactions[k], objects) <==>
        Placed(hash, k, interactions[k], objects) && CausedBy(operationId, interactions[k])
    {
      StandsWhenPlaced(hash, operationId, k, interactions[k], objects);
    }
  }

  lemma StandsWhenPlaced(hash: Hash, operationId: OperationId, k: nat, i: TranscriptInteraction,
                         objects: map<ObjectId, Bytes>)
    ensures StandsAt(hash, operationId, k, i, objects) <==>
      && i.requestObjectId != i.responseObjectId
      && Placed(hash, k, i, objects) && CausedBy(operationId, i)
  {
  }

  lemma ValidIsWhole(hash: Hash, operationId: OperationId, t: ClosedDependencyTranscript)
    ensures ValidTranscript(hash, operationId, t) <==> Whole(hash, operationId, t)
  {
    hide NamesApart, AllIds, NamedBy, Disjoint, StandsAt, AllPlaced, AllCaused;
    ApartIsPairwise(t.interactions);
    forall k | 0 <= k < |t.interactions|
      ensures StandsAt(hash, operationId, k, t.interactions[k], t.objects) ==>
        t.interactions[k].requestObjectId != t.interactions[k].responseObjectId
    {
      StandsWhenPlaced(hash, operationId, k, t.interactions[k], t.objects);
    }
    if AllStand(hash, operationId, t.interactions, t.objects) || PairwiseApart(t.interactions) {
      PlacedStand(hash, operationId, t.interactions, t.objects);
    }
    if AllPlaced(hash, t.interactions, t.objects) {
      KeysAreNamed(hash, t.interactions, t.objects);
    }
  }

  lemma {:induction false} PlacedIdsExist(
    hash: Hash, interactions: seq<TranscriptInteraction>, objects: map<ObjectId, Bytes>)
    requires AllPlaced(hash, interactions, objects)
    ensures AllIds(interactions) <= objects.Keys
  {
    if interactions != [] {
      var last := |interactions| - 1;
      assert Placed(hash, last, interactions[last], objects);
      forall k | 0 <= k < last ensures Placed(hash, k, interactions[..last][k], objects) {
        assert Placed(hash, k, interactions[k], objects);
      }
      PlacedIdsExist(hash, interactions[..last], objects);
    }
  }

  // The recorder.

  /** The part of `record` that runs under the state lock, with the size test before it. */
  function RecordStep(
    hash: Hash, bounds: Bounds, state: TranscriptState, interaction: TranscriptInteraction, request: Bytes,
    response: Bytes): Result<TranscriptState>
  {
    var added := |request| + |response|;
    if |request| > V1.objectBytes || |response| > V1.objectBytes then Err(RuntimeQuota)
    else if |state.interactions| > 65_535 then Err(SchemaInvalid)
    else if |state.interactions| >= bounds.interactions || state.bytes + added > bounds.bytes then Err(RuntimeQuota)
    else if interaction.sequence != |state.interactions| || interaction.sessionPosition != |state.interactions|
      || interaction.requestDigest != hash(request) || interaction.responseDigest != hash(response)
      || interaction.requestObjectId == interaction.responseObjectId
      || interaction.requestObjectId in state.objects || interaction.responseObjectId in state.objects
    then Err(DependencyTranscriptMismatch)
    else
      Ok(TranscriptState(
        state.bytes + added, state.interactions + [interaction],
        state.objects[interaction.requestObjectId := request][interaction.responseObjectId := response]))
  }

  /** A provider is its reservation (the reserved bytes while it holds one) and what it recorded. */
  datatype ProviderState = ProviderState(reservation: Option<nat>, transcript: TranscriptState)

  /** One call. `expired` says the cursor lifetime has passed, `full` that every close slot of the pool is taken. */
  datatype Call =
    | Record(expired: bool, interaction: TranscriptInteraction, request: Bytes, response: Bytes)
    | Close(full: bool, expired: bool, operationId: OperationId)
    | Discard

  datatype Outcome =
    | Recorded(recorded: Result<Unit>)
    | Closed(closed: Result<ClosedDependencyTranscript>)
    | Discarded

  function RecordCall(hash: Hash, bounds: Bounds, s: ProviderState, call: Call): (ProviderState, Outcome)
    requires call.Record?
  {
    if s.reservation.None? || call.expired then (s.(reservation := None), Recorded(Err(RuntimeQuota)))
    else
      match RecordStep(hash, bounds, s.transcript, call.interaction, call.request, call.response)
      case Err(error) => (s, Recorded(Err(error)))
      case Ok(transcript) => (s.(transcript := transcript), Recorded(Ok(Unit.Unit)))
  }

  function CloseCall(hash: Hash, s: ProviderState, call: Call): (ProviderState, Outcome)
    requires call.Close?
  {
    var t := s.transcript;
    var outcome: Result<ClosedDependencyTranscript> :=
      if call.full || call.expired then Err(RuntimeQuota)
      else if t.interactions == [] || |t.interactions| > MAX_TRANSCRIPT_INTERACTIONS then Err(SchemaInvalid)
      else if Verified(hash, call.operationId, t.interactions, t.objects)
        then Ok(ClosedDependencyTranscript(t.interactions, t.objects))
      else Err(DependencyTranscriptMismatch);
    (ProviderState(None, CLEARED), Closed(outcome))
  }

  function Step(hash: Hash, bounds: Bounds, s: ProviderState, call: Call): (ProviderState, Outcome) {
    match call
    case Record(_, _, _, _) => RecordCall(hash, bounds, s, call)
    case Close(_, _, _) => CloseCall(hash, s, call)
    case Discard => (ProviderState(None, CLEARED), Discarded)
  }

  /** What a provider's dropped reservation gives back to its pool. */
  function Released(state: PoolState, before: Option<nat>, after: Option<nat>): PoolState {
    if before.Some? && after.None? then DropOperationSection(state, before.value) else state
  }

  class DependencyTranscriptPool {
    const limits: DependencyLimits
    var state: PoolState

    constructor (limits: DependencyLimits)
      requires ValidLimits(limits)
      ensures this.limits == limits && state == EMPTY
    {
      this.limits := limits;
      state := EMPTY;
    }

    method Open(hash: Hash, maximumInteractions: nat, maximumBytes: nat) returns (r: Result<HttpTranscriptProvider>)
      modifies this
      ensures
        match OpenSection(limits, old(state), maximumInteractions, maximumBytes)
        case Err(error) => r == Err(error) && state == old(state)
        case Ok(after) =>
          && state == after && r.Ok? && fresh(r.value) && r.value.pool == this && r.value.hash == hash
          && r.value.bounds == Bounds(maximumInteractions, maximumBytes)
          && ValidBounds(maximumInteractions, maximumBytes)
          && r.value.View() == ProviderState(Some(maximumBytes), CLEARED)
      ensures
        r.Ok? <==>
          && 1 <= maximumInteractions <= V1.interactionsPerOperation && 1 <= maximumBytes <= V1.candidateBytes
          && maximumInteractions <= limits.interactionsPerOperation && maximumBytes <= limits.candidateBytes
          && old(state.sessions) < limits.sessions && old(state.activeOperations) < limits.activeOperations
          && old(state.memoryBytes) + maximumBytes <= limits.memoryBytes
          && old(state.durableBytes) + maximumBytes <= limits.durableBytes
      ensures r == Err(SchemaInvalid) <==>
        !(1 <= maximumInteractions <= V1.interactionsPerOperation && 1 <= maximumBytes <= V1.candidateBytes)
    {
      if maximumInteractions == 0 || maximumInteractions > V1.interactionsPerOperation
        || maximumBytes == 0 || maximumBytes > V1.candidateBytes
      {
        return Err(SchemaInvalid);
      }
      if maximumInteractions > limits.interactionsPerOperation || maximumBytes > limits.candidateBytes {
        return Err(RuntimeQuota);
      }
      if state.sessions >= limits.sessions || state.activeOperations >= limits.activeOperations
        || state.memoryBytes + maximumBytes > limits.memoryBytes
        || state.durableBytes + maximumBytes > limits.durableBytes
      {
        return Err(RuntimeQuota);
      }
      state := state.(sessions := state.sessions + 1, activeOperations := state.activeOperations + 1,
                      memoryBytes := state.memoryBytes + maximumBytes,
                      durableBytes := state.durableBytes + maximumBytes);
      var provider := new HttpTranscriptProvider(this, hash, Bounds(maximumInteractions, maximumBytes), maximumBytes);
      return Ok(provider);
    }

    method ReserveClose() returns (r: Result<Unit>)
      modifies this
      ensures
        match CloseSection(limits, old(state))
        case Err(error) => r == Err(error) && state == old(state)
        case Ok(reserved) => r == Ok(Unit.Unit) && state == reserved
    {
      if state.activeCloseRequests >= limits.concurrentCloseRequests {
        return Err(RuntimeQuota);
      }
      state := state.(activeCloseRequests := state.activeCloseRequests + 1);
      return Ok(Unit.Unit);
    }

    method DropOperation(bytes: nat)
      modifies this
      ensures state == DropOperationSection(old(state), bytes)
    {
      state := state.(sessions := SaturatingSub(state.sessions, 1));
      state := state.(activeOperations := SaturatingSub(state.activeOperations, 1));
      state := state.(memoryBytes := SaturatingSub(state.memoryBytes, bytes));
      state := state.(durableBytes := SaturatingSub(state.durableBytes, bytes));
    }

    method DropClose()
      modifies this
      ensures state == DropCloseSection(old(state))
    {
      state := state.(activeCloseRequests := SaturatingSub(state.activeCloseRequests, 1));
    }
  }

  class HttpTranscriptProvider {
    const pool: DependencyTranscriptPool
    const hash: Hash
    const bounds: Bounds
    var reservation: Option<nat>
    var bytes: nat
    var interactions: seq<TranscriptInteraction>
    var objects: map<ObjectId, Bytes>

    constructor (pool: DependencyTranscriptPool, hash: Hash, bounds: Bounds, reserved: nat)
      ensures this.pool == pool && this.hash == hash && this.bounds == bounds
      ensures View() == ProviderState(Some(reserved), CLEARED)
    {
      this.pool := pool;
      this.hash := hash;
      this.bounds := bounds;
      reservation := Some(reserved);
      bytes := 0;
      interactions := [];
      objects := map[];
    }

    function View(): ProviderState
      reads this
    {
      ProviderState(reservation, TranscriptState(bytes, interactions, objects))
    }

    method ReleaseOperation()
      modifies this`reservation, pool
      ensures reservation == None
      ensures pool.state == Released(old(pool.state), old(reservation), None)
    {
      if reservation.Some? {
        var bytes := reservation.value;
        reservation := None;
        pool.DropOperation(bytes);
      }
    }

    method RequireActive(expired: bool) returns (r: Result<Unit>)
      modifies this`reservation, pool
      ensures r == if old(reservation).None? || expired then Err(RuntimeQuota) else Ok(Unit.Unit)
      ensures reservation == if r.Ok? then old(reservation) else None
      ensures pool.state == Released(old(pool.state), old(reservation), reservation)
    {
      if reservation.None? || expired {
        ReleaseOperation();
        return Err(RuntimeQuota);
      }
      return Ok(Unit.Unit);
    }

    method Record(expired: bool, interaction: TranscriptInteraction, request: Bytes, response: Bytes)
      returns (r: Result<Unit>)
      modifies this, pool
      ensures
        (View(), Outcome.Recorded(r))
          == Step(hash, bounds, old(View()), Call.Record(expired, interaction, request, response))
      ensures pool.state == Released(old(pool.state), old(reservation), reservation)
      ensures
        r.Ok? <==>
          && old(reservation).Some? && !expired
          && |request| <= V1.objectBytes && |response| <= V1.objectBytes
          && |old(interactions)| < bounds.interactions && |old(interactions)| <= 65_535
          && old(bytes) + |request| + |response| <= bounds.bytes
          && interaction.sequence == interaction.sessionPosition == |old(interactions)|
          && interaction.requestDigest == hash(request) && interaction.responseDigest == hash(response)
          && interaction.requestObjectId != interaction.responseObjectId
          && interaction.requestObjectId !in old(objects) && interaction.responseObjectId !in old(objects)
    {
      var active := RequireActive(expired);
      if active.Err? {
        return active;
      }
      if |request| > V1.objectBytes || |response| > V1.objectBytes {
        return Err(RuntimeQuota);
      }
      if |interactions| > 65_535 {
        return Err(SchemaInvalid);
      }
      var nextSequence := |interactions|;
      var addedBytes := |request| + |response|;
      if |interactions| >= bounds.interactions || bytes + addedBytes > bounds.bytes {
        return Err(RuntimeQuota);
      }
      if interaction.sequence != nextSequence || interaction.sessionPosition != nextSequence
        || interaction.requestDigest != hash(request) || interaction.responseDigest != hash(response)
        || interaction.requestObjectId == interaction.responseObjectId
        || interaction.requestObjectId in objects || interaction.responseObjectId in objects
      {
        return Err(DependencyTranscriptMismatch);
      }
      bytes := bytes + addedBytes;
      objects := objects[interaction.requestObjectId := request];
      objects := objects[interaction.responseObjectId := response];
      interactions := interactions + [interaction];
      return Ok(Unit.Unit);
    }

    method Discard()
      modifies this, pool
      ensures (View(), Discarded) == Step(hash, bounds, old(View()), Call.Discard)
      ensures pool.state == Released(old(pool.state), old(reservation), None)
    {
      bytes, interactions, objects := 0, [], map[];
      ReleaseOperation();
    }

    /** Whatever the outcome, the provider is empty and its reservation and the close slot are back in the pool. */
    method Close(expired: bool, operationId: OperationId) returns (r: Result<ClosedDependencyTranscript>)
      modifies this, pool
      ensures
        var full := old(pool.state.activeCloseRequests) >= pool.limits.concurrentCloseRequests;
        (View(), Closed(r)) == Step(hash, bounds, old(View()), Call.Close(full, expired, operationId))
      ensures pool.state == Released(old(pool.state), old(reservation), None)
    {
      var close := pool.ReserveClose();
      if close.Err? {
        Discard();
        return Err(close.error);
      }
      if expired {
        pool.DropClose();
        Discard();
        return Err(RuntimeQuota);
      }
      var verified := VerifyDependencyTranscript(hash, operationId, interactions, objects);
      if verified.Err? {
        r := Err(verified.error);
      } else {
        r := Ok(ClosedDependencyTranscript(interactions, objects));
      }
      bytes, interactions, objects := 0, [], map[];
      pool.DropClose();
      ReleaseOperation();
    }
  }
}
