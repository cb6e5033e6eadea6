/** From a resolved capsule to its automatic replay: reading, checking and collecting every observation. */
module AutomaticCapsule {
  import opened Prelude
  import opened Capsule
  import opened AutomaticReplay
  import opened AutomaticReplayRuns

  const MAX_OBSERVATIONS := 1_024
  const MAX_ENVIRONMENT_OBJECT_BYTES := 1_048_576

  type Reader = LogicalObject -> Result<Bytes>

  /** One artifact of the World: its point, its URI and its object. */
  datatype StateArtifact = StateArtifact(pointIndex: nat, uri: string, content: LogicalObject)

  /** One interaction of the transcript with its two objects. */
  datatype Interaction = Interaction(
    operationId: nat, outcome: DependencyOutcome, requestDigest: Digest, responseDigest: Digest, sessionPosition: nat,
    request: LogicalObject, response: LogicalObject)

  /**
   * The parsers that resolving calls. `uri` reads class, position, request
   * digest and outcome out of a URI; `state` reads class, request digest and
   * outcome out of a state response.
   */
  datatype Parsers = Parsers(
    hash: Hash,
    pair: PairCheck,
    uri: string -> Result<(Class, nat, Digest, DependencyOutcome)>,
    state: Bytes -> Result<(Class, Digest, DependencyOutcome)>,
    environment: Bytes -> Result<map<Bytes, Bytes>>,
    clock: Bytes -> Result<nat>,
    baselines: BaselineRequests)

  /** `supported` stands for the validation of the World, the transcript and the names and versions of the adapters. */
  datatype ReplaySource = ReplaySource(
    supported: Result<Unit>, operationId: nat, artifacts: seq<StateArtifact>, interactions: seq<Interaction>)

  // One payload, one artifact, one interaction.

  /** `read_payload`. */
  function ReadPayload(hash: Hash, o: LogicalObject, limit: nat, read: Reader): Result<Bytes> {
    if o.mediaType != "application/octet-stream" || o.plainSize > limit then Err(SchemaInvalid)
    else
      var bytes :- read(o);
      if |bytes| != o.plainSize || hash(bytes) != o.plainDigest then Err(ObjectDigestMismatch) else Ok(bytes)
  }

  /** The observation of one artifact; the environment baseline is not a state response. */
  function ArtifactEntry(parsers: Parsers, artifact: StateArtifact, read: Reader): Result<Entry> {
    if artifact.pointIndex != 0 then Err(WorldNotClosed)
    else
      var identity :- parsers.uri(artifact.uri);
      var (class_, position, requestDigest, outcome) := identity;
      var baseline := class_ == Environment && position == 0;
      var response :- ReadPayload(parsers.hash, artifact.content,
                                  if baseline then MAX_ENVIRONMENT_OBJECT_BYTES else MAX_RECORD_BYTES, read);
      var entry := Entry((class_, position), RecordedObservation(outcome, response, requestDigest));
      if baseline then Ok(entry)
      else
        var state :- parsers.state(response);
        if state != (class_, requestDigest, outcome) then Err(WorldNotClosed) else Ok(entry)
  }

  /** The class of an interaction: the wall clock, or what its request and response say. */
  function InteractionClass(parsers: Parsers, interaction: Interaction, request: Bytes,
                            response: Bytes): Result<Class> {
    if request == parsers.baselines.wallClock then
      if interaction.sessionPosition != 0 || interaction.outcome != Response then Err(WorldNotClosed) else Ok(Clock)
    else
      var observed :- parsers.pair(request, response);
      if observed.0 in {Environment, Filesystem} || observed.1 != interaction.outcome then Err(WorldNotClosed)
      else Ok(observed.0)
  }

  /** The observation of one interaction. */
  function InteractionEntry(parsers: Parsers, operationId: nat, interaction: Interaction, read: Reader): Result<Entry> {
    if interaction.operationId != operationId then Err(WorldNotClosed)
    else
      var request :- ReadPayload(parsers.hash, interaction.request, MAX_RECORD_BYTES, read);
      var response :- ReadPayload(parsers.hash, interaction.response, MAX_RECORD_BYTES, read);
      if parsers.hash(request) != interaction.requestDigest || parsers.hash(response) != interaction.responseDigest then
        Err(ObjectDigestMismatch)
      else
        var class_ :- InteractionClass(parsers, interaction, request, response);
        Ok(Entry((class_, interaction.sessionPosition),
                 RecordedObservation(interaction.outcome, response, interaction.requestDigest)))
  }

  // All of them.

  /** Every artifact and then every interaction. */
  function Observed(parsers: Parsers, source: ReplaySource, read: Reader): seq<Result<Entry>> {
    seq(|source.artifacts|, i requires 0 <= i < |source.artifacts| => ArtifactEntry(parsers, source.artifacts[i], read))
    + seq(|source.interactions|, i requires 0 <= i < |source.interactions| =>
            InteractionEntry(parsers, source.operationId, source.interactions[i], read))
  }

  predicate AllOk(observed: seq<Result<Entry>>) {
    forall i :: 0 <= i < |observed| ==> observed[i].Ok?
  }

  function Values(observed: seq<Result<Entry>>): seq<Entry>
    requires AllOk(observed)
  {
    seq(|observed|, i requires 0 <= i < |observed| => observed[i].value)
  }

  /** The collected observations, if every entry is good and no key comes twice. */
  function Gathered(observed: seq<Result<Entry>>): Option<Observations> {
    if AllOk(observed) then Collected(Values(observed)) else None
  }

  datatype Replay = Replay(environment: map<Bytes, Bytes>, boundaryClock: nat, observations: Observations)

  /** `resolve_automatic_replay` on values. */
  function ResolvedReplay(parsers: Parsers, source: ReplaySource, read: Reader): Option<Replay> {
    var all := Gathered(Observed(parsers, source, read));
    if source.supported.Err? || |source.artifacts| + |source.interactions| > MAX_OBSERVATIONS || all.None?
      || !Contiguous(all.value)
        || !BaselineOk(parsers.hash, all.value, Environment, parsers.baselines.processEnvironment)
      || !BaselineOk(parsers.hash, all.value, Clock, parsers.baselines.wallClock)
    then None
    else
      var environment := parsers.environment(all.value[(Environment, 0)].response);
      var clock := parsers.clock(all.value[(Clock, 0)].response);
      if environment.Err? || clock.Err? then None
      else Some(Replay(environment.value, clock.value, all.value - {(Environment, 0), (Clock, 0)}))
  }

  lemma GatheredNext(observed: seq<Result<Entry>>, n: nat)
    requires n < |observed| && Gathered(observed[..n]).Some?
    ensures
      var before := Gathered(observed[..n]).value;
      Gathered(observed[..n + 1]) ==
        if observed[n].Ok? && observed[n].value.key !in before
        then Some(before[observed[n].value.key := observed[n].value.record])
        else None
  {
    var longer := observed[..n + 1];
    assert longer[..n] == observed[..n] && longer[n] == observed[n];
    if observed[n].Ok? {
      forall i | 0 <= i < |longer|
        ensures longer[i].Ok?
      {
        assert i < n ==> longer[i] == observed[..n][i];
      }
      assert Values(longer)[..n] == Values(observed[..n]);
    }
  }

  lemma {:induction false} GatheredFails(observed: seq<Result<Entry>>, n: nat)
    requires n <= |observed| && Gathered(observed[..n]).None?
    ensures Gathered(observed).None?
  {
    if AllOk(observed) {
      forall i | 0 <= i < n
        ensures observed[..n][i].Ok?
      {
        assert observed[..n][i] == observed[i];
      }
      assert Values(observed)[..n] == Values(observed[..n]);
      RefusedPrefix(Values(observed), n);
    }
  }

  /** One of the two loops: every entry from `from` on is checked and inserted. */
  method Gather(ghost observed: seq<Result<Entry>>, from: nat, entries: seq<Result<Entry>>, before: Observations)
    returns (r: Result<Observations>)
    requires from + |entries| <= |observed| && observed[from..from + |entries|] == entries
    requires Gathered(observed[..from]) == Some(before)
    ensures r.Ok? ==> Gathered(observed[..from + |entries|]) == Some(r.value)
    ensures r.Err? ==> Gathered(observed).None?
  {
    var observations := before;
    for i := 0 to |entries|
      invariant Gathered(observed[..from + i]) == Some(observations)
    {
      assert observed[from + i] == entries[i];
      GatheredNext(observed, from + i);
      if entries[i].Err? {
        GatheredFails(observed, from + i + 1);
        return Err(entries[i].error);
      }
      var inserted := Insert(observations, entries[i].value.key, entries[i].value.record);
      if inserted.Err? {
        GatheredFails(observed, from + i + 1);
        return Err(inserted.error);
      }
      observations := inserted.value;
    }
    return Ok(observations);
  }

  /** `resolve_automatic_replay`: two loops over one map, and the checks on what they collected. */
  method Resolve(parsers: Parsers, source: ReplaySource, read: Reader) returns (r: Result<AutomaticReplay>)
    ensures r.Ok? <==> ResolvedReplay(parsers, source, read).Some?
    ensures
      r.Ok? ==>
        && fresh(r.value) && r.value.hash == parsers.hash && r.value.pair == parsers.pair
        && Replay(r.value.environment, r.value.boundaryClock, r.value.observations)
           == ResolvedReplay(parsers, source, read).value
  {
    if source.supported.Err? {
      return Err(source.supported.error);
    }
    if |source.artifacts| + |source.interactions| > MAX_OBSERVATIONS {
      return Err(WorldNotClosed);
    }
    ghost var observed := Observed(parsers, source, read);
    var n := |source.artifacts|;
    var states := seq(n, i requires 0 <= i < n => ArtifactEntry(parsers, source.artifacts[i], read));
    var dependencies := seq(|source.interactions|, i requires 0 <= i < |source.interactions| =>
                              InteractionEntry(parsers, source.operationId, source.interactions[i], read));
    assert observed[..0] == [] && observed[0..n] == states && observed[n..n + |dependencies|] == dependencies;
    assert Gathered([]) == Some(map[]);
    var gathered := Gather(observed, 0, states, map[]);
    if gathered.Err? {
      return Err(gathered.error);
    }
    var all := Gather(observed, n, dependencies, gathered.value);
    if all.Err? {
      return Err(all.error);
    }
    assert observed[..n + |dependencies|] == observed;
    var taken := TakeBaselines(parsers.hash, parsers.baselines, all.value);
    if taken.Err? {
      return Err(taken.error);
    }
    var environment := parsers.environment(taken.value.1);
    if environment.Err? {
      return Err(environment.error);
    }
    var clock := parsers.clock(taken.value.2);
    if clock.Err? {
      return Err(clock.error);
    }
    var replay := new AutomaticReplay(parsers.hash, parsers.pair, environment.value, clock.value, taken.value.0);
    return Ok(replay);
  }

  // What an accepted capsule replays.

  lemma ReplayIsResolved(parsers: Parsers, source: ReplaySource, read: Reader)
    requires ResolvedReplay(parsers, source, read).Some?
    ensures AllOk(Observed(parsers, source, read))
    ensures
      Resolved(parsers.hash, parsers.baselines, Values(Observed(parsers, source, read)))
      == Some(ResolvedReplay(parsers, source, read).value.observations)
  {
  }

  /** So an accepted capsule holds a segment of positions for every class. */
  lemma ReplayHoldsSegments(parsers: Parsers, source: ReplaySource, read: Reader, class_: Class) returns (end: nat)
    requires ResolvedReplay(parsers, source, read).Some?
    ensures
      FirstPosition(class_) <= end
      && Holds(ResolvedReplay(parsers, source, read).value.observations, class_, FirstPosition(class_), end)
  {
    ReplayIsResolved(parsers, source, read);
    end := ResolvedHoldsSegments(parsers.hash, parsers.baselines, Values(Observed(parsers, source, read)), class_);
  }

  lemma {:induction false} CollectedHolds(entries: seq<Entry>, i: nat)
    requires i < |entries| && Collected(entries).Some?
    ensures entries[i].key in Collected(entries).value && Collected(entries).value[entries[i].key] == entries[i].record
    decreases |entries|
  {
    if i < |entries| - 1 {
      var before := entries[..|entries| - 1];
      CollectedHolds(before, i);
      assert before[i] == entries[i];
    }
  }

  /** The request that an interaction recorded. */
  function RecordedRequest(parsers: Parsers, interaction: Interaction, read: Reader): Result<Bytes> {
    ReadPayload(parsers.hash, interaction.request, MAX_RECORD_BYTES, read)
  }

  lemma InteractionIsCollected(parsers: Parsers, source: ReplaySource, read: Reader, i: nat)
    requires ResolvedReplay(parsers, source, read).Some? && i < |source.interactions|
    ensures InteractionEntry(parsers, source.operationId, source.interactions[i], read).Ok?
    ensures
      var entry := InteractionEntry(parsers, source.operationId, source.interactions[i], read).value;
      var all := Gathered(Observed(parsers, source, read)).value;
      entry.key in all && all[entry.key] == entry.record
  {
    hide InteractionEntry, ArtifactEntry, Contiguous, Collected, BaselineOk;
    var observed, n := Observed(parsers, source, read), |source.artifacts|;
    assert observed[n + i] == InteractionEntry(parsers, source.operationId, source.interactions[i], read);
    CollectedHolds(Values(observed), n + i);
  }

  /**
   * Whatever resolving accepts can be replayed: asked with its own recorded
   * request, every interaction but the wall clock is answered with its own
   * recorded response, as long as nobody took it before.
   */
  lemma InteractionReplays(parsers: Parsers, source: ReplaySource, read: Reader, i: nat)
    requires ResolvedReplay(parsers, source, read).Some? && i < |source.interactions|
    requires RecordedRequest(parsers, source.interactions[i], read) != Ok(parsers.baselines.wallClock)
    ensures
      var interaction := source.interactions[i];
      var request := RecordedRequest(parsers, interaction, read);
      var entry := InteractionEntry(parsers, source.operationId, interaction, read);
      && request.Ok? && entry.Ok? && entry.value.key.1 == interaction.sessionPosition
      && ReadPayload(parsers.hash, interaction.response, MAX_RECORD_BYTES, read) == Ok(entry.value.record.response)
      && (entry.value.key != (Clock, 0) ==>
            TakeOutcome(parsers.hash, parsers.pair, ResolvedReplay(parsers, source, read).value.observations,
                        entry.value.key, request.value)
            == Ok(entry.value.record))
  {
    InteractionIsCollected(parsers, source, read, i);
  }

  /** Some interaction or state artifact stands behind every observation of the replay. */
  lemma ObservationIsRecorded(parsers: Parsers, source: ReplaySource, read: Reader, key: Key) returns (i: nat)
    requires ResolvedReplay(parsers, source, read).Some?
    requires key in ResolvedReplay(parsers, source, read).value.observations
    ensures i < |Observed(parsers, source, read)| && Observed(parsers, source, read)[i].Ok?
    ensures Observed(parsers, source, read)[i].value
         == Entry(key, ResolvedReplay(parsers, source, read).value.observations[key])
  {
    i := KeyIsCollected(Values(Observed(parsers, source, read)), key);
  }

  lemma {:induction false} KeyIsCollected(entries: seq<Entry>, key: Key) returns (i: nat)
    requires Collected(entries).Some? && key in Collected(entries).value
    ensures i < |entries| && entries[i] == Entry(key, Collected(entries).value[key])
    decreases |entries|
  {
    var last := entries[|entries| - 1];
    if last.key == key {
      i := |entries| - 1;
    } else {
      i := KeyIsCollected(entries[..|entries| - 1], key);
    }
  }

  /** An interaction that is not the boundary clock's own position. */
  predicate Replayable(parsers: Parsers, source: ReplaySource, read: Reader, i: nat)
    requires i < |source.interactions|
  {
    var entry := InteractionEntry(parsers, source.operationId, source.interactions[i], read);
    && entry.Ok? && entry.value.key != (Clock, 0)
    && RecordedRequest(parsers, source.interactions[i], read) != Ok(parsers.baselines.wallClock)
  }

  /**
   * Over a whole run, in any order: an interaction asked with its recorded
   * request is answered with its recorded response exactly when no earlier
   * call of the run took it.
   */
  lemma RecordedRunReplays(parsers: Parsers, source: ReplaySource, read: Reader, takes: seq<Take>, k: nat, i: nat)
    requires ResolvedReplay(parsers, source, read).Some? && k < |takes|
    requires i < |source.interactions| && Replayable(parsers, source, read, i)
    requires RecordedRequest(parsers, source.interactions[i], read) == Ok(takes[k].request)
    requires takes[k].key == InteractionEntry(parsers, source.operationId, source.interactions[i], read).value.key
    ensures
      var start := ResolvedReplay(parsers, source, read).value.observations;
      TakeOutcome(parsers.hash, parsers.pair, Run(parsers.hash, parsers.pair, start, takes[..k]), takes[k].key,
                  takes[k].request).Ok?
      <==> !Asked(parsers.hash, parsers.pair, start, takes[..k], takes[k].key)
  {
    var start := ResolvedReplay(parsers, source, read).value.observations;
    InteractionReplays(parsers, source, read, i);
    TakeSucceedsExactly(parsers.hash, parsers.pair, start, takes[..k], takes[k]);
  }
}
