/** What an accepted automatic capsule is: exactly the observations its artifacts and interactions say. */
module AutomaticMeaning {
  import opened Prelude
  import opened Capsule
  import opened AutomaticReplay
  import opened AutomaticCapsule

  /** The reader gave these bytes for the object, and they are the ones it describes. */
  predicate PayloadSays(hash: Hash, o: LogicalObject, limit: nat, read: Reader, bytes: Bytes) {
    && o.mediaType == "application/octet-stream" && o.plainSize <= limit
    && read(o) == Ok(bytes) && |bytes| == o.plainSize && hash(bytes) == o.plainDigest
  }

  /** An artifact of the first point: its URI names the observation, and its content, but for the baseline, agrees. */
  predicate ArtifactSays(parsers: Parsers, artifact: StateArtifact, read: Reader, entry: Entry) {
    var observation := entry.record;
    && artifact.pointIndex == 0
    && parsers.uri(artifact.uri) == Ok((entry.key.0, entry.key.1, observation.requestDigest, observation.outcome))
    && PayloadSays(parsers.hash, artifact.content, if entry.key == (Environment, 0) then 1_048_576 else 65_536, read,
                   observation.response)
    && (entry.key != (Environment, 0) ==>
          parsers.state(observation.response) == Ok((entry.key.0, observation.requestDigest, observation.outcome)))
  }

  /** An interaction of the operation: its two objects carry its digests and make a pair of its class and outcome. */
  ghost predicate InteractionSays(parsers: Parsers, operationId: nat, interaction: Interaction, read: Reader,
                                  entry: Entry)
  {
    && interaction.operationId == operationId
    && entry.key.1 == interaction.sessionPosition
    && entry.record.outcome == interaction.outcome && entry.record.requestDigest == interaction.requestDigest
    && PayloadSays(parsers.hash, interaction.response, 65_536, read, entry.record.response)
    && parsers.hash(entry.record.response) == interaction.responseDigest
    && exists request ::
         && PayloadSays(parsers.hash, interaction.request, 65_536, read, request)
         && parsers.hash(request) == interaction.requestDigest
         && if request == parsers.baselines.wallClock then entry.key == (Clock, 0) && interaction.outcome == Response
            else
              && parsers.pair(request, entry.record.response) == Ok((entry.key.0, interaction.outcome))
              && entry.key.0 != Environment && entry.key.0 != Filesystem
  }

  /** Each artifact and each interaction says its own entry. */
  ghost predicate AllSaid(parsers: Parsers, source: ReplaySource, read: Reader, entries: seq<Entry>) {
    && |entries| == |source.artifacts| + |source.interactions|
    && (forall i :: 0 <= i < |source.artifacts| ==> ArtifactSays(parsers, source.artifacts[i], read, entries[i]))
    && forall i :: 0 <= i < |source.interactions| ==>
         InteractionSays(parsers, source.operationId, source.interactions[i], read, entries[|source.artifacts| + i])
  }

  predicate KeysApart(entries: seq<Entry>) {
    forall i, j :: 0 <= i < j < |entries| ==> entries[i].key != entries[j].key
  }

  predicate Lists(entries: seq<Entry>, key: Key) {
    exists i :: 0 <= i < |entries| && entries[i].key == key
  }

  /** No position of a class is missing below another. */
  ghost predicate NoGap(entries: seq<Entry>) {
    forall class_, p: nat, q: nat :: q < p && Lists(entries, (class_, p)) ==> Lists(entries, (class_, q))
  }

  /** The first observation of the class answers this request, and these are its bytes. */
  predicate BaselineSays(hash: Hash, entries: seq<Entry>, class_: Class, request: Bytes, response: Bytes) {
    Entry((class_, 0), RecordedObservation(Response, response, hash(request))) in entries
  }

  /** The replay holds every entry but the two baselines, and nothing else. */
  ghost predicate HoldsRest(entries: seq<Entry>, observations: Observations) {
    forall key, observation ::
      (key in observations && observations[key] == observation) <==>
      (Entry(key, observation) in entries && key != (Environment, 0) && key != (Clock, 0))
  }

  ghost predicate BaselinesSay(parsers: Parsers, entries: seq<Entry>, replay: Replay) {
    && (exists response ::
          && BaselineSays(parsers.hash, entries, Environment, parsers.baselines.processEnvironment, response)
          && parsers.environment(response) == Ok(replay.environment))
    && exists response ::
         && BaselineSays(parsers.hash, entries, Clock, parsers.baselines.wallClock, response)
         && parsers.clock(response) == Ok(replay.boundaryClock)
  }

  ghost predicate Meant(parsers: Parsers, source: ReplaySource, read: Reader, entries: seq<Entry>, replay: Replay) {
    && source.supported.Ok? && |entries| <= 1_024
    && AllSaid(parsers, source, read, entries)
    && KeysApart(entries) && NoGap(entries)
    && BaselinesSay(parsers, entries, replay)
    && HoldsRest(entries, replay.observations)
  }

  lemma PayloadIsSaid(hash: Hash, o: LogicalObject, limit: nat, read: Reader, bytes: Bytes)
    ensures PayloadSays(hash, o, limit, read, bytes) <==> ReadPayload(hash, o, limit, read) == Ok(bytes)
  {
  }

  lemma ArtifactIsSaid(parsers: Parsers, artifact: StateArtifact, read: Reader, entry: Entry)
    ensures ArtifactSays(parsers, artifact, read, entry) <==> ArtifactEntry(parsers, artifact, read) == Ok(entry)
  {
    hide PayloadSays, ReadPayload;
    var limit := if entry.key == (Environment, 0) then 1_048_576 else 65_536;
    PayloadIsSaid(parsers.hash, artifact.content, limit, read, entry.record.response);
    if ArtifactSays(parsers, artifact, read, entry) {
      assert ReadPayload(parsers.hash, artifact.content, limit, read) == Ok(entry.record.response);
      assert ArtifactEntry(parsers, artifact, read).Ok?;
    }
    if ArtifactEntry(parsers, artifact, read) == Ok(entry) {
      var identity := parsers.uri(artifact.uri).value;
      assert identity == (identity.0, identity.1, identity.2, identity.3);
      assert parsers.uri(artifact.uri)
        == Ok((entry.key.0, entry.key.1, entry.record.requestDigest, entry.record.outcome));
      assert ReadPayload(parsers.hash, artifact.content, limit, read) == Ok(entry.record.response);
    }
  }

  lemma InteractionIsSaid(parsers: Parsers, operationId: nat, interaction: Interaction, read: Reader, entry: Entry)
    ensures InteractionSays(parsers, operationId, interaction, read, entry) <==>
      InteractionEntry(parsers, operationId, interaction, read) == Ok(entry)
  {
    hide PayloadSays, ReadPayload;
    forall bytes
      ensures PayloadSays(parsers.hash, interaction.request, 65_536, read, bytes) <==>
        ReadPayload(parsers.hash, interaction.request, 65_536, read) == Ok(bytes)
    {
      PayloadIsSaid(parsers.hash, interaction.request, 65_536, read, bytes);
    }
    PayloadIsSaid(parsers.hash, interaction.response, 65_536, read, entry.record.response);
    if InteractionEntry(parsers, operationId, interaction, read) == Ok(entry) {
      var request := ReadPayload(parsers.hash, interaction.request, 65_536, read).value;
      assert PayloadSays(parsers.hash, interaction.request, 65_536, read, request);
      assert InteractionSays(parsers, operationId, interaction, read, entry);
    }
    if InteractionSays(parsers, operationId, interaction, read, entry) {
      assert ReadPayload(parsers.hash, interaction.response, 65_536, read) == Ok(entry.record.response);
      var request :| PayloadSays(parsers.hash, interaction.request, 65_536, read, request)
        && parsers.hash(request) == interaction.requestDigest
        && if request == parsers.baselines.wallClock then entry.key == (Clock, 0) && interaction.outcome == Response
           else
             && parsers.pair(request, entry.record.response) == Ok((entry.key.0, interaction.outcome))
             && entry.key.0 != Environment && entry.key.0 != Filesystem;
      assert InteractionClass(parsers, interaction, request, entry.record.response) == Ok(entry.key.0);
      assert InteractionEntry(parsers, operationId, interaction, read).Ok?;
    }
  }

  lemma SaidIsObserved(parsers: Parsers, source: ReplaySource, read: Reader, entries: seq<Entry>)
    ensures AllSaid(parsers, source, read, entries) <==>
      var observed := Observed(parsers, source, read);
      AllOk(observed) && entries == Values(observed)
  {
    hide ArtifactSays, InteractionSays, ArtifactEntry, InteractionEntry;
    var observed, n := Observed(parsers, source, read), |source.artifacts|;
    if |entries| == |observed| {
      forall i | 0 <= i < n
        ensures ArtifactSays(parsers, source.artifacts[i], read, entries[i]) <==> observed[i] == Ok(entries[i])
      {
        ArtifactIsSaid(parsers, source.artifacts[i], read, entries[i]);
      }
      forall i | 0 <= i < |source.interactions|
        ensures
          InteractionSays(parsers, source.operationId, source.interactions[i], read, entries[n + i]) <==>
            observed[n + i] == Ok(entries[n + i])
      {
        InteractionIsSaid(parsers, source.operationId, source.interactions[i], read, entries[n + i]);
      }
      if AllSaid(parsers, source, read, entries) {
        forall k | 0 <= k < |observed|
          ensures observed[k] == Ok(entries[k])
        {
          if k >= n {
            assert k == n + (k - n);
          }
        }
      }
    }
  }

  /** Collecting succeeds exactly on different keys, and then it holds exactly the entries. */
  lemma {:induction false} CollectsApart(entries: seq<Entry>)
    ensures Collected(entries).Some? <==> KeysApart(entries)
    ensures Collected(entries).Some? ==> forall key :: key in Collected(entries).value <==> Lists(entries, key)
  {
    if entries != [] {
      var before, last := entries[..|entries| - 1], entries[|entries| - 1];
      CollectsApart(before);
      assert entries == before + [last];
      forall key
        ensures Lists(entries, key) <==> Lists(before, key) || last.key == key
      {
        ListsMore(before, last, key);
      }
      ApartMore(before, last);
    }
  }

  lemma ListsMore(before: seq<Entry>, last: Entry, key: Key)
    ensures Lists(before + [last], key) <==> Lists(before, key) || last.key == key
  {
    var longer := before + [last];
    assert longer[|before|] == last;
    if Lists(before, key) {
      var i :| 0 <= i < |before| && before[i].key == key;
      assert longer[i].key == key;
    }
  }

  lemma ApartMore(before: seq<Entry>, last: Entry)
    ensures KeysApart(before + [last]) <==> KeysApart(before) && !Lists(before, last.key)
  {
    var longer := before + [last];
    assert forall i :: 0 <= i < |before| ==> longer[i] == before[i];
    assert longer[|before|] == last;
  }

  lemma CollectedSays(entries: seq<Entry>, key: Key, observation: RecordedObservation)
    requires Collected(entries).Some?
    ensures key in Collected(entries).value && Collected(entries).value[key] == observation <==>
      Entry(key, observation) in entries
  {
    var all := Collected(entries).value;
    if key in all {
      var i := KeyIsCollected(entries, key);
    }
    if Entry(key, observation) in entries {
      var i :| 0 <= i < |entries| && entries[i] == Entry(key, observation);
      CollectedHolds(entries, i);
    }
  }

  lemma NoGapIsContiguous(entries: seq<Entry>)
    requires Collected(entries).Some?
    ensures NoGap(entries) <==> Contiguous(Collected(entries).value)
  {
    hide Collected, Lists;
    CollectsApart(entries);
    var all := Collected(entries).value;
    if NoGap(entries) {
      forall key, q: nat | key in all && q < key.1
        ensures (key.0, q) in all
      {
        assert Lists(entries, (key.0, key.1));
      }
    }
    if Contiguous(all) {
      forall class_, p: nat, q: nat | q < p && Lists(entries, (class_, p))
        ensures Lists(entries, (class_, q))
      {
        assert (class_, p) in all;
      }
    }
  }

  lemma BaselineIsSaid(hash: Hash, entries: seq<Entry>, class_: Class, request: Bytes, response: Bytes)
    requires Collected(entries).Some?
    ensures BaselineSays(hash, entries, class_, request, response) <==>
      BaselineOk(hash, Collected(entries).value, class_, request)
      && Collected(entries).value[(class_, 0)].response == response
  {
    hide Collected;
    CollectedSays(entries, (class_, 0), RecordedObservation(Response, response, hash(request)));
  }

  lemma RestIsHeld(entries: seq<Entry>, observations: Observations)
    requires Collected(entries).Some?
    ensures HoldsRest(entries, observations) <==>
      observations == Collected(entries).value - {(Environment, 0), (Clock, 0)}
  {
    hide Collected;
    var rest := Collected(entries).value - {(Environment, 0), (Clock, 0)};
    forall key, observation
      ensures (key in rest && rest[key] == observation) <==>
        (Entry(key, observation) in entries && key != (Environment, 0) && key != (Clock, 0))
    {
      CollectedSays(entries, key, observation);
    }
    if HoldsRest(entries, observations) {
      forall key
        ensures key in observations <==> key in rest
        ensures key in observations ==> observations[key] == rest[key]
      {
        if key in observations {
          assert Entry(key, observations[key]) in entries;
        }
        if key in rest {
          assert Entry(key, rest[key]) in entries;
        }
      }
    }
  }

  /** Resolving accepts exactly the sources whose parts say such a replay, and returns that replay. */
  lemma ReplayIsMeant(parsers: Parsers, source: ReplaySource, read: Reader, replay: Replay)
    ensures ResolvedReplay(parsers, source, read) == Some(replay) <==>
      exists entries :: Meant(parsers, source, read, entries, replay)
  {
    if ResolvedReplay(parsers, source, read) == Some(replay) {
      ResolvedIsMeant(parsers, source, read, replay);
    }
    if entries :| Meant(parsers, source, read, entries, replay) {
      MeantIsResolved(parsers, source, read, entries, replay);
    }
  }

  lemma ResolvedIsMeant(parsers: Parsers, source: ReplaySource, read: Reader, replay: Replay)
    requires ResolvedReplay(parsers, source, read) == Some(replay)
    ensures Meant(parsers, source, read, Values(Observed(parsers, source, read)), replay)
  {
    hide AllSaid, NoGap, HoldsRest, BaselineSays, Collected, Contiguous, BaselineOk;
    var entries := Values(Observed(parsers, source, read));
    var all := Collected(entries).value;
    SaidIsObserved(parsers, source, read, entries);
    CollectsApart(entries);
    NoGapIsContiguous(entries);
    RestIsHeld(entries, replay.observations);
    EntryOfBaseline(parsers.hash, entries, Environment, parsers.baselines.processEnvironment);
    EntryOfBaseline(parsers.hash, entries, Clock, parsers.baselines.wallClock);
  }

  lemma EntryOfBaseline(hash: Hash, entries: seq<Entry>, class_: Class, request: Bytes)
    requires Collected(entries).Some? && BaselineOk(hash, Collected(entries).value, class_, request)
    ensures (class_, 0) in Collected(entries).value
    ensures BaselineSays(hash, entries, class_, request, Collected(entries).value[(class_, 0)].response)
  {
    BaselineIsSaid(hash, entries, class_, request, Collected(entries).value[(class_, 0)].response);
  }

  lemma MeantIsResolved(parsers: Parsers, source: ReplaySource, read: Reader, entries: seq<Entry>, replay: Replay)
    requires Meant(parsers, source, read, entries, replay)
    ensures ResolvedReplay(parsers, source, read) == Some(replay)
  {
    hide AllSaid, NoGap, HoldsRest, BaselineSays, Collected, Contiguous;
    SaidIsObserved(parsers, source, read, entries);
    CollectsApart(entries);
    NoGapIsContiguous(entries);
    RestIsHeld(entries, replay.observations);
    var environment :|
      && BaselineSays(parsers.hash, entries, Environment, parsers.baselines.processEnvironment, environment)
      && parsers.environment(environment) == Ok(replay.environment);
    var clock :|
      && BaselineSays(parsers.hash, entries, Clock, parsers.baselines.wallClock, clock)
      && parsers.clock(clock) == Ok(replay.boundaryClock);
    BaselineIsSaid(parsers.hash, entries, Environment, parsers.baselines.processEnvironment, environment);
    BaselineIsSaid(parsers.hash, entries, Clock, parsers.baselines.wallClock, clock);
  }
}
