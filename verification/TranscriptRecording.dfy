/** What a recorder accepts: exactly the lists that stay recordable, whatever calls come between. */
module TranscriptRecording {
  import opened Prelude
  import opened TranscriptPool
  import opened HttpTranscript
  import opened TranscriptReplay

  /** One exchange as the caller hands it in. */
  datatype Pair = Pair(interaction: TranscriptInteraction, request: Bytes, response: Bytes)

  function Total(pairs: seq<Pair>): nat {
    if pairs == [] then 0
    else
      var last := pairs[|pairs| - 1];
      Total(pairs[..|pairs| - 1]) + |last.request| + |last.response|
  }

  predicate Names(pair: Pair, id: ObjectId) {
    id == pair.interaction.requestObjectId || id == pair.interaction.responseObjectId
  }

  /** The pair stands at its position, names two objects and carries the digests of its two sides. */
  predicate InPlace(hash: Hash, k: nat, pair: Pair) {
    && pair.interaction.sequence == k && pair.interaction.sessionPosition == k
    && pair.interaction.requestDigest == hash(pair.request)
    && pair.interaction.responseDigest == hash(pair.response)
    && pair.interaction.requestObjectId != pair.interaction.responseObjectId
    && |pair.request| <= V1.objectBytes && |pair.response| <= V1.objectBytes
  }

  ghost predicate NoSharedName(a: Pair, b: Pair) {
    forall id :: !(Names(a, id) && Names(b, id))
  }

  /** Within both bounds, every pair in its place, and no object named twice. */
  ghost predicate Recordable(hash: Hash, bounds: Bounds, pairs: seq<Pair>) {
    && |pairs| <= bounds.interactions && Total(pairs) <= bounds.bytes
    && (forall k :: 0 <= k < |pairs| ==> InPlace(hash, k, pairs[k]))
    && forall j, k :: 0 <= j < k < |pairs| ==> NoSharedName(pairs[j], pairs[k])
  }

  /** The provider holds these pairs in this order and nothing else. */
  ghost predicate Holds(t: TranscriptState, pairs: seq<Pair>) {
    && t.bytes == Total(pairs)
    && t.interactions == InteractionsOf(pairs)
    && HoldsNames(t.objects, pairs)
    && forall k :: 0 <= k < |pairs| ==> Stores(t.objects, pairs[k])
  }

  /** The names of the objects are those of the pairs. */
  ghost predicate HoldsNames(objects: map<ObjectId, Bytes>, pairs: seq<Pair>) {
    forall id :: id in objects <==> exists k :: 0 <= k < |pairs| && Names(pairs[k], id)
  }

  predicate Stores(objects: map<ObjectId, Bytes>, pair: Pair) {
    && pair.interaction.requestObjectId in objects
    && pair.interaction.responseObjectId in objects
    && objects[pair.interaction.requestObjectId] == pair.request
    && objects[pair.interaction.responseObjectId] == pair.response
  }

  function InteractionsOf(pairs: seq<Pair>): seq<TranscriptInteraction> {
    seq(|pairs|, k requires 0 <= k < |pairs| => pairs[k].interaction)
  }

  function HistoryOf(pairs: seq<Pair>): History {
    seq(|pairs|, k requires 0 <= k < |pairs| => (pairs[k].request, pairs[k].response))
  }

  /** The recording calls for these pairs, all in time. */
  function RecordAll(pairs: seq<Pair>): seq<Call> {
    seq(|pairs|, k requires 0 <= k < |pairs| =>
      Call.Record(false, pairs[k].interaction, pairs[k].request, pairs[k].response))
  }

  // A recorder over lists: it remembers the pairs it accepted, and asks only whether a list is recordable.

  datatype Recorder = Recorder(active: bool, pairs: seq<Pair>)

  ghost function Take(hash: Hash, bounds: Bounds, r: Recorder, call: Call): Recorder {
    match call
    case Record(expired, interaction, request, response) =>
      var longer := r.pairs + [Pair(interaction, request, response)];
      if !r.active || expired then r.(active := false)
      else if Recordable(hash, bounds, longer) then r.(pairs := longer)
      else r
    case Close(_, _, _) => Recorder(false, [])
    case Discard => Recorder(false, [])
  }

  ghost function TakeAll(hash: Hash, bounds: Bounds, r: Recorder, calls: seq<Call>): Recorder
    decreases |calls|
  {
    if calls == [] then r else TakeAll(hash, bounds, Take(hash, bounds, r, calls[0]), calls[1..])
  }

  /** The answer to one recording call, from the pairs held so far alone. */
  ghost predicate AnsweredFrom(hash: Hash, bounds: Bounds, r: Recorder, expired: bool, pair: Pair,
                               answer: Result<Unit>)
  {
    var full := |r.pairs| >= bounds.interactions || Total(r.pairs + [pair]) > bounds.bytes;
    var large := |pair.request| > V1.objectBytes || |pair.response| > V1.objectBytes;
    && (answer.Ok? <==> r.active && !expired && Recordable(hash, bounds, r.pairs + [pair]))
    && (answer == Err(RuntimeQuota) <==> !r.active || expired || full || large)
    && (answer.Err? ==> answer.error in {RuntimeQuota, DependencyTranscriptMismatch})
  }

  ghost predicate Agrees(hash: Hash, bounds: Bounds, s: ProviderState, history: History, r: Recorder) {
    && (s.reservation.Some? <==> r.active)
    && Holds(s.transcript, r.pairs)
    && Recordable(hash, bounds, r.pairs)
    && history == HistoryOf(r.pairs)
  }

  lemma TotalGrows(pairs: seq<Pair>, pair: Pair)
    ensures Total(pairs + [pair]) == Total(pairs) + |pair.request| + |pair.response|
  {
    assert (pairs + [pair])[..|pairs|] == pairs;
  }

  /** One more pair is recordable exactly when it fits, is in its place and names nothing held. */
  lemma OneMore(hash: Hash, bounds: Bounds, pairs: seq<Pair>, pair: Pair)
    requires Recordable(hash, bounds, pairs)
    ensures Recordable(hash, bounds, pairs + [pair]) <==>
      && |pairs| < bounds.interactions && Total(pairs + [pair]) <= bounds.bytes
      && InPlace(hash, |pairs|, pair)
      && forall k :: 0 <= k < |pairs| ==> NoSharedName(pairs[k], pair)
  {
    hide Total, InPlace, NoSharedName;
    var longer := pairs + [pair];
    assert forall k :: 0 <= k < |pairs| ==> longer[k] == pairs[k];
    assert longer[|pairs|] == pair;
  }

  lemma NamesNothingHeld(objects: map<ObjectId, Bytes>, pairs: seq<Pair>, pair: Pair)
    requires HoldsNames(objects, pairs)
    ensures (forall k :: 0 <= k < |pairs| ==> NoSharedName(pairs[k], pair)) <==>
      pair.interaction.requestObjectId !in objects && pair.interaction.responseObjectId !in objects
  {
    var request, response := pair.interaction.requestObjectId, pair.interaction.responseObjectId;
    assert Names(pair, request) && Names(pair, response);
    if forall k :: 0 <= k < |pairs| ==> NoSharedName(pairs[k], pair) {
      assert forall k :: 0 <= k < |pairs| ==> !Names(pairs[k], request) && !Names(pairs[k], response);
    } else {
      var k :| 0 <= k < |pairs| && !NoSharedName(pairs[k], pair);
      var id :| Names(pairs[k], id) && Names(pair, id);
      assert id in objects;
    }
  }

  function Storing(objects: map<ObjectId, Bytes>, pair: Pair): map<ObjectId, Bytes> {
    objects[pair.interaction.requestObjectId := pair.request][pair.interaction.responseObjectId := pair.response]
  }

  lemma HoldsNamesMore(objects: map<ObjectId, Bytes>, pairs: seq<Pair>, pair: Pair)
    requires HoldsNames(objects, pairs)
    ensures HoldsNames(Storing(objects, pair), pairs + [pair])
  {
    var longer := pairs + [pair];
    forall id
      ensures id in Storing(objects, pair) <==> exists k :: 0 <= k < |longer| && Names(longer[k], id)
    {
      assert id in Storing(objects, pair) <==> id in objects || Names(pair, id);
      if id in objects {
        var k :| 0 <= k < |pairs| && Names(pairs[k], id);
        assert Names(longer[k], id);
      }
      assert longer[|pairs|] == pair;
      if k :| 0 <= k < |longer| && Names(longer[k], id) {
        assert k < |pairs| ==> Names(pairs[k], id);
      }
    }
  }

  lemma StoresMore(objects: map<ObjectId, Bytes>, held: Pair, pair: Pair)
    requires Stores(objects, held)
    requires pair.interaction.requestObjectId !in objects && pair.interaction.responseObjectId !in objects
    ensures Stores(Storing(objects, pair), held)
  {
  }

  lemma StoresAllMore(objects: map<ObjectId, Bytes>, pairs: seq<Pair>, pair: Pair)
    requires pair.interaction.requestObjectId != pair.interaction.responseObjectId
    requires pair.interaction.requestObjectId !in objects && pair.interaction.responseObjectId !in objects
    requires forall k :: 0 <= k < |pairs| ==> Stores(objects, pairs[k])
    ensures forall k :: 0 <= k < |pairs + [pair]| ==> Stores(Storing(objects, pair), (pairs + [pair])[k])
  {
    assert Stores(Storing(objects, pair), pair);
    forall k | 0 <= k < |pairs|
      ensures Stores(Storing(objects, pair), (pairs + [pair])[k])
    {
      StoresMore(objects, pairs[k], pair);
    }
  }

  lemma HoldsOneMore(t: TranscriptState, pairs: seq<Pair>, pair: Pair)
    requires Holds(t, pairs)
    requires pair.interaction.requestObjectId != pair.interaction.responseObjectId
    requires pair.interaction.requestObjectId !in t.objects && pair.interaction.responseObjectId !in t.objects
    ensures Holds(
      TranscriptState(t.bytes + |pair.request| + |pair.response|, t.interactions + [pair.interaction],
                      Storing(t.objects, pair)),
      pairs + [pair])
  {
    hide HoldsNames, Total, Storing, Stores;
    TotalGrows(pairs, pair);
    assert InteractionsOf(pairs + [pair]) == InteractionsOf(pairs) + [pair.interaction];
    HoldsNamesMore(t.objects, pairs, pair);
    StoresAllMore(t.objects, pairs, pair);
  }

  lemma RecordAgrees(hash: Hash, bounds: Bounds, s: ProviderState, history: History, r: Recorder, expired: bool,
                     pair: Pair)
    requires bounds.interactions <= MAX_TRANSCRIPT_INTERACTIONS && Agrees(hash, bounds, s, history, r)
    ensures
      var call := Call.Record(expired, pair.interaction, pair.request, pair.response);
      var (after, outcome) := Step(hash, bounds, s, call);
      && Agrees(hash, bounds, after, Remember(history, call, outcome), Take(hash, bounds, r, call))
      && outcome.Recorded? && AnsweredFrom(hash, bounds, r, expired, pair, outcome.recorded)
  {
    hide Recordable, Holds, HoldsNames, Total, NoSharedName;
    HoldsSizes(hash, bounds, s.transcript, r.pairs);
    TotalGrows(r.pairs, pair);
    OneMore(hash, bounds, r.pairs, pair);
    NamesNothingHeld(s.transcript.objects, r.pairs, pair);
    if RecordStep(hash, bounds, s.transcript, pair.interaction, pair.request, pair.response).Ok? {
      HoldsOneMore(s.transcript, r.pairs, pair);
    }
  }

  lemma HoldsSizes(hash: Hash, bounds: Bounds, t: TranscriptState, pairs: seq<Pair>)
    requires Holds(t, pairs) && Recordable(hash, bounds, pairs)
    ensures HoldsNames(t.objects, pairs)
    ensures |t.interactions| == |pairs| <= bounds.interactions && t.bytes == Total(pairs)
  {
  }

  /** Over any calls the provider holds what the recorder over lists accepted, and nothing else. */
  lemma {:induction false} RecordingRefines(hash: Hash, bounds: Bounds, s: ProviderState, history: History, r: Recorder,
                                            calls: seq<Call>)
    requires bounds.interactions <= MAX_TRANSCRIPT_INTERACTIONS && Agrees(hash, bounds, s, history, r)
    ensures
      var (after, remembered) := TranscriptReplay.Record(hash, bounds, s, history, calls);
      Agrees(hash, bounds, after, remembered, TakeAll(hash, bounds, r, calls))
    decreases |calls|
  {
    hide Agrees;
    if calls != [] {
      StepAgrees(hash, bounds, s, history, r, calls[0]);
      var (after, outcome) := Step(hash, bounds, s, calls[0]);
      RecordingRefines(hash, bounds, after, Remember(history, calls[0], outcome), Take(hash, bounds, r, calls[0]),
                       calls[1..]);
    }
  }

  lemma ClearedAgrees(hash: Hash, bounds: Bounds, reservation: Option<nat>)
    ensures Agrees(hash, bounds, ProviderState(reservation, CLEARED), [], Recorder(reservation.Some?, []))
  {
  }

  lemma StepAgrees(hash: Hash, bounds: Bounds, s: ProviderState, history: History, r: Recorder, call: Call)
    requires bounds.interactions <= MAX_TRANSCRIPT_INTERACTIONS && Agrees(hash, bounds, s, history, r)
    ensures
      var (after, outcome) := Step(hash, bounds, s, call);
      Agrees(hash, bounds, after, Remember(history, call, outcome), Take(hash, bounds, r, call))
  {
    match call
    case Record(expired, interaction, request, response) =>
      hide Agrees, Take;
      RecordAgrees(hash, bounds, s, history, r, expired, Pair(interaction, request, response));
    case Close(_, _, _) =>
      hide Agrees;
      ClearedAgrees(hash, bounds, None);
    case Discard =>
      hide Agrees;
      ClearedAgrees(hash, bounds, None);
  }

  /** Calls that record a recordable list are all accepted. */
  lemma {:induction false} RecordableIsTaken(hash: Hash, bounds: Bounds, pairs: seq<Pair>, n: nat)
    requires Recordable(hash, bounds, pairs) && n <= |pairs|
    ensures TakeAll(hash, bounds, Recorder(true, pairs[..n]), RecordAll(pairs[n..])) == Recorder(true, pairs)
    decreases |pairs| - n
  {
    hide Recordable;
    if n == |pairs| {
      assert pairs[..n] == pairs;
    } else {
      PrefixRecordable(hash, bounds, pairs, n + 1);
      var calls := RecordAll(pairs[n..]);
      assert pairs[..n + 1] == pairs[..n] + [Pair(pairs[n].interaction, pairs[n].request, pairs[n].response)];
      assert Take(hash, bounds, Recorder(true, pairs[..n]), calls[0]) == Recorder(true, pairs[..n + 1]);
      assert calls[1..] == RecordAll(pairs[n + 1..]);
      RecordableIsTaken(hash, bounds, pairs, n + 1);
    }
  }

  lemma {:induction false} PrefixTotal(pairs: seq<Pair>, n: nat)
    requires n <= |pairs|
    ensures Total(pairs[..n]) <= Total(pairs)
    decreases |pairs|
  {
    if n < |pairs| {
      var init := pairs[..|pairs| - 1];
      PrefixTotal(init, n);
      assert init[..n] == pairs[..n];
    } else {
      assert pairs[..n] == pairs;
    }
  }

  lemma PrefixRecordable(hash: Hash, bounds: Bounds, pairs: seq<Pair>, n: nat)
    requires Recordable(hash, bounds, pairs) && n <= |pairs|
    ensures Recordable(hash, bounds, pairs[..n])
  {
    PrefixTotal(pairs, n);
  }

  /** A recorder never holds more than what it was given in time. */
  lemma {:induction false} TakenAtMost(hash: Hash, bounds: Bounds, r: Recorder, pairs: seq<Pair>)
    ensures
      var after := TakeAll(hash, bounds, r, RecordAll(pairs));
      && |after.pairs| <= |r.pairs| + |pairs|
      && (|after.pairs| == |r.pairs| + |pairs| ==> after.pairs == r.pairs + pairs)
    decreases |pairs|
  {
    hide Recordable;
    if pairs != [] {
      var calls := RecordAll(pairs);
      assert calls[1..] == RecordAll(pairs[1..]);
      assert pairs[0] == Pair(pairs[0].interaction, pairs[0].request, pairs[0].response);
      TakenAtMost(hash, bounds, Take(hash, bounds, r, calls[0]), pairs[1..]);
      assert pairs == [pairs[0]] + pairs[1..];
      assert r.pairs + [pairs[0]] + pairs[1..] == r.pairs + pairs;
    }
  }

  /** A list is recorded in full on an opened provider exactly when it is recordable; then that is what it holds. */
  lemma RecordsExactly(hash: Hash, bounds: Bounds, pairs: seq<Pair>)
    requires ValidBounds(bounds.interactions, bounds.bytes)
    ensures
      var (s, history) := TranscriptReplay.Record(hash, bounds, Opened(bounds), [], RecordAll(pairs));
      && (history == HistoryOf(pairs) <==> Recordable(hash, bounds, pairs))
      && (Recordable(hash, bounds, pairs) ==> s.reservation.Some? && Holds(s.transcript, pairs))
  {
    var calls := RecordAll(pairs);
    ClearedAgrees(hash, bounds, Some(bounds.bytes));
    RecordingRefines(hash, bounds, Opened(bounds), [], Recorder(true, []), calls);
    TakenAtMost(hash, bounds, Recorder(true, []), pairs);
    var (s, history) := TranscriptReplay.Record(hash, bounds, Opened(bounds), [], calls);
    var after := TakeAll(hash, bounds, Recorder(true, []), calls);
    assert [] + pairs == pairs;
    if Recordable(hash, bounds, pairs) {
      RecordableIsTaken(hash, bounds, pairs, 0);
      assert pairs[0..] == pairs;
    }
    if history == HistoryOf(pairs) {
      assert |after.pairs| == |HistoryOf(after.pairs)| == |pairs|;
    }
  }

  predicate AllBelong(operationId: OperationId, pairs: seq<Pair>) {
    forall k :: 0 <= k < |pairs| ==>
      pairs[k].interaction.operationId == operationId || pairs[k].interaction.causalParentId == Some(operationId)
  }

  /**
   * A recordable list of one operation, recorded on an opened provider, closes
   * and replays: asking for its requests in order gives its responses in order
   * and finishes.
   */
  lemma RecordedListReplays(hash: Hash, bounds: Bounds, pairs: seq<Pair>, operationId: OperationId)
    requires ValidBounds(bounds.interactions, bounds.bytes)
    requires pairs != [] && Recordable(hash, bounds, pairs) && AllBelong(operationId, pairs)
    ensures
      var s := TranscriptReplay.Record(hash, bounds, Opened(bounds), [], RecordAll(pairs)).0;
      var closed := Step(hash, bounds, s, Call.Close(false, false, operationId)).1;
      && closed.Closed? && closed.closed.Ok?
      && ValidTranscript(hash, operationId, closed.closed.value)
      && ReplaysAs(hash, operationId, closed.closed.value, HistoryOf(pairs))
  {
    hide Recordable, Holds, ValidTranscript, ReplaysAs, RecordAll;
    var calls := RecordAll(pairs);
    var close := Call.Close(false, false, operationId);
    RecordsExactly(hash, bounds, pairs);
    RecordCloseReplay(hash, bounds, calls, close);
    var s := TranscriptReplay.Record(hash, bounds, Opened(bounds), [], calls).0;
    AllBelongAllCaused(s.transcript, pairs, operationId);
    hide TranscriptReplay.Record, AllCaused, AllBelong;
    assert |HistoryOf(pairs)| > 0;
  }

  lemma AllBelongAllCaused(t: TranscriptState, pairs: seq<Pair>, operationId: OperationId)
    requires Holds(t, pairs) && AllBelong(operationId, pairs)
    ensures AllCaused(operationId, t.interactions)
  {
    hide HoldsNames, Stores, Total;
  }
}
