/** The fail-stop replay cursor, and what recording, closing and replaying keep. */
module TranscriptReplay {
  import opened Prelude
  import opened MapSums
  import opened TranscriptPool
  import opened HttpTranscript

  datatype Asked = Asked(operationId: OperationId, request: Bytes)

  datatype Cursor = Cursor(failed: bool, next: nat)

  const FIRST := Cursor(false, 0)

  function ExchangeStep(
    hash: Hash, operationId: OperationId, t: ClosedDependencyTranscript, c: Cursor,
    call: Asked): (Cursor, Result<Bytes>)
  {
    var rejected := (c.(failed := true), Err(DependencyTranscriptMismatch));
    if c.failed || call.operationId != operationId || c.next >= |t.interactions| then rejected
    else
      var interaction := t.interactions[c.next];
      if interaction.requestObjectId !in t.objects || t.objects[interaction.requestObjectId] != call.request
        || interaction.requestDigest != hash(call.request)
      then rejected
      else if interaction.responseObjectId !in t.objects then (c, Err(DependencyTranscriptMismatch))
      else (c.(next := c.next + 1), Ok(t.objects[interaction.responseObjectId]))
  }

  predicate Finishes(t: ClosedDependencyTranscript, c: Cursor) {
    !c.failed && c.next == |t.interactions|
  }

  class HttpTranscriptReplay {
    const hash: Hash
    const operationId: OperationId
    const transcript: ClosedDependencyTranscript
    var failed: bool
    var nextInteraction: nat

    constructor (hash: Hash, operationId: OperationId, transcript: ClosedDependencyTranscript)
      requires ValidTranscript(hash, operationId, transcript)
      ensures this.hash == hash && this.operationId == operationId && this.transcript == transcript
      ensures View() == FIRST
    {
      this.hash := hash;
      this.operationId := operationId;
      this.transcript := transcript;
      failed := false;
      nextInteraction := 0;
    }

    /** Refuses every transcript that does not validate. */
    static method New(hash: Hash, operationId: OperationId, transcript: ClosedDependencyTranscript)
      returns (r: Result<HttpTranscriptReplay>)
      ensures r.Ok? <==> ValidTranscript(hash, operationId, transcript)
      ensures
        r.Ok? ==>
          && fresh(r.value) && r.value.hash == hash && r.value.operationId == operationId
          && r.value.transcript == transcript && r.value.View() == FIRST
    {
      var validated := ValidateTranscript(hash, operationId, transcript);
      if validated.Err? {
        return Err(validated.error);
      }
      var replay := new HttpTranscriptReplay(hash, operationId, transcript);
      return Ok(replay);
    }

    function View(): Cursor
      reads this
    {
      Cursor(failed, nextInteraction)
    }

    method Reject() returns (r: Result<Bytes>)
      modifies this
      ensures View() == old(View()).(failed := true) && r == Err(DependencyTranscriptMismatch)
    {
      failed := true;
      return Err(DependencyTranscriptMismatch);
    }

    method Exchange(operationId: OperationId, request: Bytes) returns (r: Result<Bytes>)
      modifies this
      ensures
        (View(), r) ==
        ExchangeStep(hash, this.operationId, transcript, old(View()), Asked(operationId, request))
    {
      if failed || operationId != this.operationId || nextInteraction >= |transcript.interactions| {
        r := Reject();
        return;
      }
      var interaction := transcript.interactions[nextInteraction];
      var requestMatches := interaction.requestObjectId in transcript.objects
        && transcript.objects[interaction.requestObjectId] == request
        && interaction.requestDigest == hash(request);
      if !requestMatches {
        r := Reject();
        return;
      }
      if interaction.responseObjectId !in transcript.objects {
        return Err(DependencyTranscriptMismatch);
      }
      nextInteraction := nextInteraction + 1;
      return Ok(transcript.objects[interaction.responseObjectId]);
    }

    method Finish() returns (r: Result<Unit>)
      ensures r.Ok? <==> Finishes(transcript, View())
    {
      if failed || nextInteraction != |transcript.interactions| {
        return Err(DependencyTranscriptMismatch);
      }
      return Ok(Unit.Unit);
    }
  }

  // Whole replays.

  function Replay(
    hash: Hash, operationId: OperationId, t: ClosedDependencyTranscript, c: Cursor, calls: seq<Asked>): Cursor
    decreases |calls|
  {
    if calls == [] then c
    else Replay(hash, operationId, t, ExchangeStep(hash, operationId, t, c, calls[0]).0, calls[1..])
  }

  function Responses(
    hash: Hash, operationId: OperationId, t: ClosedDependencyTranscript, c: Cursor, calls: seq<Asked>)
    : (responses: seq<Result<Bytes>>)
    ensures |responses| == |calls|
    decreases |calls|
  {
    if calls == [] then []
    else
      var (after, response) := ExchangeStep(hash, operationId, t, c, calls[0]);
      [response] + Responses(hash, operationId, t, after, calls[1..])
  }

  function ObjectOf(t: ClosedDependencyTranscript, id: ObjectId): Bytes {
    if id in t.objects then t.objects[id] else []
  }

  /** The calls a transcript expects: its requests in order, for its own operation. */
  function Script(operationId: OperationId, t: ClosedDependencyTranscript): (script: seq<Asked>)
    ensures |script| == |t.interactions|
  {
    seq(|t.interactions|, k requires 0 <= k < |t.interactions| =>
      Asked(operationId, ObjectOf(t, t.interactions[k].requestObjectId)))
  }

  /** Its responses in order. */
  function Answers(t: ClosedDependencyTranscript): (answers: seq<Result<Bytes>>)
    ensures |answers| == |t.interactions|
  {
    seq(|t.interactions|, k requires 0 <= k < |t.interactions| => Ok(ObjectOf(t, t.interactions[k].responseObjectId)))
  }

  /**
   * When every interaction's objects are present, as validation ensures, a
   * call either is the next scripted one or fails for good.
   */
  lemma ExchangeCases(
    hash: Hash, operationId: OperationId, t: ClosedDependencyTranscript, c: Cursor, call: Asked)
    requires AllPlaced(hash, t.interactions, t.objects)
    ensures
      var (after, response) := ExchangeStep(hash, operationId, t, c, call);
      if !c.failed && c.next < |t.interactions| && call == Script(operationId, t)[c.next]
      then after == Cursor(false, c.next + 1) && response == Answers(t)[c.next]
      else after == c.(failed := true) && response.Err?
  {
    if c.next < |t.interactions| {
      assert Placed(hash, c.next, t.interactions[c.next], t.objects);
    }
  }

  lemma {:induction false} FailedStaysFailed(
    hash: Hash, operationId: OperationId, t: ClosedDependencyTranscript, c: Cursor, calls: seq<Asked>)
    requires c.failed
    ensures Replay(hash, operationId, t, c, calls).failed
    ensures forall k :: 0 <= k < |calls| ==> Responses(hash, operationId, t, c, calls)[k].Err?
    decreases |calls|
  {
    if calls != [] {
      FailedStaysFailed(hash, operationId, t, ExchangeStep(hash, operationId, t, c, calls[0]).0, calls[1..]);
    }
  }

  lemma {:induction false} FinishFrom(
    hash: Hash, operationId: OperationId, t: ClosedDependencyTranscript, c: Cursor, calls: seq<Asked>)
    requires AllPlaced(hash, t.interactions, t.objects) && !c.failed && c.next <= |t.interactions|
    ensures Finishes(t, Replay(hash, operationId, t, c, calls)) <==> calls == Script(operationId, t)[c.next..]
    decreases |calls|
  {
    var script := Script(operationId, t);
    if calls != [] {
      ExchangeCases(hash, operationId, t, c, calls[0]);
      var after := ExchangeStep(hash, operationId, t, c, calls[0]).0;
      if after.failed {
        FailedStaysFailed(hash, operationId, t, after, calls[1..]);
      } else {
        FinishFrom(hash, operationId, t, after, calls[1..]);
        assert script[c.next..] == [script[c.next]] + script[after.next..];
        assert calls == [calls[0]] + calls[1..];
      }
    }
  }

  /** `finish` accepts exactly the runs that asked for the recorded requests, all of them, in order. */
  lemma FinishIsExact(hash: Hash, operationId: OperationId, t: ClosedDependencyTranscript, calls: seq<Asked>)
    requires AllPlaced(hash, t.interactions, t.objects)
    ensures Finishes(t, Replay(hash, operationId, t, FIRST, calls)) <==> calls == Script(operationId, t)
  {
    FinishFrom(hash, operationId, t, FIRST, calls);
  }

  /** After any refused call every later call is refused and `finish` fails. */
  lemma {:induction false} RefusalIsFinal(
    hash: Hash, operationId: OperationId, t: ClosedDependencyTranscript, c: Cursor, calls: seq<Asked>, k: nat)
    requires AllPlaced(hash, t.interactions, t.objects) && k < |calls|
    requires Responses(hash, operationId, t, c, calls)[k].Err?
    ensures forall j :: k <= j < |calls| ==> Responses(hash, operationId, t, c, calls)[j].Err?
    ensures !Finishes(t, Replay(hash, operationId, t, c, calls))
    decreases |calls|
  {
    ExchangeCases(hash, operationId, t, c, calls[0]);
    var after := ExchangeStep(hash, operationId, t, c, calls[0]).0;
    if k == 0 {
      FailedStaysFailed(hash, operationId, t, after, calls[1..]);
    } else {
      RefusalIsFinal(hash, operationId, t, after, calls[1..], k - 1);
    }
  }

  /** A run that asks as scripted, up to any point, is answered as recorded up to that point. */
  lemma {:induction false} AnsweredAsRecorded(
    hash: Hash, operationId: OperationId, t: ClosedDependencyTranscript, c: Cursor, calls: seq<Asked>)
    requires AllPlaced(hash, t.interactions, t.objects) && !c.failed && c.next <= |t.interactions|
    requires calls <= Script(operationId, t)[c.next..]
    ensures Responses(hash, operationId, t, c, calls) <= Answers(t)[c.next..]
    decreases |calls|
  {
    if calls != [] {
      var script, answers := Script(operationId, t), Answers(t);
      assert script[c.next..][0] == script[c.next] == calls[0];
      ExchangeCases(hash, operationId, t, c, calls[0]);
      var (after, response) := ExchangeStep(hash, operationId, t, c, calls[0]);
      assert script[after.next..] == script[c.next..][1..];
      AnsweredAsRecorded(hash, operationId, t, after, calls[1..]);
      assert answers[c.next..] == [response] + answers[after.next..];
    }
  }

  // Whole recordings.

  type History = seq<(Bytes, Bytes)>

  /** What a caller believes is recorded: the accepted pairs since the provider was last emptied. */
  function Remember(history: History, call: Call, outcome: Outcome): History {
    if call.Record? then
      if outcome == Recorded(Ok(Unit.Unit)) then history + [(call.request, call.response)] else history
    else []
  }

  function Record(hash: Hash, bounds: Bounds, s: ProviderState, history: History, calls: seq<Call>)
    : (ProviderState, History)
    decreases |calls|
  {
    if calls == [] then (s, history)
    else
      var (after, outcome) := Step(hash, bounds, s, calls[0]);
      Record(hash, bounds, after, Remember(history, calls[0], outcome), calls[1..])
  }

  /** What the recorder keeps between calls. */
  ghost predicate Faithful(hash: Hash, bounds: Bounds, state: TranscriptState, history: History) {
    && |state.interactions| == |history| <= bounds.interactions
    && state.bytes == Sum(state.objects, Length) <= bounds.bytes
    && AllPlaced(hash, state.interactions, state.objects)
    && NamesApart(state.interactions)
    && state.objects.Keys == AllIds(state.interactions)
    && (forall id :: id in state.objects ==> |state.objects[id]| <= V1.objectBytes)
    && Remembered(state, history)
  }

  predicate Remembered(state: TranscriptState, history: History) {
    && |state.interactions| == |history|
    && forall k :: 0 <= k < |history| ==>
         && state.interactions[k].requestObjectId in state.objects
         && state.interactions[k].responseObjectId in state.objects
         && history[k] == (state.objects[state.interactions[k].requestObjectId],
                           state.objects[state.interactions[k].responseObjectId])
  }

  lemma RecordKeepsNames(
    hash: Hash, bounds: Bounds, state: TranscriptState, i: TranscriptInteraction, request: Bytes, response: Bytes)
    requires NamesApart(state.interactions) && state.objects.Keys == AllIds(state.interactions)
    requires RecordStep(hash, bounds, state, i, request, response).Ok?
    ensures
      var after := RecordStep(hash, bounds, state, i, request, response).value;
      NamesApart(after.interactions) && after.objects.Keys == AllIds(after.interactions)
  {
    NamesGrow(state.interactions, i);
  }

  lemma RecordKeepsBytes(
    hash: Hash, bounds: Bounds, state: TranscriptState, i: TranscriptInteraction, request: Bytes, response: Bytes)
    requires state.bytes == Sum(state.objects, Length)
    requires RecordStep(hash, bounds, state, i, request, response).Ok?
    ensures
      var after := RecordStep(hash, bounds, state, i, request, response).value;
      after.bytes == Sum(after.objects, Length) <= bounds.bytes
  {
    SumInsert(state.objects, i.requestObjectId, request, Length);
    SumInsert(state.objects[i.requestObjectId := request], i.responseObjectId, response, Length);
  }

  lemma RecordKeepsObjects(
    hash: Hash, bounds: Bounds, state: TranscriptState, history: History, i: TranscriptInteraction, request: Bytes,
    response: Bytes)
    requires Faithful(hash, bounds, state, history)
    requires RecordStep(hash, bounds, state, i, request, response).Ok?
    ensures
      var after := RecordStep(hash, bounds, state, i, request, response).value;
      && AllPlaced(hash, after.interactions, after.objects)
      && Remembered(after, history + [(request, response)])
      && forall id :: id in after.objects ==> |after.objects[id]| <= V1.objectBytes
  {
    var after := RecordStep(hash, bounds, state, i, request, response).value;
    forall k | 0 <= k < |after.interactions|
      ensures Placed(hash, k, after.interactions[k], after.objects)
    {
      if k < |state.interactions| {
        assert Placed(hash, k, state.interactions[k], state.objects);
      }
    }
  }

  lemma StepKeepsFaithful(hash: Hash, bounds: Bounds, s: ProviderState, history: History, call: Call)
    requires Faithful(hash, bounds, s.transcript, history)
    ensures
      var (after, outcome) := Step(hash, bounds, s, call);
      Faithful(hash, bounds, after.transcript, Remember(history, call, outcome))
  {
    SumEmpty<ObjectId, Bytes>(Length);
    if call.Record? && s.reservation.Some? && !call.expired
      && RecordStep(hash, bounds, s.transcript, call.interaction, call.request, call.response).Ok?
    {
      RecordKeepsNames(hash, bounds, s.transcript, call.interaction, call.request, call.response);
      RecordKeepsBytes(hash, bounds, s.transcript, call.interaction, call.request, call.response);
      RecordKeepsObjects(hash, bounds, s.transcript, history, call.interaction, call.request, call.response);
    }
  }

  lemma {:induction false} RecordingIsFaithful(
    hash: Hash, bounds: Bounds, s: ProviderState, history: History, calls: seq<Call>)
    requires Faithful(hash, bounds, s.transcript, history)
    ensures
      var (after, remembered) := Record(hash, bounds, s, history, calls);
      Faithful(hash, bounds, after.transcript, remembered)
    decreases |calls|
  {
    if calls != [] {
      var (after, outcome) := Step(hash, bounds, s, calls[0]);
      StepKeepsFaithful(hash, bounds, s, history, calls[0]);
      RecordingIsFaithful(hash, bounds, after, Remember(history, calls[0], outcome), calls[1..]);
    }
  }

  lemma StartIsFaithful(hash: Hash, bounds: Bounds)
    ensures Faithful(hash, bounds, CLEARED, [])
  {
    SumEmpty<ObjectId, Bytes>(Length);
  }

  lemma FaithfulCloses(hash: Hash, bounds: Bounds, state: TranscriptState, history: History, operationId: OperationId)
    requires ValidBounds(bounds.interactions, bounds.bytes) && Faithful(hash, bounds, state, history)
    ensures
      Verified(hash, operationId, state.interactions, state.objects) <==>
        history != [] && AllCaused(operationId, state.interactions)
    ensures
      Verified(hash, operationId, state.interactions, state.objects) ==>
        ValidTranscript(hash, operationId, ClosedDependencyTranscript(state.interactions, state.objects))
  {
  }

  lemma VerifiedCloses(hash: Hash, s: ProviderState, history: History, close: Call)
    requires close.Close? && |history| == |s.transcript.interactions| <= MAX_TRANSCRIPT_INTERACTIONS
    requires
      Verified(hash, close.operationId, s.transcript.interactions, s.transcript.objects) <==>
        history != [] && AllCaused(close.operationId, s.transcript.interactions)
    ensures ClosesWhen(hash, s, history, close)
  {
  }

  lemma VerifiedReplays(hash: Hash, s: ProviderState, history: History, close: Call)
    requires close.Close? && Remembered(s.transcript, history)
    requires
      Verified(hash, close.operationId, s.transcript.interactions, s.transcript.objects) ==>
        ValidTranscript(
          hash, close.operationId, ClosedDependencyTranscript(s.transcript.interactions, s.transcript.objects))
    ensures ClosedReplays(hash, s, history, close)
  {
    RememberedIsScripted(close.operationId, s.transcript, history);
    var closed := CloseCall(hash, s, close).1.closed;
    if closed.Ok? {
      FaithfulScript(hash, close.operationId, closed.value, history);
    }
  }

  lemma FaithfulCloseCall(hash: Hash, bounds: Bounds, s: ProviderState, history: History, close: Call)
    requires ValidBounds(bounds.interactions, bounds.bytes) && close.Close?
    requires Faithful(hash, bounds, s.transcript, history)
    ensures ClosesWhen(hash, s, history, close) && ClosedReplays(hash, s, history, close)
  {
    FaithfulCloses(hash, bounds, s.transcript, history, close.operationId);
    VerifiedCloses(hash, s, history, close);
    VerifiedReplays(hash, s, history, close);
  }

  lemma FaithfulScript(hash: Hash, operationId: OperationId, t: ClosedDependencyTranscript, history: History)
    requires AllPlaced(hash, t.interactions, t.objects)
    requires RequestsOf(operationId, history) == Script(operationId, t) && ResponsesOf(history) == Answers(t)
    ensures ReplaysAs(hash, operationId, t, history)
  {
    FinishIsExact(hash, operationId, t, Script(operationId, t));
    AnsweredAsRecorded(hash, operationId, t, FIRST, Script(operationId, t));
    assert Answers(t)[0..] == Answers(t) && Script(operationId, t)[0..] == Script(operationId, t);
  }

  /**
   * `close` succeeds exactly when the pool has a close slot, the lifetime has
   * not passed, something is recorded and every recorded interaction belongs
   * to the operation: nothing that `record` accepted is refused for any other
   * reason.
   */
  predicate ClosesWhen(hash: Hash, s: ProviderState, history: History, close: Call)
    requires close.Close?
  {
    CloseCall(hash, s, close).1.closed.Ok? <==>
      !close.full && !close.expired && history != [] && AllCaused(close.operationId, s.transcript.interactions)
  }

  /** What `close` returns validates, and replaying what was recorded answers what was recorded. */
  ghost predicate ClosedReplays(hash: Hash, s: ProviderState, history: History, close: Call)
    requires close.Close?
  {
    var closed := CloseCall(hash, s, close).1.closed;
    closed.Ok? ==>
      ValidTranscript(hash, close.operationId, closed.value)
        && ReplaysAs(hash, close.operationId, closed.value, history)
  }

  function Opened(bounds: Bounds): ProviderState {
    ProviderState(Some(bounds.bytes), CLEARED)
  }

  lemma OpenedRecordsFaithfully(hash: Hash, bounds: Bounds, calls: seq<Call>)
    ensures
      var (s, history) := Record(hash, bounds, Opened(bounds), [], calls);
      Faithful(hash, bounds, s.transcript, history)
  {
    StartIsFaithful(hash, bounds);
    RecordingIsFaithful(hash, bounds, Opened(bounds), [], calls);
  }

  function RequestsOf(operationId: OperationId, history: History): seq<Asked> {
    seq(|history|, k requires 0 <= k < |history| => Asked(operationId, history[k].0))
  }

  function ResponsesOf(history: History): seq<Result<Bytes>> {
    seq(|history|, k requires 0 <= k < |history| => Ok(history[k].1))
  }

  lemma RememberedIsScripted(operationId: OperationId, state: TranscriptState, history: History)
    requires Remembered(state, history)
    ensures
      var t := ClosedDependencyTranscript(state.interactions, state.objects);
      RequestsOf(operationId, history) == Script(operationId, t) && ResponsesOf(history) == Answers(t)
  {
  }

  /** Asking as recorded finishes and gives back the recorded responses. */
  predicate ReplaysAs(hash: Hash, operationId: OperationId, t: ClosedDependencyTranscript, history: History) {
    && Finishes(t, Replay(hash, operationId, t, FIRST, RequestsOf(operationId, history)))
    && Responses(hash, operationId, t, FIRST, RequestsOf(operationId, history)) == ResponsesOf(history)
  }

  /** Recording, closing and replaying, for every sequence of calls on an opened provider. */
  lemma RecordCloseReplay(hash: Hash, bounds: Bounds, calls: seq<Call>, close: Call)
    requires ValidBounds(bounds.interactions, bounds.bytes) && close.Close?
    ensures
      var (s, history) := Record(hash, bounds, Opened(bounds), [], calls);
      ClosesWhen(hash, s, history, close) && ClosedReplays(hash, s, history, close)
  {
    var (s, history) := Record(hash, bounds, Opened(bounds), [], calls);
    OpenedRecordsFaithfully(hash, bounds, calls);
    FaithfulCloseCall(hash, bounds, s, history, close);
  }
}
