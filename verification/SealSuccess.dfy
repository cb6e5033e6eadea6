/** When sealing succeeds: the exact condition on the request and on the draws. */
module SealSuccess {
  import opened Prelude
  import opened Folds
  import opened Capsule
  import opened ProcessorNames
  import opened SealModel
  import opened SealNonces
  import opened Sealing
  import opened SealBatch

  /**
   * What the results here need of the libraries: the cipher accepts every
   * chunk and adds its tag, no two byte strings share a digest, and a nonce is
   * written as sixteen URL-safe characters that give it back.
   */
  ghost predicate WellBehaved(suite: Suite) {
    && (forall key, nonce, plaintext, context ::
          && suite.aeadSeal(key, nonce, plaintext, context).Some?
          && |suite.aeadSeal(key, nonce, plaintext, context).value| == |plaintext| + 16)
    && CollisionFree(suite.hash)
    && (forall nonce: Nonce :: NonceText(suite.encodeNonce(nonce)))
    && (forall a: Nonce, b: Nonce :: suite.encodeNonce(a) == suite.encodeNonce(b) ==> a == b)
  }

  predicate NonceText(text: string) {
    && |text| == 16
    && forall i :: 0 <= i < |text| ==>
         IsLower(text[i]) || IsUpper(text[i]) || IsDigit(text[i]) || text[i] == '_' || text[i] == '-'
  }

  // One object.

  /** The cipher never refuses an object within the limits. */
  lemma CipherNeverRefuses(suite: Suite, request: SealRequest, descriptor: LogicalObject, bytes: Bytes,
                           stream: NonceStream, from: nat, used: set<Nonce>)
    requires WellBehaved(suite)
    ensures
      ObjectEncrypts(suite, request, descriptor, bytes, stream, from, used) <==>
        Encryptable(suite, descriptor, bytes) && FreshFor(stream, from, ChunkCount(|bytes|), used)
  {
    ChunksAreCounted(bytes);
    if Encryptable(suite, descriptor, bytes) {
      forall i | 0 <= i < |Chunks(bytes)|
        ensures RecordAt(suite, request.occurrenceKey, ObjectContextOf(request, descriptor), bytes, stream, from, i).Ok?
      {
        RecordExists(suite, request.occurrenceKey, ObjectContextOf(request, descriptor), bytes, stream, from, i);
      }
    }
  }

  lemma RecordExists(suite: Suite, occurrenceKey: Key, context: ObjectKeyContext, bytes: Bytes, stream: NonceStream,
                     from: nat, i: nat)
    requires WellBehaved(suite) && i < |Chunks(bytes)| <= MAXIMUM_CHUNKS
    ensures RecordAt(suite, occurrenceKey, context, bytes, stream, from, i).Ok?
    ensures
      var entry := EntryAt(suite, occurrenceKey, context, bytes, stream, from, i);
      ValidUpload(UploadOf(entry)) && entry.nonce == suite.encodeNonce(NonceAt(stream, from + i))
  {
  }

  /** Every record starts with a nonce that was used, and stands under its own digest. */
  ghost predicate NoncesUsed(suite: Suite, ciphertext: map<Digest, Bytes>, used: set<Nonce>) {
    forall d :: d in ciphertext ==> RecordUsed(suite, d, ciphertext[d], used)
  }

  predicate RecordUsed(suite: Suite, d: Digest, record: Bytes, used: set<Nonce>) {
    |record| >= NONCE_BYTES && record[..NONCE_BYTES] in used && suite.hash(record) == d
  }

  /** What one object's material looks like when it was encrypted with fresh draws. */
  ghost predicate FromDraws(suite: Suite, m: EncryptedMaterial, stream: NonceStream, from: nat) {
    && |m.item.chunks| == |m.stored|
    && forall i :: 0 <= i < |m.stored| ==>
         && |m.stored[i]| >= NONCE_BYTES && m.stored[i][..NONCE_BYTES] == NonceAt(stream, from + i)
         && m.item.chunks[i].cipherDigest == suite.hash(m.stored[i])
         && ValidUpload(UploadOf(m.item.chunks[i]))
         && m.item.chunks[i].nonce == suite.encodeNonce(NonceAt(stream, from + i))
  }

  lemma MaterialFromDraws(suite: Suite, request: SealRequest, descriptor: LogicalObject, bytes: Bytes,
                          stream: NonceStream, from: nat, used: set<Nonce>)
    requires WellBehaved(suite) && ObjectEncrypts(suite, request, descriptor, bytes, stream, from, used)
    ensures
      FromDraws(suite, MaterialOf(suite, request.occurrenceKey, ObjectContextOf(request, descriptor), descriptor, bytes,
                                  stream, from), stream, from)
  {
    ChunksAreCounted(bytes);
    var context := ObjectContextOf(request, descriptor);
    forall i | 0 <= i < |Chunks(bytes)|
      ensures
        var entry := EntryAt(suite, request.occurrenceKey, context, bytes, stream, from, i);
        var stored := StoredAt(suite, request.occurrenceKey, context, bytes, stream, from, i);
        && |stored| >= NONCE_BYTES && stored[..NONCE_BYTES] == NonceAt(stream, from + i)
        && entry.cipherDigest == suite.hash(stored) && ValidUpload(UploadOf(entry))
        && entry.nonce == suite.encodeNonce(NonceAt(stream, from + i))
    {
      RecordExists(suite, request.occurrenceKey, context, bytes, stream, from, i);
      RecordIsSealed(suite, request.occurrenceKey, context, bytes, stream, from, i);
    }
  }

  lemma FreshNoncesDiffer(stream: NonceStream, from: nat, n: nat, used: set<Nonce>, j: nat, k: nat)
    requires FreshFor(stream, from, n, used) && from <= j < k < from + n
    ensures NonceAt(stream, j) != NonceAt(stream, k)
    ensures NonceAt(stream, j) !in used && NonceAt(stream, k) !in used
  {
    assert stream(j) != stream(k);
  }

  /** Records under new nonces have new digests. */
  lemma NewNoncesNewDigests(suite: Suite, m: EncryptedMaterial, stream: NonceStream, from: nat,
                            ciphertext: map<Digest, Bytes>, used: set<Nonce>)
    requires CollisionFree(suite.hash) && FromDraws(suite, m, stream, from) && NoncesUsed(suite, ciphertext, used)
    requires FreshFor(stream, from, |m.stored|, used)
    ensures DistinctDigests(ObjectUploads(m.item.chunks))
    ensures FreshDigests(ObjectUploads(m.item.chunks), ciphertext)
  {
    var uploads := ObjectUploads(m.item.chunks);
    forall i | 0 <= i < |uploads|
      ensures uploads[i].cipherDigest !in ciphertext
    {
      var d := suite.hash(m.stored[i]);
      assert stream(from + i).value !in used;
      assert d in ciphertext ==> RecordUsed(suite, d, ciphertext[d], used);
    }
    forall i, j | 0 <= i < j < |uploads|
      ensures uploads[i].cipherDigest != uploads[j].cipherDigest
    {
      FreshNoncesDiffer(stream, from, |m.stored|, used, from + i, from + j);
    }
  }

  lemma NoncesStayUsed(suite: Suite, m: EncryptedMaterial, stream: NonceStream, from: nat,
                       ciphertext: map<Digest, Bytes>, used: set<Nonce>)
    requires FromDraws(suite, m, stream, from) && NoncesUsed(suite, ciphertext, used)
    requires DistinctDigests(ObjectUploads(m.item.chunks)) && FreshDigests(ObjectUploads(m.item.chunks), ciphertext)
    ensures
      var uploads := ObjectUploads(m.item.chunks);
      NoncesUsed(suite, InsertAll(uploads, m.stored, ciphertext, |uploads|), used + Drawn(stream, from, |m.stored|))
  {
    var uploads := ObjectUploads(m.item.chunks);
    var larger := InsertAll(uploads, m.stored, ciphertext, |uploads|);
    var after := used + Drawn(stream, from, |m.stored|);
    InsertAllGrows(uploads, m.stored, ciphertext);
    forall d | d in larger
      ensures RecordUsed(suite, d, larger[d], after)
    {
      if d in ciphertext {
        assert RecordUsed(suite, d, ciphertext[d], used);
      } else {
        var k := FirstDigestIndex(uploads, |uploads|, d);
        DrawnMembers(stream, from, |m.stored|, NonceAt(stream, from + k));
        assert larger[uploads[k].cipherDigest] == m.stored[k];
      }
    }
  }

  // The batch.

  function PlainOf(plaintext: map<ObjectId, Bytes>, d: LogicalObject): Bytes {
    if d.objectId in plaintext then plaintext[d.objectId] else []
  }

  /** The draws that the first `k` objects take: one for each chunk. */
  function Draws(plaintext: map<ObjectId, Bytes>, descriptors: seq<LogicalObject>, k: nat): nat
    requires k <= |descriptors|
  {
    if k == 0 then 0 else Draws(plaintext, descriptors, k - 1) + ChunkCount(|PlainOf(plaintext, descriptors[k - 1])|)
  }

  /** The first `k` encrypted objects, each from the draw where the one before it stopped. */
  function ObjectsFrom(suite: Suite, request: SealRequest, plaintext: map<ObjectId, Bytes>,
                       descriptors: seq<LogicalObject>, stream: NonceStream, from: nat, k: nat): seq<EncryptedObject>
    requires k <= |descriptors|
  {
    if k == 0 then []
    else
      var d := descriptors[k - 1];
      ObjectsFrom(suite, request, plaintext, descriptors, stream, from, k - 1)
      + [MaterialOf(suite, request.occurrenceKey, ObjectContextOf(request, d), d, PlainOf(plaintext, d), stream,
                    from + Draws(plaintext, descriptors, k - 1)).item]
  }

  predicate HasBytes(suite: Suite, plaintext: map<ObjectId, Bytes>, d: LogicalObject) {
    d.objectId in plaintext && Encryptable(suite, d, plaintext[d.objectId])
  }

  /** The object at position `k` has its bytes, and its window of draws is new. */
  predicate Allowed(suite: Suite, plaintext: map<ObjectId, Bytes>, descriptors: seq<LogicalObject>, stream: NonceStream,
                    from: nat, used: set<Nonce>, k: nat)
  {
    && k < |descriptors| && HasBytes(suite, plaintext, descriptors[k])
    && WindowOf(plaintext, descriptors, stream, from, used, k)
  }

  /** Every upload is well-formed and carries the nonce of its own draw. */
  predicate UploadsFromDraws(suite: Suite, uploads: seq<UploadObject>, stream: NonceStream, from: nat) {
    forall j :: 0 <= j < |uploads| ==>
      ValidUpload(uploads[j]) && uploads[j].nonce == suite.encodeNonce(NonceAt(stream, from + j))
  }

  /** What is known of the loop before position `k`. */
  ghost predicate InBatch(suite: Suite, request: SealRequest, plaintext: map<ObjectId, Bytes>,
                          descriptors: seq<LogicalObject>, stream: NonceStream, from: nat, used: set<Nonce>, k: nat,
                          s: BatchState)
  {
    && k <= |descriptors|
    && DrewUpTo(plaintext, descriptors, stream, from, used, k, s)
    && NoncesUsed(suite, s.material.ciphertext, s.used)
    && s.material.objects == ObjectsFrom(suite, request, plaintext, descriptors, stream, from, k)
    && UploadsUpTo(suite, plaintext, descriptors, stream, from, k, s.material.uploads)
  }

  predicate DrewUpTo(plaintext: map<ObjectId, Bytes>, descriptors: seq<LogicalObject>, stream: NonceStream, from: nat,
                     used: set<Nonce>, k: nat, s: BatchState)
    requires k <= |descriptors|
  {
    && s.drawn == from + Draws(plaintext, descriptors, k)
    && s.used == used + Drawn(stream, from, Draws(plaintext, descriptors, k))
  }

  predicate UploadsUpTo(suite: Suite, plaintext: map<ObjectId, Bytes>, descriptors: seq<LogicalObject>,
                        stream: NonceStream, from: nat, k: nat, uploads: seq<UploadObject>)
    requires k <= |descriptors|
  {
    |uploads| == Draws(plaintext, descriptors, k) && UploadsFromDraws(suite, uploads, stream, from)
  }

  lemma AddingSucceeds(suite: Suite, request: SealRequest, d: LogicalObject, bytes: Bytes, stream: NonceStream,
                       s: BatchState)
    requires WellBehaved(suite) && NoncesUsed(suite, s.material.ciphertext, s.used)
    ensures
      AddObject(suite, request, d, bytes, stream, s).Some? <==>
        Encryptable(suite, d, bytes) && FreshFor(stream, s.drawn, ChunkCount(|bytes|), s.used)
  {
    CipherNeverRefuses(suite, request, d, bytes, stream, s.drawn, s.used);
    if ObjectEncrypts(suite, request, d, bytes, stream, s.drawn, s.used) {
      ChunksAreCounted(bytes);
      MaterialFromDraws(suite, request, d, bytes, stream, s.drawn, s.used);
      NewNoncesNewDigests(
        suite, MaterialOf(suite, request.occurrenceKey, ObjectContextOf(request, d), d, bytes, stream, s.drawn), stream,
        s.drawn, s.material.ciphertext, s.used);
    }
  }

  lemma AddingKeeps(suite: Suite, request: SealRequest, d: LogicalObject, bytes: Bytes, stream: NonceStream,
                    s: BatchState)
    requires WellBehaved(suite) && NoncesUsed(suite, s.material.ciphertext, s.used)
    requires AddObject(suite, request, d, bytes, stream, s).Some?
    ensures
      var added := MaterialOf(suite, request.occurrenceKey, ObjectContextOf(request, d), d, bytes, stream, s.drawn);
      var after := AddObject(suite, request, d, bytes, stream, s).value;
      && NoncesUsed(suite, after.material.ciphertext, after.used)
      && after.material.objects == s.material.objects + [added.item]
      && after.material.uploads == s.material.uploads + ObjectUploads(added.item.chunks)
      && |added.item.chunks| == ChunkCount(|bytes|)
      && UploadsFromDraws(suite, ObjectUploads(added.item.chunks), stream, s.drawn)
  {
    ChunksAreCounted(bytes);
    MaterialFromDraws(suite, request, d, bytes, stream, s.drawn, s.used);
    NoncesStayUsed(
      suite, MaterialOf(suite, request.occurrenceKey, ObjectContextOf(request, d), d, bytes, stream, s.drawn), stream,
      s.drawn, s.material.ciphertext, s.used);
  }

  lemma UploadsJoin(suite: Suite, a: seq<UploadObject>, b: seq<UploadObject>, stream: NonceStream, from: nat)
    requires UploadsFromDraws(suite, a, stream, from) && UploadsFromDraws(suite, b, stream, from + |a|)
    ensures UploadsFromDraws(suite, a + b, stream, from)
  {
    forall j | 0 <= j < |a + b|
      ensures ValidUpload((a + b)[j]) && (a + b)[j].nonce == suite.encodeNonce(NonceAt(stream, from + j))
    {
      if j >= |a| {
        assert (a + b)[j] == b[j - |a|] && from + |a| + (j - |a|) == from + j;
      }
    }
  }

  lemma StepSucceeds(suite: Suite, request: SealRequest, plaintext: map<ObjectId, Bytes>,
                     descriptors: seq<LogicalObject>, stream: NonceStream, from: nat, used: set<Nonce>, k: nat,
                     s: BatchState)
    requires WellBehaved(suite) && k < |descriptors|
    requires InBatch(suite, request, plaintext, descriptors, stream, from, used, k, s)
    ensures
      BatchStep(suite, request, plaintext, descriptors, stream)(k, s).Some? <==>
        Allowed(suite, plaintext, descriptors, stream, from, used, k)
  {
    AddingSucceeds(suite, request, descriptors[k], PlainOf(plaintext, descriptors[k]), stream, s);
  }

  lemma StepKeepsBatch(suite: Suite, request: SealRequest, plaintext: map<ObjectId, Bytes>,
                       descriptors: seq<LogicalObject>, stream: NonceStream, from: nat, used: set<Nonce>, k: nat,
                       s: BatchState)
    requires WellBehaved(suite) && k < |descriptors|
    requires InBatch(suite, request, plaintext, descriptors, stream, from, used, k, s)
    requires BatchStep(suite, request, plaintext, descriptors, stream)(k, s).Some?
    ensures
      InBatch(suite, request, plaintext, descriptors, stream, from, used, k + 1,
              BatchStep(suite, request, plaintext, descriptors, stream)(k, s).value)
  {
    hide NoncesUsed, UploadsFromDraws, ObjectEncrypts, MaterialOf, AddMaterial, Drawn, WellBehaved;
    var d := descriptors[k];
    var bytes := PlainOf(plaintext, d);
    var after := BatchStep(suite, request, plaintext, descriptors, stream)(k, s).value;
    assert AddObject(suite, request, d, bytes, stream, s) == Some(after);
    AddingKeeps(suite, request, d, bytes, stream, s);
    DrewOneMore(plaintext, descriptors, stream, from, used, k, s, after);
    var added := MaterialOf(suite, request.occurrenceKey, ObjectContextOf(request, d), d, bytes, stream, s.drawn);
    UploadsOneMore(suite, plaintext, descriptors, stream, from, k, s.material.uploads, ObjectUploads(added.item.chunks),
                   s.drawn);
  }

  lemma DrewOneMore(plaintext: map<ObjectId, Bytes>, descriptors: seq<LogicalObject>, stream: NonceStream, from: nat,
                    used: set<Nonce>, k: nat, s: BatchState, after: BatchState)
    requires k < |descriptors| && DrewUpTo(plaintext, descriptors, stream, from, used, k, s)
    requires
      var count := ChunkCount(|PlainOf(plaintext, descriptors[k])|);
      after.drawn == s.drawn + count && after.used == s.used + Drawn(stream, s.drawn, count)
    ensures DrewUpTo(plaintext, descriptors, stream, from, used, k + 1, after)
  {
    DrawnSplits(stream, from, Draws(plaintext, descriptors, k), ChunkCount(|PlainOf(plaintext, descriptors[k])|));
  }

  lemma UploadsOneMore(suite: Suite, plaintext: map<ObjectId, Bytes>, descriptors: seq<LogicalObject>,
                       stream: NonceStream, from: nat, k: nat, uploads: seq<UploadObject>, added: seq<UploadObject>,
                       drawn: nat)
    requires k < |descriptors| && UploadsUpTo(suite, plaintext, descriptors, stream, from, k, uploads)
    requires |added| == ChunkCount(|PlainOf(plaintext, descriptors[k])|)
    requires UploadsFromDraws(suite, added, stream, drawn) && drawn == from + Draws(plaintext, descriptors, k)
    ensures UploadsUpTo(suite, plaintext, descriptors, stream, from, k + 1, uploads + added)
  {
    UploadsJoin(suite, uploads, added, stream, from);
  }

  predicate AllHaveBytes(suite: Suite, plaintext: map<ObjectId, Bytes>, descriptors: seq<LogicalObject>) {
    forall k: nat :: k < |descriptors| ==> HasBytesAt(suite, plaintext, descriptors, k)
  }

  predicate HasBytesAt(suite: Suite, plaintext: map<ObjectId, Bytes>, descriptors: seq<LogicalObject>, k: nat) {
    k < |descriptors| && HasBytes(suite, plaintext, descriptors[k])
  }

  /** The window that one object takes, and the window up to it. */
  predicate WindowOf(plaintext: map<ObjectId, Bytes>, descriptors: seq<LogicalObject>, stream: NonceStream, from: nat,
                     used: set<Nonce>, k: nat)
    requires k < |descriptors|
  {
    var before := Draws(plaintext, descriptors, k);
    FreshFor(stream, from + before, ChunkCount(|PlainOf(plaintext, descriptors[k])|),
             used + Drawn(stream, from, before))
  }

  predicate WindowUpTo(plaintext: map<ObjectId, Bytes>, descriptors: seq<LogicalObject>, stream: NonceStream, from: nat,
                       used: set<Nonce>, n: nat)
    requires n <= |descriptors|
  {
    FreshFor(stream, from, Draws(plaintext, descriptors, n), used)
  }

  lemma NextWindow(plaintext: map<ObjectId, Bytes>, descriptors: seq<LogicalObject>, stream: NonceStream, from: nat,
                   used: set<Nonce>, k: nat)
    requires k < |descriptors|
    ensures
      WindowUpTo(plaintext, descriptors, stream, from, used, k + 1) <==>
        && WindowUpTo(plaintext, descriptors, stream, from, used, k)
        && WindowOf(plaintext, descriptors, stream, from, used, k)
  {
    FreshSplits(stream, from, Draws(plaintext, descriptors, k), ChunkCount(|PlainOf(plaintext, descriptors[k])|), used);
  }

  /** The windows of the objects are new one after the other exactly when the whole window is. */
  lemma WindowsJoin(suite: Suite, plaintext: map<ObjectId, Bytes>, descriptors: seq<LogicalObject>, stream: NonceStream,
                    from: nat, used: set<Nonce>)
    ensures
      var allowed := AllowedAt(suite, plaintext, descriptors, stream, from, used);
      (forall k: nat :: k < |descriptors| ==> allowed(k)) <==>
        && AllHaveBytes(suite, plaintext, descriptors)
        && WindowUpTo(plaintext, descriptors, stream, from, used, |descriptors|)
  {
    var allowed := AllowedAt(suite, plaintext, descriptors, stream, from, used);
    var has := (k: nat) => HasBytesAt(suite, plaintext, descriptors, k);
    var part := (k: nat) => k < |descriptors| && WindowOf(plaintext, descriptors, stream, from, used, k);
    var whole := (k: nat) => k <= |descriptors| && WindowUpTo(plaintext, descriptors, stream, from, used, k);
    forall k: nat, next: nat | k < |descriptors| && next == k + 1
      ensures whole(next) <==> whole(k) && part(k)
    {
      NextWindow(plaintext, descriptors, stream, from, used, k);
    }
    PartsMakeTheWhole(|descriptors|, allowed, has, part, whole);
    assert forall k: nat :: has(k) <==> HasBytesAt(suite, plaintext, descriptors, k);
  }

  ghost function BatchHolds(suite: Suite, request: SealRequest, plaintext: map<ObjectId, Bytes>,
                            descriptors: seq<LogicalObject>, stream: NonceStream, from: nat, used: set<Nonce>)
    : (nat, BatchState) -> bool
  {
    (k: nat, s: BatchState) => InBatch(suite, request, plaintext, descriptors, stream, from, used, k, s)
  }

  function AllowedAt(suite: Suite, plaintext: map<ObjectId, Bytes>, descriptors: seq<LogicalObject>,
                     stream: NonceStream, from: nat, used: set<Nonce>): nat -> bool
  {
    (k: nat) => Allowed(suite, plaintext, descriptors, stream, from, used, k)
  }

  lemma StepsSucceed(suite: Suite, request: SealRequest, plaintext: map<ObjectId, Bytes>,
                     descriptors: seq<LogicalObject>, stream: NonceStream, from: nat, used: set<Nonce>)
    requires WellBehaved(suite)
    ensures
      var step := BatchStep(suite, request, plaintext, descriptors, stream);
      var holds := BatchHolds(suite, request, plaintext, descriptors, stream, from, used);
      var allowed := AllowedAt(suite, plaintext, descriptors, stream, from, used);
      forall k: nat, s: BatchState :: k < |descriptors| && holds(k, s) ==> (step(k, s).Some? <==> allowed(k))
  {
    var step := BatchStep(suite, request, plaintext, descriptors, stream);
    var holds := BatchHolds(suite, request, plaintext, descriptors, stream, from, used);
    forall k: nat, s: BatchState | k < |descriptors| && holds(k, s)
      ensures step(k, s).Some? <==> Allowed(suite, plaintext, descriptors, stream, from, used, k)
    {
      StepSucceeds(suite, request, plaintext, descriptors, stream, from, used, k, s);
    }
  }

  lemma StepsKeepBatch(suite: Suite, request: SealRequest, plaintext: map<ObjectId, Bytes>,
                       descriptors: seq<LogicalObject>, stream: NonceStream, from: nat, used: set<Nonce>)
    requires WellBehaved(suite)
    ensures
      var step := BatchStep(suite, request, plaintext, descriptors, stream);
      var holds := BatchHolds(suite, request, plaintext, descriptors, stream, from, used);
      forall k: nat, s: BatchState ::
        k < |descriptors| && holds(k, s) && step(k, s).Some? ==> holds(k + 1, step(k, s).value)
  {
    hide InBatch, BatchStep;
    var step := BatchStep(suite, request, plaintext, descriptors, stream);
    var holds := BatchHolds(suite, request, plaintext, descriptors, stream, from, used);
    forall k: nat, s: BatchState | k < |descriptors| && holds(k, s) && step(k, s).Some?
      ensures holds(k + 1, step(k, s).value)
    {
      StepKeepsBatch(suite, request, plaintext, descriptors, stream, from, used, k, s);
    }
  }

  lemma LoopFolds(suite: Suite, request: SealRequest, plaintext: map<ObjectId, Bytes>, descriptors: seq<LogicalObject>,
                  stream: NonceStream, from: nat, used: set<Nonce>)
    requires WellBehaved(suite)
    ensures
      var batch := Fold(BatchStep(suite, request, plaintext, descriptors, stream), BatchState(NO_MATERIAL, from, used),
                        |descriptors|);
      var allowed := AllowedAt(suite, plaintext, descriptors, stream, from, used);
      && (batch.Some? <==> forall k: nat :: k < |descriptors| ==> allowed(k))
      && (batch.Some? ==>
            BatchHolds(suite, request, plaintext, descriptors, stream, from, used)(|descriptors|, batch.value))
  {
    StepsSucceed(suite, request, plaintext, descriptors, stream, from, used);
    StepsKeepBatch(suite, request, plaintext, descriptors, stream, from, used);
    FoldSucceeds(
      BatchStep(suite, request, plaintext, descriptors, stream), BatchState(NO_MATERIAL, from, used), |descriptors|,
      BatchHolds(suite, request, plaintext, descriptors, stream, from, used),
      AllowedAt(suite, plaintext, descriptors, stream, from, used));
  }

  /** The loop succeeds exactly when every descriptor has its bytes and the draws of all chunks are new. */
  lemma LoopSucceeds(suite: Suite, request: SealRequest, plaintext: map<ObjectId, Bytes>,
                     descriptors: seq<LogicalObject>, stream: NonceStream, from: nat, used: set<Nonce>)
    requires WellBehaved(suite)
    ensures
      var batch := Fold(BatchStep(suite, request, plaintext, descriptors, stream), BatchState(NO_MATERIAL, from, used),
                        |descriptors|);
      && (batch.Some? <==>
            && AllHaveBytes(suite, plaintext, descriptors)
            && FreshFor(stream, from, Draws(plaintext, descriptors, |descriptors|), used))
      && (batch.Some? ==>
            InBatch(suite, request, plaintext, descriptors, stream, from, used, |descriptors|, batch.value))
  {
    LoopFolds(suite, request, plaintext, descriptors, stream, from, used);
    WindowsJoin(suite, plaintext, descriptors, stream, from, used);
  }
}
