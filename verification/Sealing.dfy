/** Encrypting one object in chunks, and collecting its records. */
module Sealing {
  import opened Prelude
  import opened Capsule
  import opened SealModel
  import opened SealNonces

  datatype SealingIds = SealingIds(capsuleObjectId: ObjectId, manifestObjectId: ObjectId, proofObjectIds: seq<ObjectId>)

  datatype UploadMetadata = UploadMetadata(
    captureId: nat, organizationId: nat, projectId: nat, repositoryId: string, serviceId: nat, servicePath: string,
    sourceRevision: string, rest: Result<EnvelopeRest>)

  datatype Signer = Signer(keyId: string, sign: UploadEnvelope -> Result<string>)

  /** `SealRequest` with the admission input and the admitted candidate laid out flat. */
  datatype SealRequest = SealRequest(
    capsuleDigest: Digest, proofs: seq<Proof>, ids: SealingIds, capsule: ReplayCapsule, objects: map<ObjectId, Bytes>,
    metadata: UploadMetadata, occurrenceKey: Key, signer: Signer)

  /** The array lengths that the source fixes in its types. */
  predicate WellTyped(request: SealRequest) {
    |request.proofs| == 3 && |request.ids.proofObjectIds| == 3
  }

  datatype SealedUpload = SealedUpload(
    ciphertext: map<Digest, Bytes>, envelope: UploadEnvelope, manifest: CaptureBatchManifest)

  // Encrypting one object.

  function ObjectContextOf(request: SealRequest, descriptor: LogicalObject): ObjectKeyContext {
    ObjectKeyContext(request.metadata.captureId, descriptor.objectId, request.metadata.organizationId,
                     request.capsule.processingMode, request.metadata.projectId, descriptor.role,
                     request.metadata.serviceId)
  }

  /** One stored record is the nonce followed by the sealed plaintext, and the chunk entry describes it. */
  predicate ChunkSealed(suite: Suite, occurrenceKey: Key, context: ObjectKeyContext, count: nat, index: nat,
                        plaintext: Bytes, chunk: EncryptedChunk, stored: Bytes)
  {
    && |stored| >= NONCE_BYTES
    && chunk.index == index
    && chunk.cipherDigest == suite.hash(stored)
    && chunk.cipherSize == |stored|
    && chunk.nonce == suite.encodeNonce(stored[..NONCE_BYTES])
    && var chunkContext := ChunkKeyContext(count, index, suite.objectContextDigest(context), |plaintext|);
    && ValidChunkContext(chunkContext)
    && var chunkKey := suite.chunkKey(suite.objectKey(occurrenceKey, context), chunkContext);
    && suite.aeadSeal(chunkKey, stored[..NONCE_BYTES], plaintext, chunkContext) == Some(stored[NONCE_BYTES..])
  }

  predicate DescribesBytes(suite: Suite, descriptor: LogicalObject, bytes: Bytes) {
    descriptor.plainDigest == suite.hash(bytes) && descriptor.plainSize == |bytes|
  }

  datatype EncryptedMaterial = EncryptedMaterial(item: EncryptedObject, stored: seq<Bytes>)

  /** The object was cut into its chunks and every chunk was sealed under its own context. */
  predicate ObjectSealed(suite: Suite, occurrenceKey: Key, context: ObjectKeyContext, bytes: Bytes,
                         m: EncryptedMaterial) {
    && DescribesBytes(suite, m.item.descriptor, bytes)
    && |m.item.chunks| == |m.stored| == |Chunks(bytes)| <= MAXIMUM_CHUNKS
    && forall i :: 0 <= i < |m.stored| ==>
         ChunkSealed(suite, occurrenceKey, context, |m.stored|, i, Chunks(bytes)[i], m.item.chunks[i], m.stored[i])
  }

  /** `encrypt_chunk`: the stored record, or an error. */
  function EncryptChunk(suite: Suite, chunkKey: Key, nonce: Nonce, plaintext: Bytes,
                        context: ChunkKeyContext): Result<Bytes> {
    if !ValidChunkContext(context) || |plaintext| > CHUNK_BYTES || context.plainSize != |plaintext| then
      Err(SchemaInvalid)
    else match suite.aeadSeal(chunkKey, nonce, plaintext, context)
      case None => Err(DecryptionAuthentication)
      case Some(sealed) => Ok(nonce + sealed)
  }

  /** An object that its descriptor describes and that is not too large. */
  predicate Encryptable(suite: Suite, descriptor: LogicalObject, bytes: Bytes) {
    DescribesBytes(suite, descriptor, bytes) && ChunkCount(|bytes|) <= MAXIMUM_CHUNKS
  }

  function ChunkContextOf(suite: Suite, context: ObjectKeyContext, bytes: Bytes, i: nat): ChunkKeyContext
    requires i < |Chunks(bytes)|
  {
    ChunkKeyContext(|Chunks(bytes)|, i, suite.objectContextDigest(context), |Chunks(bytes)[i]|)
  }

  /** The stored record of chunk `i` under a nonce, if the cipher accepts it. */
  function ChunkRecord(suite: Suite, occurrenceKey: Key, context: ObjectKeyContext, bytes: Bytes, i: nat, nonce: Nonce)
    : Result<Bytes>
    requires i < |Chunks(bytes)|
  {
    var chunkContext := ChunkContextOf(suite, context, bytes, i);
    EncryptChunk(suite, suite.chunkKey(suite.objectKey(occurrenceKey, context), chunkContext), nonce, Chunks(bytes)[i],
                 chunkContext)
  }

  /** The record of chunk `i` under its own draw. */
  function RecordAt(suite: Suite, occurrenceKey: Key, context: ObjectKeyContext, bytes: Bytes, stream: NonceStream,
                    from: nat, i: nat): Result<Bytes>
    requires i < |Chunks(bytes)|
  {
    ChunkRecord(suite, occurrenceKey, context, bytes, i, NonceAt(stream, from + i))
  }

  function StoredAt(suite: Suite, occurrenceKey: Key, context: ObjectKeyContext, bytes: Bytes, stream: NonceStream,
                    from: nat, i: nat): Bytes
    requires i < |Chunks(bytes)|
  {
    var record := RecordAt(suite, occurrenceKey, context, bytes, stream, from, i);
    if record.Ok? then record.value else []
  }

  function EntryAt(suite: Suite, occurrenceKey: Key, context: ObjectKeyContext, bytes: Bytes, stream: NonceStream,
                   from: nat, i: nat): EncryptedChunk
    requires i < |Chunks(bytes)|
  {
    var stored := StoredAt(suite, occurrenceKey, context, bytes, stream, from, i);
    EncryptedChunk(suite.hash(stored), |stored|, i, suite.encodeNonce(NonceAt(stream, from + i)))
  }

  /** An object encrypted with the draws from `from` on. */
  function MaterialOf(suite: Suite, occurrenceKey: Key, context: ObjectKeyContext, descriptor: LogicalObject,
                      bytes: Bytes, stream: NonceStream, from: nat): EncryptedMaterial
  {
    var n := |Chunks(bytes)|;
    EncryptedMaterial(
      EncryptedObject(
        seq(n, i requires 0 <= i < n => EntryAt(suite, occurrenceKey, context, bytes, stream, from, i)), descriptor),
      seq(n, i requires 0 <= i < n => StoredAt(suite, occurrenceKey, context, bytes, stream, from, i)))
  }

  predicate CipherAccepts(suite: Suite, occurrenceKey: Key, context: ObjectKeyContext, bytes: Bytes,
                          stream: NonceStream, from: nat, n: nat)
    requires n <= |Chunks(bytes)|
  {
    forall i :: 0 <= i < n ==> RecordAt(suite, occurrenceKey, context, bytes, stream, from, i).Ok?
  }

  /** The first `i` draws are fresh and the cipher accepts their chunks. */
  predicate EncryptsUpTo(suite: Suite, request: SealRequest, descriptor: LogicalObject, bytes: Bytes,
                         stream: NonceStream, from: nat, used: set<Nonce>, i: nat)
    requires i <= |Chunks(bytes)|
  {
    && FreshFor(stream, from, i, used)
    && CipherAccepts(suite, request.occurrenceKey, ObjectContextOf(request, descriptor), bytes, stream, from, i)
  }

  /** Exactly when encrypting an object succeeds: its descriptor, its size, its draws and the cipher. */
  predicate ObjectEncrypts(suite: Suite, request: SealRequest, descriptor: LogicalObject, bytes: Bytes,
                           stream: NonceStream, from: nat, used: set<Nonce>)
  {
    && Encryptable(suite, descriptor, bytes)
    && EncryptsUpTo(suite, request, descriptor, bytes, stream, from, used, |Chunks(bytes)|)
  }

  /** One chunk: draw a nonce, register it, derive the key and encrypt. */
  method EncryptNext(suite: Suite, occurrenceKey: Key, context: ObjectKeyContext, bytes: Bytes,
                     ghost from: nat, i: nat, source: NonceSource, registry: NonceRegistry)
    returns (r: Result<(EncryptedChunk, Bytes)>)
    requires i < |Chunks(bytes)| && source.drawn == from + i
    modifies source, registry
    ensures
      r.Ok? <==>
        && source.stream(from + i).Ok? && source.stream(from + i).value !in old(registry.used)
        && RecordAt(suite, occurrenceKey, context, bytes, source.stream, from, i).Ok?
    ensures
      r.Ok? ==>
        && r.value.0 == EntryAt(suite, occurrenceKey, context, bytes, source.stream, from, i)
        && r.value.1 == StoredAt(suite, occurrenceKey, context, bytes, source.stream, from, i)
        && source.drawn == from + i + 1
        && registry.used == old(registry.used) + {NonceAt(source.stream, from + i)}
  {
    var nonce := source.NextNonce();
    if nonce.Err? {
      return Err(nonce.error);
    }
    var registered := registry.Register(nonce.value);
    if registered.Err? {
      return Err(registered.error);
    }
    var chunks := Chunks(bytes);
    var chunkContext := ChunkKeyContext(|chunks|, i, suite.objectContextDigest(context), |chunks[i]|);
    var chunkKey := suite.chunkKey(suite.objectKey(occurrenceKey, context), chunkContext);
    var record := EncryptChunk(suite, chunkKey, nonce.value, chunks[i], chunkContext);
    if record.Err? {
      return Err(record.error);
    }
    var entry := EncryptedChunk(suite.hash(record.value), |record.value|, i, suite.encodeNonce(nonce.value));
    return Ok((entry, record.value));
  }

  /** One more chunk goes through exactly when its draw is new and the cipher accepts it; otherwise the object fails. */
  lemma NextEncrypts(suite: Suite, request: SealRequest, descriptor: LogicalObject, bytes: Bytes, stream: NonceStream,
                     from: nat, used: set<Nonce>, i: nat)
    requires i < |Chunks(bytes)| && EncryptsUpTo(suite, request, descriptor, bytes, stream, from, used, i)
    ensures
      EncryptsUpTo(suite, request, descriptor, bytes, stream, from, used, i + 1) <==>
        && stream(from + i).Ok? && stream(from + i).value !in used + Drawn(stream, from, i)
        && RecordAt(suite, request.occurrenceKey, ObjectContextOf(request, descriptor), bytes, stream, from, i).Ok?
    ensures
      EncryptsUpTo(suite, request, descriptor, bytes, stream, from, used, |Chunks(bytes)|) ==>
        EncryptsUpTo(suite, request, descriptor, bytes, stream, from, used, i + 1)
    ensures Drawn(stream, from, i + 1) == Drawn(stream, from, i) + {NonceAt(stream, from + i)}
  {
    OneDraw(stream, from, i, used);
  }

  predicate RecordsUpTo(suite: Suite, occurrenceKey: Key, context: ObjectKeyContext, bytes: Bytes, stream: NonceStream,
                        from: nat, n: nat, encrypted: seq<EncryptedChunk>, stored: seq<Bytes>)
  {
    && |encrypted| == |stored| == n <= |Chunks(bytes)|
    && forall i :: 0 <= i < n ==>
         && encrypted[i] == EntryAt(suite, occurrenceKey, context, bytes, stream, from, i)
         && stored[i] == StoredAt(suite, occurrenceKey, context, bytes, stream, from, i)
  }

  lemma RecordsStepUp(suite: Suite, occurrenceKey: Key, context: ObjectKeyContext, bytes: Bytes, stream: NonceStream,
                      from: nat, n: nat, encrypted: seq<EncryptedChunk>, stored: seq<Bytes>, entry: EncryptedChunk,
                      record: Bytes)
    requires RecordsUpTo(suite, occurrenceKey, context, bytes, stream, from, n, encrypted, stored)
      && n < |Chunks(bytes)|
    requires entry == EntryAt(suite, occurrenceKey, context, bytes, stream, from, n)
    requires record == StoredAt(suite, occurrenceKey, context, bytes, stream, from, n)
    ensures
      RecordsUpTo(suite, occurrenceKey, context, bytes, stream, from, n + 1, encrypted + [entry], stored + [record])
  {
  }

  lemma RecordsAreMaterial(suite: Suite, occurrenceKey: Key, context: ObjectKeyContext, descriptor: LogicalObject,
                           bytes: Bytes, stream: NonceStream, from: nat, encrypted: seq<EncryptedChunk>,
                           stored: seq<Bytes>)
    requires RecordsUpTo(suite, occurrenceKey, context, bytes, stream, from, |Chunks(bytes)|, encrypted, stored)
    ensures
      EncryptedMaterial(EncryptedObject(encrypted, descriptor), stored) ==
        MaterialOf(suite, occurrenceKey, context, descriptor, bytes, stream, from)
  {
    var m := MaterialOf(suite, occurrenceKey, context, descriptor, bytes, stream, from);
    assert encrypted == m.item.chunks && stored == m.stored;
  }

  lemma NothingEncrypted(suite: Suite, request: SealRequest, descriptor: LogicalObject, bytes: Bytes,
                         stream: NonceStream, from: nat, used: set<Nonce>)
    ensures EncryptsUpTo(suite, request, descriptor, bytes, stream, from, used, 0)
    ensures RecordsUpTo(suite, request.occurrenceKey, ObjectContextOf(request, descriptor), bytes, stream, from, 0, [],
                        [])
    ensures used == used + Drawn(stream, from, 0)
  {
  }

  /** The loop over the chunks. */
  method EncryptChunks(suite: Suite, request: SealRequest, descriptor: LogicalObject, bytes: Bytes,
                       source: NonceSource, registry: NonceRegistry)
    returns (r: Result<(seq<EncryptedChunk>, seq<Bytes>)>)
    modifies source, registry
    ensures
      r.Ok? <==>
        EncryptsUpTo(suite, request, descriptor, bytes, source.stream, old(source.drawn), old(registry.used),
                     |Chunks(bytes)|)
    ensures
      r.Ok? ==>
        && EncryptedMaterial(EncryptedObject(r.value.0, descriptor), r.value.1) ==
             MaterialOf(suite, request.occurrenceKey, ObjectContextOf(request, descriptor), descriptor, bytes,
                        source.stream, old(source.drawn))
        && source.drawn == old(source.drawn) + |Chunks(bytes)|
        && registry.used == old(registry.used) + Drawn(source.stream, old(source.drawn), |Chunks(bytes)|)
  {
    hide FreshFor, CipherAccepts, RecordAt, StoredAt, EntryAt, MaterialOf, Drawn;
    var chunks, context := Chunks(bytes), ObjectContextOf(request, descriptor);
    var encrypted: seq<EncryptedChunk> := [];
    var stored: seq<Bytes> := [];
    ghost var from, used := source.drawn, registry.used;
    NothingEncrypted(suite, request, descriptor, bytes, source.stream, from, used);
    for i := 0 to |chunks|
      invariant source.drawn == from + i && registry.used == used + Drawn(source.stream, from, i)
      invariant EncryptsUpTo(suite, request, descriptor, bytes, source.stream, from, used, i)
      invariant RecordsUpTo(suite, request.occurrenceKey, context, bytes, source.stream, from, i, encrypted, stored)
    {
      NextEncrypts(suite, request, descriptor, bytes, source.stream, from, used, i);
      var next := EncryptNext(suite, request.occurrenceKey, context, bytes, from, i, source, registry);
      if next.Err? {
        return Err(next.error);
      }
      RecordsStepUp(suite, request.occurrenceKey, context, bytes, source.stream, from, i, encrypted, stored,
                    next.value.0, next.value.1);
      encrypted, stored := encrypted + [next.value.0], stored + [next.value.1];
    }
    RecordsAreMaterial(suite, request.occurrenceKey, context, descriptor, bytes, source.stream, from, encrypted,
                       stored);
    return Ok((encrypted, stored));
  }

  /**
   * Cuts the object into chunks and encrypts each one under its own context and
   * the next draw. It succeeds exactly when it can, and on success it has drawn
   * and registered one nonce for each chunk.
   */
  method EncryptObject(suite: Suite, request: SealRequest, descriptor: LogicalObject, bytes: Bytes,
                       source: NonceSource, registry: NonceRegistry)
    returns (r: Result<EncryptedMaterial>)
    modifies source, registry
    ensures
      r.Ok? <==>
        ObjectEncrypts(suite, request, descriptor, bytes, source.stream, old(source.drawn), old(registry.used))
    ensures
      r.Ok? ==>
        && r.value == MaterialOf(suite, request.occurrenceKey, ObjectContextOf(request, descriptor), descriptor, bytes,
                                 source.stream, old(source.drawn))
        && source.drawn == old(source.drawn) + ChunkCount(|bytes|)
        && registry.used == old(registry.used) + Drawn(source.stream, old(source.drawn), ChunkCount(|bytes|))
  {
    ChunksAreCounted(bytes);
    if !DescribesBytes(suite, descriptor, bytes) {
      return Err(ErrorCode.ObjectDigestMismatch);
    }
    if ChunkCount(|bytes|) > MAXIMUM_CHUNKS {
      return Err(UploadLimitExceeded);
    }
    var encrypted := EncryptChunks(suite, request, descriptor, bytes, source, registry);
    if encrypted.Err? {
      return Err(encrypted.error);
    }
    return Ok(EncryptedMaterial(EncryptedObject(encrypted.value.0, descriptor), encrypted.value.1));
  }

  /** What was encrypted is sealed: each chunk under its own context and its own draw. */
  lemma MaterialIsSealed(suite: Suite, request: SealRequest, descriptor: LogicalObject, bytes: Bytes,
                         stream: NonceStream, from: nat, used: set<Nonce>)
    requires ObjectEncrypts(suite, request, descriptor, bytes, stream, from, used)
    ensures
      var context := ObjectContextOf(request, descriptor);
      var m := MaterialOf(suite, request.occurrenceKey, context, descriptor, bytes, stream, from);
      && ObjectSealed(suite, request.occurrenceKey, context, bytes, m)
      && forall i :: 0 <= i < |m.stored| ==>
           |m.stored[i]| >= NONCE_BYTES && m.stored[i][..NONCE_BYTES] == NonceAt(stream, from + i)
  {
    ChunksAreCounted(bytes);
    var context := ObjectContextOf(request, descriptor);
    var m := MaterialOf(suite, request.occurrenceKey, context, descriptor, bytes, stream, from);
    forall i | 0 <= i < |m.stored|
      ensures |m.stored[i]| >= NONCE_BYTES && m.stored[i][..NONCE_BYTES] == NonceAt(stream, from + i)
      ensures ChunkSealed(suite, request.occurrenceKey, context, |m.stored|, i, Chunks(bytes)[i], m.item.chunks[i],
                          m.stored[i])
    {
      RecordIsSealed(suite, request.occurrenceKey, context, bytes, stream, from, i);
    }
  }

  lemma RecordIsSealed(suite: Suite, occurrenceKey: Key, context: ObjectKeyContext, bytes: Bytes, stream: NonceStream,
                       from: nat, i: nat)
    requires i < |Chunks(bytes)| && RecordAt(suite, occurrenceKey, context, bytes, stream, from, i).Ok?
    ensures
      var stored := StoredAt(suite, occurrenceKey, context, bytes, stream, from, i);
      && |stored| >= NONCE_BYTES && stored[..NONCE_BYTES] == NonceAt(stream, from + i)
      && ChunkSealed(suite, occurrenceKey, context, |Chunks(bytes)|, i, Chunks(bytes)[i],
                     EntryAt(suite, occurrenceKey, context, bytes, stream, from, i), stored)
  {
    var nonce := NonceAt(stream, from + i);
    var stored := StoredAt(suite, occurrenceKey, context, bytes, stream, from, i);
    assert stored == nonce + stored[NONCE_BYTES..];
  }

  // Collecting ciphertext.

  /** The ciphertext map holds the record that the upload describes. */
  predicate UploadStored(suite: Suite, upload: UploadObject, ciphertext: map<Digest, Bytes>) {
    && upload.cipherDigest in ciphertext
    && var stored := ciphertext[upload.cipherDigest];
    && suite.hash(stored) == upload.cipherDigest
    && |stored| == upload.cipherSize && |stored| >= NONCE_BYTES
    && upload.nonce == suite.encodeNonce(stored[..NONCE_BYTES])
  }

  ghost predicate Extends(larger: map<Digest, Bytes>, smaller: map<Digest, Bytes>) {
    forall d :: d in smaller ==> d in larger && larger[d] == smaller[d]
  }

  predicate DistinctDigests(uploads: seq<UploadObject>) {
    forall i, j :: 0 <= i < j < |uploads| ==> uploads[i].cipherDigest != uploads[j].cipherDigest
  }

  ghost predicate FreshDigests(uploads: seq<UploadObject>, ciphertext: map<Digest, Bytes>) {
    forall i :: 0 <= i < |uploads| ==> uploads[i].cipherDigest !in ciphertext
  }

  ghost predicate Recorded(uploads: seq<UploadObject>, stored: seq<Bytes>, ciphertext: map<Digest, Bytes>)
    requires |uploads| <= |stored|
  {
    forall i :: 0 <= i < |uploads| ==>
      uploads[i].cipherDigest in ciphertext && ciphertext[uploads[i].cipherDigest] == stored[i]
  }

  /** The first `i` records are in under their own digests, and nothing else came in with them. */
  ghost predicate Appended(
    uploads: seq<UploadObject>, stored: seq<Bytes>, ciphertext: map<Digest, Bytes>, i: nat, result: map<Digest, Bytes>)
    requires i <= |uploads| == |stored|
  {
    AppendedKeys(uploads, ciphertext, i, result) && AppendedRecords(uploads, stored, ciphertext, i, result)
  }

  ghost predicate AppendedKeys(
    uploads: seq<UploadObject>, ciphertext: map<Digest, Bytes>, i: nat, result: map<Digest, Bytes>)
    requires i <= |uploads|
  {
    && Extends(result, ciphertext) && |result| == |ciphertext| + i
    && forall d :: d in result <==> d in ciphertext || d in FirstDigests(uploads, i)
  }

  ghost predicate AppendedRecords(
    uploads: seq<UploadObject>, stored: seq<Bytes>, ciphertext: map<Digest, Bytes>, i: nat, result: map<Digest, Bytes>)
    requires i <= |uploads| == |stored|
  {
    && (forall k :: 0 <= k < i ==> AppendedAt(uploads, stored, ciphertext, k, result))
    && DifferBefore(uploads, i)
  }

  predicate DifferBefore(uploads: seq<UploadObject>, i: nat)
    requires i <= |uploads|
  {
    forall j, k :: 0 <= j < k < i ==> uploads[j].cipherDigest != uploads[k].cipherDigest
  }

  /** The digests of the first `i` uploads. */
  function FirstDigests(uploads: seq<UploadObject>, i: nat): set<Digest>
    requires i <= |uploads|
  {
    if i == 0 then {} else FirstDigests(uploads, i - 1) + {uploads[i - 1].cipherDigest}
  }

  lemma {:induction false} FirstDigestIndex(uploads: seq<UploadObject>, i: nat, d: Digest) returns (k: nat)
    requires i <= |uploads| && d in FirstDigests(uploads, i)
    ensures k < i && uploads[k].cipherDigest == d
  {
    if uploads[i - 1].cipherDigest == d {
      k := i - 1;
    } else {
      k := FirstDigestIndex(uploads, i - 1, d);
    }
  }

  predicate AppendedAt(
    uploads: seq<UploadObject>, stored: seq<Bytes>, ciphertext: map<Digest, Bytes>, k: nat, result: map<Digest, Bytes>)
    requires k < |uploads| == |stored|
  {
    var digest := uploads[k].cipherDigest;
    digest !in ciphertext && digest in result && result[digest] == stored[k]
  }

  lemma AppendedStays(
    uploads: seq<UploadObject>, stored: seq<Bytes>, ciphertext: map<Digest, Bytes>, k: nat, result: map<Digest, Bytes>,
    digest: Digest, bytes: Bytes)
    requires k < |uploads| == |stored| && AppendedAt(uploads, stored, ciphertext, k, result) && digest !in result
    ensures AppendedAt(uploads, stored, ciphertext, k, result[digest := bytes]) && uploads[k].cipherDigest != digest
  {
  }

  /** One more digest leaves everything that was there, and nothing else new. */
  lemma OneMore(smaller: map<Digest, Bytes>, m: map<Digest, Bytes>, d: Digest, bytes: Bytes)
    requires Extends(m, smaller) && d !in m
    ensures Extends(m[d := bytes], smaller) && |m[d := bytes]| == |m| + 1
    ensures m[d := bytes].Keys == m.Keys + {d}
  {
    assert m[d := bytes].Keys == m.Keys + {d};
  }

  lemma KeysStep(
    uploads: seq<UploadObject>, ciphertext: map<Digest, Bytes>, i: nat, result: map<Digest, Bytes>, bytes: Bytes)
    requires i < |uploads| && AppendedKeys(uploads, ciphertext, i, result) && uploads[i].cipherDigest !in result
    ensures AppendedKeys(uploads, ciphertext, i + 1, result[uploads[i].cipherDigest := bytes])
  {
    var d := uploads[i].cipherDigest;
    var next := result[d := bytes];
    OneMore(ciphertext, result, d, bytes);
    forall e
      ensures e in next <==> e in ciphertext || e in FirstDigests(uploads, i + 1)
    {
      assert e in next <==> e in result || e == d;
    }
  }

  lemma RecordsStep(
    uploads: seq<UploadObject>, stored: seq<Bytes>, ciphertext: map<Digest, Bytes>, i: nat, result: map<Digest, Bytes>)
    requires i < |uploads| == |stored| && AppendedRecords(uploads, stored, ciphertext, i, result)
    requires uploads[i].cipherDigest !in result && uploads[i].cipherDigest !in ciphertext
    ensures AppendedRecords(uploads, stored, ciphertext, i + 1, result[uploads[i].cipherDigest := stored[i]])
  {
    var next := result[uploads[i].cipherDigest := stored[i]];
    forall k | 0 <= k < i
      ensures AppendedAt(uploads, stored, ciphertext, k, next) && uploads[k].cipherDigest != uploads[i].cipherDigest
    {
      AppendedStays(uploads, stored, ciphertext, k, result, uploads[i].cipherDigest, stored[i]);
    }
    assert AppendedAt(uploads, stored, ciphertext, i, next);
  }

  lemma AppendStep(
    uploads: seq<UploadObject>, stored: seq<Bytes>, ciphertext: map<Digest, Bytes>, i: nat, result: map<Digest, Bytes>)
    requires i < |uploads| == |stored| && Appended(uploads, stored, ciphertext, i, result)
    requires uploads[i].cipherDigest !in result
    ensures Appended(uploads, stored, ciphertext, i + 1, result[uploads[i].cipherDigest := stored[i]])
  {
    KeysStep(uploads, ciphertext, i, result, stored[i]);
    RecordsStep(uploads, stored, ciphertext, i, result);
  }

  /** A digest already present is the ciphertext's own or repeats an earlier upload. */
  lemma AppendRefused(
    uploads: seq<UploadObject>, stored: seq<Bytes>, ciphertext: map<Digest, Bytes>, i: nat, result: map<Digest, Bytes>)
    requires i < |uploads| == |stored| && Appended(uploads, stored, ciphertext, i, result)
    requires uploads[i].cipherDigest in result
    ensures !(DistinctDigests(uploads) && FreshDigests(uploads, ciphertext))
  {
    if uploads[i].cipherDigest !in ciphertext {
      var k := FirstDigestIndex(uploads, i, uploads[i].cipherDigest);
      assert uploads[k].cipherDigest == uploads[i].cipherDigest;
    }
  }

  /** The map after the first `i` insertions. */
  function InsertAll(uploads: seq<UploadObject>, stored: seq<Bytes>, ciphertext: map<Digest, Bytes>, i: nat)
    : map<Digest, Bytes>
    requires i <= |uploads| == |stored|
  {
    if i == 0 then ciphertext
    else InsertAll(uploads, stored, ciphertext, i - 1)[uploads[i - 1].cipherDigest := stored[i - 1]]
  }

  /** Every record of the larger map was there before or belongs to one of the uploads. */
  ghost predicate OnlyFrom(uploads: seq<UploadObject>, smaller: map<Digest, Bytes>, larger: map<Digest, Bytes>) {
    forall d :: d in larger ==> d in smaller || d in FirstDigests(uploads, |uploads|)
  }

  /** What inserting new and different digests gives. */
  ghost predicate Grown(uploads: seq<UploadObject>, stored: seq<Bytes>, smaller: map<Digest, Bytes>,
                        larger: map<Digest, Bytes>)
    requires |uploads| == |stored|
  {
    && Extends(larger, smaller) && |larger| == |smaller| + |uploads|
    && Recorded(uploads, stored, larger) && OnlyFrom(uploads, smaller, larger)
  }

  lemma AppendedAll(uploads: seq<UploadObject>, stored: seq<Bytes>, ciphertext: map<Digest, Bytes>,
                    result: map<Digest, Bytes>)
    requires |uploads| == |stored| && Appended(uploads, stored, ciphertext, |uploads|, result)
    ensures Grown(uploads, stored, ciphertext, result)
    ensures DistinctDigests(uploads) && FreshDigests(uploads, ciphertext)
  {
    forall k | 0 <= k < |uploads|
      ensures uploads[k].cipherDigest !in ciphertext
      ensures uploads[k].cipherDigest in result && result[uploads[k].cipherDigest] == stored[k]
    {
      assert AppendedAt(uploads, stored, ciphertext, k, result);
    }
  }

  /** `append_ciphertext`: insert every record under its digest, refusing a digest already present. */
  method AppendCiphertext(uploads: seq<UploadObject>, stored: seq<Bytes>, ciphertext: map<Digest, Bytes>)
    returns (r: Result<map<Digest, Bytes>>)
    requires |uploads| == |stored|
    ensures r.Ok? <==> DistinctDigests(uploads) && FreshDigests(uploads, ciphertext)
    ensures r.Ok? ==> r.value == InsertAll(uploads, stored, ciphertext, |uploads|)
    ensures r.Ok? ==> Grown(uploads, stored, ciphertext, r.value)
  {
    hide Appended, Grown;
    NothingAppended(uploads, stored, ciphertext);
    var result: map<Digest, Bytes> := ciphertext;
    for i := 0 to |uploads|
      invariant Appended(uploads, stored, ciphertext, i, result)
      invariant result == InsertAll(uploads, stored, ciphertext, i)
    {
      var digest := uploads[i].cipherDigest;
      if digest in result {
        AppendRefused(uploads, stored, ciphertext, i, result);
        return Err(ErrorCode.NonceReuse);
      }
      AppendStep(uploads, stored, ciphertext, i, result);
      result := result[digest := stored[i]];
    }
    AppendedAll(uploads, stored, ciphertext, result);
    return Ok(result);
  }

  lemma NotYetIn(
    uploads: seq<UploadObject>, stored: seq<Bytes>, ciphertext: map<Digest, Bytes>, i: nat, result: map<Digest, Bytes>)
    requires i < |uploads| == |stored| && Appended(uploads, stored, ciphertext, i, result)
    requires DistinctDigests(uploads) && FreshDigests(uploads, ciphertext)
    ensures uploads[i].cipherDigest !in result
  {
    if uploads[i].cipherDigest in result {
      AppendRefused(uploads, stored, ciphertext, i, result);
    }
  }

  lemma NewDigestAppends(
    uploads: seq<UploadObject>, stored: seq<Bytes>, ciphertext: map<Digest, Bytes>, i: nat, result: map<Digest, Bytes>)
    requires i < |uploads| == |stored| && Appended(uploads, stored, ciphertext, i, result)
    requires DistinctDigests(uploads) && FreshDigests(uploads, ciphertext)
    ensures Appended(uploads, stored, ciphertext, i + 1, result[uploads[i].cipherDigest := stored[i]])
  {
    NotYetIn(uploads, stored, ciphertext, i, result);
    AppendStep(uploads, stored, ciphertext, i, result);
  }

  /** Induction over the insertions, for any property of the position and the map. */
  lemma {:induction false} InsertInduction(uploads: seq<UploadObject>, stored: seq<Bytes>,
                                           ciphertext: map<Digest, Bytes>, i: nat,
                                           holds: (nat, map<Digest, Bytes>) -> bool)
    requires i <= |uploads| == |stored| && holds(0, ciphertext)
    requires forall k: nat, m: map<Digest, Bytes> ::
      k < |uploads| && holds(k, m) ==> holds(k + 1, m[uploads[k].cipherDigest := stored[k]])
    ensures holds(i, InsertAll(uploads, stored, ciphertext, i))
  {
    if i > 0 {
      InsertInduction(uploads, stored, ciphertext, i - 1, holds);
      assert holds(i - 1, InsertAll(uploads, stored, ciphertext, i - 1));
    }
  }

  ghost predicate AppendedTo(
    uploads: seq<UploadObject>, stored: seq<Bytes>, ciphertext: map<Digest, Bytes>, k: nat, m: map<Digest, Bytes>)
    requires |uploads| == |stored|
  {
    k <= |uploads| && Appended(uploads, stored, ciphertext, k, m)
  }

  lemma AppendedToNext(
    uploads: seq<UploadObject>, stored: seq<Bytes>, ciphertext: map<Digest, Bytes>, k: nat, m: map<Digest, Bytes>)
    requires |uploads| == |stored| && DistinctDigests(uploads) && FreshDigests(uploads, ciphertext) && k < |uploads|
    ensures
      AppendedTo(uploads, stored, ciphertext, k, m) ==>
        AppendedTo(uploads, stored, ciphertext, k + 1, m[uploads[k].cipherDigest := stored[k]])
  {
    if AppendedTo(uploads, stored, ciphertext, k, m) {
      NewDigestAppends(uploads, stored, ciphertext, k, m);
    }
  }

  lemma NothingAppended(uploads: seq<UploadObject>, stored: seq<Bytes>, ciphertext: map<Digest, Bytes>)
    requires |uploads| == |stored|
    ensures Appended(uploads, stored, ciphertext, 0, ciphertext)
      && AppendedTo(uploads, stored, ciphertext, 0, ciphertext)
    ensures InsertAll(uploads, stored, ciphertext, 0) == ciphertext
  {
  }

  lemma InsertAllAppends(uploads: seq<UploadObject>, stored: seq<Bytes>, ciphertext: map<Digest, Bytes>)
    requires |uploads| == |stored| && DistinctDigests(uploads) && FreshDigests(uploads, ciphertext)
    ensures AppendedTo(uploads, stored, ciphertext, |uploads|, InsertAll(uploads, stored, ciphertext, |uploads|))
  {
    hide AppendedTo, InsertAll;
    NothingAppended(uploads, stored, ciphertext);
    var holds := (k: nat, m: map<Digest, Bytes>) => AppendedTo(uploads, stored, ciphertext, k, m);
    forall k: nat, m: map<Digest, Bytes> | k < |uploads|
      ensures holds(k, m) ==> holds(k + 1, m[uploads[k].cipherDigest := stored[k]])
    {
      AppendedToNext(uploads, stored, ciphertext, k, m);
    }
    InsertInduction(uploads, stored, ciphertext, |uploads|, holds);
  }

  /** The specified insertion gives what the loop gives. */
  lemma InsertAllGrows(uploads: seq<UploadObject>, stored: seq<Bytes>, ciphertext: map<Digest, Bytes>)
    requires |uploads| == |stored| && DistinctDigests(uploads) && FreshDigests(uploads, ciphertext)
    ensures Grown(uploads, stored, ciphertext, InsertAll(uploads, stored, ciphertext, |uploads|))
  {
    InsertAllAppends(uploads, stored, ciphertext);
    AppendedAll(uploads, stored, ciphertext, InsertAll(uploads, stored, ciphertext, |uploads|));
  }
}
