/** Opening a capture from its envelope, the keys and the ciphertext alone. */
module Opening {
  import opened Prelude
  import opened Capsule
  import opened SealModel
  import opened Sealing
  import opened SealUpload

  datatype OpenedCapture = OpenedCapture(manifest: CaptureBatchManifest, objects: map<ObjectId, Bytes>)

  function EnvelopeContext(envelope: UploadEnvelope, objectId: ObjectId, role: LogicalObjectRole): ObjectKeyContext {
    ObjectKeyContext(envelope.captureId, objectId, envelope.organizationId, envelope.processingMode, envelope.projectId,
                     role, envelope.serviceId)
  }

  /** `decrypt_chunk`: framing checks, then authenticated decryption. */
  function DecryptChunk(suite: Suite, chunkKey: Key, stored: Bytes, context: ChunkKeyContext): Option<Bytes> {
    if !ValidChunkContext(context) || !(CHUNK_OVERHEAD <= |stored| <= CHUNK_BYTES + CHUNK_OVERHEAD)
      || context.plainSize + CHUNK_OVERHEAD != |stored|
    then None
    else suite.aeadOpen(chunkKey, stored[..NONCE_BYTES], stored[NONCE_BYTES..], context)
  }

  /** One chunk of an object, with the context rebuilt from the envelope and the chunk entry. */
  function OpenChunk(suite: Suite, occurrenceKey: Key, context: ObjectKeyContext, count: nat, chunk: EncryptedChunk,
                     ciphertext: map<Digest, Bytes>): Option<Bytes>
  {
    if chunk.cipherDigest !in ciphertext || chunk.cipherSize < CHUNK_OVERHEAD then None
    else
      var chunkContext := ChunkKeyContext(count, chunk.index, suite.objectContextDigest(context),
                                          chunk.cipherSize - CHUNK_OVERHEAD);
      DecryptChunk(suite, suite.chunkKey(suite.objectKey(occurrenceKey, context), chunkContext),
                   ciphertext[chunk.cipherDigest], chunkContext)
  }

  function OpenChunks(suite: Suite, occurrenceKey: Key, context: ObjectKeyContext, count: nat,
                      chunks: seq<EncryptedChunk>, ciphertext: map<Digest, Bytes>): Option<Bytes>
  {
    if chunks == [] then Some([])
    else
      var first := OpenChunk(suite, occurrenceKey, context, count, chunks[0], ciphertext);
      var rest := OpenChunks(suite, occurrenceKey, context, count, chunks[1..], ciphertext);
      if first.None? || rest.None? then None else Some(first.value + rest.value)
  }

  /** `decrypt_object`. */
  function OpenObject(suite: Suite, envelope: UploadEnvelope, occurrenceKey: Key, item: EncryptedObject,
                      ciphertext: map<Digest, Bytes>): Option<Bytes>
  {
    var context := EnvelopeContext(envelope, item.descriptor.objectId, item.descriptor.role);
    var bytes := OpenChunks(suite, occurrenceKey, context, |item.chunks|, item.chunks, ciphertext);
    if bytes.Some? && DescribesBytes(suite, item.descriptor, bytes.value) then bytes else None
  }

  /** The record is the one the upload describes, nonce prefix included. */
  predicate UploadMatches(suite: Suite, upload: UploadObject, ciphertext: map<Digest, Bytes>) {
    && upload.cipherDigest in ciphertext
    && var stored := ciphertext[upload.cipherDigest];
    && suite.hash(stored) == upload.cipherDigest
    && |stored| == upload.cipherSize && |stored| >= NONCE_BYTES
    && suite.decodeNonce(upload.nonce) == Some(stored[..NONCE_BYTES])
  }

  /** `validate_ciphertext_closure`: the map holds the manifest record and the listed uploads, nothing else. */
  predicate CiphertextClosed(suite: Suite, envelope: UploadEnvelope, ciphertext: map<Digest, Bytes>) {
    var uploads := [envelope.manifestObject.upload] + envelope.objects;
    && DistinctDigests(uploads)
    && |uploads| == |ciphertext|
    && forall i :: 0 <= i < |uploads| ==> UploadMatches(suite, uploads[i], ciphertext)
  }

  predicate EnvelopeBindsManifest(envelope: UploadEnvelope, manifest: CaptureBatchManifest) {
    && manifest.captureId == envelope.captureId
    && manifest.organizationId == envelope.organizationId
    && manifest.processingMode == envelope.processingMode
    && manifest.projectId == envelope.projectId
    && manifest.serviceId == envelope.serviceId
    && manifest.profile == envelope.profile
    && manifest.profileFormat == envelope.profileFormat
    && manifest.proofDigests == envelope.proofDigests
    && manifest.replayCapsuleDigest == envelope.replayCapsuleDigest
    && manifest.requiredCapabilities == envelope.requiredCapabilities
    && manifest.sourceRevision == envelope.sourceRevision
  }

  /** `open_manifest`. */
  function OpenManifest(suite: Suite, envelope: UploadEnvelope, verificationKey: Key, occurrenceKey: Key, stored: Bytes)
    : Option<CaptureBatchManifest>
  {
    var upload := envelope.manifestObject.upload;
    if !ValidEnvelope(suite, envelope) || !suite.verify(verificationKey, envelope.(signature := ""), envelope.signature)
      || !UploadMatches(suite, upload, map[upload.cipherDigest := stored])
      || upload.cipherSize < CHUNK_OVERHEAD
    then None
    else
      var context := EnvelopeContext(envelope, envelope.manifestObject.objectId, CaptureBatchManifestRole);
      var chunkContext := ChunkKeyContext(1, 0, suite.objectContextDigest(context), upload.cipherSize - CHUNK_OVERHEAD);
      var bytes := DecryptChunk(suite, suite.chunkKey(suite.objectKey(occurrenceKey, context), chunkContext), stored,
                                chunkContext);
      if bytes.None? then None
      else
        var manifest := suite.parseManifest(bytes.value);
        if manifest.Some?
          && ManifestBound(suite, manifest.value, envelope.manifestObject, envelope.replayCapsuleDigest)
          && EnvelopeBindsManifest(envelope, manifest.value)
          && SortUploads(FlatUploads(manifest.value.objects)) == envelope.objects
        then manifest else None
  }

  /** The opening loop: objects in manifest order, refusing a repeated id. */
  function OpenObjects(suite: Suite, envelope: UploadEnvelope, occurrenceKey: Key, items: seq<EncryptedObject>,
                       ciphertext: map<Digest, Bytes>, done: map<ObjectId, Bytes>): Option<map<ObjectId, Bytes>>
  {
    if items == [] then Some(done)
    else
      var bytes := OpenObject(suite, envelope, occurrenceKey, items[0], ciphertext);
      if bytes.None? || items[0].descriptor.objectId in done then None
      else OpenObjects(suite, envelope, occurrenceKey, items[1..], ciphertext,
                       done[items[0].descriptor.objectId := bytes.value])
  }

  /** `open_capture`. */
  function OpenCapture(suite: Suite, envelope: UploadEnvelope, verificationKey: Key, occurrenceKey: Key,
                       ciphertext: map<Digest, Bytes>): Option<OpenedCapture>
  {
    if !ValidEnvelope(suite, envelope) || !CiphertextClosed(suite, envelope, ciphertext) then None
    else
      assert UploadMatches(suite, ([envelope.manifestObject.upload] + envelope.objects)[0], ciphertext);
      var stored := ciphertext[envelope.manifestObject.upload.cipherDigest];
      var manifest := OpenManifest(suite, envelope, verificationKey, occurrenceKey, stored);
      if manifest.None? then None
      else
        var objects := OpenObjects(suite, envelope, occurrenceKey, manifest.value.objects, ciphertext, map[]);
        if objects.None? then None else Some(OpenedCapture(manifest.value, objects.value))
  }

  // What a successful opening guarantees, whoever made the capture.

  /** The map holds the manifest record and the listed uploads, each as listed, and nothing else. */
  predicate HoldsListed(suite: Suite, envelope: UploadEnvelope, ciphertext: map<Digest, Bytes>) {
    var listed := [envelope.manifestObject.upload] + envelope.objects;
    && (forall i, j :: 0 <= i < j < |listed| ==> listed[i].cipherDigest != listed[j].cipherDigest)
    && ciphertext.Keys == (set upload | upload in listed :: upload.cipherDigest)
    && forall i :: 0 <= i < |listed| ==> RecordAsListed(suite, listed[i], ciphertext)
  }

  predicate RecordAsListed(suite: Suite, upload: UploadObject, ciphertext: map<Digest, Bytes>) {
    && upload.cipherDigest in ciphertext
    && var stored := ciphertext[upload.cipherDigest];
    && suite.hash(stored) == upload.cipherDigest
    && |stored| == upload.cipherSize && 12 <= |stored|
    && suite.decodeNonce(upload.nonce) == Some(stored[..12])
  }

  /** The record decrypts to `plain` under the context of chunk `index` of `count` of this object of this capture. */
  predicate RecordOpens(suite: Suite, envelope: UploadEnvelope, occurrenceKey: Key, objectId: ObjectId,
                        role: LogicalObjectRole, count: nat, index: nat, stored: Bytes, plain: Bytes)
  {
    && index < count <= 32_767
    && 28 <= |stored| <= 8_388_636
    && var context := ObjectKeyContext(envelope.captureId, objectId, envelope.organizationId, envelope.processingMode,
                                       envelope.projectId, role, envelope.serviceId);
    && var chunkContext := ChunkKeyContext(count, index, suite.objectContextDigest(context), |stored| - 28);
    && suite.aeadOpen(suite.chunkKey(suite.objectKey(occurrenceKey, context), chunkContext), stored[..12],
                      stored[12..], chunkContext) == Some(plain)
  }

  /** The manifest was read from the manifest record. */
  ghost predicate ManifestRead(suite: Suite, envelope: UploadEnvelope, occurrenceKey: Key,
                               ciphertext: map<Digest, Bytes>, manifest: CaptureBatchManifest)
  {
    && envelope.manifestObject.upload.cipherDigest in ciphertext
    && exists plain :: suite.parseManifest(plain) == Some(manifest)
         && RecordOpens(suite, envelope, occurrenceKey, envelope.manifestObject.objectId, CaptureBatchManifestRole, 1,
                        0, ciphertext[envelope.manifestObject.upload.cipherDigest], plain)
  }

  /** The manifest is valid, agrees with the envelope field by field and lists exactly its uploads. */
  predicate ManifestAgrees(suite: Suite, envelope: UploadEnvelope, manifest: CaptureBatchManifest) {
    && ValidManifest(suite, manifest)
    && manifest.captureId == envelope.captureId
    && manifest.organizationId == envelope.organizationId && manifest.projectId == envelope.projectId
    && manifest.serviceId == envelope.serviceId && manifest.processingMode == envelope.processingMode
    && manifest.profile == envelope.profile && manifest.profileFormat == envelope.profileFormat
    && manifest.proofDigests == envelope.proofDigests
    && manifest.replayCapsuleDigest == envelope.replayCapsuleDigest
    && manifest.requiredCapabilities == envelope.requiredCapabilities
    && manifest.sourceRevision == envelope.sourceRevision
    && (forall item :: item in manifest.objects ==> item.descriptor.objectId != envelope.manifestObject.objectId)
    && multiset(FlatUploads(manifest.objects)) == multiset(envelope.objects)
    && forall i :: 0 < i < |envelope.objects| ==> UploadBefore(envelope.objects[i - 1], envelope.objects[i])
  }

  /** These bytes are the item's: its records decrypt to them in order, and its descriptor describes them. */
  ghost predicate ItemReturned(suite: Suite, envelope: UploadEnvelope, occurrenceKey: Key,
                               ciphertext: map<Digest, Bytes>, item: EncryptedObject, bytes: Bytes)
  {
    && suite.hash(bytes) == item.descriptor.plainDigest && |bytes| == item.descriptor.plainSize
    && exists pieces: seq<Bytes> :: Concat(pieces) == bytes
         && PiecesOpened(suite, envelope, occurrenceKey, ciphertext, item, |item.chunks|, item.chunks, pieces)
  }

  predicate PiecesOpened(suite: Suite, envelope: UploadEnvelope, occurrenceKey: Key, ciphertext: map<Digest, Bytes>,
                         item: EncryptedObject, count: nat, chunks: seq<EncryptedChunk>, pieces: seq<Bytes>)
  {
    && |pieces| == |chunks|
    && forall k :: 0 <= k < |chunks| ==>
         && chunks[k].cipherDigest in ciphertext
         && |ciphertext[chunks[k].cipherDigest]| == chunks[k].cipherSize
         && RecordOpens(suite, envelope, occurrenceKey, item.descriptor.objectId, item.descriptor.role, count,
                        chunks[k].index, ciphertext[chunks[k].cipherDigest], pieces[k])
  }

  /** One entry for every object of the manifest, with that object's bytes. */
  ghost predicate ObjectsReturned(suite: Suite, envelope: UploadEnvelope, occurrenceKey: Key,
                                  ciphertext: map<Digest, Bytes>, items: seq<EncryptedObject>,
                                  objects: map<ObjectId, Bytes>)
  {
    && objects.Keys == (set item | item in items :: item.descriptor.objectId)
    && forall item :: item in items ==>
         && item.descriptor.objectId in objects
         && ItemReturned(suite, envelope, occurrenceKey, ciphertext, item, objects[item.descriptor.objectId])
  }

  /** The envelope attests three runs, and its batch digest is that of its records. */
  predicate EnvelopeAttests(suite: Suite, envelope: UploadEnvelope) {
    && envelope.runCount == 3 && |envelope.proofDigests| == 3
    && (forall i, j :: 0 <= i < j < 3 ==> envelope.proofDigests[i] != envelope.proofDigests[j])
    && envelope.cipherSuite == "AES-256-GCM+HKDF-SHA-256"
    && envelope.captureBatchDigest == suite.identityDigest(
         CaptureBatchIdentity(envelope.captureId, envelope.cipherSuite, envelope.manifestObject, envelope.objects,
                              envelope.processingMode))
  }

  ghost predicate Authentic(suite: Suite, envelope: UploadEnvelope, verificationKey: Key, occurrenceKey: Key,
                            ciphertext: map<Digest, Bytes>, result: OpenedCapture)
  {
    && ValidEnvelope(suite, envelope) && EnvelopeAttests(suite, envelope)
    && suite.verify(verificationKey, envelope.(signature := ""), envelope.signature)
    && HoldsListed(suite, envelope, ciphertext)
    && ManifestRead(suite, envelope, occurrenceKey, ciphertext, result.manifest)
    && ManifestAgrees(suite, envelope, result.manifest)
    && ObjectsReturned(suite, envelope, occurrenceKey, ciphertext, result.manifest.objects, result.objects)
  }

  lemma {:induction false} DigestsCounted(uploads: seq<UploadObject>)
    requires DistinctDigests(uploads)
    ensures |set upload | upload in uploads :: upload.cipherDigest| == |uploads|
  {
    if uploads != [] {
      var init := uploads[..|uploads| - 1];
      var last := uploads[|uploads| - 1];
      DigestsCounted(init);
      assert (set upload | upload in uploads :: upload.cipherDigest)
        == (set upload | upload in init :: upload.cipherDigest) + {last.cipherDigest} by {
        assert uploads == init + [last];
      }
      assert last.cipherDigest !in (set upload | upload in init :: upload.cipherDigest);
    }
  }

  lemma ClosedHoldsListed(suite: Suite, envelope: UploadEnvelope, ciphertext: map<Digest, Bytes>)
    requires CiphertextClosed(suite, envelope, ciphertext)
    ensures HoldsListed(suite, envelope, ciphertext)
  {
    var listed := [envelope.manifestObject.upload] + envelope.objects;
    var digests := set upload | upload in listed :: upload.cipherDigest;
    DigestsCounted(listed);
    assert digests <= ciphertext.Keys;
    SubsetOfSameSize(digests, ciphertext.Keys);
  }

  lemma SubsetOfSameSize<T>(a: set<T>, b: set<T>)
    requires a <= b && |a| == |b|
    ensures a == b
  {
    assert |b - a| == |b| - |a|;
  }

  lemma OpenedManifestAgrees(suite: Suite, envelope: UploadEnvelope, verificationKey: Key, occurrenceKey: Key,
                             ciphertext: map<Digest, Bytes>)
    requires envelope.manifestObject.upload.cipherDigest in ciphertext
    requires OpenManifest(suite, envelope, verificationKey, occurrenceKey,
                          ciphertext[envelope.manifestObject.upload.cipherDigest]).Some?
    ensures
      var manifest := OpenManifest(suite, envelope, verificationKey, occurrenceKey,
                                   ciphertext[envelope.manifestObject.upload.cipherDigest]).value;
      && suite.verify(verificationKey, envelope.(signature := ""), envelope.signature)
      && ManifestRead(suite, envelope, occurrenceKey, ciphertext, manifest)
      && ManifestAgrees(suite, envelope, manifest)
  {
    hide ValidManifest, FlatUploads, SortUploads, UploadBefore, CipherBytes, ValidUpload;
    var manifest := OpenManifest(suite, envelope, verificationKey, occurrenceKey,
                                 ciphertext[envelope.manifestObject.upload.cipherDigest]).value;
    SortUploadsMultiset(FlatUploads(manifest.objects));
  }

  lemma {:induction false} ChunksOpened(suite: Suite, envelope: UploadEnvelope, occurrenceKey: Key,
                                        ciphertext: map<Digest, Bytes>, item: EncryptedObject, count: nat,
                                        chunks: seq<EncryptedChunk>) returns (pieces: seq<Bytes>)
    requires OpenChunks(suite, occurrenceKey,
                        EnvelopeContext(envelope, item.descriptor.objectId, item.descriptor.role), count, chunks,
                        ciphertext).Some?
    ensures PiecesOpened(suite, envelope, occurrenceKey, ciphertext, item, count, chunks, pieces)
    ensures Some(Concat(pieces)) == OpenChunks(suite, occurrenceKey,
      EnvelopeContext(envelope, item.descriptor.objectId, item.descriptor.role), count, chunks, ciphertext)
  {
    if chunks == [] {
      return [];
    }
    var context := EnvelopeContext(envelope, item.descriptor.objectId, item.descriptor.role);
    var rest := ChunksOpened(suite, envelope, occurrenceKey, ciphertext, item, count, chunks[1..]);
    var first := OpenChunk(suite, occurrenceKey, context, count, chunks[0], ciphertext).value;
    pieces := [first] + rest;
    assert pieces[1..] == rest;
    forall k | 0 <= k < |chunks|
      ensures
        && chunks[k].cipherDigest in ciphertext
        && |ciphertext[chunks[k].cipherDigest]| == chunks[k].cipherSize
        && RecordOpens(suite, envelope, occurrenceKey, item.descriptor.objectId, item.descriptor.role, count,
                       chunks[k].index, ciphertext[chunks[k].cipherDigest], pieces[k])
    {
      if k > 0 {
        assert chunks[k] == chunks[1..][k - 1] && pieces[k] == rest[k - 1];
      }
    }
  }

  lemma OpenedItemReturned(suite: Suite, envelope: UploadEnvelope, occurrenceKey: Key, ciphertext: map<Digest, Bytes>,
                           item: EncryptedObject)
    requires OpenObject(suite, envelope, occurrenceKey, item, ciphertext).Some?
    ensures ItemReturned(suite, envelope, occurrenceKey, ciphertext, item,
                         OpenObject(suite, envelope, occurrenceKey, item, ciphertext).value)
  {
    var _ := ChunksOpened(suite, envelope, occurrenceKey, ciphertext, item, |item.chunks|, item.chunks);
  }

  lemma {:induction false} OpenedItemsReturned(suite: Suite, envelope: UploadEnvelope, occurrenceKey: Key,
                                               ciphertext: map<Digest, Bytes>, items: seq<EncryptedObject>,
                                               done: map<ObjectId, Bytes>)
    requires OpenObjects(suite, envelope, occurrenceKey, items, ciphertext, done).Some?
    ensures
      var objects := OpenObjects(suite, envelope, occurrenceKey, items, ciphertext, done).value;
      && objects.Keys == done.Keys + (set item | item in items :: item.descriptor.objectId)
      && (forall id :: id in done ==> objects[id] == done[id])
      && forall item :: item in items ==>
           && item.descriptor.objectId in objects
           && ItemReturned(suite, envelope, occurrenceKey, ciphertext, item, objects[item.descriptor.objectId])
  {
    hide OpenObject, ItemReturned, PiecesOpened;
    if items != [] {
      var id := items[0].descriptor.objectId;
      var bytes := OpenObject(suite, envelope, occurrenceKey, items[0], ciphertext).value;
      OpenedItemReturned(suite, envelope, occurrenceKey, ciphertext, items[0]);
      OpenedItemsReturned(suite, envelope, occurrenceKey, ciphertext, items[1..], done[id := bytes]);
      assert items == [items[0]] + items[1..];
    }
  }

  lemma ValidAttests(suite: Suite, envelope: UploadEnvelope)
    requires ValidEnvelope(suite, envelope)
    ensures EnvelopeAttests(suite, envelope)
  {
    hide ValidIdentity, ValidCapabilities;
  }

  /** The steps of an opening that succeeded. */
  lemma OpenedSteps(suite: Suite, envelope: UploadEnvelope, verificationKey: Key, occurrenceKey: Key,
                    ciphertext: map<Digest, Bytes>)
    requires OpenCapture(suite, envelope, verificationKey, occurrenceKey, ciphertext).Some?
    ensures ValidEnvelope(suite, envelope) && CiphertextClosed(suite, envelope, ciphertext)
    ensures envelope.manifestObject.upload.cipherDigest in ciphertext
    ensures
      var result := OpenCapture(suite, envelope, verificationKey, occurrenceKey, ciphertext).value;
      var stored := ciphertext[envelope.manifestObject.upload.cipherDigest];
      && OpenManifest(suite, envelope, verificationKey, occurrenceKey, stored) == Some(result.manifest)
      && OpenObjects(suite, envelope, occurrenceKey, result.manifest.objects, ciphertext, map[]) == Some(result.objects)
  {
    hide ValidEnvelope, OpenManifest, OpenObjects;
    assert CiphertextClosed(suite, envelope, ciphertext);
    assert UploadMatches(suite, ([envelope.manifestObject.upload] + envelope.objects)[0], ciphertext);
  }

  /** Opening returns only a signed, closed capture whose manifest and objects are the ones described. */
  lemma OpenedIsAuthentic(suite: Suite, envelope: UploadEnvelope, verificationKey: Key, occurrenceKey: Key,
                          ciphertext: map<Digest, Bytes>)
    requires OpenCapture(suite, envelope, verificationKey, occurrenceKey, ciphertext).Some?
    ensures Authentic(suite, envelope, verificationKey, occurrenceKey, ciphertext,
                      OpenCapture(suite, envelope, verificationKey, occurrenceKey, ciphertext).value)
  {
    hide OpenCapture, ValidEnvelope, EnvelopeAttests, OpenManifest, OpenObjects, HoldsListed, ManifestRead,
      ManifestAgrees, ItemReturned, CiphertextClosed;
    OpenedSteps(suite, envelope, verificationKey, occurrenceKey, ciphertext);
    ValidAttests(suite, envelope);
    ClosedHoldsListed(suite, envelope, ciphertext);
    OpenedManifestAgrees(suite, envelope, verificationKey, occurrenceKey, ciphertext);
    var result := OpenCapture(suite, envelope, verificationKey, occurrenceKey, ciphertext).value;
    OpenedItemsReturned(suite, envelope, occurrenceKey, ciphertext, result.manifest.objects, map[]);
  }

  // The loops.

  lemma {:induction false} OpenChunksAppend(suite: Suite, occurrenceKey: Key, context: ObjectKeyContext, count: nat,
                                            chunks: seq<EncryptedChunk>, last: EncryptedChunk,
                                            ciphertext: map<Digest, Bytes>)
    ensures
      var init := OpenChunks(suite, occurrenceKey, context, count, chunks, ciphertext);
      var end := OpenChunk(suite, occurrenceKey, context, count, last, ciphertext);
      OpenChunks(suite, occurrenceKey, context, count, chunks + [last], ciphertext)
        == if init.Some? && end.Some? then Some(init.value + end.value) else None
  {
    var end := OpenChunk(suite, occurrenceKey, context, count, last, ciphertext);
    if chunks == [] {
      assert (chunks + [last])[1..] == [];
      if end.Some? {
        assert end.value + [] == [] + end.value;
      }
    } else {
      OpenChunksAppend(suite, occurrenceKey, context, count, chunks[1..], last, ciphertext);
      assert (chunks + [last])[1..] == chunks[1..] + [last];
      var first := OpenChunk(suite, occurrenceKey, context, count, chunks[0], ciphertext);
      var rest := OpenChunks(suite, occurrenceKey, context, count, chunks[1..], ciphertext);
      if first.Some? && rest.Some? && end.Some? {
        assert first.value + (rest.value + end.value) == (first.value + rest.value) + end.value;
      }
    }
  }

  lemma {:induction false} OpenChunksStops(suite: Suite, occurrenceKey: Key, context: ObjectKeyContext, count: nat,
                                           chunks: seq<EncryptedChunk>, n: nat, ciphertext: map<Digest, Bytes>)
    requires n <= |chunks| && OpenChunks(suite, occurrenceKey, context, count, chunks[..n], ciphertext).None?
    ensures OpenChunks(suite, occurrenceKey, context, count, chunks, ciphertext).None?
  {
    if n > 0 && OpenChunk(suite, occurrenceKey, context, count, chunks[0], ciphertext).Some? {
      assert chunks[..n][1..] == chunks[1..][..n - 1];
      OpenChunksStops(suite, occurrenceKey, context, count, chunks[1..], n - 1, ciphertext);
    }
  }

  /** The decrypting loop, which grows one plaintext buffer. */
  method DecryptObject(suite: Suite, envelope: UploadEnvelope, occurrenceKey: Key, item: EncryptedObject,
                       ciphertext: map<Digest, Bytes>)
    returns (r: Result<Bytes>)
    ensures r.Ok? <==> OpenObject(suite, envelope, occurrenceKey, item, ciphertext).Some?
    ensures r.Ok? ==> OpenObject(suite, envelope, occurrenceKey, item, ciphertext) == Some(r.value)
    ensures r.Ok? ==> ItemReturned(suite, envelope, occurrenceKey, ciphertext, item, r.value)
  {
    hide ItemReturned;
    var context := EnvelopeContext(envelope, item.descriptor.objectId, item.descriptor.role);
    var plaintext: Bytes := [];
    for i := 0 to |item.chunks|
      invariant OpenChunks(suite, occurrenceKey, context, |item.chunks|, item.chunks[..i], ciphertext)
        == Some(plaintext)
    {
      assert item.chunks[..i + 1] == item.chunks[..i] + [item.chunks[i]];
      OpenChunksAppend(suite, occurrenceKey, context, |item.chunks|, item.chunks[..i], item.chunks[i], ciphertext);
      var bytes := OpenChunk(suite, occurrenceKey, context, |item.chunks|, item.chunks[i], ciphertext);
      if bytes.None? {
        OpenChunksStops(suite, occurrenceKey, context, |item.chunks|, item.chunks, i + 1, ciphertext);
        return Err(DecryptionAuthentication);
      }
      plaintext := plaintext + bytes.value;
    }
    assert item.chunks[..|item.chunks|] == item.chunks;
    if DescribesBytes(suite, item.descriptor, plaintext) {
      OpenedItemReturned(suite, envelope, occurrenceKey, ciphertext, item);
    }
    return if DescribesBytes(suite, item.descriptor, plaintext) then Ok(plaintext)
      else Err(ErrorCode.ObjectDigestMismatch);
  }

  /** The expected map grows by one entry per upload, or a digest repeats. */
  method CountExpected(uploads: seq<UploadObject>) returns (count: Option<nat>)
    ensures count == if DistinctDigests(uploads) then Some(|uploads|) else None
  {
    var expected: set<Digest> := {};
    for i := 0 to |uploads|
      invariant |expected| == i
      invariant forall k :: 0 <= k < i ==> uploads[k].cipherDigest in expected
      invariant forall d :: d in expected ==> exists k :: 0 <= k < i && uploads[k].cipherDigest == d
      invariant forall j, k :: 0 <= j < k < i ==> uploads[j].cipherDigest != uploads[k].cipherDigest
    {
      var digest := uploads[i].cipherDigest;
      if digest in expected {
        return None;
      }
      expected := expected + {digest};
    }
    return Some(|expected|);
  }

  method ValidateCiphertextClosure(suite: Suite, envelope: UploadEnvelope, ciphertext: map<Digest, Bytes>)
    returns (r: Result<Unit>)
    ensures r.Ok? <==> ValidEnvelope(suite, envelope) && CiphertextClosed(suite, envelope, ciphertext)
  {
    if !ValidEnvelope(suite, envelope) {
      return Err(SchemaInvalid);
    }
    var uploads := [envelope.manifestObject.upload] + envelope.objects;
    var count := CountExpected(uploads);
    if count.None? {
      return Err(SchemaInvalid);
    }
    if count.value != |ciphertext| {
      return Err(ErrorCode.ObjectDigestMismatch);
    }
    for i := 0 to |uploads|
      invariant forall k :: 0 <= k < i ==> UploadMatches(suite, uploads[k], ciphertext)
    {
      if !UploadMatches(suite, uploads[i], ciphertext) {
        return Err(ErrorCode.ObjectDigestMismatch);
      }
    }
    return Ok(Unit);
  }

  method OpenSealedCapture(suite: Suite, envelope: UploadEnvelope, verificationKey: Key, occurrenceKey: Key,
                           ciphertext: map<Digest, Bytes>)
    returns (r: Result<OpenedCapture>)
    ensures r.Ok? <==> OpenCapture(suite, envelope, verificationKey, occurrenceKey, ciphertext).Some?
    ensures r.Ok? ==> OpenCapture(suite, envelope, verificationKey, occurrenceKey, ciphertext) == Some(r.value)
    ensures r.Ok? ==> Authentic(suite, envelope, verificationKey, occurrenceKey, ciphertext, r.value)
  {
    hide Authentic, ValidEnvelope, OpenManifest, OpenObject, ItemReturned;
    var closed := ValidateCiphertextClosure(suite, envelope, ciphertext);
    if closed.Err? {
      return Err(closed.error);
    }
    assert UploadMatches(suite, ([envelope.manifestObject.upload] + envelope.objects)[0], ciphertext);
    var manifest := OpenManifest(suite, envelope, verificationKey, occurrenceKey,
                                 ciphertext[envelope.manifestObject.upload.cipherDigest]);
    if manifest.None? {
      return Err(ErrorCode.ObjectDigestMismatch);
    }
    var items := manifest.value.objects;
    var objects: map<ObjectId, Bytes> := map[];
    for i := 0 to |items|
      invariant OpenObjects(suite, envelope, occurrenceKey, items, ciphertext, map[])
             == OpenObjects(suite, envelope, occurrenceKey, items[i..], ciphertext, objects)
    {
      var bytes := DecryptObject(suite, envelope, occurrenceKey, items[i], ciphertext);
      assert items[i..][1..] == items[i + 1..];
      if bytes.Err? {
        return Err(bytes.error);
      }
      if items[i].descriptor.objectId in objects {
        return Err(SchemaInvalid);
      }
      objects := objects[items[i].descriptor.objectId := bytes.value];
    }
    OpenedIsAuthentic(suite, envelope, verificationKey, occurrenceKey, ciphertext);
    return Ok(OpenedCapture(manifest.value, objects));
  }
}
