/** Opening a managed candidate as a stream: chunk by chunk, straight into a consumer. */
module ManagedCandidate {
  import opened Prelude
  import opened Capsule
  import opened SealModel
  import opened Sealing
  import opened Opening

  datatype CiphertextIdentity = CiphertextIdentity(
    candidateIdentityDigest: Digest, candidateKeyReference: string, captureId: nat,
    manifestObject: ManifestUploadObject, objects: seq<EncryptedObject>, organizationId: nat,
    processingMode: ProcessingMode, projectId: nat, requiredCapabilities: seq<string>, serviceId: nat,
    totalCiphertextBytes: nat)

  datatype CandidateManifest = CandidateManifest(
    candidateIdentityDigest: Digest, candidateKeyReference: string, captureId: nat, objects: seq<LogicalObject>,
    organizationId: nat, processingMode: ProcessingMode, projectId: nat, requiredCapabilities: seq<string>,
    serviceId: nat)

  /**
   * The manifest decoder (strict parsing and the document's own validation)
   * and the identity checks on roles and media types, which the stream does not depend on.
   */
  datatype CandidateFormat = CandidateFormat(
    parse: Bytes -> Option<CandidateManifest>, rolesValid: CiphertextIdentity -> bool)

  predicate FreshNonces(uploads: seq<UploadObject>) {
    forall i, j :: 0 <= i < j < |uploads| ==> uploads[i].nonce != uploads[j].nonce
  }

  /** `ManagedCandidateCiphertextIdentity::validate`. */
  predicate ValidCiphertextIdentity(format: CandidateFormat, identity: CiphertextIdentity) {
    && identity.processingMode == Managed
    && 5 <= |identity.objects|
    && ValidUpload(identity.manifestObject.upload)
    && (forall i, j :: 0 <= i < j < |identity.objects| ==>
          identity.objects[i].descriptor.objectId < identity.objects[j].descriptor.objectId)
    && (forall i :: 0 <= i < |identity.objects| ==>
          && ValidObject(identity.objects[i].descriptor)
          && ValidChunks(identity.objects[i].chunks)
          && identity.objects[i].descriptor.objectId != identity.manifestObject.objectId)
    && FreshNonces([identity.manifestObject.upload] + FlatUploads(identity.objects))
    && 1 + TotalChunks(identity.objects) <= 32_768
    && identity.totalCiphertextBytes
       == identity.manifestObject.upload.cipherSize + CipherBytes(FlatUploads(identity.objects))
    && format.rolesValid(identity)
  }

  function CandidateContext(identity: CiphertextIdentity, objectId: ObjectId,
                            role: LogicalObjectRole): ObjectKeyContext {
    ObjectKeyContext(identity.captureId, objectId, identity.organizationId, Managed, identity.projectId, role,
                     identity.serviceId)
  }

  predicate ManifestBinds(manifest: CandidateManifest, identity: CiphertextIdentity) {
    && manifest.candidateIdentityDigest == identity.candidateIdentityDigest
    && manifest.candidateKeyReference == identity.candidateKeyReference
    && manifest.captureId == identity.captureId
    && manifest.organizationId == identity.organizationId
    && manifest.processingMode == identity.processingMode
    && manifest.projectId == identity.projectId
    && manifest.requiredCapabilities == identity.requiredCapabilities
    && manifest.serviceId == identity.serviceId
    && |manifest.objects| == |identity.objects|
    && forall i :: 0 <= i < |manifest.objects| ==> manifest.objects[i] == identity.objects[i].descriptor
  }

  /** One call of the consumer. */
  datatype Delivery = Delivery(descriptor: LogicalObject, index: nat, bytes: Bytes)

  /** The caller's consumer: it sees deliveries in order and may refuse any of them. */
  class Consumer {
    const accepts: nat -> bool
    var log: seq<Delivery>

    constructor (accepts: nat -> bool)
      ensures this.accepts == accepts && log == []
    {
      this.accepts := accepts;
      log := [];
    }

    method Consume(descriptor: LogicalObject, index: nat, bytes: Bytes) returns (r: Result<Unit>)
      modifies this
      ensures log == old(log) + [Delivery(descriptor, index, bytes)]
      ensures r.Ok? <==> accepts(|old(log)|)
    {
      r := if accepts(|log|) then Ok(Unit) else Err(ErrorCode.ServiceUnavailable);
      log := log + [Delivery(descriptor, index, bytes)];
    }
  }

  /** Every byte delivered for one object, in delivery order. */
  function BytesOf(log: seq<Delivery>, id: ObjectId): Bytes {
    if log == [] then []
    else (if log[0].descriptor.objectId == id then log[0].bytes else []) + BytesOf(log[1..], id)
  }

  lemma Associates<T>(a: seq<T>, b: seq<T>, c: seq<T>)
    ensures a + (b + c) == (a + b) + c
  {
  }

  function FirstBytes(log: seq<Delivery>, id: ObjectId): Bytes
    requires log != []
  {
    if log[0].descriptor.objectId == id then log[0].bytes else []
  }

  lemma BytesOfStep(log: seq<Delivery>, id: ObjectId)
    requires log != []
    ensures BytesOf(log, id) == FirstBytes(log, id) + BytesOf(log[1..], id)
  {
  }

  lemma TailOfBoth<T>(a: seq<T>, b: seq<T>)
    requires a != []
    ensures a + b != [] && (a + b)[0] == a[0] && (a + b)[1..] == a[1..] + b
  {
  }

  lemma NoneBefore<T>(b: seq<T>)
    ensures [] + b == b
  {
  }

  lemma {:induction false} BytesOfAppend(a: seq<Delivery>, b: seq<Delivery>, id: ObjectId)
    ensures BytesOf(a + b, id) == BytesOf(a, id) + BytesOf(b, id)
  {
    if a == [] {
      NoneBefore(b);
      NoneBefore(BytesOf(b, id));
    } else {
      hide BytesOf;
      TailOfBoth(a, b);
      BytesOfStep(a + b, id);
      BytesOfStep(a, id);
      BytesOfAppend(a[1..], b, id);
      Associates(FirstBytes(a, id), BytesOf(a[1..], id), BytesOf(b, id));
    }
  }

  lemma {:induction false} BytesOfOther(log: seq<Delivery>, id: ObjectId)
    requires forall k :: 0 <= k < |log| ==> log[k].descriptor.objectId != id
    ensures BytesOf(log, id) == []
  {
    if log != [] {
      BytesOfOther(log[1..], id);
    }
  }

  /** The deliveries of one object: its chunks in index order, each one decrypted, never past its size. */
  ghost predicate StreamsObject(suite: Suite, key: Key, identity: CiphertextIdentity, item: EncryptedObject,
                                ciphertext: map<Digest, Bytes>, log: seq<Delivery>)
  {
    && |log| <= |item.chunks|
    && (forall k :: 0 <= k < |log| ==>
          && log[k].descriptor == item.descriptor
          && log[k].index == item.chunks[k].index
          && OpenChunk(suite, key, CandidateContext(identity, item.descriptor.objectId, item.descriptor.role),
                       |item.chunks|, item.chunks[k], ciphertext) == Some(log[k].bytes))
    && |BytesOf(log, item.descriptor.objectId)| <= item.descriptor.plainSize
  }

  /** All of the object arrived, and its bytes are the ones its descriptor declares. */
  ghost predicate CompletesObject(suite: Suite, item: EncryptedObject, log: seq<Delivery>) {
    |log| == |item.chunks| && DescribesBytes(suite, item.descriptor, BytesOf(log, item.descriptor.objectId))
  }

  /** The plaintext of the first `n` chunks, if they all open. */
  function OpenedPrefix(suite: Suite, key: Key, identity: CiphertextIdentity, item: EncryptedObject,
                        ciphertext: map<Digest, Bytes>, n: nat): Option<Bytes>
    requires n <= |item.chunks|
  {
    if n == 0 then Some([])
    else
      var before := OpenedPrefix(suite, key, identity, item, ciphertext, n - 1);
      var next := OpenChunk(suite, key, CandidateContext(identity, item.descriptor.objectId, item.descriptor.role),
                            |item.chunks|, item.chunks[n - 1], ciphertext);
      if before.None? || next.None? then None else Some(before.value + next.value)
  }

  /** Every chunk opens and together they are what the descriptor declares. */
  predicate Intact(suite: Suite, key: Key, identity: CiphertextIdentity, item: EncryptedObject,
                   ciphertext: map<Digest, Bytes>)
  {
    var whole := OpenedPrefix(suite, key, identity, item, ciphertext, |item.chunks|);
    whole.Some? && DescribesBytes(suite, item.descriptor, whole.value)
  }

  lemma {:induction false} PrefixesOpen(suite: Suite, key: Key, identity: CiphertextIdentity, item: EncryptedObject,
                                        ciphertext: map<Digest, Bytes>, n: nat, m: nat)
    requires n <= m <= |item.chunks| && OpenedPrefix(suite, key, identity, item, ciphertext, m).Some?
    ensures OpenedPrefix(suite, key, identity, item, ciphertext, n).Some?
    ensures |OpenedPrefix(suite, key, identity, item, ciphertext, n).value|
         <= |OpenedPrefix(suite, key, identity, item, ciphertext, m).value|
    decreases m
  {
    if n < m {
      PrefixesOpen(suite, key, identity, item, ciphertext, n, m - 1);
    }
  }

  /** An intact object passes the size test at every chunk. */
  lemma IntactPrefix(suite: Suite, key: Key, identity: CiphertextIdentity, item: EncryptedObject,
                     ciphertext: map<Digest, Bytes>, n: nat)
    requires n <= |item.chunks|
    ensures
      Intact(suite, key, identity, item, ciphertext) ==>
        && OpenedPrefix(suite, key, identity, item, ciphertext, n).Some?
        && |OpenedPrefix(suite, key, identity, item, ciphertext, n).value| <= item.descriptor.plainSize
  {
    if Intact(suite, key, identity, item, ciphertext) {
      PrefixesOpen(suite, key, identity, item, ciphertext, n, |item.chunks|);
    }
  }

  /** What was delivered and hashed after `n` chunks of an object. */
  ghost predicate StreamedChunks(suite: Suite, key: Key, identity: CiphertextIdentity, item: EncryptedObject,
                                 ciphertext: map<Digest, Bytes>, log: seq<Delivery>, hashed: Bytes, n: nat)
  {
    && n == |log| <= |item.chunks|
    && StreamsObject(suite, key, identity, item, ciphertext, log)
    && hashed == BytesOf(log, item.descriptor.objectId)
    && OpenedPrefix(suite, key, identity, item, ciphertext, n) == Some(hashed)
  }

  /** One more decrypted chunk that stays within the size. */
  lemma StreamOneChunk(suite: Suite, key: Key, identity: CiphertextIdentity, item: EncryptedObject,
                       ciphertext: map<Digest, Bytes>, sent: seq<Delivery>, hashed: Bytes, n: nat, bytes: Bytes)
    requires StreamedChunks(suite, key, identity, item, ciphertext, sent, hashed, n) && n < |item.chunks|
    requires OpenChunk(suite, key, CandidateContext(identity, item.descriptor.objectId, item.descriptor.role),
                       |item.chunks|, item.chunks[n], ciphertext) == Some(bytes)
    requires |hashed| + |bytes| <= item.descriptor.plainSize
    ensures StreamedChunks(suite, key, identity, item, ciphertext,
                           sent + [Delivery(item.descriptor, item.chunks[n].index, bytes)], hashed + bytes, n + 1)
  {
    var delivery := Delivery(item.descriptor, item.chunks[n].index, bytes);
    BytesOfAppend(sent, [delivery], item.descriptor.objectId);
    assert BytesOf([delivery], item.descriptor.objectId) == bytes + [];
  }

  lemma NothingOfObject(suite: Suite, key: Key, identity: CiphertextIdentity, item: EncryptedObject,
                        ciphertext: map<Digest, Bytes>)
    ensures StreamedChunks(suite, key, identity, item, ciphertext, [], [], 0)
  {
  }

  /** A chunk that does not open, or takes the object past its size, leaves the object not intact. */
  lemma BrokenChunk(suite: Suite, key: Key, identity: CiphertextIdentity, item: EncryptedObject,
                    ciphertext: map<Digest, Bytes>, log: seq<Delivery>, hashed: Bytes, n: nat, next: Option<Bytes>)
    requires StreamedChunks(suite, key, identity, item, ciphertext, log, hashed, n) && n < |item.chunks|
    requires OpenChunk(suite, key, CandidateContext(identity, item.descriptor.objectId, item.descriptor.role),
                       |item.chunks|, item.chunks[n], ciphertext) == next
    requires next.None? || |hashed| + |next.value| > item.descriptor.plainSize
    ensures !Intact(suite, key, identity, item, ciphertext)
  {
    IntactPrefix(suite, key, identity, item, ciphertext, n + 1);
  }

  /** After the last chunk the hashed bytes decide. */
  lemma WholeObject(suite: Suite, key: Key, identity: CiphertextIdentity, item: EncryptedObject,
                    ciphertext: map<Digest, Bytes>, log: seq<Delivery>, hashed: Bytes)
    requires StreamedChunks(suite, key, identity, item, ciphertext, log, hashed, |item.chunks|)
    ensures
      var described := |hashed| == item.descriptor.plainSize && suite.hash(hashed) == item.descriptor.plainDigest;
      && (described ==> CompletesObject(suite, item, log))
      && (described <==> Intact(suite, key, identity, item, ciphertext))
  {
  }

  lemma ChunksStream(suite: Suite, key: Key, identity: CiphertextIdentity, item: EncryptedObject,
                     ciphertext: map<Digest, Bytes>, log: seq<Delivery>, hashed: Bytes, n: nat)
    requires StreamedChunks(suite, key, identity, item, ciphertext, log, hashed, n)
    ensures StreamsObject(suite, key, identity, item, ciphertext, log)
  {
  }

  /** A consumer that refuses nothing. */
  ghost predicate Willing(accepts: nat -> bool) {
    forall n :: accepts(n)
  }

  /** `open_managed_object`: running total and running hash over the delivered bytes. */
  method OpenManagedObject(suite: Suite, key: Key, identity: CiphertextIdentity, item: EncryptedObject,
                           ciphertext: map<Digest, Bytes>, consumer: Consumer)
    returns (r: Result<Unit>)
    modifies consumer
    ensures |old(consumer.log)| <= |consumer.log| && consumer.log[..|old(consumer.log)|] == old(consumer.log)
    ensures StreamsObject(suite, key, identity, item, ciphertext, consumer.log[|old(consumer.log)|..])
    ensures r.Ok? ==> CompletesObject(suite, item, consumer.log[|old(consumer.log)|..])
    ensures r.Ok? ==> Intact(suite, key, identity, item, ciphertext)
    ensures Willing(consumer.accepts) && Intact(suite, key, identity, item, ciphertext) ==> r.Ok?
  {
    hide OpenChunk, OpenedPrefix, BytesOf, StreamsObject, StreamedChunks, Intact, CompletesObject, CandidateContext;
    var context := CandidateContext(identity, item.descriptor.objectId, item.descriptor.role);
    var total: nat := 0;
    var hashed: Bytes := [];
    ghost var start := |consumer.log|;
    ghost var before := consumer.log;
    ghost var sent: seq<Delivery> := [];
    NothingOfObject(suite, key, identity, item, ciphertext);
    for i := 0 to |item.chunks|
      invariant consumer.log == before + sent
      invariant StreamedChunks(suite, key, identity, item, ciphertext, sent, hashed, i)
      invariant total == |hashed|
    {
      assert consumer.log[start..] == sent;
      ChunksStream(suite, key, identity, item, ciphertext, sent, hashed, i);
      var bytes := OpenChunk(suite, key, context, |item.chunks|, item.chunks[i], ciphertext);
      if bytes.None? {
        BrokenChunk(suite, key, identity, item, ciphertext, sent, hashed, i, bytes);
        return Err(DecryptionAuthentication);
      }
      total := total + |bytes.value|;
      if total > item.descriptor.plainSize {
        BrokenChunk(suite, key, identity, item, ciphertext, sent, hashed, i, bytes);
        return Err(ErrorCode.ObjectDigestMismatch);
      }
      StreamOneChunk(suite, key, identity, item, ciphertext, sent, hashed, i, bytes.value);
      hashed := hashed + bytes.value;
      sent := sent + [Delivery(item.descriptor, item.chunks[i].index, bytes.value)];
      var accepted := consumer.Consume(item.descriptor, item.chunks[i].index, bytes.value);
      assert consumer.log[start..] == sent;
      ChunksStream(suite, key, identity, item, ciphertext, sent, hashed, i + 1);
      if accepted.Err? {
        return Err(accepted.error);
      }
    }
    assert consumer.log[start..] == sent;
    ChunksStream(suite, key, identity, item, ciphertext, sent, hashed, |item.chunks|);
    WholeObject(suite, key, identity, item, ciphertext, sent, hashed);
    return if total == item.descriptor.plainSize && suite.hash(hashed) == item.descriptor.plainDigest
           then Ok(Unit) else Err(ErrorCode.ObjectDigestMismatch);
  }

  /** The order a whole stream must follow: objects in identity order, chunks in index order. */
  function Schedule(objects: seq<EncryptedObject>): seq<(ObjectId, nat)> {
    if objects == [] then []
    else
      var first := objects[0];
      seq(|first.chunks|, i requires 0 <= i < |first.chunks| => (first.descriptor.objectId, first.chunks[i].index))
      + Schedule(objects[1..])
  }

  function Positions(log: seq<Delivery>): seq<(ObjectId, nat)> {
    seq(|log|, i requires 0 <= i < |log| => (log[i].descriptor.objectId, log[i].index))
  }

  lemma {:induction false} ScheduleAppend(objects: seq<EncryptedObject>, last: EncryptedObject)
    ensures Schedule(objects + [last]) == Schedule(objects) + Schedule([last])
  {
    if objects == [] {
      assert objects + [last] == [last];
      assert Schedule([last]) == [] + Schedule([last]);
    } else {
      ScheduleAppend(objects[1..], last);
      assert (objects + [last])[0] == objects[0] && (objects + [last])[1..] == objects[1..] + [last];
      Associates(Schedule(objects)[..|objects[0].chunks|], Schedule(objects[1..]), Schedule([last]));
    }
  }

  lemma {:induction false} ScheduleGrows(objects: seq<EncryptedObject>, n: nat)
    requires n <= |objects|
    ensures Schedule(objects[..n]) <= Schedule(objects)
    decreases |objects| - n
  {
    if n == |objects| {
      assert objects[..n] == objects;
    } else {
      ScheduleGrows(objects, n + 1);
      ScheduleAppend(objects[..n], objects[n]);
      assert objects[..n + 1] == objects[..n] + [objects[n]];
    }
  }

  /** What a consumer has seen of the first `n` objects, all complete. */
  ghost predicate StreamedFully(suite: Suite, objects: seq<EncryptedObject>, n: nat, log: seq<Delivery>)
    requires n <= |objects|
  {
    && Positions(log) == Schedule(objects[..n])
    && forall i :: 0 <= i < n ==>
         DescribesBytes(suite, objects[i].descriptor, BytesOf(log, objects[i].descriptor.objectId))
  }

  /** What a consumer may have seen at any point: a prefix of the schedule, no object over its size. */
  ghost predicate StreamedSafely(objects: seq<EncryptedObject>, log: seq<Delivery>) {
    && Positions(log) <= Schedule(objects)
    && forall i :: 0 <= i < |objects| ==>
         |BytesOf(log, objects[i].descriptor.objectId)| <= objects[i].descriptor.plainSize
  }

  ghost predicate AscendingItems(objects: seq<EncryptedObject>) {
    forall i, j :: 0 <= i < j < |objects| ==> objects[i].descriptor.objectId < objects[j].descriptor.objectId
  }

  lemma FullObjectsOnly(suite: Suite, objects: seq<EncryptedObject>, n: nat, log: seq<Delivery>, id: ObjectId)
    requires n <= |objects| && StreamedFully(suite, objects, n, log)
    requires forall i :: 0 <= i < n ==> objects[i].descriptor.objectId != id
    ensures BytesOf(log, id) == []
  {
    forall k | 0 <= k < |log|
      ensures log[k].descriptor.objectId != id
    {
      assert Positions(log)[k] == Schedule(objects[..n])[k];
      ScheduleIds(objects[..n], k);
    }
    BytesOfOther(log, id);
  }

  lemma {:induction false} ScheduleIds(objects: seq<EncryptedObject>, k: nat)
    requires k < |Schedule(objects)|
    ensures exists i :: 0 <= i < |objects| && Schedule(objects)[k].0 == objects[i].descriptor.objectId
  {
    if k >= |objects[0].chunks| {
      ScheduleIds(objects[1..], k - |objects[0].chunks|);
      var i :| 0 <= i < |objects[1..]|
        && Schedule(objects[1..])[k - |objects[0].chunks|].0 == objects[1..][i].descriptor.objectId;
      assert objects[i + 1] == objects[1..][i];
    }
  }

  /** Adding one object's deliveries, complete or not, keeps the stream safe. */
  lemma StreamOneMore(suite: Suite, key: Key, identity: CiphertextIdentity, ciphertext: map<Digest, Bytes>, n: nat,
                      log: seq<Delivery>, more: seq<Delivery>)
    requires n < |identity.objects| && AscendingItems(identity.objects)
    requires StreamedFully(suite, identity.objects, n, log)
    requires StreamsObject(suite, key, identity, identity.objects[n], ciphertext, more)
    ensures StreamedSafely(identity.objects, log + more)
    ensures CompletesObject(suite, identity.objects[n], more) ==>
      StreamedFully(suite, identity.objects, n + 1, log + more)
  {
    hide BytesOf;
    var objects := identity.objects;
    var item := objects[n];
    ScheduleAppend(objects[..n], item);
    ScheduleGrows(objects, n + 1);
    assert objects[..n + 1] == objects[..n] + [item];
    assert Schedule([item]) == Schedule([item])[..|item.chunks|];
    assert Positions(log + more) == Positions(log) + Positions(more);
    assert Positions(more) == Schedule([item])[..|more|];
    forall i | 0 <= i < |objects|
      ensures BytesOf(log + more, objects[i].descriptor.objectId)
           == if i < n then BytesOf(log, objects[i].descriptor.objectId)
              else if i == n then BytesOf(more, objects[i].descriptor.objectId) else []
    {
      var id := objects[i].descriptor.objectId;
      BytesOfAppend(log, more, id);
      if i != n {
        assert id != item.descriptor.objectId;
        BytesOfOther(more, id);
      }
      if i >= n {
        FullObjectsOnly(suite, objects, n, log, id);
      }
    }
  }

  /** The manifest of the candidate, decrypted under the identity alone. */
  function OpenCandidateManifest(suite: Suite, format: CandidateFormat, key: Key, identity: CiphertextIdentity,
                                 ciphertext: map<Digest, Bytes>): Option<CandidateManifest>
  {
    var upload := identity.manifestObject.upload;
    var chunk := EncryptedChunk(upload.cipherDigest, upload.cipherSize, 0, upload.nonce);
    var bytes := OpenChunk(suite, key,
                           CandidateContext(identity, identity.manifestObject.objectId, CaptureBatchManifestRole), 1,
                           chunk, ciphertext);
    if bytes.None? then None
    else
      var manifest := format.parse(bytes.value);
      if manifest.Some? && ManifestBinds(manifest.value, identity) then manifest else None
  }

  /** `validate_managed_ciphertext`. */
  predicate CandidateCiphertextClosed(suite: Suite, identity: CiphertextIdentity, ciphertext: map<Digest, Bytes>) {
    var uploads := [identity.manifestObject.upload] + FlatUploads(identity.objects);
    && DistinctDigests(uploads)
    && |uploads| == |ciphertext|
    && forall i :: 0 <= i < |uploads| ==> UploadMatches(suite, uploads[i], ciphertext)
  }

  predicate AllIntact(suite: Suite, key: Key, identity: CiphertextIdentity, ciphertext: map<Digest, Bytes>) {
    forall k :: 0 <= k < |identity.objects| ==> Intact(suite, key, identity, identity.objects[k], ciphertext)
  }

  // What a stream and a returned manifest guarantee, spelled out.

  /** The record decrypts to `plain` under the context of chunk `index` of `count` of this object of this candidate. */
  predicate CandidateRecordOpens(suite: Suite, key: Key, identity: CiphertextIdentity, objectId: ObjectId,
                                 role: LogicalObjectRole, count: nat, index: nat, stored: Bytes, plain: Bytes)
  {
    && index < count <= 32_767
    && 28 <= |stored| <= 8_388_636
    && var context := ObjectKeyContext(identity.captureId, objectId, identity.organizationId, Managed,
                                       identity.projectId, role, identity.serviceId);
    && var chunkContext := ChunkKeyContext(count, index, suite.objectContextDigest(context), |stored| - 28);
    && suite.aeadOpen(suite.chunkKey(suite.objectKey(key, context), chunkContext), stored[..12], stored[12..],
                      chunkContext) == Some(plain)
  }

  /** Chunk `j` of this item decrypts to `plain`. */
  predicate ItemRecordOpens(suite: Suite, key: Key, identity: CiphertextIdentity, ciphertext: map<Digest, Bytes>,
                            item: EncryptedObject, j: nat, plain: Bytes)
  {
    && j < |item.chunks|
    && item.chunks[j].cipherDigest in ciphertext
    && |ciphertext[item.chunks[j].cipherDigest]| == item.chunks[j].cipherSize
    && CandidateRecordOpens(suite, key, identity, item.descriptor.objectId, item.descriptor.role, |item.chunks|,
                            item.chunks[j].index, ciphertext[item.chunks[j].cipherDigest], plain)
  }

  /** What the consumer was handed is one authenticated chunk of one object, as that object describes itself. */
  ghost predicate DeliveryOpens(suite: Suite, key: Key, identity: CiphertextIdentity, ciphertext: map<Digest, Bytes>,
                          d: Delivery)
  {
    exists i, j: nat :: 0 <= i < |identity.objects|
      && ItemRecordOpens(suite, key, identity, ciphertext, identity.objects[i], j, d.bytes)
      && d.descriptor == identity.objects[i].descriptor && d.index == identity.objects[i].chunks[j].index
  }

  ghost predicate DeliveriesOpen(suite: Suite, key: Key, identity: CiphertextIdentity, ciphertext: map<Digest, Bytes>,
                           log: seq<Delivery>)
  {
    forall k :: 0 <= k < |log| ==> DeliveryOpens(suite, key, identity, ciphertext, log[k])
  }

  /** The map holds exactly the manifest record and the records of all objects, each as listed. */
  predicate CandidateHoldsListed(suite: Suite, identity: CiphertextIdentity, ciphertext: map<Digest, Bytes>) {
    var listed := [identity.manifestObject.upload] + FlatUploads(identity.objects);
    && (forall i, j :: 0 <= i < j < |listed| ==> listed[i].cipherDigest != listed[j].cipherDigest)
    && ciphertext.Keys == (set upload | upload in listed :: upload.cipherDigest)
    && forall i :: 0 <= i < |listed| ==> RecordAsListed(suite, listed[i], ciphertext)
  }

  /** The manifest comes from the manifest record and agrees with the identity field by field. */
  ghost predicate CandidateManifestRead(suite: Suite, format: CandidateFormat, key: Key, identity: CiphertextIdentity,
                                        ciphertext: map<Digest, Bytes>, manifest: CandidateManifest)
  {
    && identity.manifestObject.upload.cipherDigest in ciphertext
    && (exists plain :: format.parse(plain) == Some(manifest)
          && CandidateRecordOpens(suite, key, identity, identity.manifestObject.objectId, CaptureBatchManifestRole, 1,
                                  0, ciphertext[identity.manifestObject.upload.cipherDigest], plain))
    && manifest.candidateIdentityDigest == identity.candidateIdentityDigest
    && manifest.candidateKeyReference == identity.candidateKeyReference
    && manifest.captureId == identity.captureId && manifest.organizationId == identity.organizationId
    && manifest.projectId == identity.projectId && manifest.serviceId == identity.serviceId
    && manifest.processingMode == Managed
    && manifest.requiredCapabilities == identity.requiredCapabilities
    && |manifest.objects| == |identity.objects|
    && forall i :: 0 <= i < |manifest.objects| ==> manifest.objects[i] == identity.objects[i].descriptor
  }

  lemma OpenedRecordOpens(suite: Suite, key: Key, identity: CiphertextIdentity, objectId: ObjectId,
                          role: LogicalObjectRole, count: nat, chunk: EncryptedChunk, ciphertext: map<Digest, Bytes>,
                          bytes: Bytes)
    requires OpenChunk(suite, key, CandidateContext(identity, objectId, role), count, chunk, ciphertext) == Some(bytes)
    ensures chunk.cipherDigest in ciphertext && |ciphertext[chunk.cipherDigest]| == chunk.cipherSize
    ensures CandidateRecordOpens(suite, key, identity, objectId, role, count, chunk.index,
                                 ciphertext[chunk.cipherDigest], bytes)
  {
  }

  lemma StreamedDeliveriesOpen(suite: Suite, key: Key, identity: CiphertextIdentity, ciphertext: map<Digest, Bytes>,
                               i: nat, log: seq<Delivery>)
    requires i < |identity.objects|
    requires StreamsObject(suite, key, identity, identity.objects[i], ciphertext, log)
    ensures DeliveriesOpen(suite, key, identity, ciphertext, log)
  {
    hide OpenChunk, CandidateRecordOpens, BytesOf, CandidateContext;
    forall k | 0 <= k < |log|
      ensures DeliveryOpens(suite, key, identity, ciphertext, log[k])
    {
      var item := identity.objects[i];
      OpenedRecordOpens(suite, key, identity, item.descriptor.objectId, item.descriptor.role, |item.chunks|,
                        item.chunks[k], ciphertext, log[k].bytes);
      assert ItemRecordOpens(suite, key, identity, ciphertext, item, k, log[k].bytes);
    }
  }

  lemma CandidateManifestIsRead(suite: Suite, format: CandidateFormat, key: Key, identity: CiphertextIdentity,
                                ciphertext: map<Digest, Bytes>)
    requires identity.processingMode == Managed
    requires OpenCandidateManifest(suite, format, key, identity, ciphertext).Some?
    ensures CandidateManifestRead(suite, format, key, identity, ciphertext,
                                  OpenCandidateManifest(suite, format, key, identity, ciphertext).value)
  {
    hide OpenChunk, CandidateRecordOpens, CandidateContext;
    var upload := identity.manifestObject.upload;
    var chunk := EncryptedChunk(upload.cipherDigest, upload.cipherSize, 0, upload.nonce);
    var objectId := identity.manifestObject.objectId;
    var bytes := OpenChunk(suite, key, CandidateContext(identity, objectId, CaptureBatchManifestRole), 1, chunk,
                           ciphertext).value;
    OpenedRecordOpens(suite, key, identity, objectId, CaptureBatchManifestRole, 1, chunk, ciphertext, bytes);
  }

  lemma CandidateIsAuthentic(suite: Suite, format: CandidateFormat, key: Key, identity: CiphertextIdentity,
                             ciphertext: map<Digest, Bytes>)
    requires ValidCiphertextIdentity(format, identity) && CandidateCiphertextClosed(suite, identity, ciphertext)
    requires OpenCandidateManifest(suite, format, key, identity, ciphertext).Some?
    ensures CandidateHoldsListed(suite, identity, ciphertext)
    ensures CandidateManifestRead(suite, format, key, identity, ciphertext,
                                  OpenCandidateManifest(suite, format, key, identity, ciphertext).value)
  {
    assert identity.processingMode == Managed;
    hide ValidCiphertextIdentity, CandidateHoldsListed, CandidateCiphertextClosed, CandidateManifestRead,
      OpenCandidateManifest;
    CandidateHolds(suite, identity, ciphertext);
    CandidateManifestIsRead(suite, format, key, identity, ciphertext);
  }

  lemma CandidateHolds(suite: Suite, identity: CiphertextIdentity, ciphertext: map<Digest, Bytes>)
    requires CandidateCiphertextClosed(suite, identity, ciphertext)
    ensures CandidateHoldsListed(suite, identity, ciphertext)
  {
    var listed := [identity.manifestObject.upload] + FlatUploads(identity.objects);
    hide FlatUploads;
    var digests := set upload | upload in listed :: upload.cipherDigest;
    DigestsCounted(listed);
    assert digests <= ciphertext.Keys;
    SubsetOfSameSize(digests, ciphertext.Keys);
  }

  lemma NothingStreamed(suite: Suite, objects: seq<EncryptedObject>)
    ensures StreamedFully(suite, objects, 0, []) && StreamedSafely(objects, [])
  {
  }

  lemma NothingDelivered(suite: Suite, key: Key, identity: CiphertextIdentity, ciphertext: map<Digest, Bytes>)
    ensures DeliveriesOpen(suite, key, identity, ciphertext, [])
  {
  }

  /** After a full stream the bytes of every object are the ones that the manifest declares. */
  lemma DeclaredDelivered(suite: Suite, format: CandidateFormat, key: Key, identity: CiphertextIdentity,
                          ciphertext: map<Digest, Bytes>, log: seq<Delivery>)
    requires OpenCandidateManifest(suite, format, key, identity, ciphertext).Some?
    requires StreamedFully(suite, identity.objects, |identity.objects|, log)
    ensures
      var manifest := OpenCandidateManifest(suite, format, key, identity, ciphertext).value;
      forall i :: 0 <= i < |manifest.objects| ==>
        DescribesBytes(suite, manifest.objects[i], BytesOf(log, manifest.objects[i].objectId))
  {
    hide OpenChunk, BytesOf, DescribesBytes, Positions, Schedule;
  }

  /** The loop over the objects, in identity order. */
  method StreamObjects(suite: Suite, key: Key, identity: CiphertextIdentity, ciphertext: map<Digest, Bytes>,
                       consumer: Consumer)
    returns (r: Result<Unit>)
    requires AscendingItems(identity.objects) && consumer.log == []
    modifies consumer
    ensures StreamedSafely(identity.objects, consumer.log)
    ensures DeliveriesOpen(suite, key, identity, ciphertext, consumer.log)
    ensures r.Ok? ==> StreamedFully(suite, identity.objects, |identity.objects|, consumer.log)
    ensures r.Ok? ==> AllIntact(suite, key, identity, ciphertext)
    ensures Willing(consumer.accepts) && AllIntact(suite, key, identity, ciphertext) ==> r.Ok?
  {
    hide StreamsObject, CompletesObject, StreamedSafely, Schedule, BytesOf, Positions, DescribesBytes, OpenedPrefix,
      Willing, DeliveryOpens;
    NothingStreamed(suite, identity.objects);
    for i := 0 to |identity.objects|
      invariant StreamedFully(suite, identity.objects, i, consumer.log)
      invariant StreamedSafely(identity.objects, consumer.log)
      invariant DeliveriesOpen(suite, key, identity, ciphertext, consumer.log)
      invariant forall k :: 0 <= k < i ==> Intact(suite, key, identity, identity.objects[k], ciphertext)
    {
      ghost var before := consumer.log;
      var result := OpenManagedObject(suite, key, identity, identity.objects[i], ciphertext, consumer);
      ghost var more := consumer.log[|before|..];
      assert consumer.log == before + more;
      StreamOneMore(suite, key, identity, ciphertext, i, before, more);
      StreamedDeliveriesOpen(suite, key, identity, ciphertext, i, more);
      if result.Err? {
        return Err(result.error);
      }
    }
    return Ok(Unit);
  }

  /**
   * `open_managed_candidate`. At every point the consumer has seen a prefix of
   * the schedule and no object beyond its declared size; on success it has seen
   * the whole schedule, and every object's bytes match the size and digest that
   * the returned manifest declares.
   */
  method OpenManagedCandidate(suite: Suite, format: CandidateFormat, key: Key, identity: CiphertextIdentity,
                              ciphertext: map<Digest, Bytes>, consumer: Consumer)
    returns (r: Result<CandidateManifest>)
    requires consumer.log == []
    modifies consumer
    ensures StreamedSafely(identity.objects, consumer.log)
    ensures DeliveriesOpen(suite, key, identity, ciphertext, consumer.log)
    ensures r.Ok? ==>
      && CandidateHoldsListed(suite, identity, ciphertext)
      && CandidateManifestRead(suite, format, key, identity, ciphertext, r.value)
    ensures r.Ok? ==>
      && StreamedFully(suite, identity.objects, |identity.objects|, consumer.log)
      && OpenCandidateManifest(suite, format, key, identity, ciphertext) == Some(r.value)
      && CandidateCiphertextClosed(suite, identity, ciphertext)
    ensures r.Ok? ==> forall i :: 0 <= i < |r.value.objects| ==>
      DescribesBytes(suite, r.value.objects[i], BytesOf(consumer.log, r.value.objects[i].objectId))
    ensures Willing(consumer.accepts) ==>
      (r.Ok? <==>
         && ValidCiphertextIdentity(format, identity)
         && CandidateCiphertextClosed(suite, identity, ciphertext)
         && OpenCandidateManifest(suite, format, key, identity, ciphertext).Some?
         && AllIntact(suite, key, identity, ciphertext))
  {
    hide StreamedSafely, StreamedFully, DeliveriesOpen, CandidateHoldsListed, CandidateManifestRead,
      CandidateCiphertextClosed, OpenCandidateManifest, BytesOf, DescribesBytes, AllIntact, Willing;
    NothingStreamed(suite, identity.objects);
    NothingDelivered(suite, key, identity, ciphertext);
    if !ValidCiphertextIdentity(format, identity) {
      return Err(SchemaInvalid);
    }
    if !CandidateCiphertextClosed(suite, identity, ciphertext) {
      return Err(ErrorCode.ObjectDigestMismatch);
    }
    var manifest := OpenCandidateManifest(suite, format, key, identity, ciphertext);
    if manifest.None? {
      return Err(ErrorCode.ObjectDigestMismatch);
    }
    CandidateIsAuthentic(suite, format, key, identity, ciphertext);
    hide ValidCiphertextIdentity;
    var streamed := StreamObjects(suite, key, identity, ciphertext, consumer);
    if streamed.Err? {
      return Err(streamed.error);
    }
    DeclaredDelivered(suite, format, key, identity, ciphertext, consumer.log);
    return Ok(manifest.value);
  }
}
