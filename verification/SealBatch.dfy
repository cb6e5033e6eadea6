/** The batch: every object of the capture, the capsule document and the proofs, encrypted and collected. */
module SealBatch {
  import opened Prelude
  import opened Capsule
  import opened Folds
  import opened SealModel
  import opened SealNonces
  import opened Sealing

  // The plaintext set: the capsule's objects, the capsule document and the three proofs.

  function CapsuleDescriptor(suite: Suite, request: SealRequest): LogicalObject
    requires |suite.capsuleBytes(request.capsule)| <= U64_MAX
  {
    LogicalObject("application/reproit-replay-capsule+json", request.ids.capsuleObjectId, request.capsuleDigest,
                  |suite.capsuleBytes(request.capsule)|, ReplayCapsuleManifest)
  }

  function ProofDescriptor(suite: Suite, request: SealRequest, i: nat): LogicalObject
    requires WellTyped(request) && i < 3 && |suite.proofBytes(request.proofs[i])| <= U64_MAX
  {
    LogicalObject("application/reproit-proof+json", request.ids.proofObjectIds[i],
                  suite.hash(suite.proofBytes(request.proofs[i])), |suite.proofBytes(request.proofs[i])|,
                  AdmissionProof)
  }

  /** No document is larger than a machine word can count. */
  predicate Addressable(suite: Suite, request: SealRequest) {
    && WellTyped(request)
    && |suite.capsuleBytes(request.capsule)| <= U64_MAX
    && forall i :: 0 <= i < 3 ==> |suite.proofBytes(request.proofs[i])| <= U64_MAX
  }

  function PlainObjects(suite: Suite, request: SealRequest): map<ObjectId, Bytes>
    requires WellTyped(request)
  {
    request.objects[request.ids.capsuleObjectId := suite.capsuleBytes(request.capsule)]
      [request.ids.proofObjectIds[0] := suite.proofBytes(request.proofs[0])]
      [request.ids.proofObjectIds[1] := suite.proofBytes(request.proofs[1])]
      [request.ids.proofObjectIds[2] := suite.proofBytes(request.proofs[2])]
  }

  function Descriptors(suite: Suite, request: SealRequest): seq<LogicalObject>
    requires Addressable(suite, request)
  {
    request.capsule.objects + [CapsuleDescriptor(suite, request), ProofDescriptor(suite, request, 0),
                               ProofDescriptor(suite, request, 1), ProofDescriptor(suite, request, 2)]
  }

  /** `add_plain_object`. */
  method AddPlainObject(plaintext: map<ObjectId, Bytes>, descriptors: seq<LogicalObject>, descriptor: LogicalObject,
                        bytes: Bytes)
    returns (r: Result<(map<ObjectId, Bytes>, seq<LogicalObject>)>)
    ensures r.Ok? <==> descriptor.objectId !in plaintext && forall d :: d in descriptors ==>
      d.objectId != descriptor.objectId
    ensures r.Ok? ==> r.value == (plaintext[descriptor.objectId := bytes], descriptors + [descriptor])
  {
    if descriptor.objectId in plaintext || exists d :: d in descriptors && d.objectId == descriptor.objectId {
      return Err(SchemaInvalid);
    }
    return Ok((plaintext[descriptor.objectId := bytes], descriptors + [descriptor]));
  }

  /** The plaintext after the capsule and the first `i` proofs were added. */
  function PlainAfter(suite: Suite, request: SealRequest, i: nat): map<ObjectId, Bytes>
    requires WellTyped(request) && i <= 3
  {
    if i == 0 then request.objects[request.ids.capsuleObjectId := suite.capsuleBytes(request.capsule)]
    else PlainAfter(suite, request, i - 1)[request.ids.proofObjectIds[i - 1] := suite.proofBytes(request.proofs[i - 1])]
  }

  lemma {:induction false} PlainAfterKeys(suite: Suite, request: SealRequest, i: nat, id: ObjectId)
    requires WellTyped(request) && i <= 3
    ensures
      id in PlainAfter(suite, request, i) <==>
        id in request.objects || id == request.ids.capsuleObjectId || id in request.ids.proofObjectIds[..i]
  {
    if i > 0 {
      assert request.ids.proofObjectIds[..i]
        == request.ids.proofObjectIds[..i - 1] + [request.ids.proofObjectIds[i - 1]];
      PlainAfterKeys(suite, request, i - 1, id);
    }
  }

  /** The descriptors after the capsule and the first `i` proofs were added. */
  function DescriptorsAfter(suite: Suite, request: SealRequest, i: nat): seq<LogicalObject>
    requires Addressable(suite, request) && i <= 3
  {
    if i == 0 then request.capsule.objects + [CapsuleDescriptor(suite, request)]
    else DescriptorsAfter(suite, request, i - 1) + [ProofDescriptor(suite, request, i - 1)]
  }

  lemma {:induction false} DescriptorsAfterIds(suite: Suite, request: SealRequest, i: nat, d: LogicalObject)
    requires Addressable(suite, request) && i <= 3
    ensures d in request.capsule.objects ==> d in DescriptorsAfter(suite, request, i)
    ensures d in DescriptorsAfter(suite, request, i) ==>
      || d in request.capsule.objects
      || d.objectId == request.ids.capsuleObjectId || d.objectId in request.ids.proofObjectIds[..i]
  {
    if i > 0 {
      assert request.ids.proofObjectIds[..i]
        == request.ids.proofObjectIds[..i - 1] + [request.ids.proofObjectIds[i - 1]];
      assert request.ids.proofObjectIds[i - 1] in request.ids.proofObjectIds[..i];
      DescriptorsAfterIds(suite, request, i - 1, d);
    }
  }

  lemma AfterAllDocuments(suite: Suite, request: SealRequest)
    requires Addressable(suite, request)
    ensures PlainAfter(suite, request, 3) == PlainObjects(suite, request)
    ensures DescriptorsAfter(suite, request, 3) == Descriptors(suite, request)
  {
    assert PlainAfter(suite, request, 1) ==
      PlainAfter(suite, request, 0)[request.ids.proofObjectIds[0] := suite.proofBytes(request.proofs[0])];
    assert PlainAfter(suite, request, 2) ==
      PlainAfter(suite, request, 1)[request.ids.proofObjectIds[1] := suite.proofBytes(request.proofs[1])];
    assert DescriptorsAfter(suite, request, 1) ==
      request.capsule.objects + [CapsuleDescriptor(suite, request), ProofDescriptor(suite, request, 0)];
    assert DescriptorsAfter(suite, request, 2) ==
      request.capsule.objects + [CapsuleDescriptor(suite, request), ProofDescriptor(suite, request, 0),
                                 ProofDescriptor(suite, request, 1)];
  }

  /** An id that neither the objects nor the capsule's descriptors have. */
  predicate NewId(request: SealRequest, id: ObjectId) {
    id !in request.objects && forall d :: d in request.capsule.objects ==> d.objectId != id
  }

  /** The ids of the four added documents are new and apart. */
  predicate DocumentsFresh(request: SealRequest)
    requires WellTyped(request)
  {
    DocumentsUpTo(request, 3)
  }

  /** The capsule's id and the first `i` proof ids are new and apart. */
  predicate DocumentsUpTo(request: SealRequest, i: nat)
    requires WellTyped(request) && i <= 3
  {
    && NewId(request, request.ids.capsuleObjectId)
    && forall k :: 0 <= k < i ==>
         && NewId(request, request.ids.proofObjectIds[k])
         && request.ids.proofObjectIds[k] != request.ids.capsuleObjectId
         && request.ids.proofObjectIds[k] !in request.ids.proofObjectIds[..k]
  }

  lemma FreshUpTo(request: SealRequest)
    requires WellTyped(request)
    ensures DocumentsUpTo(request, 0) <==> NewId(request, request.ids.capsuleObjectId)
    ensures DocumentsFresh(request) ==> DocumentsUpTo(request, 0)
  {
  }

  /** The next proof is accepted exactly when its id is new as well; otherwise the documents are not fresh. */
  lemma NextDocument(suite: Suite, request: SealRequest, i: nat)
    requires Addressable(suite, request) && i < 3 && DocumentsUpTo(request, i)
    ensures
      var id := request.ids.proofObjectIds[i];
      DocumentsUpTo(request, i + 1) <==>
        id !in PlainAfter(suite, request, i) && forall d :: d in DescriptorsAfter(suite, request, i) ==>
          d.objectId != id
    ensures DocumentsFresh(request) ==> DocumentsUpTo(request, i + 1)
  {
    var id := request.ids.proofObjectIds[i];
    PlainAfterKeys(suite, request, i, id);
    forall d
      ensures d in request.capsule.objects ==> d in DescriptorsAfter(suite, request, i)
      ensures
        d in DescriptorsAfter(suite, request, i) ==>
          || d in request.capsule.objects
          || d.objectId == request.ids.capsuleObjectId || d.objectId in request.ids.proofObjectIds[..i]
    {
      DescriptorsAfterIds(suite, request, i, d);
    }
  }

  method CollectPlaintext(suite: Suite, request: SealRequest)
    returns (r: Result<(map<ObjectId, Bytes>, seq<LogicalObject>)>)
    requires Addressable(suite, request)
    ensures r.Ok? ==> r.value == (PlainObjects(suite, request), Descriptors(suite, request))
    ensures r.Ok? <==> DocumentsFresh(request)
  {
    r := AddPlainObject(request.objects, request.capsule.objects, CapsuleDescriptor(suite, request),
                        suite.capsuleBytes(request.capsule));
    FreshUpTo(request);
    if r.Err? {
      return;
    }
    for i := 0 to 3
      invariant r == Ok((PlainAfter(suite, request, i), DescriptorsAfter(suite, request, i)))
      invariant DocumentsUpTo(request, i)
    {
      NextDocument(suite, request, i);
      r := AddPlainObject(r.value.0, r.value.1, ProofDescriptor(suite, request, i),
                          suite.proofBytes(request.proofs[i]));
      if r.Err? {
        return;
      }
    }
    AfterAllDocuments(suite, request);
  }

  // The whole batch.

  /** Every chunk of the object is in the ciphertext map, sealed under the object's context. */
  ghost predicate ObjectStored(suite: Suite, occurrenceKey: Key, context: ObjectKeyContext, bytes: Bytes,
                               item: EncryptedObject, ciphertext: map<Digest, Bytes>)
  {
    && DescribesBytes(suite, item.descriptor, bytes)
    && |item.chunks| == |Chunks(bytes)| <= MAXIMUM_CHUNKS
    && forall i :: 0 <= i < |item.chunks| ==>
         item.chunks[i].cipherDigest in ciphertext
         && ChunkSealed(suite, occurrenceKey, context, |item.chunks|, i, Chunks(bytes)[i], item.chunks[i],
                        ciphertext[item.chunks[i].cipherDigest])
  }

  lemma ExtendsKeepsStored(suite: Suite, occurrenceKey: Key, context: ObjectKeyContext, bytes: Bytes,
                           item: EncryptedObject, smaller: map<Digest, Bytes>, larger: map<Digest, Bytes>)
    requires ObjectStored(suite, occurrenceKey, context, bytes, item, smaller) && Extends(larger, smaller)
    ensures ObjectStored(suite, occurrenceKey, context, bytes, item, larger)
  {
  }

  datatype CaptureMaterial = CaptureMaterial(
    ciphertext: map<Digest, Bytes>, objects: seq<EncryptedObject>, uploads: seq<UploadObject>)

  /** Each object, in descriptor order, has every chunk stored. */
  ghost predicate ObjectsStored(suite: Suite, request: SealRequest, plaintext: map<ObjectId, Bytes>,
                                descriptors: seq<LogicalObject>, objects: seq<EncryptedObject>,
                                ciphertext: map<Digest, Bytes>)
  {
    && |objects| == |descriptors|
    && forall i :: 0 <= i < |descriptors| ==>
         && objects[i].descriptor == descriptors[i]
         && descriptors[i].objectId in plaintext
         && ObjectStored(suite, request.occurrenceKey, ObjectContextOf(request, descriptors[i]),
                         plaintext[descriptors[i].objectId], objects[i], ciphertext)
  }

  /** The ciphertext map holds exactly the listed uploads, each under its own digest. */
  ghost predicate UploadsClosed(suite: Suite, uploads: seq<UploadObject>, ciphertext: map<Digest, Bytes>) {
    && DistinctDigests(uploads)
    && |ciphertext| == |uploads|
    && forall i :: 0 <= i < |uploads| ==> UploadStored(suite, uploads[i], ciphertext)
  }

  /** The batch so far: descriptors in order, each object stored, each upload stored once and nothing else. */
  ghost predicate BatchStored(suite: Suite, request: SealRequest, plaintext: map<ObjectId, Bytes>,
                              descriptors: seq<LogicalObject>, m: CaptureMaterial)
  {
    && ObjectsStored(suite, request, plaintext, descriptors, m.objects, m.ciphertext)
    && m.uploads == FlatUploads(m.objects)
    && UploadsClosed(suite, m.uploads, m.ciphertext)
  }

  /** Appending records keeps what was stored and closes over the longer list. */
  lemma AppendKeepsClosed(suite: Suite, uploads: seq<UploadObject>, ciphertext: map<Digest, Bytes>,
                          added: seq<UploadObject>, larger: map<Digest, Bytes>)
    requires UploadsClosed(suite, uploads, ciphertext) && Extends(larger, ciphertext)
    requires DistinctDigests(added) && FreshDigests(added, ciphertext) && |larger| == |ciphertext| + |added|
    requires forall i :: 0 <= i < |added| ==> UploadStored(suite, added[i], larger)
    ensures UploadsClosed(suite, uploads + added, larger)
  {
    var all := uploads + added;
    forall i | 0 <= i < |all|
      ensures UploadStored(suite, all[i], larger)
    {
      if i < |uploads| {
        assert UploadStored(suite, uploads[i], ciphertext);
      }
    }
    forall i, j | 0 <= i < j < |all|
      ensures all[i].cipherDigest != all[j].cipherDigest
    {
      if i < |uploads| <= j {
        assert UploadStored(suite, uploads[i], ciphertext);
        assert all[j] == added[j - |uploads|];
      }
    }
  }

  lemma ExtendsKeepsObjects(suite: Suite, request: SealRequest, plaintext: map<ObjectId, Bytes>,
                            descriptors: seq<LogicalObject>, objects: seq<EncryptedObject>,
                            smaller: map<Digest, Bytes>, larger: map<Digest, Bytes>)
    requires ObjectsStored(suite, request, plaintext, descriptors, objects, smaller) && Extends(larger, smaller)
    ensures ObjectsStored(suite, request, plaintext, descriptors, objects, larger)
  {
    forall i | 0 <= i < |descriptors|
      ensures ObjectStored(suite, request.occurrenceKey, ObjectContextOf(request, descriptors[i]),
                           plaintext[descriptors[i].objectId], objects[i], larger)
    {
      ExtendsKeepsStored(suite, request.occurrenceKey, ObjectContextOf(request, descriptors[i]),
                         plaintext[descriptors[i].objectId], objects[i], smaller, larger);
    }
  }

  lemma SealedUploadsMatch(suite: Suite, occurrenceKey: Key, context: ObjectKeyContext, bytes: Bytes,
                           m: EncryptedMaterial, ciphertext: map<Digest, Bytes>)
    requires ObjectSealed(suite, occurrenceKey, context, bytes, m)
    requires forall i :: 0 <= i < |m.stored| ==>
      m.item.chunks[i].cipherDigest in ciphertext && ciphertext[m.item.chunks[i].cipherDigest] == m.stored[i]
    ensures ObjectStored(suite, occurrenceKey, context, bytes, m.item, ciphertext)
    ensures forall i :: 0 <= i < |m.item.chunks| ==> UploadStored(suite, ObjectUploads(m.item.chunks)[i], ciphertext)
  {
  }

  lemma SortedIsListed(descriptors: seq<LogicalObject>, i: nat)
    requires i < |SortById(descriptors)|
    ensures SortById(descriptors)[i] in descriptors
  {
    SortByIdMultiset(descriptors);
    assert SortById(descriptors)[i] in multiset(descriptors);
  }

  // The loop over the objects.

  /** The batch so far, the draws taken and the nonces registered. */
  datatype BatchState = BatchState(material: CaptureMaterial, drawn: nat, used: set<Nonce>)

  const NO_MATERIAL := CaptureMaterial(map[], [], [])

  /** One encrypted object added to the batch, unless some digest is there already. */
  ghost function AddMaterial(m: CaptureMaterial, added: EncryptedMaterial): Option<CaptureMaterial>
    requires |added.item.chunks| == |added.stored|
  {
    var uploads := ObjectUploads(added.item.chunks);
    if !DistinctDigests(uploads) || !FreshDigests(uploads, m.ciphertext) then None
    else
      Some(CaptureMaterial(InsertAll(uploads, added.stored, m.ciphertext, |uploads|), m.objects + [added.item],
                           m.uploads + uploads))
  }

  /** One object of the loop: encrypted with the next draws and added. */
  ghost function AddObject(suite: Suite, request: SealRequest, descriptor: LogicalObject, bytes: Bytes,
                           stream: NonceStream, s: BatchState): Option<BatchState>
  {
    if !ObjectEncrypts(suite, request, descriptor, bytes, stream, s.drawn, s.used) then None
    else
      var added := MaterialOf(suite, request.occurrenceKey, ObjectContextOf(request, descriptor), descriptor, bytes,
                              stream, s.drawn);
      var material := AddMaterial(s.material, added);
      if material.None? then None
      else
        Some(BatchState(material.value, s.drawn + ChunkCount(|bytes|),
                        s.used + Drawn(stream, s.drawn, ChunkCount(|bytes|))))
  }

  /** The object at one position, added to the batch so far. */
  ghost function BatchStep(suite: Suite, request: SealRequest, plaintext: map<ObjectId, Bytes>,
                           descriptors: seq<LogicalObject>,
                           stream: NonceStream): (nat, BatchState) -> Option<BatchState>
  {
    (k: nat, s: BatchState) =>
      if k >= |descriptors| || descriptors[k].objectId !in plaintext then None
      else AddObject(suite, request, descriptors[k], plaintext[descriptors[k].objectId], stream, s)
  }

  /** Adding one object keeps the batch stored and closed. */
  lemma AddedIsStored(suite: Suite, request: SealRequest, plaintext: map<ObjectId, Bytes>,
                      descriptors: seq<LogicalObject>, descriptor: LogicalObject, m: CaptureMaterial,
                      added: EncryptedMaterial)
    requires BatchStored(suite, request, plaintext, descriptors, m)
    requires descriptor.objectId in plaintext && added.item.descriptor == descriptor
    requires ObjectSealed(suite, request.occurrenceKey, ObjectContextOf(request, descriptor),
                          plaintext[descriptor.objectId], added)
    requires AddMaterial(m, added).Some?
    ensures BatchStored(suite, request, plaintext, descriptors + [descriptor], AddMaterial(m, added).value)
  {
    var uploads := ObjectUploads(added.item.chunks);
    var larger := AddMaterial(m, added).value.ciphertext;
    InsertAllGrows(uploads, added.stored, m.ciphertext);
    SealedUploadsMatch(suite, request.occurrenceKey, ObjectContextOf(request, descriptor),
                       plaintext[descriptor.objectId], added, larger);
    FlatUploadsAppend(m.objects, added.item);
    ExtendsKeepsObjects(suite, request, plaintext, descriptors, m.objects, m.ciphertext, larger);
    AppendKeepsClosed(suite, m.uploads, m.ciphertext, uploads, larger);
  }

  ghost predicate StoredUpTo(suite: Suite, request: SealRequest, plaintext: map<ObjectId, Bytes>,
                             descriptors: seq<LogicalObject>, k: nat, s: BatchState)
  {
    k <= |descriptors| && BatchStored(suite, request, plaintext, descriptors[..k], s.material)
  }

  lemma StepKeepsStored(suite: Suite, request: SealRequest, plaintext: map<ObjectId, Bytes>,
                        descriptors: seq<LogicalObject>, stream: NonceStream, k: nat, s: BatchState)
    requires StoredUpTo(suite, request, plaintext, descriptors, k, s)
    requires BatchStep(suite, request, plaintext, descriptors, stream)(k, s).Some?
    ensures
      StoredUpTo(suite, request, plaintext, descriptors, k + 1,
                 BatchStep(suite, request, plaintext, descriptors, stream)(k, s).value)
  {
    hide ObjectEncrypts, BatchStored, ObjectSealed;
    var d := descriptors[k];
    var context := ObjectContextOf(request, d);
    MaterialIsSealed(suite, request, d, plaintext[d.objectId], stream, s.drawn, s.used);
    AddedIsStored(suite, request, plaintext, descriptors[..k], d, s.material,
                  MaterialOf(suite, request.occurrenceKey, context, d, plaintext[d.objectId], stream, s.drawn));
    assert descriptors[..k + 1] == descriptors[..k] + [d];
  }

  /** Whatever the loop produced is stored and closed. */
  lemma SealedObjectsAreStored(suite: Suite, request: SealRequest, plaintext: map<ObjectId, Bytes>,
                               descriptors: seq<LogicalObject>, stream: NonceStream, start: BatchState)
    requires start.material == NO_MATERIAL
    requires Fold(BatchStep(suite, request, plaintext, descriptors, stream), start, |descriptors|).Some?
    ensures
      StoredUpTo(suite, request, plaintext, descriptors, |descriptors|,
                 Fold(BatchStep(suite, request, plaintext, descriptors, stream), start, |descriptors|).value)
  {
    hide BatchStep, AddObject;
    var step := BatchStep(suite, request, plaintext, descriptors, stream);
    var holds := (k: nat, s: BatchState) => StoredUpTo(suite, request, plaintext, descriptors, k, s);
    forall k: nat, s: BatchState | k < |descriptors| && holds(k, s) && step(k, s).Some?
      ensures holds(k + 1, step(k, s).value)
    {
      StepKeepsStored(suite, request, plaintext, descriptors, stream, k, s);
    }
    FoldKeeps(step, start, |descriptors|, holds);
  }

  /** One turn of the loop: encrypt an object and append its records. */
  method SealObject(suite: Suite, request: SealRequest, descriptor: LogicalObject, bytes: Bytes, m: CaptureMaterial,
                    source: NonceSource, registry: NonceRegistry)
    returns (r: Result<CaptureMaterial>)
    modifies source, registry
    ensures
      var after := AddObject(suite, request, descriptor, bytes, source.stream,
                             BatchState(m, old(source.drawn), old(registry.used)));
      && (r.Ok? <==> after.Some?)
      && (r.Ok? ==> BatchState(r.value, source.drawn, registry.used) == after.value)
  {
    hide ObjectEncrypts, Drawn, DistinctDigests, FreshDigests, InsertAll;
    var encrypted := EncryptObject(suite, request, descriptor, bytes, source, registry);
    if encrypted.Err? {
      return Err(encrypted.error);
    }
    var uploads := ObjectUploads(encrypted.value.item.chunks);
    var ciphertext := AppendCiphertext(uploads, encrypted.value.stored, m.ciphertext);
    if ciphertext.Err? {
      return Err(ciphertext.error);
    }
    return Ok(CaptureMaterial(ciphertext.value, m.objects + [encrypted.value.item], m.uploads + uploads));
  }

  /** Every object of the capture in id order, from an empty batch. */
  ghost function Batch(suite: Suite, request: SealRequest, stream: NonceStream, from: nat, used: set<Nonce>)
    : Option<BatchState>
    requires Addressable(suite, request)
  {
    var descriptors := SortById(Descriptors(suite, request));
    if !DocumentsFresh(request) then None
    else
      Fold(BatchStep(suite, request, PlainObjects(suite, request), descriptors, stream),
           BatchState(NO_MATERIAL, from, used), |descriptors|)
  }

  /** The loop over the descriptors. */
  method EncryptAll(suite: Suite, request: SealRequest, plaintext: map<ObjectId, Bytes>,
                    descriptors: seq<LogicalObject>, source: NonceSource, registry: NonceRegistry)
    returns (r: Result<CaptureMaterial>)
    modifies source, registry
    ensures
      var batch := Fold(BatchStep(suite, request, plaintext, descriptors, source.stream),
                        BatchState(NO_MATERIAL, old(source.drawn), old(registry.used)), |descriptors|);
      && (r.Ok? <==> batch.Some?)
      && (r.Ok? ==> BatchState(r.value, source.drawn, registry.used) == batch.value)
  {
    var m := NO_MATERIAL;
    ghost var start := BatchState(m, source.drawn, registry.used);
    ghost var step := BatchStep(suite, request, plaintext, descriptors, source.stream);
    for i := 0 to |descriptors|
      invariant Fold(step, start, i) == Some(BatchState(m, source.drawn, registry.used))
    {
      if descriptors[i].objectId !in plaintext {
        FailureStays(step, start, i + 1, |descriptors|);
        return Err(ErrorCode.WorldNotClosed);
      }
      var sealed := SealObject(suite, request, descriptors[i], plaintext[descriptors[i].objectId], m, source, registry);
      if sealed.Err? {
        FailureStays(step, start, i + 1, |descriptors|);
        return sealed;
      }
      m := sealed.value;
    }
    return Ok(m);
  }

  /** `encrypt_capture_objects`. */
  method EncryptCaptureObjects(suite: Suite, request: SealRequest, source: NonceSource, registry: NonceRegistry)
    returns (r: Result<CaptureMaterial>)
    requires Addressable(suite, request)
    modifies source, registry
    ensures
      var batch := Batch(suite, request, source.stream, old(source.drawn), old(registry.used));
      && (r.Ok? <==> batch.Some?)
      && (r.Ok? ==> BatchState(r.value, source.drawn, registry.used) == batch.value)
  {
    var collected := CollectPlaintext(suite, request);
    if collected.Err? {
      return Err(collected.error);
    }
    r := EncryptAll(suite, request, collected.value.0, SortById(collected.value.1), source, registry);
  }

  /** The batch of a successful loop holds every chunk of every object once, and nothing else. */
  lemma BatchIsStored(suite: Suite, request: SealRequest, stream: NonceStream, from: nat, used: set<Nonce>)
    requires Addressable(suite, request) && Batch(suite, request, stream, from, used).Some?
    ensures
      BatchStored(suite, request, PlainObjects(suite, request), SortById(Descriptors(suite, request)),
                  Batch(suite, request, stream, from, used).value.material)
  {
    var descriptors := SortById(Descriptors(suite, request));
    SealedObjectsAreStored(suite, request, PlainObjects(suite, request), descriptors, stream,
                           BatchState(NO_MATERIAL, from, used));
    assert descriptors[..|descriptors|] == descriptors;
  }
}
