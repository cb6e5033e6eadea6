/** What a sealed upload says, in the request's own terms. */
module SealContents {
  import opened Prelude
  import opened Capsule
  import opened SealModel
  import opened Sealing
  import opened SealBatch
  import opened SealUpload
  import opened SealRoundTrip

  /** The manifest says of the capture what the request says. */
  predicate ManifestCarries(suite: Suite, request: SealRequest, manifest: CaptureBatchManifest)
    requires WellTyped(request)
  {
    var metadata := request.metadata;
    && manifest.captureId == metadata.captureId
    && manifest.organizationId == metadata.organizationId && manifest.projectId == metadata.projectId
    && manifest.serviceId == metadata.serviceId
    && manifest.repositoryId == metadata.repositoryId && manifest.servicePath == metadata.servicePath
    && manifest.sourceRevision == metadata.sourceRevision
    && manifest.processingMode == request.capsule.processingMode
    && manifest.requiredCapabilities == request.capsule.requiredCapabilities
    && manifest.replayCapsuleDigest == request.capsuleDigest
    && manifest.replayCapsuleObjectId == request.ids.capsuleObjectId
    && manifest.encryptionContextVersion == 1 && manifest.profile == "backend" && manifest.profileFormat == 1
    && |manifest.proofDigests| == 3
    && forall i :: 0 <= i < 3 ==>
         && manifest.proofDigests[i] == suite.hash(suite.proofBytes(request.proofs[i]))
         && request.proofs[i].processingMode == request.capsule.processingMode
  }

  /** So does the envelope, and the request's signer signed it. */
  predicate EnvelopeCarries(suite: Suite, request: SealRequest, envelope: UploadEnvelope)
    requires WellTyped(request)
  {
    var metadata := request.metadata;
    && envelope.captureId == metadata.captureId
    && envelope.organizationId == metadata.organizationId && envelope.projectId == metadata.projectId
    && envelope.serviceId == metadata.serviceId && envelope.sourceRevision == metadata.sourceRevision
    && metadata.rest == Ok(envelope.rest)
    && envelope.processingMode == request.capsule.processingMode
    && envelope.requiredCapabilities == request.capsule.requiredCapabilities
    && envelope.replayCapsuleDigest == request.capsuleDigest
    && envelope.profile == "backend" && envelope.profileFormat == 1
    && envelope.cipherSuite == "AES-256-GCM+HKDF-SHA-256"
    && envelope.runCount == 3 && envelope.signerKeyId == request.signer.keyId
    && |envelope.proofDigests| == 3
    && (forall i :: 0 <= i < 3 ==> envelope.proofDigests[i] == suite.hash(suite.proofBytes(request.proofs[i])))
    && envelope.manifestObject.objectId == request.ids.manifestObjectId
    && envelope.captureBatchDigest == suite.identityDigest(
         CaptureBatchIdentity(envelope.captureId, envelope.cipherSuite, envelope.manifestObject, envelope.objects,
                              envelope.processingMode))
    && request.signer.sign(envelope.(signature := "")) == Ok(envelope.signature)
  }

  /** The manifest's one record, and the records of all objects, are the envelope's uploads and the ciphertext map. */
  predicate UploadsCarried(suite: Suite, sealed: SealedUpload) {
    var listed := [sealed.envelope.manifestObject.upload] + sealed.envelope.objects;
    && multiset(sealed.envelope.objects) == multiset(FlatUploads(sealed.manifest.objects))
    && (forall i :: 0 < i < |sealed.envelope.objects| ==>
          UploadBefore(sealed.envelope.objects[i - 1], sealed.envelope.objects[i]))
    && forall u :: u in listed ==>
         u.cipherDigest in sealed.ciphertext && suite.hash(sealed.ciphertext[u.cipherDigest]) == u.cipherDigest
         && |sealed.ciphertext[u.cipherDigest]| == u.cipherSize
  }

  function DescriptorsIn(objects: seq<EncryptedObject>): seq<LogicalObject> {
    seq(|objects|, i requires 0 <= i < |objects| => objects[i].descriptor)
  }

  /** The capsule's objects, the capsule document and the three proofs, each once and in order of their ids. */
  predicate DocumentsListed(suite: Suite, request: SealRequest, objects: seq<EncryptedObject>)
    requires Addressable(suite, request)
  {
    && multiset(DescriptorsIn(objects)) == multiset(
         request.capsule.objects
         + [LogicalObject("application/reproit-replay-capsule+json", request.ids.capsuleObjectId, request.capsuleDigest,
                          |suite.capsuleBytes(request.capsule)|, ReplayCapsuleManifest)]
         + seq(3, i requires 0 <= i < 3 =>
             LogicalObject("application/reproit-proof+json", request.ids.proofObjectIds[i],
                           suite.hash(suite.proofBytes(request.proofs[i])), |suite.proofBytes(request.proofs[i])|,
                           AdmissionProof)))
    && forall i, j :: 0 <= i < j < |objects| ==> objects[i].descriptor.objectId < objects[j].descriptor.objectId
  }

  /** The capsule document has the capsule's digest, and every capsule object came with the bytes it describes. */
  predicate BytesCarried(suite: Suite, request: SealRequest) {
    && suite.hash(suite.capsuleBytes(request.capsule)) == request.capsuleDigest
    && forall d :: d in request.capsule.objects ==>
         && d.objectId in request.objects
         && suite.hash(request.objects[d.objectId]) == d.plainDigest && |request.objects[d.objectId]| == d.plainSize
  }

  /** The five added documents have ids of their own, and the proofs come in order of theirs. */
  predicate IdsNew(request: SealRequest)
    requires WellTyped(request)
  {
    var ids := [request.ids.proofObjectIds[0], request.ids.proofObjectIds[1], request.ids.proofObjectIds[2],
                request.ids.capsuleObjectId, request.ids.manifestObjectId];
    && ids[0] < ids[1] < ids[2]
    && (forall i, j :: 0 <= i < j < 5 ==> ids[i] != ids[j])
    && forall i :: 0 <= i < 5 ==> ids[i] !in request.objects
  }

  ghost predicate Carries(suite: Suite, request: SealRequest, sealed: SealedUpload)
    requires Addressable(suite, request)
  {
    && ManifestCarries(suite, request, sealed.manifest)
    && EnvelopeCarries(suite, request, sealed.envelope)
    && UploadsCarried(suite, sealed)
    && DocumentsListed(suite, request, sealed.manifest.objects)
    && BytesCarried(suite, request)
    && IdsNew(request)
  }

  lemma FieldsAreCarried(suite: Suite, request: SealRequest, sealed: SealedUpload)
    requires Addressable(suite, request) && SealedFrom(suite, request, sealed)
    ensures ManifestCarries(suite, request, sealed.manifest) && EnvelopeCarries(suite, request, sealed.envelope)
  {
    hide ObjectsStored, UploadsClosed, ChunkSealed, ManifestBound, ValidManifest, PlainObjects, Descriptors,
      FlatUploads, SortUploads, SortById, ValidIdentity, WithRole;
  }

  lemma UploadsAreCarried(suite: Suite, request: SealRequest, sealed: SealedUpload)
    requires Addressable(suite, request) && SealedFrom(suite, request, sealed)
    ensures UploadsCarried(suite, sealed)
  {
    hide ObjectsStored, ChunkSealed, ManifestBound, ValidManifest, PlainObjects, Descriptors, FlatUploads, SortUploads,
      SortById, UploadBefore, ValidCaptureManifest;
    var flat := FlatUploads(sealed.manifest.objects);
    SortUploadsMultiset(flat);
    forall u | u in [sealed.envelope.manifestObject.upload] + sealed.envelope.objects
      ensures u in flat + [sealed.envelope.manifestObject.upload]
    {
      if u in sealed.envelope.objects {
        assert u in multiset(sealed.envelope.objects);
        assert u in multiset(flat);
      }
    }
  }

  lemma DocumentsAreListed(suite: Suite, request: SealRequest, sealed: SealedUpload)
    requires Addressable(suite, request) && SealedFrom(suite, request, sealed)
    ensures DocumentsListed(suite, request, sealed.manifest.objects)
  {
    hide UploadsClosed, ChunkSealed, FlatUploads, SortUploads, ValidEnvelope, ObjectStored, SortById, ManifestOf,
      PlainObjects, EnvelopeOf;
    var objects := sealed.manifest.objects;
    SortByIdMultiset(Descriptors(suite, request));
    assert DescriptorsIn(objects) == SortById(Descriptors(suite, request));
    DescriptorsSpelled(suite, request);
    hide Descriptors;
  }

  lemma DescriptorsSpelled(suite: Suite, request: SealRequest)
    requires Addressable(suite, request)
    ensures Descriptors(suite, request) ==
      request.capsule.objects
      + [LogicalObject("application/reproit-replay-capsule+json", request.ids.capsuleObjectId, request.capsuleDigest,
                       |suite.capsuleBytes(request.capsule)|, ReplayCapsuleManifest)]
      + seq(3, i requires 0 <= i < 3 =>
          LogicalObject("application/reproit-proof+json", request.ids.proofObjectIds[i],
                        suite.hash(suite.proofBytes(request.proofs[i])), |suite.proofBytes(request.proofs[i])|,
                        AdmissionProof))
  {
  }

  /** The bytes stored for a descriptor are those it describes. */
  lemma StoredIsDescribed(suite: Suite, request: SealRequest, sealed: SealedUpload, d: LogicalObject)
    requires Addressable(suite, request) && SealedFrom(suite, request, sealed) && d in Descriptors(suite, request)
    ensures d.objectId in PlainObjects(suite, request)
    ensures DescribesBytes(suite, d, PlainObjects(suite, request)[d.objectId])
  {
    hide UploadsClosed, ChunkSealed, FlatUploads, SortUploads, ValidEnvelope, SortById, ManifestOf, ManifestBound,
      ValidCaptureManifest, PlainObjects, EnvelopeOf, Descriptors, Chunks;
    var sorted := SortById(Descriptors(suite, request));
    SortByIdMultiset(Descriptors(suite, request));
    assert d in multiset(sorted);
    var k :| 0 <= k < |sorted| && sorted[k] == d;
    assert sealed.manifest.objects[k].descriptor == sorted[k];
  }

  lemma CapsuleBytesCarried(suite: Suite, request: SealRequest, sealed: SealedUpload)
    requires Addressable(suite, request) && SealedFrom(suite, request, sealed)
    ensures suite.hash(suite.capsuleBytes(request.capsule)) == request.capsuleDigest
  {
    assert ValidSealingIds(request);
    hide SealedFrom;
    var capsule := CapsuleDescriptor(suite, request);
    assert Descriptors(suite, request)[|request.capsule.objects|] == capsule;
    hide Descriptors;
    StoredIsDescribed(suite, request, sealed, capsule);
    PlainDocuments(suite, request);
    hide PlainObjects;
  }

  lemma ObjectBytesCarried(suite: Suite, request: SealRequest, sealed: SealedUpload, d: LogicalObject)
    requires Addressable(suite, request) && SealedFrom(suite, request, sealed) && d in request.capsule.objects
    ensures d.objectId in request.objects && DescribesBytes(suite, d, request.objects[d.objectId])
  {
    assert ValidSealingIds(request);
    assert d.objectId != request.ids.capsuleObjectId && d.objectId !in request.ids.proofObjectIds;
    hide SealedFrom;
    assert d in Descriptors(suite, request);
    hide Descriptors, PlainObjects;
    StoredIsDescribed(suite, request, sealed, d);
    PlainObjectsKeep(suite, request, d.objectId);
  }

  lemma BytesAreCarried(suite: Suite, request: SealRequest, sealed: SealedUpload)
    requires Addressable(suite, request) && SealedFrom(suite, request, sealed)
    ensures BytesCarried(suite, request)
  {
    hide SealedFrom;
    CapsuleBytesCarried(suite, request, sealed);
    forall d | d in request.capsule.objects
      ensures d.objectId in request.objects && DescribesBytes(suite, d, request.objects[d.objectId])
    {
      ObjectBytesCarried(suite, request, sealed, d);
    }
  }

  lemma IdsAreNew(suite: Suite, request: SealRequest, sealed: SealedUpload)
    requires Addressable(suite, request) && SealedFrom(suite, request, sealed)
    ensures IdsNew(request)
  {
    assert ValidSealingIds(request);
    hide SealedFrom;
    SealingIdsAreNew(request);
  }

  lemma SealingIdsAreNew(request: SealRequest)
    requires WellTyped(request) && ValidSealingIds(request)
    ensures IdsNew(request)
  {
  }

  /** A sealed upload carries the request, field by field and document by document. */
  lemma SealedCarries(suite: Suite, request: SealRequest, sealed: SealedUpload)
    requires Addressable(suite, request) && SealedFrom(suite, request, sealed)
    ensures Carries(suite, request, sealed)
  {
    IdsAreNew(suite, request, sealed);
    hide SealedFrom, ManifestCarries, EnvelopeCarries, UploadsCarried, DocumentsListed, BytesCarried, IdsNew;
    FieldsAreCarried(suite, request, sealed);
    UploadsAreCarried(suite, request, sealed);
    DocumentsAreListed(suite, request, sealed);
    BytesAreCarried(suite, request, sealed);
  }
}
