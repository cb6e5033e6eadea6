/** `seal_upload`: the manifest, the envelope and what a successful seal guarantees. */
module SealUpload {
  import opened Prelude
  import opened Ordering
  import opened Capsule
  import opened SealModel
  import opened SealNonces
  import opened Sealing
  import opened SealBatch

  function ProofDigest(suite: Suite, proof: Proof): Digest {
    suite.hash(suite.proofBytes(proof))
  }

  function ManifestOf(suite: Suite, request: SealRequest, objects: seq<EncryptedObject>): CaptureBatchManifest
    requires WellTyped(request)
  {
    CaptureBatchManifest(
      request.metadata.captureId, 1, objects, request.metadata.organizationId, request.capsule.processingMode,
      "backend", 1, request.metadata.projectId,
      [ProofDigest(suite, request.proofs[0]), ProofDigest(suite, request.proofs[1]),
       ProofDigest(suite, request.proofs[2])],
      request.capsuleDigest, request.ids.capsuleObjectId, request.metadata.repositoryId,
      request.capsule.requiredCapabilities, request.metadata.serviceId, request.metadata.servicePath,
      request.metadata.sourceRevision)
  }

  function WithRole(objects: seq<EncryptedObject>, role: LogicalObjectRole): seq<EncryptedObject> {
    Filter(objects, (o: EncryptedObject) => o.descriptor.role == role)
  }

  /** `proof::validate_capture_manifest`. */
  predicate ValidCaptureManifest(suite: Suite, manifest: CaptureBatchManifest, capsuleDigest: Digest,
                                 proofs: seq<Proof>) {
    && ValidManifest(suite, manifest)
    && manifest.replayCapsuleDigest == capsuleDigest
    && |proofs| == 3
    && (forall i :: 0 <= i < 3 ==> proofs[i].processingMode == manifest.processingMode)
    && var capsules := WithRole(manifest.objects, ReplayCapsuleManifest);
    && |capsules| == 1
    && capsules[0].descriptor.objectId == manifest.replayCapsuleObjectId
    && capsules[0].descriptor.plainDigest == capsuleDigest
    && var records := WithRole(manifest.objects, AdmissionProof);
    && |records| == 3
    && forall i :: 0 <= i < 3 ==>
         manifest.proofDigests[i] == ProofDigest(suite, proofs[i]) == records[i].descriptor.plainDigest
  }

  function ManifestDescriptor(suite: Suite, request: SealRequest, bytes: Bytes): LogicalObject
    requires |bytes| <= U64_MAX
  {
    LogicalObject("application/reproit-capture-batch+json", request.ids.manifestObjectId, suite.hash(bytes), |bytes|,
                  CaptureBatchManifestRole)
  }

  /** `validate_manifest_binding`. */
  predicate ManifestBound(suite: Suite, manifest: CaptureBatchManifest, manifestObject: ManifestUploadObject,
                          capsuleDigest: Digest) {
    && ValidManifest(suite, manifest)
    && ValidUpload(manifestObject.upload)
    && manifest.replayCapsuleDigest == capsuleDigest
    && forall i :: 0 <= i < |manifest.objects| ==> manifest.objects[i].descriptor.objectId != manifestObject.objectId
  }

  const NO_REST := EnvelopeRest("", [], "", "", "", None, "", "", "")

  /** The remaining fields, with the grouping and the fingerprint of the failure, when they can be computed. */
  function RestOf(request: SealRequest): EnvelopeRest {
    if request.metadata.rest.Ok? then request.metadata.rest.value else NO_REST
  }

  function EnvelopeOf(suite: Suite, request: SealRequest, manifest: CaptureBatchManifest,
                      manifestObject: ManifestUploadObject, uploads: seq<UploadObject>,
                      signature: string): UploadEnvelope
  {
    var identity := CaptureBatchIdentity(request.metadata.captureId, CIPHER_SUITE, manifestObject, uploads,
                                         manifest.processingMode);
    UploadEnvelope(
      manifest.proofDigests, 3, request.signer.keyId, suite.identityDigest(identity), request.metadata.captureId,
      CIPHER_SUITE, manifestObject, uploads, request.metadata.organizationId, manifest.processingMode, "backend", 1,
      request.metadata.projectId, manifest.replayCapsuleDigest, request.capsule.requiredCapabilities,
      request.metadata.serviceId, signature, request.metadata.sourceRevision, RestOf(request))
  }

  /** `validate_sealing_ids`: five fresh ids, the proofs in ascending order. */
  predicate ValidSealingIds(request: SealRequest)
    requires WellTyped(request)
  {
    var ids := request.ids;
    && ids.proofObjectIds[0] < ids.proofObjectIds[1] < ids.proofObjectIds[2]
    && ids.capsuleObjectId != ids.manifestObjectId
    && (forall i :: 0 <= i < 3 ==>
          ids.proofObjectIds[i] != ids.capsuleObjectId && ids.proofObjectIds[i] != ids.manifestObjectId
          && ids.proofObjectIds[i] !in request.objects)
    && ids.capsuleObjectId !in request.objects && ids.manifestObjectId !in request.objects
  }

  function ManifestContext(request: SealRequest): ObjectKeyContext {
    ObjectKeyContext(request.metadata.captureId, request.ids.manifestObjectId, request.metadata.organizationId,
                     request.capsule.processingMode, request.metadata.projectId, CaptureBatchManifestRole,
                     request.metadata.serviceId)
  }

  /** What a successful seal hands out. */
  ghost predicate SealedFrom(suite: Suite, request: SealRequest, sealed: SealedUpload)
    requires Addressable(suite, request)
  {
    var envelope, manifest := sealed.envelope, sealed.manifest;
    var manifestUpload := envelope.manifestObject.upload;
    && ValidSealingIds(request)
    && (forall d :: d in request.capsule.objects ==>
          d.objectId != request.ids.capsuleObjectId && d.objectId !in request.ids.proofObjectIds)
    // the manifest and every object of the batch
    && manifest == ManifestOf(suite, request, manifest.objects)
    && ValidCaptureManifest(suite, manifest, request.capsuleDigest, request.proofs)
    && ObjectsStored(suite, request, PlainObjects(suite, request), SortById(Descriptors(suite, request)),
                     manifest.objects, sealed.ciphertext)
    && UploadsClosed(suite, FlatUploads(manifest.objects) + [manifestUpload], sealed.ciphertext)
    // the manifest record
    && manifestUpload.cipherDigest in sealed.ciphertext
    && ChunkSealed(suite, request.occurrenceKey, ManifestContext(request), 1, 0, suite.manifestBytes(manifest),
                   EncryptedChunk(manifestUpload.cipherDigest, manifestUpload.cipherSize, 0, manifestUpload.nonce),
                   sealed.ciphertext[manifestUpload.cipherDigest])
    && envelope.manifestObject.objectId == request.ids.manifestObjectId
    && ManifestBound(suite, manifest, envelope.manifestObject, manifest.replayCapsuleDigest)
    // the envelope
    && envelope == EnvelopeOf(suite, request, manifest, envelope.manifestObject,
                              SortUploads(FlatUploads(manifest.objects)), envelope.signature)
    && request.metadata.rest.Ok? && request.signer.sign(envelope.(signature := "")) == Ok(envelope.signature)
    && ValidEnvelope(suite, envelope)
  }

  /** The manifest's one record, encrypted with the next draw. */
  function ManifestMaterial(suite: Suite, request: SealRequest, bytes: Bytes, stream: NonceStream, from: nat)
    : EncryptedMaterial
    requires |bytes| <= U64_MAX
  {
    MaterialOf(suite, request.occurrenceKey, ManifestContext(request), ManifestDescriptor(suite, request, bytes), bytes,
               stream, from)
  }

  /** Exactly when the manifest goes through: one chunk, one new draw and the cipher. */
  predicate ManifestEncrypts(suite: Suite, request: SealRequest, bytes: Bytes, stream: NonceStream, from: nat,
                             used: set<Nonce>)
    requires |bytes| <= U64_MAX
  {
    && ObjectEncrypts(suite, request, ManifestDescriptor(suite, request, bytes), bytes, stream, from, used)
    && |Chunks(bytes)| == 1
  }

  /** `encrypt_manifest`: the manifest must fit in one chunk. */
  method EncryptManifest(suite: Suite, request: SealRequest, bytes: Bytes, source: NonceSource, registry: NonceRegistry)
    returns (r: Result<EncryptedMaterial>)
    requires |bytes| <= U64_MAX
    modifies source, registry
    ensures r.Ok? <==> ManifestEncrypts(suite, request, bytes, source.stream, old(source.drawn), old(registry.used))
    ensures r.Ok? ==> r.value == ManifestMaterial(suite, request, bytes, source.stream, old(source.drawn))
  {
    r := EncryptObject(suite, request, ManifestDescriptor(suite, request, bytes), bytes, source, registry);
    if r.Ok? && |r.value.item.chunks| != 1 {
      return Err(UploadLimitExceeded);
    }
  }

  /** What `build_envelope` returns, if anything: bound, valid before signing, signed, and valid after. */
  function FinishedEnvelope(suite: Suite, request: SealRequest, manifest: CaptureBatchManifest,
                            manifestObject: ManifestUploadObject, uploads: seq<UploadObject>): Option<UploadEnvelope>
  {
    var unsigned := EnvelopeOf(suite, request, manifest, manifestObject, uploads, "");
    var signature := request.signer.sign(unsigned);
    if !ManifestBound(suite, manifest, manifestObject, manifest.replayCapsuleDigest)
      || !ValidIdentity(IdentityOf(unsigned))
      || request.metadata.rest.Err? || signature.Err? || !ValidEnvelope(suite, unsigned.(signature := signature.value))
    then None
    else Some(unsigned.(signature := signature.value))
  }

  /** `build_envelope`. */
  method BuildEnvelope(suite: Suite, request: SealRequest, manifest: CaptureBatchManifest,
                       manifestObject: ManifestUploadObject, uploads: seq<UploadObject>)
    returns (r: Result<UploadEnvelope>)
    ensures r.Ok? <==> FinishedEnvelope(suite, request, manifest, manifestObject, uploads).Some?
    ensures r.Ok? ==> r.value == FinishedEnvelope(suite, request, manifest, manifestObject, uploads).value
  {
    if !ManifestBound(suite, manifest, manifestObject, manifest.replayCapsuleDigest) {
      return Err(SchemaInvalid);
    }
    var unsigned := EnvelopeOf(suite, request, manifest, manifestObject, uploads, "");
    if !ValidIdentity(IdentityOf(unsigned)) {
      return Err(SchemaInvalid);
    }
    if request.metadata.rest.Err? {
      return Err(request.metadata.rest.error);
    }
    var signature := request.signer.sign(unsigned);
    if signature.Err? {
      return Err(signature.error);
    }
    var envelope := unsigned.(signature := signature.value);
    if !ValidEnvelope(suite, envelope) {
      return Err(SchemaInvalid);
    }
    return Ok(envelope);
  }

  /** What encrypting the manifest adds to the batch. */
  ghost predicate ManifestSealed(suite: Suite, request: SealRequest, material: CaptureMaterial, upload: UploadObject,
                                 ciphertext: map<Digest, Bytes>)
    requires Addressable(suite, request)
  {
    && ObjectsStored(suite, request, PlainObjects(suite, request), SortById(Descriptors(suite, request)),
                     material.objects, ciphertext)
    && UploadsClosed(suite, material.uploads + [upload], ciphertext)
    && upload.cipherDigest in ciphertext
    && ChunkSealed(suite, request.occurrenceKey, ManifestContext(request), 1, 0,
                   suite.manifestBytes(ManifestOf(suite, request, material.objects)),
                   EncryptedChunk(upload.cipherDigest, upload.cipherSize, 0, upload.nonce),
                   ciphertext[upload.cipherDigest])
  }

  /** The manifest part of `seal_upload` on values: its upload and the whole ciphertext map. */
  ghost function SealedManifest(suite: Suite, request: SealRequest, stream: NonceStream, batch: BatchState)
    : Option<(UploadObject, map<Digest, Bytes>)>
    requires WellTyped(request)
  {
    var bytes := suite.manifestBytes(ManifestOf(suite, request, batch.material.objects));
    if |bytes| > U64_MAX || !ManifestEncrypts(suite, request, bytes, stream, batch.drawn, batch.used) then None
    else
      var added := ManifestMaterial(suite, request, bytes, stream, batch.drawn);
      var material := AddMaterial(batch.material, added);
      if material.None? then None else Some((ObjectUploads(added.item.chunks)[0], material.value.ciphertext))
  }

  /** A sealed manifest is stored beside everything that was stored before. */
  lemma SealedManifestIsStored(suite: Suite, request: SealRequest, stream: NonceStream, batch: BatchState)
    requires Addressable(suite, request)
    requires BatchStored(suite, request, PlainObjects(suite, request), SortById(Descriptors(suite, request)),
                         batch.material)
    requires SealedManifest(suite, request, stream, batch).Some?
    ensures
      var sealed := SealedManifest(suite, request, stream, batch).value;
      ManifestSealed(suite, request, batch.material, sealed.0, sealed.1)
  {
    var bytes := suite.manifestBytes(ManifestOf(suite, request, batch.material.objects));
    var added := ManifestMaterial(suite, request, bytes, stream, batch.drawn);
    var uploads := ObjectUploads(added.item.chunks);
    var ciphertext := AddMaterial(batch.material, added).value.ciphertext;
    MaterialIsSealed(suite, request, ManifestDescriptor(suite, request, bytes), bytes, stream, batch.drawn, batch.used);
    InsertAllGrows(uploads, added.stored, batch.material.ciphertext);
    SealedUploadsMatch(suite, request.occurrenceKey, ManifestContext(request), bytes, added, ciphertext);
    ExtendsKeepsObjects(suite, request, PlainObjects(suite, request), SortById(Descriptors(suite, request)),
                        batch.material.objects, batch.material.ciphertext, ciphertext);
    AppendKeepsClosed(suite, batch.material.uploads, batch.material.ciphertext, uploads, ciphertext);
    assert uploads == [uploads[0]];
    OneChunk(bytes);
  }

  /** The manifest part of `seal_upload`: encrypt it and append its one record. */
  method SealManifest(suite: Suite, request: SealRequest, material: CaptureMaterial, source: NonceSource,
                      registry: NonceRegistry)
    returns (r: Result<(UploadObject, map<Digest, Bytes>)>)
    requires WellTyped(request)
    requires |suite.manifestBytes(ManifestOf(suite, request, material.objects))| <= U64_MAX
    modifies source, registry
    ensures
      var sealed := SealedManifest(suite, request, source.stream,
                                   BatchState(material, old(source.drawn), old(registry.used)));
      && (r.Ok? <==> sealed.Some?)
      && (r.Ok? ==> r.value == sealed.value)
  {
    var bytes := suite.manifestBytes(ManifestOf(suite, request, material.objects));
    var encrypted := EncryptManifest(suite, request, bytes, source, registry);
    if encrypted.Err? {
      return Err(encrypted.error);
    }
    var uploads := ObjectUploads(encrypted.value.item.chunks);
    var ciphertext := AppendCiphertext(uploads, encrypted.value.stored, material.ciphertext);
    if ciphertext.Err? {
      return Err(ciphertext.error);
    }
    return Ok((uploads[0], ciphertext.value));
  }

  /** What sealing returns from these draws, if anything. */
  ghost function SealOutcome(suite: Suite, request: SealRequest, stream: NonceStream, from: nat): Option<SealedUpload>
    requires Addressable(suite, request)
  {
    var batch := Batch(suite, request, stream, from, {});
    if !ValidSealingIds(request) || batch.None? then None
    else
      var manifest := ManifestOf(suite, request, batch.value.material.objects);
      if !ValidCaptureManifest(suite, manifest, request.capsuleDigest, request.proofs) then None
      else
        var sealed := SealedManifest(suite, request, stream, batch.value);
        if sealed.None? then None
        else
          var envelope := FinishedEnvelope(
            suite, request, manifest, ManifestUploadObject(sealed.value.0, request.ids.manifestObjectId),
            SortUploads(batch.value.material.uploads));
          if envelope.None? then None else Some(SealedUpload(sealed.value.1, envelope.value, manifest))
  }

  /** `seal_upload`. */
  method SealCapture(suite: Suite, request: SealRequest, source: NonceSource)
    returns (r: Result<SealedUpload>)
    requires Addressable(suite, request)
    modifies source
    ensures r.Ok? <==> SealOutcome(suite, request, source.stream, old(source.drawn)).Some?
    ensures r.Ok? ==> r.value == SealOutcome(suite, request, source.stream, old(source.drawn)).value
    ensures r.Ok? ==> SealedFrom(suite, request, r.value)
  {
    hide Batch, SealedManifest, FinishedEnvelope, ValidSealingIds, SealedFrom, ManifestOf, SortUploads;
    if !ValidSealingIds(request) {
      return Err(SchemaInvalid);
    }
    ghost var from := source.drawn;
    var registry := new NonceRegistry();
    var material := EncryptCaptureObjects(suite, request, source, registry);
    if material.Err? {
      return Err(material.error);
    }
    var manifest := ManifestOf(suite, request, material.value.objects);
    if !ValidCaptureManifest(suite, manifest, request.capsuleDigest, request.proofs) {
      return Err(AdmissionProofBinding);
    }
    var sealed := SealManifest(suite, request, material.value, source, registry);
    if sealed.Err? {
      return Err(sealed.error);
    }
    var manifestObject := ManifestUploadObject(sealed.value.0, request.ids.manifestObjectId);
    var envelope := BuildEnvelope(suite, request, manifest, manifestObject, SortUploads(material.value.uploads));
    if envelope.Err? {
      return Err(envelope.error);
    }
    OutcomeIsSealed(suite, request, source.stream, from);
    return Ok(SealedUpload(sealed.value.1, envelope.value, manifest));
  }

  lemma OneChunk(bytes: Bytes)
    ensures |Chunks(bytes)| == 1 ==> Chunks(bytes)[0] == bytes
  {
  }

  /** In a finished batch no descriptor of the capsule has an id of the added documents. */
  lemma DocumentsAreApart(suite: Suite, request: SealRequest, stream: NonceStream, from: nat)
    requires Addressable(suite, request) && Batch(suite, request, stream, from, {}).Some?
    ensures forall d :: d in request.capsule.objects ==>
      d.objectId != request.ids.capsuleObjectId && d.objectId !in request.ids.proofObjectIds
  {
  }

  /** Whatever sealing returns is stored, bound, closed, signed and valid. */
  lemma OutcomeIsSealed(suite: Suite, request: SealRequest, stream: NonceStream, from: nat)
    requires Addressable(suite, request) && SealOutcome(suite, request, stream, from).Some?
    ensures SealedFrom(suite, request, SealOutcome(suite, request, stream, from).value)
  {
    hide Batch, SealedManifest, ObjectsStored, UploadsClosed, ChunkSealed, ValidEnvelope, ManifestBound,
      ValidCaptureManifest, PlainObjects, Descriptors, FlatUploads, SortUploads;
    var batch := Batch(suite, request, stream, from, {}).value;
    var envelope := SealOutcome(suite, request, stream, from).value.envelope;
    DocumentsAreApart(suite, request, stream, from);
    BatchIsStored(suite, request, stream, from, {});
    SealedManifestIsStored(suite, request, stream, batch);
    assert envelope.(signature := "") ==
      EnvelopeOf(suite, request, ManifestOf(suite, request, batch.material.objects), envelope.manifestObject,
                 SortUploads(batch.material.uploads), "");
  }
}
