/** Encrypted captures: manifests, upload envelopes, keys, contexts and their validation. */
module SealModel {
  import opened Prelude
  import opened Ordering
  import opened Capsule
  import opened ProcessorNames

  type Bytes = seq<byte>

  const CHUNK_BYTES: nat := 8 * 1024 * 1024
  const CHUNK_OVERHEAD: nat := 28
  const NONCE_BYTES: nat := 12
  const MAXIMUM_CHUNKS: nat := 32_767
  const CIPHER_SUITE := "AES-256-GCM+HKDF-SHA-256"

  datatype Key = Key(id: nat)

  datatype ObjectKeyContext = ObjectKeyContext(
    captureId: nat, objectId: ObjectId, organizationId: nat, processingMode: ProcessingMode, projectId: nat,
    role: LogicalObjectRole, serviceId: nat)

  datatype ChunkKeyContext = ChunkKeyContext(chunkCount: nat, chunkIndex: nat, objectContextDigest: Digest,
                                             plainSize: nat)

  predicate ValidChunkContext(context: ChunkKeyContext) {
    && 0 < context.chunkCount <= MAXIMUM_CHUNKS
    && context.chunkIndex < context.chunkCount
    && context.plainSize <= CHUNK_BYTES
  }

  datatype EncryptedChunk = EncryptedChunk(cipherDigest: Digest, cipherSize: nat, index: nat, nonce: string)

  datatype EncryptedObject = EncryptedObject(chunks: seq<EncryptedChunk>, descriptor: LogicalObject)

  datatype UploadObject = UploadObject(cipherDigest: Digest, cipherSize: nat, nonce: string)

  datatype ManifestUploadObject = ManifestUploadObject(upload: UploadObject, objectId: ObjectId)

  datatype Proof = Proof(
    capsuleDigest: Digest, executorCapabilitiesDigest: Digest, failureDigest: Digest, perturbationDigest: Digest,
    processingMode: ProcessingMode, runIndex: nat, subjectDigest: Digest, triggerDigest: Digest, worldDigest: Digest)

  datatype CaptureBatchManifest = CaptureBatchManifest(
    captureId: nat,
    encryptionContextVersion: nat,
    objects: seq<EncryptedObject>,
    organizationId: nat,
    processingMode: ProcessingMode,
    profile: string,
    profileFormat: nat,
    projectId: nat,
    proofDigests: seq<Digest>,
    replayCapsuleDigest: Digest,
    replayCapsuleObjectId: ObjectId,
    repositoryId: string,
    requiredCapabilities: seq<string>,
    serviceId: nat,
    servicePath: string,
    sourceRevision: string)

  /** Envelope fields that sealing copies through and opening never reads. */
  datatype EnvelopeRest = EnvelopeRest(
    campaignContext: string, causalParentIds: seq<nat>, discoverySource: string, failureFingerprint: string,
    failureSummary: string, operationId: Option<nat>, signedAt: string, triggerSummary: string, wrappedKey: string)

  datatype UploadEnvelope = UploadEnvelope(
    proofDigests: seq<Digest>,
    runCount: nat,
    signerKeyId: string,
    captureBatchDigest: Digest,
    captureId: nat,
    cipherSuite: string,
    manifestObject: ManifestUploadObject,
    objects: seq<UploadObject>,
    organizationId: nat,
    processingMode: ProcessingMode,
    profile: string,
    profileFormat: nat,
    projectId: nat,
    replayCapsuleDigest: Digest,
    requiredCapabilities: seq<string>,
    serviceId: nat,
    signature: string,
    sourceRevision: string,
    rest: EnvelopeRest)

  datatype CaptureBatchIdentity = CaptureBatchIdentity(
    captureId: nat, cipherSuite: string, manifestObject: ManifestUploadObject, objects: seq<UploadObject>,
    processingMode: ProcessingMode)

  /**
   * The libraries sealing and opening call: hash, key derivation, authenticated
   * encryption, text and document encodings, signatures. `restValid` stands for
   * the envelope checks that do not concern encryption.
   */
  datatype Suite = Suite(
    hash: Bytes -> Digest,
    objectContextDigest: ObjectKeyContext -> Digest,
    objectKey: (Key, ObjectKeyContext) -> Key,
    chunkKey: (Key, ChunkKeyContext) -> Key,
    aeadSeal: (Key, Bytes, Bytes, ChunkKeyContext) -> Option<Bytes>,
    aeadOpen: (Key, Bytes, Bytes, ChunkKeyContext) -> Option<Bytes>,
    encodeNonce: Bytes -> string,
    decodeNonce: string -> Option<Bytes>,
    manifestBytes: CaptureBatchManifest -> Bytes,
    parseManifest: Bytes -> Option<CaptureBatchManifest>,
    capsuleBytes: ReplayCapsule -> Bytes,
    proofBytes: Proof -> Bytes,
    identityDigest: CaptureBatchIdentity -> Digest,
    envelopeSize: UploadEnvelope -> nat,
    restValid: UploadEnvelope -> bool,
    verify: (Key, UploadEnvelope, string) -> bool)

  /** What opening needs of the cipher and the nonce encoding. No property of the hash is needed. */
  ghost predicate Ideal(suite: Suite) {
    && (forall key, nonce, plaintext, context :: suite.aeadSeal(key, nonce, plaintext, context).Some? ==>
          var sealed := suite.aeadSeal(key, nonce, plaintext, context).value;
          && |sealed| == |plaintext| + 16
          && suite.aeadOpen(key, nonce, sealed, context) == Some(plaintext))
    && (forall nonce :: |nonce| == NONCE_BYTES ==> suite.decodeNonce(suite.encodeNonce(nonce)) == Some(nonce))
  }

  /** The encoding of this manifest is read back. */
  predicate ReadsBack(suite: Suite, manifest: CaptureBatchManifest) {
    suite.parseManifest(suite.manifestBytes(manifest)) == Some(manifest)
  }

  // Chunking.

  /** The plaintext chunks: one empty chunk for no bytes, else full chunks and a remainder. */
  function Chunks(bytes: Bytes): (chunks: seq<Bytes>)
    ensures |chunks| > 0
    ensures forall i :: 0 <= i < |chunks| ==> |chunks[i]| <= CHUNK_BYTES
  {
    if |bytes| <= CHUNK_BYTES then [bytes] else [bytes[..CHUNK_BYTES]] + Chunks(bytes[CHUNK_BYTES..])
  }

  function Concat(parts: seq<Bytes>): Bytes {
    if parts == [] then [] else parts[0] + Concat(parts[1..])
  }

  /** `len.max(1).div_ceil(CHUNK_BYTES)`. */
  function ChunkCount(length: nat): nat {
    ((if length == 0 then 1 else length) + CHUNK_BYTES - 1) / CHUNK_BYTES
  }

  lemma {:induction false} ChunksRejoin(bytes: Bytes)
    ensures Concat(Chunks(bytes)) == bytes
  {
    if |bytes| <= CHUNK_BYTES {
      assert Concat([bytes]) == bytes + [];
    } else {
      ChunksRejoin(bytes[CHUNK_BYTES..]);
      assert Chunks(bytes)[1..] == Chunks(bytes[CHUNK_BYTES..]);
    }
  }

  lemma {:induction false} ChunksAreCounted(bytes: Bytes)
    ensures |Chunks(bytes)| == ChunkCount(|bytes|)
  {
    if |bytes| > CHUNK_BYTES {
      ChunksAreCounted(bytes[CHUNK_BYTES..]);
    }
  }

  // Validation.

  predicate ValidUpload(upload: UploadObject) {
    && 28 <= upload.cipherSize <= 8_388_636
    && |upload.nonce| == 16
    && forall i :: 0 <= i < |upload.nonce| ==>
         IsLower(upload.nonce[i]) || IsUpper(upload.nonce[i]) || IsDigit(upload.nonce[i])
         || upload.nonce[i] == '_' || upload.nonce[i] == '-'
  }

  predicate ValidChunks(chunks: seq<EncryptedChunk>) {
    && 0 < |chunks| <= MAXIMUM_CHUNKS
    && forall i :: 0 <= i < |chunks| ==>
         chunks[i].index == i && 28 <= chunks[i].cipherSize <= 8_388_636 && |chunks[i].nonce| == 16
  }

  function TotalChunks(objects: seq<EncryptedObject>): nat {
    if objects == [] then 0 else |objects[0].chunks| + TotalChunks(objects[1..])
  }

  predicate AllDistinct(digests: seq<Digest>) {
    forall i, j :: 0 <= i < j < |digests| ==> digests[i] != digests[j]
  }

  /** `CaptureBatchManifest::validate`. */
  predicate ValidManifest(suite: Suite, manifest: CaptureBatchManifest) {
    && manifest.encryptionContextVersion == 1
    && ValidCapability(manifest.profile)
    && 1 <= manifest.profileFormat <= MAX_EXACT_INTEGER
    && 4 <= |manifest.objects| <= 32_768
    && |manifest.proofDigests| == 3 && AllDistinct(manifest.proofDigests)
    && (forall i, j :: 0 <= i < j < |manifest.objects| ==>
          manifest.objects[i].descriptor.objectId < manifest.objects[j].descriptor.objectId)
    && ValidCapabilities(manifest.requiredCapabilities)
    && (forall i :: 0 <= i < |manifest.objects| ==>
          ValidObject(manifest.objects[i].descriptor) && ValidChunks(manifest.objects[i].chunks))
    && 1 + TotalChunks(manifest.objects) <= 32_768
    && |suite.manifestBytes(manifest)| <= 8_388_608
  }

  predicate UploadBefore(a: UploadObject, b: UploadObject) {
    a.cipherDigest < b.cipherDigest || (a.cipherDigest == b.cipherDigest && Less(a.nonce, b.nonce))
  }

  function CipherBytes(uploads: seq<UploadObject>): nat {
    if uploads == [] then 0 else uploads[0].cipherSize + CipherBytes(uploads[1..])
  }

  /** `CaptureBatchIdentity::validate`: bounds, fresh nonces and strict (digest, nonce) order. */
  predicate ValidIdentity(identity: CaptureBatchIdentity) {
    && identity.cipherSuite == CIPHER_SUITE
    && 4 <= |identity.objects| <= 32_767
    && ValidUpload(identity.manifestObject.upload)
    && identity.manifestObject.upload.cipherSize + CipherBytes(identity.objects) <= 274_878_824_448
    && (forall i :: 0 <= i < |identity.objects| ==> ValidUpload(identity.objects[i]))
    && (forall i :: 0 <= i < |identity.objects| ==> identity.objects[i].nonce != identity.manifestObject.upload.nonce)
    && (forall i, j :: 0 <= i < j < |identity.objects| ==> identity.objects[i].nonce != identity.objects[j].nonce)
    && (forall i :: 0 < i < |identity.objects| ==> UploadBefore(identity.objects[i - 1], identity.objects[i]))
  }

  function IdentityOf(envelope: UploadEnvelope): CaptureBatchIdentity {
    CaptureBatchIdentity(envelope.captureId, envelope.cipherSuite, envelope.manifestObject, envelope.objects,
                         envelope.processingMode)
  }

  /** `UploadEnvelope::validate`. */
  predicate ValidEnvelope(suite: Suite, envelope: UploadEnvelope) {
    && |envelope.proofDigests| == 3 && AllDistinct(envelope.proofDigests)
    && envelope.runCount == 3
    && 0 < |envelope.signerKeyId| <= 256
    && envelope.cipherSuite == CIPHER_SUITE
    && ValidCapability(envelope.profile)
    && 1 <= envelope.profileFormat <= MAX_EXACT_INTEGER
    && 0 < |envelope.sourceRevision| <= 256
    && ValidCapabilities(envelope.requiredCapabilities)
    && suite.restValid(envelope)
    && ValidIdentity(IdentityOf(envelope))
    && suite.envelopeSize(envelope) <= 8_388_608
    && suite.identityDigest(IdentityOf(envelope)) == envelope.captureBatchDigest
  }

  function UploadOf(chunk: EncryptedChunk): UploadObject {
    UploadObject(chunk.cipherDigest, chunk.cipherSize, chunk.nonce)
  }

  function ObjectUploads(chunks: seq<EncryptedChunk>): seq<UploadObject> {
    seq(|chunks|, i requires 0 <= i < |chunks| => UploadOf(chunks[i]))
  }

  /** Every chunk of every object as an upload, in manifest order. */
  function FlatUploads(objects: seq<EncryptedObject>): seq<UploadObject> {
    if objects == [] then [] else ObjectUploads(objects[0].chunks) + FlatUploads(objects[1..])
  }

  lemma {:induction false} FlatUploadsAppend(objects: seq<EncryptedObject>, last: EncryptedObject)
    ensures FlatUploads(objects + [last]) == FlatUploads(objects) + ObjectUploads(last.chunks)
  {
    if objects == [] {
      assert [last][1..] == [];
    } else {
      FlatUploadsAppend(objects[1..], last);
      assert (objects + [last])[1..] == objects[1..] + [last];
    }
  }

  // `sort_by_key` on uploads and on descriptors.

  predicate UploadNotAfter(a: UploadObject, b: UploadObject) {
    UploadBefore(a, b) || (a.cipherDigest == b.cipherDigest && a.nonce == b.nonce)
  }

  function InsertUpload(x: UploadObject, s: seq<UploadObject>): seq<UploadObject> {
    if s == [] || UploadNotAfter(x, s[0]) then [x] + s else [s[0]] + InsertUpload(x, s[1..])
  }

  function SortUploads(s: seq<UploadObject>): seq<UploadObject> {
    if s == [] then [] else InsertUpload(s[0], SortUploads(s[1..]))
  }

  lemma {:induction false} InsertUploadMultiset(x: UploadObject, s: seq<UploadObject>)
    ensures multiset(InsertUpload(x, s)) == multiset(s) + multiset{x}
  {
    if s != [] && !UploadNotAfter(x, s[0]) {
      InsertUploadMultiset(x, s[1..]);
      assert s == [s[0]] + s[1..];
    }
  }

  lemma {:induction false} SortUploadsMultiset(s: seq<UploadObject>)
    ensures multiset(SortUploads(s)) == multiset(s)
  {
    if s != [] {
      SortUploadsMultiset(s[1..]);
      InsertUploadMultiset(s[0], SortUploads(s[1..]));
      assert s == [s[0]] + s[1..];
    }
  }

  function InsertById(x: LogicalObject, s: seq<LogicalObject>): seq<LogicalObject> {
    if s == [] || x.objectId <= s[0].objectId then [x] + s else [s[0]] + InsertById(x, s[1..])
  }

  function SortById(s: seq<LogicalObject>): seq<LogicalObject> {
    if s == [] then [] else InsertById(s[0], SortById(s[1..]))
  }

  lemma {:induction false} InsertByIdMultiset(x: LogicalObject, s: seq<LogicalObject>)
    ensures multiset(InsertById(x, s)) == multiset(s) + multiset{x}
  {
    if s != [] && x.objectId > s[0].objectId {
      InsertByIdMultiset(x, s[1..]);
      assert s == [s[0]] + s[1..];
    }
  }

  lemma {:induction false} SortByIdMultiset(s: seq<LogicalObject>)
    ensures multiset(SortById(s)) == multiset(s)
  {
    if s != [] {
      SortByIdMultiset(s[1..]);
      InsertByIdMultiset(s[0], SortById(s[1..]));
      assert s == [s[0]] + s[1..];
    }
  }
}
