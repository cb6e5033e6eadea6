/** The premises of the sealing theorems hold together: a capture that seals and opens again. */
module SealInstance {
  import opened Prelude
  import opened Capsule
  import opened SampleCapsule
  import opened SealModel
  import opened SealNonces
  import opened Sealing
  import opened SealBatch
  import opened SealUpload
  import opened SealSuccess
  import opened SealManifest
  import opened SealExact
  import opened SealRoundTrip
  import opened Opening
  import Base64Url

  const TAG: Bytes := [0, 0, 0, 0, 0, 0, 0, 0, 0, 0, 0, 0, 0, 0, 0, 0]

  /** A cipher that appends an empty tag, an injective digest, documents of one byte, and a fixed manifest to read. */
  function SuiteReading(manifest: CaptureBatchManifest): Suite {
    Suite(Numeral, (context: ObjectKeyContext) => 0, (key: Key, context: ObjectKeyContext) => key,
          (key: Key, context: ChunkKeyContext) => key,
          (key: Key, nonce: Bytes, plaintext: Bytes, context: ChunkKeyContext) => Some(plaintext + TAG),
          (key: Key, nonce: Bytes, sealed: Bytes, context: ChunkKeyContext) =>
            if |sealed| < 16 then None else Some(sealed[..|sealed| - 16]),
          Base64Url.Encode, (text: string) => Some(Base64Url.Decode(text)),
          (m: CaptureBatchManifest) => [], (bytes: Bytes) => Some(manifest), (capsule: ReplayCapsule) => [1],
          (proof: Proof) => [(proof.runIndex % 256) as byte], (identity: CaptureBatchIdentity) => 0,
          (envelope: UploadEnvelope) => 0, (envelope: UploadEnvelope) => true,
          (key: Key, envelope: UploadEnvelope, signature: string) => true)
  }

  lemma NoncesReadBack(nonce: Bytes)
    requires |nonce| == NONCE_BYTES
    ensures Base64Url.Decode(Base64Url.Encode(nonce)) == nonce && NonceText(Base64Url.Encode(nonce))
  {
    Base64Url.EncodingReadsBack(nonce);
  }

  lemma SuiteIsIdeal(manifest: CaptureBatchManifest)
    ensures Ideal(SuiteReading(manifest))
  {
    hide Base64Url.Encode, Base64Url.Decode, Numeral;
    forall nonce: Bytes | |nonce| == NONCE_BYTES
      ensures Base64Url.Decode(Base64Url.Encode(nonce)) == nonce
    {
      NoncesReadBack(nonce);
    }
  }

  lemma SuiteBehaves(manifest: CaptureBatchManifest)
    ensures WellBehaved(SuiteReading(manifest)) && Ideal(SuiteReading(manifest))
  {
    hide Base64Url.Encode, Base64Url.Decode, Numeral, Ideal, CollisionFree, NonceText;
    SuiteIsIdeal(manifest);
    NumeralsDiffer();
    forall nonce: Nonce
      ensures NonceText(Base64Url.Encode(nonce)) && Base64Url.Decode(Base64Url.Encode(nonce)) == nonce
    {
      NoncesReadBack(nonce);
    }
    forall a: Nonce, b: Nonce | Base64Url.Encode(a) == Base64Url.Encode(b)
      ensures a == b
    {
      NoncesReadBack(a);
      NoncesReadBack(b);
    }
  }

  function ProofOfRun(run: nat): Proof {
    Proof(2, 0, 4, 0, Managed, run, 2, 3, 5)
  }

  const METADATA :=
    UploadMetadata(1, 2, 3, "r", 4, "s", "v", Ok(NO_REST))

  const OBJECTS: map<ObjectId, Bytes> := map[1 := [1], 2 := [2], 3 := [3], 4 := [4]]

  const REQUEST := SealRequest(
    2, [ProofOfRun(5), ProofOfRun(6), ProofOfRun(7)], SealingIds(5, 9, [6, 7, 8]), SealedWith([]), OBJECTS, METADATA,
    Key(0), Signer("k", (envelope: UploadEnvelope) => Ok("signed")))

  function NonceOf(k: nat): Nonce {
    [(k % 256) as byte, 0, 0, 0, 0, 0, 0, 0, 0, 0, 0, 0]
  }

  const STREAM: NonceStream := (k: nat) => Ok(NonceOf(k))

  lemma StreamIsFresh(n: nat)
    requires n <= 256
    ensures FreshFor(STREAM, 0, n, {})
  {
    forall j: nat, k: nat | j < k < n
      ensures STREAM(j) != STREAM(k)
    {
      assert NonceOf(j)[0] != NonceOf(k)[0];
    }
  }

  // The descriptors.

  /** The eight descriptors of the batch, in id order. */
  const DESCRIPTORS := [
    SUBJECT_OBJECT, TRIGGER_OBJECT, FAILURE_OBJECT, WORLD_OBJECT,
    LogicalObject("application/reproit-replay-capsule+json", 5, 2, 1, ReplayCapsuleManifest),
    LogicalObject("application/reproit-proof+json", 6, 6, 1, AdmissionProof),
    LogicalObject("application/reproit-proof+json", 7, 7, 1, AdmissionProof),
    LogicalObject("application/reproit-proof+json", 8, 8, 1, AdmissionProof)]

  lemma OneByte(b: byte)
    ensures Numeral([b]) == b as int + 1
  {
  }

  lemma RequestIsAddressable(suite: Suite, manifest: CaptureBatchManifest)
    requires suite == SuiteReading(manifest)
    ensures Addressable(suite, REQUEST) && Descriptors(suite, REQUEST) == DESCRIPTORS
  {
    OneByte(5);
    OneByte(6);
    OneByte(7);
  }

  lemma {:induction false} AscendingStays(s: seq<LogicalObject>)
    requires AscendingIds(s)
    ensures SortById(s) == s
  {
    if s != [] {
      AscendingStays(s[1..]);
    }
  }

  lemma AlreadyOrdered(suite: Suite, manifest: CaptureBatchManifest)
    requires suite == SuiteReading(manifest)
    ensures Addressable(suite, REQUEST) && Ordered(suite, REQUEST) == DESCRIPTORS
  {
    DescriptorsAreValid();
    hide DESCRIPTORS, SuiteReading, SortById, Descriptors;
    RequestIsAddressable(suite, manifest);
    AscendingStays(DESCRIPTORS);
  }

  /** Eight objects of one byte: four of the capture, the capsule document and three proofs. */
  const PLAINTEXT: map<ObjectId, Bytes> :=
    map[1 := [1], 2 := [2], 3 := [3], 4 := [4], 5 := [1], 6 := [5], 7 := [6], 8 := [7]]

  lemma PlaintextIs(suite: Suite, manifest: CaptureBatchManifest)
    requires suite == SuiteReading(manifest)
    ensures PlainObjects(suite, REQUEST) == PLAINTEXT
  {
  }

  lemma DescribesOneByte(suite: Suite, manifest: CaptureBatchManifest, d: LogicalObject, b: byte)
    requires suite == SuiteReading(manifest) && d.plainDigest == b as int + 1 && d.plainSize == 1
    ensures Encryptable(suite, d, [b])
  {
    OneByte(b);
  }

  lemma PlaintextAt(k: nat) returns (b: byte)
    requires k < 8
    ensures DESCRIPTORS[k].objectId in PLAINTEXT && PLAINTEXT[DESCRIPTORS[k].objectId] == [b]
    ensures DESCRIPTORS[k].plainDigest == b as int + 1 && DESCRIPTORS[k].plainSize == 1
  {
    b := if k < 4 then (k + 1) as byte else if k == 4 then 1 else k as byte;
  }

  /** Every object of the batch is one byte, and its descriptor describes it. */
  lemma PlaintextIsDescribed(suite: Suite, manifest: CaptureBatchManifest, k: nat)
    requires suite == SuiteReading(manifest) && k < 8
    ensures HasBytes(suite, PlainObjects(suite, REQUEST), DESCRIPTORS[k])
    ensures |PlainOf(PlainObjects(suite, REQUEST), DESCRIPTORS[k])| == 1
  {
    DescriptorsAreValid();
    hide SuiteReading, PLAINTEXT, DESCRIPTORS, PlainObjects, Encryptable;
    PlaintextIs(suite, manifest);
    var b := PlaintextAt(k);
    DescribesOneByte(suite, manifest, DESCRIPTORS[k], b);
  }

  lemma IdIsNew(id: ObjectId)
    requires id > 4
    ensures NewId(REQUEST, id)
  {
  }

  lemma IdsAreFresh()
    ensures DocumentsFresh(REQUEST) && ValidSealingIds(REQUEST)
  {
    hide NewId;
    IdIsNew(5);
    forall k | 0 <= k < 3
      ensures NewId(REQUEST, REQUEST.ids.proofObjectIds[k]) && REQUEST.ids.proofObjectIds[k] == 6 + k
    {
      IdIsNew(6 + k);
    }
  }

  lemma CaptureIsSealable(suite: Suite, manifest: CaptureBatchManifest)
    requires suite == SuiteReading(manifest)
    ensures Addressable(suite, REQUEST) && CaptureSealable(suite, REQUEST) && ValidSealingIds(REQUEST)
  {
    RequestIsAddressable(suite, manifest);
    IdsAreFresh();
    DescriptorsAreValid();
    hide SuiteReading, DESCRIPTORS, PlainObjects, HasBytes, DocumentsFresh, ValidSealingIds, Descriptors;
    forall d | d in DESCRIPTORS
      ensures HasBytes(suite, PlainObjects(suite, REQUEST), d)
    {
      var k: nat :| k < |DESCRIPTORS| && DESCRIPTORS[k] == d;
      PlaintextIsDescribed(suite, manifest, k);
    }
  }

  // The draws and the objects.

  lemma {:induction false} OneDrawEach(plaintext: map<ObjectId, Bytes>, descriptors: seq<LogicalObject>, k: nat)
    requires k <= |descriptors|
    requires forall i :: 0 <= i < |descriptors| ==> |PlainOf(plaintext, descriptors[i])| == 1
    ensures Draws(plaintext, descriptors, k) == k
  {
    if k > 0 {
      OneDrawEach(plaintext, descriptors, k - 1);
    }
  }

  lemma EightDraws(suite: Suite, manifest: CaptureBatchManifest)
    requires suite == SuiteReading(manifest)
    ensures Addressable(suite, REQUEST) && CaptureDraws(suite, REQUEST) == 8
  {
    AlreadyOrdered(suite, manifest);
    forall k: nat | k < 8
      ensures |PlainOf(PlainObjects(suite, REQUEST), DESCRIPTORS[k])| == 1
    {
      PlaintextIsDescribed(suite, manifest, k);
    }
    OneDrawEach(PlainObjects(suite, REQUEST), DESCRIPTORS, 8);
  }

  lemma DescriptorsAreValid()
    ensures |DESCRIPTORS| == 8 && AscendingIds(DESCRIPTORS)
  {
  }

  // The conditions.

  lemma ProofsAreDifferent(suite: Suite, manifest: CaptureBatchManifest)
    requires suite == SuiteReading(manifest)
    ensures ProofsFit(suite, REQUEST)
  {
    OneByte(5);
    OneByte(6);
    OneByte(7);
  }

  lemma RequestFits(suite: Suite, manifest: CaptureBatchManifest)
    requires suite == SuiteReading(manifest)
    ensures Addressable(suite, REQUEST) && CaptureFits(suite, REQUEST)
  {
    EightDraws(suite, manifest);
    ProofsAreDifferent(suite, manifest);
    hide CaptureDraws, ProofsFit, SuiteReading;
  }

  lemma EnvelopeIsSigned(suite: Suite, manifest: CaptureBatchManifest, objects: seq<EncryptedObject>, drawn: nat)
    requires suite == SuiteReading(manifest)
    ensures SignsAfter(suite, REQUEST, STREAM, objects, drawn)
  {
    hide ManifestUpload, SortUploads, FlatUploads, ManifestOf;
  }

  lemma EverythingHolds(suite: Suite, manifest: CaptureBatchManifest)
    requires suite == SuiteReading(manifest)
    ensures Addressable(suite, REQUEST) && SealConditions(suite, REQUEST, STREAM, 0)
  {
    hide SuiteReading, STREAM, REQUEST, CaptureSealable, CaptureFits, SignsAfter, FreshFor, ValidSealingIds,
      CaptureDraws;
    CaptureIsSealable(suite, manifest);
    EightDraws(suite, manifest);
    StreamIsFresh(9);
    RequestFits(suite, manifest);
    EnvelopeIsSigned(suite, manifest, EncryptedObjects(suite, REQUEST, STREAM, 0), 8);
  }

  /** Sealing succeeds on this request: the conditions can be met. */
  lemma SealingHasInstances(suite: Suite, manifest: CaptureBatchManifest)
    requires suite == SuiteReading(manifest)
    ensures WellBehaved(suite) && Addressable(suite, REQUEST)
    ensures SealOutcome(suite, REQUEST, STREAM, 0).Some?
  {
    SuiteBehaves(manifest);
    EverythingHolds(suite, manifest);
    SealSucceedsExactly(suite, REQUEST, STREAM, 0);
  }

  // Opening.

  /** What sealing encrypts does not depend on how manifests are read. */
  lemma {:induction false} ReaderIsNotUsed(a: CaptureBatchManifest, b: CaptureBatchManifest, k: nat)
    requires k <= 8
    ensures
      var suite, other := SuiteReading(a), SuiteReading(b);
      && ObjectsFrom(suite, REQUEST, PlainObjects(suite, REQUEST), DESCRIPTORS, STREAM, 0, k)
         == ObjectsFrom(other, REQUEST, PlainObjects(other, REQUEST), DESCRIPTORS, STREAM, 0, k)
  {
    DescriptorsAreValid();
    PlaintextIs(SuiteReading(a), a);
    PlaintextIs(SuiteReading(b), b);
    hide SuiteReading, PlainObjects, PLAINTEXT, DESCRIPTORS, MaterialOf, Draws, STREAM, ObjectContextOf;
    if k > 0 {
      ReaderIsNotUsed(a, b, k - 1);
      var plaintext, d := PlainObjects(SuiteReading(a), REQUEST), DESCRIPTORS[k - 1];
      SameMaterial(a, b, d, PlainOf(plaintext, d), 0 + Draws(plaintext, DESCRIPTORS, k - 1));
    }
  }

  lemma SameRecord(a: CaptureBatchManifest, b: CaptureBatchManifest, context: ObjectKeyContext, bytes: Bytes, from: nat,
                   i: nat)
    requires i < |Chunks(bytes)|
    ensures RecordAt(SuiteReading(a), REQUEST.occurrenceKey, context, bytes, STREAM, from, i)
         == RecordAt(SuiteReading(b), REQUEST.occurrenceKey, context, bytes, STREAM, from, i)
  {
    hide Chunks, NonceAt, STREAM, Numeral, TAG;
  }

  lemma SameEntry(a: CaptureBatchManifest, b: CaptureBatchManifest, context: ObjectKeyContext, bytes: Bytes, from: nat,
                  i: nat)
    requires i < |Chunks(bytes)|
    ensures EntryAt(SuiteReading(a), REQUEST.occurrenceKey, context, bytes, STREAM, from, i)
         == EntryAt(SuiteReading(b), REQUEST.occurrenceKey, context, bytes, STREAM, from, i)
  {
    hide RecordAt, Chunks, NonceAt, STREAM, Numeral, TAG;
    SameRecord(a, b, context, bytes, from, i);
  }

  lemma SameMaterial(a: CaptureBatchManifest, b: CaptureBatchManifest, d: LogicalObject, bytes: Bytes, from: nat)
    ensures
      MaterialOf(SuiteReading(a), REQUEST.occurrenceKey, ObjectContextOf(REQUEST, d), d, bytes, STREAM, from).item
      == MaterialOf(SuiteReading(b), REQUEST.occurrenceKey, ObjectContextOf(REQUEST, d), d, bytes, STREAM, from).item
  {
    hide EntryAt, StoredAt, SuiteReading, Chunks, STREAM, ObjectContextOf;
    forall i: nat | i < |Chunks(bytes)|
      ensures EntryAt(SuiteReading(a), REQUEST.occurrenceKey, ObjectContextOf(REQUEST, d), bytes, STREAM, from, i)
           == EntryAt(SuiteReading(b), REQUEST.occurrenceKey, ObjectContextOf(REQUEST, d), bytes, STREAM, from, i)
    {
      SameEntry(a, b, ObjectContextOf(REQUEST, d), bytes, from, i);
    }
  }

  /** The manifest that sealing writes, whatever the suite reads. */
  ghost function SealedManifestOf(manifest: CaptureBatchManifest): CaptureBatchManifest {
    var suite := SuiteReading(manifest);
    ManifestOf(suite, REQUEST, ObjectsFrom(suite, REQUEST, PlainObjects(suite, REQUEST), DESCRIPTORS, STREAM, 0, 8))
  }

  lemma OutcomeHasManifest(manifest: CaptureBatchManifest)
    ensures
      var suite := SuiteReading(manifest);
      && Addressable(suite, REQUEST) && SealOutcome(suite, REQUEST, STREAM, 0).Some?
      && SealOutcome(suite, REQUEST, STREAM, 0).value.manifest == SealedManifestOf(manifest)
  {
    var suite := SuiteReading(manifest);
    SealingHasInstances(suite, manifest);
    AlreadyOrdered(suite, manifest);
    BatchHasFacts(suite, REQUEST, STREAM, 0);
  }

  const BLANK := CaptureBatchManifest(0, 0, [], 0, Managed, "", 0, 0, [], 0, 0, "", [], 0, "", "")

  /**
   * A capture that seals, opens again, and returns what went in: all premises
   * of the exact condition and of the round trip at once.
   */
  lemma SealedInstanceOpens()
    returns (suite: Suite, sealed: SealedUpload, contents: map<ObjectId, Bytes>)
    ensures WellBehaved(suite) && Ideal(suite) && Addressable(suite, REQUEST)
    ensures SealOutcome(suite, REQUEST, STREAM, 0) == Some(sealed) && ReadsBack(suite, sealed.manifest)
    ensures OpenCapture(suite, sealed.envelope, Key(1), REQUEST.occurrenceKey, sealed.ciphertext)
         == Some(OpenedCapture(sealed.manifest, contents))
    ensures ContentsReturn(suite, REQUEST, contents)
  {
    var manifest := SealedManifestOf(BLANK);
    suite := SuiteReading(manifest);
    SuiteBehaves(manifest);
    OutcomeHasManifest(manifest);
    ReaderIsNotUsed(BLANK, manifest, 8);
    sealed := SealOutcome(suite, REQUEST, STREAM, 0).value;
    OutcomeIsSealed(suite, REQUEST, STREAM, 0);
    contents := SealedContentsReturn(suite, REQUEST, sealed, Key(1));
  }
}
