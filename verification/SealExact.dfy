/** `seal_upload` as a whole: the exact condition for success. */
module SealExact {
  import opened Prelude
  import opened Ordering
  import opened Capsule
  import opened SealModel
  import opened SealNonces
  import opened Sealing
  import opened SealBatch
  import opened SealUpload
  import opened SealRoundTrip
  import opened SealSuccess
  import opened SealManifest

  // The sorted upload list is a valid identity.

  ghost predicate InOrder(s: seq<UploadObject>) {
    forall i :: 0 < i < |s| ==> UploadNotAfter(s[i - 1], s[i])
  }

  lemma UploadsAreTotal(a: UploadObject, b: UploadObject)
    ensures UploadNotAfter(a, b) || UploadNotAfter(b, a)
  {
    LessTotal(a.nonce, b.nonce);
  }

  lemma OrderedCons(head: UploadObject, tail: seq<UploadObject>)
    requires InOrder(tail) && (tail != [] ==> UploadNotAfter(head, tail[0]))
    ensures InOrder([head] + tail)
  {
    var s := [head] + tail;
    forall i | 0 < i < |s| ensures UploadNotAfter(s[i - 1], s[i]) {
      if i > 1 {
        assert UploadNotAfter(tail[(i - 1) - 1], tail[i - 1]);
      }
    }
  }

  lemma TailInOrder(s: seq<UploadObject>)
    requires InOrder(s) && s != []
    ensures InOrder(s[1..])
  {
    var tail := s[1..];
    forall i | 0 < i < |tail| ensures UploadNotAfter(tail[i - 1], tail[i]) {
      var next := i + 1;
      assert UploadNotAfter(s[next - 1], s[next]);
    }
  }

  lemma {:induction false} InsertKeepsOrder(x: UploadObject, s: seq<UploadObject>)
    requires InOrder(s)
    ensures InOrder(InsertUpload(x, s))
    ensures InsertUpload(x, s)[0] == x || (s != [] && InsertUpload(x, s)[0] == s[0])
  {
    if s == [] || UploadNotAfter(x, s[0]) {
      OrderedCons(x, s);
    } else {
      TailInOrder(s);
      InsertKeepsOrder(x, s[1..]);
      UploadsAreTotal(x, s[0]);
      assert |s| > 1 ==> UploadNotAfter(s[1 - 1], s[1]);
      OrderedCons(s[0], InsertUpload(x, s[1..]));
    }
  }

  lemma {:induction false} SortPutsInOrder(s: seq<UploadObject>)
    ensures InOrder(SortUploads(s))
  {
    if s != [] {
      SortPutsInOrder(s[1..]);
      InsertKeepsOrder(s[0], SortUploads(s[1..]));
    }
  }

  lemma {:induction false} CipherBytesBound(s: seq<UploadObject>)
    requires forall i :: 0 <= i < |s| ==> ValidUpload(s[i])
    ensures CipherBytes(s) <= 8_388_636 * |s|
  {
    if s != [] {
      CipherBytesBound(s[1..]);
    }
  }

  predicate NoncesApart(s: seq<UploadObject>) {
    forall i, j :: 0 <= i < j < |s| ==> s[i].nonce != s[j].nonce
  }

  lemma PermutedNoncesApart(s: seq<UploadObject>, t: seq<UploadObject>)
    requires NoncesApart(s) && multiset(s) == multiset(t)
    ensures NoncesApart(t)
  {
    forall i, j | 0 <= i < j < |t|
      ensures t[i].nonce != t[j].nonce
    {
      MultisetOfDistinct(s, t[i]);
      RepeatedMember(t, i, j);
      assert t[i] in multiset(t) && t[j] in multiset(t);
      var a :| 0 <= a < |s| && s[a] == t[i];
      var b :| 0 <= b < |s| && s[b] == t[j];
      assert if a < b then s[a].nonce != s[b].nonce else s[b].nonce != s[a].nonce;
    }
  }

  lemma DrawnNoncesApart(suite: Suite, uploads: seq<UploadObject>, stream: NonceStream, from: nat, used: set<Nonce>)
    requires WellBehaved(suite) && UploadsFromDraws(suite, uploads, stream, from)
    requires FreshFor(stream, from, |uploads|, used)
    ensures NoncesApart(uploads)
  {
    forall i, j | 0 <= i < j < |uploads|
      ensures uploads[i].nonce != uploads[j].nonce
    {
      FreshNoncesDiffer(stream, from, |uploads|, used, from + i, from + j);
    }
  }

  ghost predicate StrictlyInOrder(s: seq<UploadObject>) {
    forall i :: 0 < i < |s| ==> UploadBefore(s[i - 1], s[i])
  }

  /** Well-formed uploads that share no nonce with each other or with one more. */
  predicate WellFormed(s: seq<UploadObject>, upload: UploadObject) {
    && ValidUpload(upload) && NoncesApart(s)
    && forall i :: 0 <= i < |s| ==> ValidUpload(s[i]) && s[i].nonce != upload.nonce
  }

  lemma SortedStrictly(uploads: seq<UploadObject>)
    requires DistinctDigests(uploads)
    ensures StrictlyInOrder(SortUploads(uploads))
  {
    var sorted := SortUploads(uploads);
    SortUploadsMultiset(uploads);
    PermutedDigestsDistinct(uploads, sorted);
    SortPutsInOrder(uploads);
    forall i | 0 < i < |sorted|
      ensures UploadBefore(sorted[i - 1], sorted[i])
    {
      assert sorted[i - 1].cipherDigest != sorted[i].cipherDigest;
    }
  }

  /** The sorted uploads are well-formed and share no nonce with each other or the manifest's upload. */
  lemma SortedFromDraws(suite: Suite, uploads: seq<UploadObject>, upload: UploadObject, stream: NonceStream, from: nat,
                        used: set<Nonce>)
    requires WellBehaved(suite) && UploadsFromDraws(suite, uploads + [upload], stream, from)
    requires FreshFor(stream, from, |uploads| + 1, used)
    ensures |SortUploads(uploads)| == |uploads| && WellFormed(SortUploads(uploads), upload)
  {
    var sorted, all := SortUploads(uploads), uploads + [upload];
    SortUploadsMultiset(uploads);
    assert |multiset(sorted)| == |multiset(uploads)|;
    DrawnNoncesApart(suite, all, stream, from, used);
    assert all[|uploads|] == upload;
    assert forall i :: 0 <= i < |uploads| ==> all[i] == uploads[i];
    PermutedNoncesApart(uploads, sorted);
    forall i | 0 <= i < |sorted|
      ensures ValidUpload(sorted[i]) && sorted[i].nonce != upload.nonce
    {
      assert sorted[i] in multiset(sorted);
      var k :| 0 <= k < |uploads| && uploads[k] == sorted[i];
      assert all[k].nonce != all[|uploads|].nonce;
    }
  }

  lemma IdentityFromParts(identity: CaptureBatchIdentity)
    requires identity.cipherSuite == CIPHER_SUITE && 4 <= |identity.objects| <= 32_767
    requires WellFormed(identity.objects, identity.manifestObject.upload) && StrictlyInOrder(identity.objects)
    ensures ValidIdentity(identity)
  {
    CipherBytesBound(identity.objects);
  }

  /** With fresh draws and no shared digest the sorted list passes every test of the identity. */
  lemma SortedIdentityIsValid(suite: Suite, identity: CaptureBatchIdentity, uploads: seq<UploadObject>,
                              stream: NonceStream, from: nat, used: set<Nonce>)
    requires WellBehaved(suite) && identity.cipherSuite == CIPHER_SUITE && identity.objects == SortUploads(uploads)
    requires UploadsFromDraws(suite, uploads + [identity.manifestObject.upload], stream, from)
    requires FreshFor(stream, from, |uploads| + 1, used) && DistinctDigests(uploads) && 4 <= |uploads| <= 32_767
    ensures ValidIdentity(identity)
  {
    SortedFromDraws(suite, uploads, identity.manifestObject.upload, stream, from, used);
    SortedStrictly(uploads);
    IdentityFromParts(identity);
  }

  // The conditions.

  /** The manifest's own upload, from the draw after the last object's. */
  function ManifestUpload(suite: Suite, request: SealRequest, bytes: Bytes, stream: NonceStream,
                          from: nat): UploadObject
    requires |bytes| <= U64_MAX
  {
    UploadOf(ManifestMaterial(suite, request, bytes, stream, from).item.chunks[0])
  }

  function UnsignedEnvelope(suite: Suite, request: SealRequest, manifest: CaptureBatchManifest, upload: UploadObject)
    : UploadEnvelope
  {
    EnvelopeOf(suite, request, manifest, ManifestUploadObject(upload, request.ids.manifestObjectId),
               SortUploads(FlatUploads(manifest.objects)), "")
  }

  /** The signer signs, and the fields that sealing does not make up itself are in their limits. */
  predicate EnvelopeSigns(suite: Suite, request: SealRequest, unsigned: UploadEnvelope) {
    var signature := request.signer.sign(unsigned);
    && request.metadata.rest.Ok? && signature.Ok?
    && var envelope := unsigned.(signature := signature.value);
    && 0 < |envelope.signerKeyId| <= 256
    && 0 < |envelope.sourceRevision| <= 256
    && suite.restValid(envelope)
    && suite.envelopeSize(envelope) <= 8_388_608
  }

  /** The manifest over these objects is one chunk, and its envelope, with this draw, can be signed. */
  predicate SignsAfter(suite: Suite, request: SealRequest, stream: NonceStream, objects: seq<EncryptedObject>,
                       drawn: nat)
    requires WellTyped(request)
  {
    var manifest := ManifestOf(suite, request, objects);
    var bytes := suite.manifestBytes(manifest);
    && |bytes| <= CHUNK_BYTES
    && EnvelopeSigns(suite, request,
                     UnsignedEnvelope(suite, request, manifest, ManifestUpload(suite, request, bytes, stream, drawn)))
  }

  /** The manifest over these objects validates, and its envelope can be signed. */
  predicate Completable(suite: Suite, request: SealRequest, stream: NonceStream, objects: seq<EncryptedObject>,
                        drawn: nat)
    requires WellTyped(request)
  {
    && ValidCaptureManifest(suite, ManifestOf(suite, request, objects), request.capsuleDigest, request.proofs)
    && SignsAfter(suite, request, stream, objects, drawn)
  }

  /** What the steps of sealing ask for, in their own terms. */
  ghost predicate StepConditions(suite: Suite, request: SealRequest, stream: NonceStream, from: nat)
    requires Addressable(suite, request)
  {
    && ValidSealingIds(request)
    && CaptureSealable(suite, request)
    && FreshFor(stream, from, CaptureDraws(suite, request) + 1, {})
    && Completable(suite, request, stream, EncryptedObjects(suite, request, stream, from),
                   from + CaptureDraws(suite, request))
  }

  /**
   * Everything sealing asks of its caller: valid ids, bytes for every
   * descriptor, objects and proofs that a manifest may hold, one new draw for
   * each chunk and one for the manifest, and a manifest of one chunk under an
   * envelope that can be signed.
   */
  ghost predicate SealConditions(suite: Suite, request: SealRequest, stream: NonceStream, from: nat)
    requires Addressable(suite, request)
  {
    && ValidSealingIds(request)
    && CaptureSealable(suite, request)
    && CaptureFits(suite, request)
    && FreshFor(stream, from, CaptureDraws(suite, request) + 1, {})
    && SignsAfter(suite, request, stream, EncryptedObjects(suite, request, stream, from),
                  from + CaptureDraws(suite, request))
  }

  // The batch.

  /** The batch succeeds exactly for a sealable capture whose chunks all get new draws, and takes that many draws. */
  lemma BatchExactly(suite: Suite, request: SealRequest, stream: NonceStream, from: nat)
    requires WellBehaved(suite) && Addressable(suite, request)
    ensures
      Batch(suite, request, stream, from, {}).Some? <==>
        CaptureSealable(suite, request) && FreshFor(stream, from, CaptureDraws(suite, request), {})
    ensures
      Batch(suite, request, stream, from, {}).Some? ==>
        InBatch(suite, request, PlainObjects(suite, request), Ordered(suite, request), stream, from, {},
                |Ordered(suite, request)|, Batch(suite, request, stream, from, {}).value)
  {
    LoopSucceeds(suite, request, PlainObjects(suite, request), Ordered(suite, request), stream, from, {});
    OrderedHaveBytes(suite, request);
  }

  // The manifest.

  lemma ManifestSealsExactly(suite: Suite, request: SealRequest, stream: NonceStream, batch: BatchState)
    requires WellBehaved(suite) && WellTyped(request) && NoncesUsed(suite, batch.material.ciphertext, batch.used)
    requires |suite.manifestBytes(ManifestOf(suite, request, batch.material.objects))| <= CHUNK_BYTES
    ensures SealedManifest(suite, request, stream, batch).Some? <==> FreshFor(stream, batch.drawn, 1, batch.used)
    ensures
      SealedManifest(suite, request, stream, batch).Some? ==>
        var upload := SealedManifest(suite, request, stream, batch).value.0;
        && upload == ManifestUpload(suite, request,
                                    suite.manifestBytes(ManifestOf(suite, request, batch.material.objects)), stream,
                                    batch.drawn)
        && ValidUpload(upload) && upload.nonce == suite.encodeNonce(NonceAt(stream, batch.drawn))
  {
    var bytes := suite.manifestBytes(ManifestOf(suite, request, batch.material.objects));
    var d := ManifestDescriptor(suite, request, bytes);
    ChunksAreCounted(bytes);
    AddingSucceeds(suite, request, d, bytes, stream, batch);
    if AddObject(suite, request, d, bytes, stream, batch).Some? {
      AddingKeeps(suite, request, d, bytes, stream, batch);
      var uploads := ObjectUploads(ManifestMaterial(suite, request, bytes, stream, batch.drawn).item.chunks);
      assert ValidUpload(uploads[0]) && uploads[0].nonce == suite.encodeNonce(NonceAt(stream, batch.drawn + 0));
    }
  }

  // The envelope.

  lemma {:induction false} ChunksCountUploads(objects: seq<EncryptedObject>)
    requires forall i :: 0 <= i < |objects| ==> 0 < |objects[i].chunks|
    ensures |FlatUploads(objects)| == TotalChunks(objects) >= |objects|
  {
    if objects != [] {
      ChunksCountUploads(objects[1..]);
    }
  }

  /** The manifest's id is none of the objects'. */
  lemma ManifestIdIsNew(suite: Suite, request: SealRequest, d: LogicalObject)
    requires Addressable(suite, request) && ValidSealingIds(request) && CaptureSealable(suite, request)
    requires d in Descriptors(suite, request)
    ensures d.objectId != request.ids.manifestObjectId
  {
    assert HasBytes(suite, PlainObjects(suite, request), d);
  }

  lemma EnvelopeFinishesExactly(suite: Suite, request: SealRequest, manifest: CaptureBatchManifest,
                                upload: UploadObject)
    requires WellTyped(request) && manifest == ManifestOf(suite, request, manifest.objects)
    requires ValidManifest(suite, manifest)
    requires ManifestBound(suite, manifest, ManifestUploadObject(upload, request.ids.manifestObjectId),
                           manifest.replayCapsuleDigest)
    requires ValidIdentity(IdentityOf(UnsignedEnvelope(suite, request, manifest, upload)))
    ensures
      FinishedEnvelope(suite, request, manifest, ManifestUploadObject(upload, request.ids.manifestObjectId),
                       SortUploads(FlatUploads(manifest.objects))).Some? <==>
        EnvelopeSigns(suite, request, UnsignedEnvelope(suite, request, manifest, upload))
  {
    var unsigned := UnsignedEnvelope(suite, request, manifest, upload);
    var signature := request.signer.sign(unsigned);
    if signature.Ok? {
      assert IdentityOf(unsigned.(signature := signature.value)) == IdentityOf(unsigned);
    }
  }

  /** No object of a finished batch has the manifest's id. */
  lemma BatchBinds(suite: Suite, request: SealRequest, stream: NonceStream, from: nat, batch: BatchState,
                   upload: UploadObject)
    requires WellBehaved(suite) && Addressable(suite, request) && ValidSealingIds(request)
    requires Batch(suite, request, stream, from, {}) == Some(batch)
    requires ValidManifest(suite, ManifestOf(suite, request, batch.material.objects)) && ValidUpload(upload)
    ensures
      var manifest := ManifestOf(suite, request, batch.material.objects);
      && batch.material.uploads == FlatUploads(manifest.objects) && DistinctDigests(batch.material.uploads)
      && ManifestBound(suite, manifest, ManifestUploadObject(upload, request.ids.manifestObjectId),
                       manifest.replayCapsuleDigest)
  {
    var objects := batch.material.objects;
    BatchIsStored(suite, request, stream, from, {});
    BatchExactly(suite, request, stream, from);
    forall i | 0 <= i < |objects|
      ensures objects[i].descriptor.objectId != request.ids.manifestObjectId
    {
      SortedIsListed(Descriptors(suite, request), i);
      ManifestIdIsNew(suite, request, Ordered(suite, request)[i]);
    }
  }

  /** The uploads of a finished batch and its manifest always make a valid identity. */
  lemma BatchIdentifies(suite: Suite, request: SealRequest, stream: NonceStream, from: nat, batch: BatchState,
                        upload: UploadObject)
    requires WellBehaved(suite) && WellTyped(request)
    requires ValidManifest(suite, ManifestOf(suite, request, batch.material.objects))
    requires batch.material.uploads == FlatUploads(batch.material.objects) && DistinctDigests(batch.material.uploads)
    requires UploadsFromDraws(suite, batch.material.uploads, stream, from)
    requires FreshFor(stream, from, |batch.material.uploads| + 1, {})
    requires ValidUpload(upload) && upload.nonce == suite.encodeNonce(NonceAt(stream, from + |batch.material.uploads|))
    ensures
      ValidIdentity(IdentityOf(UnsignedEnvelope(suite, request, ManifestOf(suite, request, batch.material.objects),
                                                upload)))
  {
    var manifest := ManifestOf(suite, request, batch.material.objects);
    var uploads := batch.material.uploads;
    var identity := IdentityOf(UnsignedEnvelope(suite, request, manifest, upload));
    ChunksCountUploads(manifest.objects);
    UploadsJoin(suite, uploads, [upload], stream, from);
    assert identity.objects == SortUploads(uploads) && identity.manifestObject.upload == upload;
    SortedIdentityIsValid(suite, identity, uploads, stream, from, {});
  }

  /** The last two steps on a batch: the manifest and the envelope. */
  ghost predicate Finishes(suite: Suite, request: SealRequest, stream: NonceStream, batch: BatchState)
    requires WellTyped(request)
  {
    var sealed := SealedManifest(suite, request, stream, batch);
    && sealed.Some?
    && FinishedEnvelope(suite, request, ManifestOf(suite, request, batch.material.objects),
                        ManifestUploadObject(sealed.value.0, request.ids.manifestObjectId),
                        SortUploads(batch.material.uploads)).Some?
  }

  /** The batch's manifest validates and the last two steps go through. */
  ghost predicate Completes(suite: Suite, request: SealRequest, stream: NonceStream, batch: BatchState)
    requires WellTyped(request)
  {
    && ValidCaptureManifest(suite, ManifestOf(suite, request, batch.material.objects), request.capsuleDigest,
                            request.proofs)
    && Finishes(suite, request, stream, batch)
  }

  lemma OutcomeSteps(suite: Suite, request: SealRequest, stream: NonceStream, from: nat)
    requires Addressable(suite, request)
    ensures
      var batch := Batch(suite, request, stream, from, {});
      SealOutcome(suite, request, stream, from).Some? <==>
        ValidSealingIds(request) && batch.Some? && Completes(suite, request, stream, batch.value)
  {
    hide Batch, ValidCaptureManifest, SealedManifest, FinishedEnvelope, ValidSealingIds, ManifestOf, SortUploads;
  }

  /** What a finished batch is known to be. */
  ghost predicate BatchFacts(suite: Suite, request: SealRequest, stream: NonceStream, from: nat, batch: BatchState)
    requires Addressable(suite, request)
  {
    && Batch(suite, request, stream, from, {}) == Some(batch)
    && batch.drawn == from + |batch.material.uploads| && batch.used == Drawn(stream, from, |batch.material.uploads|)
    && NoncesUsed(suite, batch.material.ciphertext, batch.used)
    && UploadsFromDraws(suite, batch.material.uploads, stream, from)
    && FreshFor(stream, from, |batch.material.uploads|, {})
  }

  lemma BatchHasFacts(suite: Suite, request: SealRequest, stream: NonceStream, from: nat)
    requires WellBehaved(suite) && Addressable(suite, request) && Batch(suite, request, stream, from, {}).Some?
    ensures
      var batch := Batch(suite, request, stream, from, {}).value;
      && BatchFacts(suite, request, stream, from, batch)
      && batch.drawn == from + CaptureDraws(suite, request)
      && batch.used == Drawn(stream, from, CaptureDraws(suite, request))
      && batch.material.objects == EncryptedObjects(suite, request, stream, from)
  {
    BatchExactly(suite, request, stream, from);
  }

  lemma WindowOfBatch(suite: Suite, request: SealRequest, stream: NonceStream, from: nat, batch: BatchState)
    requires Addressable(suite, request)
    requires BatchFacts(suite, request, stream, from, batch) && FreshFor(stream, batch.drawn, 1, batch.used)
    ensures FreshFor(stream, from, |batch.material.uploads| + 1, {})
  {
    WindowAndOne(stream, from, |batch.material.uploads|);
  }

  lemma EnvelopeOfBatch(suite: Suite, request: SealRequest, stream: NonceStream, from: nat, batch: BatchState,
                        upload: UploadObject)
    requires WellBehaved(suite) && Addressable(suite, request) && ValidSealingIds(request)
    requires BatchFacts(suite, request, stream, from, batch) && FreshFor(stream, batch.drawn, 1, batch.used)
    requires ValidManifest(suite, ManifestOf(suite, request, batch.material.objects))
    requires ValidUpload(upload) && upload.nonce == suite.encodeNonce(NonceAt(stream, batch.drawn))
    ensures
      var manifest := ManifestOf(suite, request, batch.material.objects);
      FinishedEnvelope(suite, request, manifest, ManifestUploadObject(upload, request.ids.manifestObjectId),
                       SortUploads(batch.material.uploads)).Some? <==>
        EnvelopeSigns(suite, request, UnsignedEnvelope(suite, request, manifest, upload))
  {
    hide FinishedEnvelope, EnvelopeSigns, ValidManifest, NoncesUsed, UnsignedEnvelope, FreshFor, Batch, Drawn,
      ManifestBound, ValidIdentity, WellBehaved, SortUploads, FlatUploads;
    BatchBinds(suite, request, stream, from, batch, upload);
    WindowOfBatch(suite, request, stream, from, batch);
    BatchIdentifies(suite, request, stream, from, batch, upload);
    EnvelopeFinishesExactly(suite, request, ManifestOf(suite, request, batch.material.objects), upload);
  }

  /** After the batch: one new draw for the manifest, and an envelope that can be signed. */
  lemma FinishExactly(suite: Suite, request: SealRequest, stream: NonceStream, from: nat, batch: BatchState,
                      objects: seq<EncryptedObject>, drawn: nat, used: set<Nonce>)
    requires WellBehaved(suite) && Addressable(suite, request) && ValidSealingIds(request)
    requires BatchFacts(suite, request, stream, from, batch)
    requires batch.material.objects == objects && batch.drawn == drawn && batch.used == used
    requires ValidManifest(suite, ManifestOf(suite, request, objects))
    ensures
      Finishes(suite, request, stream, batch) <==>
        FreshFor(stream, drawn, 1, used) && SignsAfter(suite, request, stream, objects, drawn)
  {
    ManifestSealsExactly(suite, request, stream, batch);
    var sealed := SealedManifest(suite, request, stream, batch);
    if sealed.Some? {
      EnvelopeOfBatch(suite, request, stream, from, batch, sealed.value.0);
    }
  }

  lemma WindowAndOne(stream: NonceStream, from: nat, draws: nat)
    ensures
      FreshFor(stream, from, draws + 1, {}) <==>
        FreshFor(stream, from, draws, {}) && FreshFor(stream, from + draws, 1, Drawn(stream, from, draws))
  {
    FreshSplits(stream, from, draws, 1, {});
    assert {} + Drawn(stream, from, draws) == Drawn(stream, from, draws);
  }

  lemma BatchSucceeds(suite: Suite, request: SealRequest, stream: NonceStream, from: nat)
    requires WellBehaved(suite) && Addressable(suite, request)
    ensures
      Batch(suite, request, stream, from, {}).Some? <==>
        CaptureSealable(suite, request) && FreshFor(stream, from, CaptureDraws(suite, request), {})
  {
    BatchExactly(suite, request, stream, from);
  }

  lemma CompletesExactly(suite: Suite, request: SealRequest, stream: NonceStream, from: nat, batch: BatchState,
                         objects: seq<EncryptedObject>, drawn: nat, used: set<Nonce>)
    requires WellBehaved(suite) && Addressable(suite, request) && ValidSealingIds(request)
    requires BatchFacts(suite, request, stream, from, batch)
    requires batch.material.objects == objects && batch.drawn == drawn && batch.used == used
    ensures
      Completes(suite, request, stream, batch) <==>
        FreshFor(stream, drawn, 1, used) && Completable(suite, request, stream, objects, drawn)
  {
    if ValidManifest(suite, ManifestOf(suite, request, objects)) {
      FinishExactly(suite, request, stream, from, batch, objects, drawn, used);
    }
  }

  lemma BatchCompletes(suite: Suite, request: SealRequest, stream: NonceStream, from: nat)
    requires WellBehaved(suite) && Addressable(suite, request) && ValidSealingIds(request)
    requires Batch(suite, request, stream, from, {}).Some?
    ensures
      var draws := CaptureDraws(suite, request);
      Completes(suite, request, stream, Batch(suite, request, stream, from, {}).value) <==>
        && FreshFor(stream, from + draws, 1, Drawn(stream, from, draws))
        && Completable(suite, request, stream, EncryptedObjects(suite, request, stream, from), from + draws)
  {
    hide Completes, Completable, FreshFor, BatchFacts, Batch, Drawn, ValidSealingIds, WellBehaved;
    var draws := CaptureDraws(suite, request);
    BatchHasFacts(suite, request, stream, from);
    CompletesExactly(suite, request, stream, from, Batch(suite, request, stream, from, {}).value,
                     EncryptedObjects(suite, request, stream, from), from + draws, Drawn(stream, from, draws));
  }

  lemma StepsSealExactly(suite: Suite, request: SealRequest, stream: NonceStream, from: nat)
    requires WellBehaved(suite) && Addressable(suite, request)
    ensures SealOutcome(suite, request, stream, from).Some? <==> StepConditions(suite, request, stream, from)
  {
    hide Completes, Completable, FreshFor, CaptureSealable, SealOutcome, Batch, Drawn, ValidSealingIds, WellBehaved;
    OutcomeSteps(suite, request, stream, from);
    BatchSucceeds(suite, request, stream, from);
    WindowAndOne(stream, from, CaptureDraws(suite, request));
    if ValidSealingIds(request) && Batch(suite, request, stream, from, {}).Some? {
      BatchCompletes(suite, request, stream, from);
    }
  }

  /** The batch's manifest needs nothing but what its caller can check, and its size. */
  lemma CompletableExactly(suite: Suite, request: SealRequest, stream: NonceStream, from: nat)
    requires WellBehaved(suite) && Addressable(suite, request)
    requires ValidSealingIds(request) && CaptureSealable(suite, request)
    ensures
      var objects, drawn := EncryptedObjects(suite, request, stream, from), from + CaptureDraws(suite, request);
      Completable(suite, request, stream, objects, drawn) <==>
        CaptureFits(suite, request) && SignsAfter(suite, request, stream, objects, drawn)
  {
    hide ValidCaptureManifest, CaptureFits, EnvelopeSigns, EncryptedObjects, WellBehaved, ManifestOf;
    ManifestValidatesExactly(suite, request, stream, from);
  }

  /**
   * `seal_upload` succeeds exactly under its conditions: with libraries that
   * behave, nothing that sealing makes itself is ever refused.
   */
  lemma SealSucceedsExactly(suite: Suite, request: SealRequest, stream: NonceStream, from: nat)
    requires WellBehaved(suite) && Addressable(suite, request)
    ensures SealOutcome(suite, request, stream, from).Some? <==> SealConditions(suite, request, stream, from)
  {
    hide Completable, SignsAfter, FreshFor, CaptureSealable, CaptureFits, SealOutcome, ValidSealingIds, WellBehaved;
    StepsSealExactly(suite, request, stream, from);
    if ValidSealingIds(request) && CaptureSealable(suite, request) {
      CompletableExactly(suite, request, stream, from);
    }
  }
}
