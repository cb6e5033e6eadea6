/** Whatever sealing produced, opening recovers. */
module SealRoundTrip {
  import opened Prelude
  import opened Ordering
  import opened Capsule
  import opened SealModel
  import opened Sealing
  import opened SealBatch
  import opened SealUpload
  import opened Opening

  lemma ChunkOpens(suite: Suite, occurrenceKey: Key, context: ObjectKeyContext, count: nat, index: nat,
                   plaintext: Bytes, chunk: EncryptedChunk, ciphertext: map<Digest, Bytes>)
    requires Ideal(suite) && chunk.cipherDigest in ciphertext
    requires ChunkSealed(suite, occurrenceKey, context, count, index, plaintext, chunk, ciphertext[chunk.cipherDigest])
    ensures OpenChunk(suite, occurrenceKey, context, count, chunk, ciphertext) == Some(plaintext)
  {
    var stored := ciphertext[chunk.cipherDigest];
    assert stored == stored[..NONCE_BYTES] + stored[NONCE_BYTES..];
  }

  lemma {:induction false} ChunksOpen(suite: Suite, occurrenceKey: Key, context: ObjectKeyContext, count: nat,
                                      parts: seq<Bytes>, chunks: seq<EncryptedChunk>, i: nat,
                                      ciphertext: map<Digest, Bytes>)
    requires Ideal(suite) && |parts| == |chunks| && i <= |chunks|
    requires forall k :: 0 <= k < |chunks| ==>
      chunks[k].cipherDigest in ciphertext
      && ChunkSealed(suite, occurrenceKey, context, count, k, parts[k], chunks[k], ciphertext[chunks[k].cipherDigest])
    ensures OpenChunks(suite, occurrenceKey, context, count, chunks[i..], ciphertext) == Some(Concat(parts[i..]))
    decreases |chunks| - i
  {
    if i < |chunks| {
      ChunkOpens(suite, occurrenceKey, context, count, i, parts[i], chunks[i], ciphertext);
      ChunksOpen(suite, occurrenceKey, context, count, parts, chunks, i + 1, ciphertext);
      assert chunks[i..][1..] == chunks[i + 1..] && parts[i..][1..] == parts[i + 1..];
    }
  }

  /** A stored object opens to its bytes, for every size including none and many chunks. */
  lemma ObjectOpens(suite: Suite, envelope: UploadEnvelope, occurrenceKey: Key, bytes: Bytes, item: EncryptedObject,
                    ciphertext: map<Digest, Bytes>)
    requires Ideal(suite)
    requires ObjectStored(suite, occurrenceKey,
                          EnvelopeContext(envelope, item.descriptor.objectId, item.descriptor.role), bytes, item,
                          ciphertext)
    ensures OpenObject(suite, envelope, occurrenceKey, item, ciphertext) == Some(bytes)
  {
    var context := EnvelopeContext(envelope, item.descriptor.objectId, item.descriptor.role);
    ChunksOpen(suite, occurrenceKey, context, |item.chunks|, Chunks(bytes), item.chunks, 0, ciphertext);
    ChunksRejoin(bytes);
    assert item.chunks[0..] == item.chunks && Chunks(bytes)[0..] == Chunks(bytes);
  }

  // The ciphertext closure after sorting.

  lemma PermutedDigestsDistinct(s: seq<UploadObject>, t: seq<UploadObject>)
    requires DistinctDigests(s) && multiset(s) == multiset(t)
    ensures DistinctDigests(t) && |s| == |t| && forall u :: u in t ==> u in s
  {
    assert |multiset(s)| == |multiset(t)|;
    forall u | u in t
      ensures u in s
    {
      assert u in multiset(t);
    }
    forall i, j | 0 <= i < j < |t|
      ensures t[i].cipherDigest != t[j].cipherDigest
    {
      MultisetOfDistinct(s, t[i]);
      RepeatedMember(t, i, j);
      assert t[i] != t[j] && t[i] in t && t[j] in t;
      var a :| 0 <= a < |s| && s[a] == t[i];
      var b :| 0 <= b < |s| && s[b] == t[j];
    }
  }

  lemma SealedCiphertextIsClosed(suite: Suite, request: SealRequest, sealed: SealedUpload)
    requires Ideal(suite) && Addressable(suite, request) && SealedFrom(suite, request, sealed)
    ensures CiphertextClosed(suite, sealed.envelope, sealed.ciphertext)
  {
    hide ObjectsStored, ChunkSealed, ValidEnvelope, ManifestBound, ValidCaptureManifest, ManifestOf, UploadStored,
      FlatUploads, SortUploads, PlainObjects, Descriptors, ValidSealingIds, UploadMatches;
    var flat := FlatUploads(sealed.manifest.objects);
    var upload := sealed.envelope.manifestObject.upload;
    var listed := [upload] + sealed.envelope.objects;
    SortUploadsMultiset(flat);
    assert multiset(listed) == multiset(flat + [upload]);
    PermutedDigestsDistinct(flat + [upload], listed);
    PermutedUploadsMatch(suite, flat + [upload], listed, sealed.ciphertext);
  }

  lemma PermutedUploadsMatch(suite: Suite, s: seq<UploadObject>, t: seq<UploadObject>, ciphertext: map<Digest, Bytes>)
    requires Ideal(suite) && forall u :: u in t ==> u in s
    requires forall k :: 0 <= k < |s| ==> UploadStored(suite, s[k], ciphertext)
    ensures forall i :: 0 <= i < |t| ==> UploadMatches(suite, t[i], ciphertext)
  {
    forall i | 0 <= i < |t|
      ensures UploadMatches(suite, t[i], ciphertext)
    {
      assert t[i] in t;
      var k :| 0 <= k < |s| && s[k] == t[i];
      assert UploadStored(suite, s[k], ciphertext);
    }
  }

  lemma ListedNoncesDiffer(suite: Suite, envelope: UploadEnvelope, i: nat, j: nat)
    requires ValidEnvelope(suite, envelope)
    requires i < 1 + |envelope.objects| && j < 1 + |envelope.objects| && i != j
    ensures
      var listed := [envelope.manifestObject.upload] + envelope.objects;
      listed[i].nonce != listed[j].nonce
  {
    assert ValidIdentity(IdentityOf(envelope));
  }

  /** No two records of a sealed batch start with the same nonce. */
  lemma SealedNoncesDiffer(suite: Suite, request: SealRequest, sealed: SealedUpload, a: Digest, b: Digest)
    requires Ideal(suite) && Addressable(suite, request) && SealedFrom(suite, request, sealed)
    requires a in sealed.ciphertext && b in sealed.ciphertext && a != b
    ensures |sealed.ciphertext[a]| >= NONCE_BYTES && |sealed.ciphertext[b]| >= NONCE_BYTES
    ensures sealed.ciphertext[a][..NONCE_BYTES] != sealed.ciphertext[b][..NONCE_BYTES]
  {
    SealedCiphertextIsClosed(suite, request, sealed);
    var listed := [sealed.envelope.manifestObject.upload] + sealed.envelope.objects;
    var i := ListedDigest(suite, listed, sealed.ciphertext, a);
    var j := ListedDigest(suite, listed, sealed.ciphertext, b);
    UploadNonce(suite, request, sealed, listed[i]);
    UploadNonce(suite, request, sealed, listed[j]);
    ListedNoncesDiffer(suite, sealed.envelope, i, j);
  }

  lemma UploadNonce(suite: Suite, request: SealRequest, sealed: SealedUpload, u: UploadObject)
    requires Addressable(suite, request) && SealedFrom(suite, request, sealed)
    requires u in [sealed.envelope.manifestObject.upload] + sealed.envelope.objects
    ensures UploadStored(suite, u, sealed.ciphertext)
  {
    var flat := FlatUploads(sealed.manifest.objects);
    var all := flat + [sealed.envelope.manifestObject.upload];
    SortUploadsMultiset(flat);
    assert u in all by {
      if u in sealed.envelope.objects {
        assert u in multiset(SortUploads(flat));
        assert u in multiset(flat);
      }
    }
    var k :| 0 <= k < |all| && all[k] == u;
    assert UploadStored(suite, all[k], sealed.ciphertext);
  }

  /** In a closed ciphertext map every digest belongs to a listed upload. */
  lemma ListedDigest(suite: Suite, listed: seq<UploadObject>, ciphertext: map<Digest, Bytes>, d: Digest)
    returns (i: nat)
    requires DistinctDigests(listed) && |listed| == |ciphertext| && d in ciphertext
    requires forall k :: 0 <= k < |listed| ==> UploadMatches(suite, listed[k], ciphertext)
    ensures i < |listed| && listed[i].cipherDigest == d
  {
    var digests := set k | 0 <= k < |listed| :: listed[k].cipherDigest;
    DigestSetSize(listed, digests);
    assert digests <= ciphertext.Keys;
    Subset(digests, ciphertext.Keys);
    i :| 0 <= i < |listed| && listed[i].cipherDigest == d;
  }

  lemma {:induction false} DigestSetSize(listed: seq<UploadObject>, digests: set<Digest>)
    requires DistinctDigests(listed) && digests == set k | 0 <= k < |listed| :: listed[k].cipherDigest
    ensures |digests| == |listed|
  {
    if listed == [] {
      assert digests == {};
    } else {
      var n := |listed| - 1;
      var rest := set k | 0 <= k < |listed[..n]| :: listed[..n][k].cipherDigest;
      DigestSetSize(listed[..n], rest);
      forall d
        ensures d in digests <==> d in rest + {listed[n].cipherDigest}
      {
        if d in digests {
          var k :| 0 <= k < |listed| && listed[k].cipherDigest == d;
          assert k < n ==> listed[..n][k].cipherDigest in rest;
        }
        if d in rest {
          var k :| 0 <= k < n && listed[..n][k].cipherDigest == d;
          assert listed[k].cipherDigest in digests;
        }
      }
      assert digests == rest + {listed[n].cipherDigest};
    }
  }

  // The manifest and the objects.

  /** The key signs what the signer signed. */
  ghost predicate SignerMatches(suite: Suite, signer: Signer, verificationKey: Key) {
    forall envelope :: signer.sign(envelope).Ok? ==>
      suite.verify(verificationKey, envelope, signer.sign(envelope).value)
  }

  lemma SealedManifestOpens(suite: Suite, request: SealRequest, sealed: SealedUpload, verificationKey: Key)
    requires Ideal(suite) && Addressable(suite, request) && SealedFrom(suite, request, sealed)
    requires SignerMatches(suite, request.signer, verificationKey) && ReadsBack(suite, sealed.manifest)
    ensures
      var upload := sealed.envelope.manifestObject.upload;
      && upload.cipherDigest in sealed.ciphertext
      && OpenManifest(suite, sealed.envelope, verificationKey, request.occurrenceKey,
                      sealed.ciphertext[upload.cipherDigest])
         == Some(sealed.manifest)
  {
    hide ObjectsStored, UploadsClosed, FlatUploads, SortUploads, PlainObjects, Descriptors, ValidSealingIds,
      ValidCaptureManifest, ValidIdentity;
    var envelope := sealed.envelope;
    var upload := envelope.manifestObject.upload;
    var stored := sealed.ciphertext[upload.cipherDigest];
    var chunk := EncryptedChunk(upload.cipherDigest, upload.cipherSize, 0, upload.nonce);
    assert EnvelopeContext(envelope, envelope.manifestObject.objectId, CaptureBatchManifestRole)
      == ManifestContext(request);
    ChunkOpens(suite, request.occurrenceKey, ManifestContext(request), 1, 0, suite.manifestBytes(sealed.manifest),
               chunk, sealed.ciphertext);
    assert suite.verify(verificationKey, envelope.(signature := ""), envelope.signature);
  }

  /** The plaintext of every listed id. */
  function Selected(descriptors: seq<LogicalObject>, plaintext: map<ObjectId, Bytes>): map<ObjectId, Bytes> {
    map d | d in plaintext && d in IdsOf(descriptors) :: plaintext[d]
  }

  function IdsOf(descriptors: seq<LogicalObject>): set<ObjectId> {
    set i | 0 <= i < |descriptors| :: descriptors[i].objectId
  }

  lemma SelectedStep(descriptors: seq<LogicalObject>, i: nat, plaintext: map<ObjectId, Bytes>)
    requires i < |descriptors| && descriptors[i].objectId in plaintext
    ensures Selected(descriptors[..i + 1], plaintext)
         == Selected(descriptors[..i], plaintext)[descriptors[i].objectId := plaintext[descriptors[i].objectId]]
  {
    forall d
      ensures d in IdsOf(descriptors[..i + 1]) <==> d in IdsOf(descriptors[..i]) || d == descriptors[i].objectId
    {
      if d in IdsOf(descriptors[..i]) {
        var k :| 0 <= k < i && descriptors[..i][k].objectId == d;
        assert descriptors[..i + 1][k].objectId == d;
      }
      if d in IdsOf(descriptors[..i + 1]) {
        var k :| 0 <= k < i + 1 && descriptors[..i + 1][k].objectId == d;
        assert k < i ==> descriptors[..i][k].objectId == d;
      }
      assert descriptors[..i + 1][i].objectId == descriptors[i].objectId;
    }
  }

  lemma {:induction false} ObjectsOpen(suite: Suite, request: SealRequest, envelope: UploadEnvelope,
                                       plaintext: map<ObjectId, Bytes>, descriptors: seq<LogicalObject>,
                                       items: seq<EncryptedObject>, ciphertext: map<Digest, Bytes>, i: nat)
    requires Ideal(suite) && i <= |items|
    requires ObjectsStored(suite, request, plaintext, descriptors, items, ciphertext)
    requires forall d: LogicalObject :: EnvelopeContext(envelope, d.objectId, d.role) == ObjectContextOf(request, d)
    requires forall j, k :: 0 <= j < k < |items| ==> items[j].descriptor.objectId < items[k].descriptor.objectId
    ensures OpenObjects(suite, envelope, request.occurrenceKey, items[i..], ciphertext,
                        Selected(descriptors[..i], plaintext))
         == Some(Selected(descriptors, plaintext))
    decreases |items| - i
  {
    if i == |items| {
      assert items[i..] == [] && descriptors[..i] == descriptors;
    } else {
      var d := descriptors[i];
      ObjectOpens(suite, envelope, request.occurrenceKey, plaintext[d.objectId], items[i], ciphertext);
      SelectedStep(descriptors, i, plaintext);
      forall k | 0 <= k < i
        ensures descriptors[..i][k].objectId != d.objectId
      {
        assert items[k].descriptor == descriptors[k] && items[i].descriptor == d;
      }
      ObjectsOpen(suite, request, envelope, plaintext, descriptors, items, ciphertext, i + 1);
      assert items[i..][1..] == items[i + 1..];
    }
  }

  /**
   * The round trip. Whenever sealing succeeded and the verification key
   * matches the signer, opening succeeds from the envelope, the occurrence key
   * and the ciphertext, and returns the same manifest and the plaintext of
   * every descriptor of the batch.
   */
  lemma SealedCaptureOpens(suite: Suite, request: SealRequest, sealed: SealedUpload, verificationKey: Key)
    requires Ideal(suite) && Addressable(suite, request) && SealedFrom(suite, request, sealed)
    requires SignerMatches(suite, request.signer, verificationKey) && ReadsBack(suite, sealed.manifest)
    ensures OpenCapture(suite, sealed.envelope, verificationKey, request.occurrenceKey, sealed.ciphertext)
         == Some(OpenedCapture(sealed.manifest,
                               Selected(SortById(Descriptors(suite, request)), PlainObjects(suite, request))))
  {
    hide ObjectStored, ChunkSealed, ValidEnvelope, ManifestBound, UploadsClosed, FlatUploads, SortUploads,
      PlainObjects, Descriptors, ValidSealingIds, CiphertextClosed, OpenManifest, OpenObjects, SortById;
    var envelope := sealed.envelope;
    var descriptors := SortById(Descriptors(suite, request));
    var items := sealed.manifest.objects;
    SealedCiphertextIsClosed(suite, request, sealed);
    SealedManifestOpens(suite, request, sealed, verificationKey);
    forall d: LogicalObject
      ensures EnvelopeContext(envelope, d.objectId, d.role) == ObjectContextOf(request, d)
    {
    }
    ObjectsOpen(suite, request, envelope, PlainObjects(suite, request), descriptors, items, sealed.ciphertext, 0);
    assert items[0..] == items && Selected(descriptors[..0], PlainObjects(suite, request)) == map[];
  }

  /** Every descriptor of the batch selects its own plaintext. */
  lemma DescriptorIsSelected(suite: Suite, request: SealRequest, sealed: SealedUpload, d: LogicalObject)
    requires Addressable(suite, request) && SealedFrom(suite, request, sealed) && d in Descriptors(suite, request)
    ensures
      var selected := Selected(SortById(Descriptors(suite, request)), PlainObjects(suite, request));
      && d.objectId in PlainObjects(suite, request)
      && d.objectId in selected
      && selected[d.objectId] == PlainObjects(suite, request)[d.objectId]
  {
    var sorted := SortById(Descriptors(suite, request));
    SortByIdMultiset(Descriptors(suite, request));
    assert d in multiset(sorted);
    var k :| 0 <= k < |sorted| && sorted[k] == d;
    assert sealed.manifest.objects[k].descriptor == sorted[k];
    assert d.objectId in IdsOf(sorted);
  }

  /** The capsule's own plaintext is untouched by the added documents. */
  lemma PlainObjectsKeep(suite: Suite, request: SealRequest, d: ObjectId)
    requires WellTyped(request) && ValidSealingIds(request)
    requires d != request.ids.capsuleObjectId && d !in request.ids.proofObjectIds
    ensures d in PlainObjects(suite, request) <==> d in request.objects
    ensures d in request.objects ==> PlainObjects(suite, request)[d] == request.objects[d]
  {
  }

  lemma PlainDocuments(suite: Suite, request: SealRequest)
    requires WellTyped(request) && ValidSealingIds(request)
    ensures
      var plaintext := PlainObjects(suite, request);
      && plaintext[request.ids.capsuleObjectId] == suite.capsuleBytes(request.capsule)
      && forall i :: 0 <= i < 3 ==> plaintext[request.ids.proofObjectIds[i]] == suite.proofBytes(request.proofs[i])
  {
    var ids := request.ids.proofObjectIds;
    assert ids[0] < ids[1] < ids[2];
  }

  /** `id` holds the same bytes in both maps. */
  predicate Returns(returned: map<ObjectId, Bytes>, id: ObjectId, sealed: map<ObjectId, Bytes>) {
    id in sealed && id in returned && returned[id] == sealed[id]
  }

  /** Every capsule object, the capsule document and the three proofs are present, byte for byte. */
  ghost predicate ContentsReturn(suite: Suite, request: SealRequest, returned: map<ObjectId, Bytes>)
    requires WellTyped(request)
  {
    var ids := request.ids;
    && (forall d :: d in request.capsule.objects ==> Returns(returned, d.objectId, request.objects))
    && Returns(returned, ids.capsuleObjectId, map[ids.capsuleObjectId := suite.capsuleBytes(request.capsule)])
    && forall i :: 0 <= i < 3 ==>
         Returns(returned, ids.proofObjectIds[i], map[ids.proofObjectIds[i] := suite.proofBytes(request.proofs[i])])
  }

  lemma PayloadReturns(suite: Suite, request: SealRequest, sealed: SealedUpload, d: LogicalObject)
    requires Addressable(suite, request) && SealedFrom(suite, request, sealed) && d in request.capsule.objects
    ensures Returns(Selected(SortById(Descriptors(suite, request)), PlainObjects(suite, request)), d.objectId,
                    request.objects)
  {
    assert d in Descriptors(suite, request);
    DescriptorIsSelected(suite, request, sealed, d);
    PlainObjectsKeep(suite, request, d.objectId);
  }

  lemma CapsuleReturns(suite: Suite, request: SealRequest, sealed: SealedUpload)
    requires Addressable(suite, request) && SealedFrom(suite, request, sealed)
    ensures Returns(Selected(SortById(Descriptors(suite, request)), PlainObjects(suite, request)),
                    request.ids.capsuleObjectId,
                    map[request.ids.capsuleObjectId := suite.capsuleBytes(request.capsule)])
  {
    var d := CapsuleDescriptor(suite, request);
    assert Descriptors(suite, request)[|request.capsule.objects|] == d;
    DescriptorIsSelected(suite, request, sealed, d);
    PlainDocuments(suite, request);
  }

  lemma ProofReturns(suite: Suite, request: SealRequest, sealed: SealedUpload, i: nat)
    requires Addressable(suite, request) && SealedFrom(suite, request, sealed) && i < 3
    ensures Returns(Selected(SortById(Descriptors(suite, request)), PlainObjects(suite, request)),
                    request.ids.proofObjectIds[i],
                    map[request.ids.proofObjectIds[i] := suite.proofBytes(request.proofs[i])])
  {
    var d := ProofDescriptor(suite, request, i);
    assert Descriptors(suite, request)[|request.capsule.objects| + 1 + i] == d;
    DescriptorIsSelected(suite, request, sealed, d);
    PlainDocuments(suite, request);
  }

  lemma SelectedContentsReturn(suite: Suite, request: SealRequest, sealed: SealedUpload)
    requires Addressable(suite, request) && SealedFrom(suite, request, sealed)
    ensures ContentsReturn(suite, request,
                           Selected(SortById(Descriptors(suite, request)), PlainObjects(suite, request)))
  {
    CapsuleReturns(suite, request, sealed);
    forall i | 0 <= i < 3 {
      ProofReturns(suite, request, sealed, i);
    }
    forall d | d in request.capsule.objects {
      PayloadReturns(suite, request, sealed, d);
    }
  }

  /** Opening what was sealed returns the same manifest and every plaintext, byte for byte. */
  lemma SealedContentsReturn(suite: Suite, request: SealRequest, sealed: SealedUpload, verificationKey: Key)
    returns (objects: map<ObjectId, Bytes>)
    requires Ideal(suite) && Addressable(suite, request) && SealedFrom(suite, request, sealed)
    requires SignerMatches(suite, request.signer, verificationKey) && ReadsBack(suite, sealed.manifest)
    ensures OpenCapture(suite, sealed.envelope, verificationKey, request.occurrenceKey, sealed.ciphertext)
         == Some(OpenedCapture(sealed.manifest, objects))
    ensures ContentsReturn(suite, request, objects)
  {
    objects := Selected(SortById(Descriptors(suite, request)), PlainObjects(suite, request));
    SealedCaptureOpens(suite, request, sealed, verificationKey);
    SelectedContentsReturn(suite, request, sealed);
  }
}
