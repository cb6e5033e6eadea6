/** A capture opens to exactly the contents that are authentic for it. */
module OpeningExact {
  import opened Prelude
  import opened Capsule
  import opened SealModel
  import opened Sealing
  import opened Opening
  import opened SealRoundTrip
  import opened SealExact

  // Two ascending lists of the same uploads are the same list.

  predicate AscendingDigests(s: seq<UploadObject>) {
    forall i, j :: 0 <= i < j < |s| ==> s[i].cipherDigest < s[j].cipherDigest
  }

  lemma {:induction false} OrderedByDigest(s: seq<UploadObject>)
    requires InOrder(s) && DistinctDigests(s)
    ensures AscendingDigests(s)
  {
    if |s| > 1 {
      TailInOrder(s);
      OrderedByDigest(s[1..]);
      assert UploadNotAfter(s[1 - 1], s[1]);
      assert s[0].cipherDigest < s[1].cipherDigest;
      forall i, j | 0 <= i < j < |s|
        ensures s[i].cipherDigest < s[j].cipherDigest
      {
        assert s[j] == s[1..][j - 1];
        if i > 0 {
          assert s[i] == s[1..][i - 1];
        } else if j > 1 {
          assert s[1..][0].cipherDigest < s[1..][j - 1].cipherDigest;
        }
      }
    }
  }

  lemma FirstIsLeast(a: seq<UploadObject>, b: seq<UploadObject>)
    requires AscendingDigests(b) && multiset(a) == multiset(b) && a != []
    ensures b != [] && (a[0] == b[0] || b[0].cipherDigest < a[0].cipherDigest)
  {
    assert a[0] in multiset(b);
    var j :| 0 <= j < |b| && b[j] == a[0];
  }

  lemma TailAscends(s: seq<UploadObject>)
    requires AscendingDigests(s) && s != []
    ensures AscendingDigests(s[1..])
  {
  }

  lemma {:induction false} AscendingIsUnique(a: seq<UploadObject>, b: seq<UploadObject>)
    requires AscendingDigests(a) && AscendingDigests(b) && multiset(a) == multiset(b)
    ensures a == b
  {
    assert |multiset(a)| == |a| && |multiset(b)| == |b|;
    if a != [] {
      FirstIsLeast(a, b);
      FirstIsLeast(b, a);
      TailAscends(a);
      TailAscends(b);
      hide AscendingDigests;
      assert a == [a[0]] + a[1..] && b == [b[0]] + b[1..];
      assert multiset(a[1..]) == multiset(a) - multiset{a[0]};
      assert multiset(b[1..]) == multiset(b) - multiset{b[0]};
      AscendingIsUnique(a[1..], b[1..]);
    }
  }

  lemma SortedIsListed(uploads: seq<UploadObject>, objects: seq<UploadObject>)
    requires multiset(uploads) == multiset(objects) && DistinctDigests(objects)
    requires forall i :: 0 < i < |objects| ==> UploadBefore(objects[i - 1], objects[i])
    ensures SortUploads(uploads) == objects
  {
    SortUploadsMultiset(uploads);
    SortPutsInOrder(uploads);
    PermutedDigestsDistinct(objects, SortUploads(uploads));
    OrderedByDigest(SortUploads(uploads));
    OrderedByDigest(objects);
    AscendingIsUnique(SortUploads(uploads), objects);
  }

  lemma ListedIsClosed(suite: Suite, envelope: UploadEnvelope, ciphertext: map<Digest, Bytes>)
    requires HoldsListed(suite, envelope, ciphertext)
    ensures CiphertextClosed(suite, envelope, ciphertext)
    ensures DistinctDigests(envelope.objects)
  {
    var listed := [envelope.manifestObject.upload] + envelope.objects;
    DigestsCounted(listed);
    assert |ciphertext| == |ciphertext.Keys|;
    forall i | 0 <= i < |listed|
      ensures UploadMatches(suite, listed[i], ciphertext)
    {
      assert RecordAsListed(suite, listed[i], ciphertext);
    }
    forall i, j | 0 <= i < j < |envelope.objects|
      ensures envelope.objects[i].cipherDigest != envelope.objects[j].cipherDigest
    {
      assert listed[i + 1] == envelope.objects[i] && listed[j + 1] == envelope.objects[j];
    }
  }

  lemma AgreedManifestOpens(suite: Suite, envelope: UploadEnvelope, verificationKey: Key, occurrenceKey: Key,
                            ciphertext: map<Digest, Bytes>, manifest: CaptureBatchManifest)
    requires ValidEnvelope(suite, envelope)
    requires suite.verify(verificationKey, envelope.(signature := ""), envelope.signature)
    requires RecordAsListed(suite, envelope.manifestObject.upload, ciphertext)
    requires DistinctDigests(envelope.objects)
    requires ManifestRead(suite, envelope, occurrenceKey, ciphertext, manifest)
    requires ManifestAgrees(suite, envelope, manifest)
    ensures
      OpenManifest(suite, envelope, verificationKey, occurrenceKey,
                   ciphertext[envelope.manifestObject.upload.cipherDigest]) == Some(manifest)
  {
    hide ValidManifest, FlatUploads, SortUploads, UploadBefore, CipherBytes, ValidUpload, DistinctDigests;
    SortedIsListed(FlatUploads(manifest.objects), envelope.objects);
    assert forall i :: 0 <= i < |manifest.objects| ==> manifest.objects[i] in manifest.objects;
  }

  lemma {:induction false} PiecesOpen(suite: Suite, envelope: UploadEnvelope, occurrenceKey: Key,
                                      ciphertext: map<Digest, Bytes>, item: EncryptedObject, count: nat,
                                      chunks: seq<EncryptedChunk>, pieces: seq<Bytes>)
    requires PiecesOpened(suite, envelope, occurrenceKey, ciphertext, item, count, chunks, pieces)
    ensures OpenChunks(suite, occurrenceKey,
                       EnvelopeContext(envelope, item.descriptor.objectId, item.descriptor.role), count, chunks,
                       ciphertext) == Some(Concat(pieces))
  {
    if chunks != [] {
      assert RecordOpens(suite, envelope, occurrenceKey, item.descriptor.objectId, item.descriptor.role, count,
                         chunks[0].index, ciphertext[chunks[0].cipherDigest], pieces[0]);
      PiecesOpen(suite, envelope, occurrenceKey, ciphertext, item, count, chunks[1..], pieces[1..]);
    }
  }

  lemma ReturnedItemOpens(suite: Suite, envelope: UploadEnvelope, occurrenceKey: Key, ciphertext: map<Digest, Bytes>,
                          item: EncryptedObject, bytes: Bytes)
    requires ItemReturned(suite, envelope, occurrenceKey, ciphertext, item, bytes)
    ensures OpenObject(suite, envelope, occurrenceKey, item, ciphertext) == Some(bytes)
  {
    var pieces: seq<Bytes> :| Concat(pieces) == bytes
      && PiecesOpened(suite, envelope, occurrenceKey, ciphertext, item, |item.chunks|, item.chunks, pieces);
    PiecesOpen(suite, envelope, occurrenceKey, ciphertext, item, |item.chunks|, item.chunks, pieces);
  }

  predicate DistinctItems(items: seq<EncryptedObject>) {
    forall i, j :: 0 <= i < j < |items| ==> items[i].descriptor.objectId != items[j].descriptor.objectId
  }

  /** Items of different ids, none of them done, all open. */
  lemma {:induction false} ReturnedItemsOpen(suite: Suite, envelope: UploadEnvelope, occurrenceKey: Key,
                                             ciphertext: map<Digest, Bytes>, items: seq<EncryptedObject>,
                                             done: map<ObjectId, Bytes>, objects: map<ObjectId, Bytes>)
    requires DistinctItems(items)
    requires forall item :: item in items ==> item.descriptor.objectId !in done
    requires forall item :: item in items ==>
      && item.descriptor.objectId in objects
      && ItemReturned(suite, envelope, occurrenceKey, ciphertext, item, objects[item.descriptor.objectId])
    ensures OpenObjects(suite, envelope, occurrenceKey, items, ciphertext, done).Some?
  {
    hide ItemReturned, OpenObject;
    if items != [] {
      ReturnedItemOpens(suite, envelope, occurrenceKey, ciphertext, items[0], objects[items[0].descriptor.objectId]);
      var rest := items[1..];
      assert forall item :: item in rest ==> item.descriptor.objectId != items[0].descriptor.objectId;
      ReturnedItemsOpen(suite, envelope, occurrenceKey, ciphertext, rest,
                        done[items[0].descriptor.objectId := objects[items[0].descriptor.objectId]], objects);
    }
  }

  lemma ReturnedObjectsOpen(suite: Suite, envelope: UploadEnvelope, occurrenceKey: Key, ciphertext: map<Digest, Bytes>,
                            items: seq<EncryptedObject>, objects: map<ObjectId, Bytes>)
    requires DistinctItems(items) && ObjectsReturned(suite, envelope, occurrenceKey, ciphertext, items, objects)
    ensures OpenObjects(suite, envelope, occurrenceKey, items, ciphertext, map[]) == Some(objects)
  {
    hide ItemReturned, OpenObject, OpenObjects;
    ReturnedItemsOpen(suite, envelope, occurrenceKey, ciphertext, items, map[], objects);
    OpenedItemsReturned(suite, envelope, occurrenceKey, ciphertext, items, map[]);
    var found := OpenObjects(suite, envelope, occurrenceKey, items, ciphertext, map[]).value;
    forall item | item in items
      ensures found[item.descriptor.objectId] == objects[item.descriptor.objectId]
    {
      ReturnedItemOpens(suite, envelope, occurrenceKey, ciphertext, item, objects[item.descriptor.objectId]);
      ReturnedItemOpens(suite, envelope, occurrenceKey, ciphertext, item, found[item.descriptor.objectId]);
    }
    assert found.Keys == objects.Keys;
    assert found == objects;
  }

  /** Opening answers exactly the authentic contents, for every envelope, key and ciphertext. */
  lemma OpensExactly(suite: Suite, envelope: UploadEnvelope, verificationKey: Key, occurrenceKey: Key,
                     ciphertext: map<Digest, Bytes>, result: OpenedCapture)
    ensures Authentic(suite, envelope, verificationKey, occurrenceKey, ciphertext, result) <==>
      OpenCapture(suite, envelope, verificationKey, occurrenceKey, ciphertext) == Some(result)
  {
    hide ValidEnvelope, EnvelopeAttests, OpenManifest, HoldsListed, ManifestRead, ManifestAgrees, ObjectsReturned,
      OpenObjects, Authentic;
    if OpenCapture(suite, envelope, verificationKey, occurrenceKey, ciphertext) == Some(result) {
      OpenedIsAuthentic(suite, envelope, verificationKey, occurrenceKey, ciphertext);
    }
    if Authentic(suite, envelope, verificationKey, occurrenceKey, ciphertext, result) {
      AuthenticOpens(suite, envelope, verificationKey, occurrenceKey, ciphertext, result);
    }
  }

  lemma AuthenticOpens(suite: Suite, envelope: UploadEnvelope, verificationKey: Key, occurrenceKey: Key,
                       ciphertext: map<Digest, Bytes>, result: OpenedCapture)
    requires Authentic(suite, envelope, verificationKey, occurrenceKey, ciphertext, result)
    ensures OpenCapture(suite, envelope, verificationKey, occurrenceKey, ciphertext) == Some(result)
  {
    hide ValidEnvelope, EnvelopeAttests, OpenManifest, HoldsListed, ManifestRead, ManifestAgrees, ObjectsReturned,
      OpenObjects;
    ListedIsClosed(suite, envelope, ciphertext);
    ManifestIsListed(suite, envelope, ciphertext);
    AgreedManifestOpens(suite, envelope, verificationKey, occurrenceKey, ciphertext, result.manifest);
    AgreedIdsDiffer(suite, envelope, result.manifest);
    ReturnedObjectsOpen(suite, envelope, occurrenceKey, ciphertext, result.manifest.objects, result.objects);
  }

  lemma ManifestIsListed(suite: Suite, envelope: UploadEnvelope, ciphertext: map<Digest, Bytes>)
    requires HoldsListed(suite, envelope, ciphertext)
    ensures RecordAsListed(suite, envelope.manifestObject.upload, ciphertext)
  {
    assert RecordAsListed(suite, ([envelope.manifestObject.upload] + envelope.objects)[0], ciphertext);
  }

  lemma AgreedIdsDiffer(suite: Suite, envelope: UploadEnvelope, manifest: CaptureBatchManifest)
    requires ManifestAgrees(suite, envelope, manifest)
    ensures DistinctItems(manifest.objects)
  {
    hide FlatUploads, ValidObject, ValidChunks;
  }
}
