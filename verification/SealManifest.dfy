/** The manifest of a batch validates exactly when the capture fits: nothing that sealing puts in can fail. */
module SealManifest {
  import opened Prelude
  import opened Ordering
  import opened Capsule
  import opened SealModel
  import opened SealNonces
  import opened Sealing
  import opened SealBatch
  import opened SealUpload
  import opened SealSuccess

  /** The descriptors in the order of the loop. */
  function Ordered(suite: Suite, request: SealRequest): seq<LogicalObject>
    requires Addressable(suite, request)
  {
    SortById(Descriptors(suite, request))
  }

  /** One draw for each chunk of each object. */
  function CaptureDraws(suite: Suite, request: SealRequest): nat
    requires Addressable(suite, request)
  {
    Draws(PlainObjects(suite, request), Ordered(suite, request), |Ordered(suite, request)|)
  }

  /** The caller's part: four new document ids, and for every descriptor the bytes that it describes. */
  ghost predicate CaptureSealable(suite: Suite, request: SealRequest)
    requires Addressable(suite, request)
  {
    && DocumentsFresh(request)
    && forall d :: d in Descriptors(suite, request) ==> HasBytes(suite, PlainObjects(suite, request), d)
  }

  /** Every object of the batch, encrypted with the draws from `from` on. */
  function EncryptedObjects(suite: Suite, request: SealRequest, stream: NonceStream, from: nat): seq<EncryptedObject>
    requires Addressable(suite, request)
  {
    ObjectsFrom(suite, request, PlainObjects(suite, request), Ordered(suite, request), stream, from,
                |Ordered(suite, request)|)
  }

  lemma OrderedHaveBytes(suite: Suite, request: SealRequest)
    requires Addressable(suite, request)
    ensures
      AllHaveBytes(suite, PlainObjects(suite, request), Ordered(suite, request)) <==>
        forall d :: d in Descriptors(suite, request) ==> HasBytes(suite, PlainObjects(suite, request), d)
  {
    var plaintext, all, ordered := PlainObjects(suite, request), Descriptors(suite, request), Ordered(suite, request);
    SortByIdMultiset(all);
    if AllHaveBytes(suite, plaintext, ordered) {
      forall d | d in all ensures HasBytes(suite, plaintext, d) {
        assert d in multiset(ordered);
        var k: nat :| k < |ordered| && ordered[k] == d;
        assert HasBytesAt(suite, plaintext, ordered, k);
      }
    }
    if forall d :: d in all ==> HasBytes(suite, plaintext, d) {
      forall k: nat | k < |ordered| ensures HasBytesAt(suite, plaintext, ordered, k) {
        SortedIsListed(all, k);
      }
    }
  }

  // The condition.

  /** An object that a manifest may hold beside the added documents. */
  predicate Holdable(d: LogicalObject) {
    && 0 < |d.mediaType| <= 128
    && d.role !in {CaptureBatchManifestRole, ReplayCapsuleManifest, AdmissionProof}
  }

  predicate ProofsFit(suite: Suite, request: SealRequest)
    requires WellTyped(request)
  {
    && (forall i :: 0 <= i < 3 ==> request.proofs[i].processingMode == request.capsule.processingMode)
    && forall i, j :: 0 <= i < j < 3 ==> ProofDigest(suite, request.proofs[i]) != ProofDigest(suite, request.proofs[j])
  }

  /** Objects with ids and roles of their own, few enough chunks, valid capabilities and three different proofs. */
  ghost predicate CaptureFits(suite: Suite, request: SealRequest)
    requires Addressable(suite, request)
  {
    && DistinctIds(request.capsule.objects)
    && (forall d :: d in request.capsule.objects ==> Holdable(d))
    && CaptureDraws(suite, request) < 32_768
    && ValidCapabilities(request.capsule.requiredCapabilities)
    && ProofsFit(suite, request)
  }

  // The objects of the batch.

  lemma {:induction false} TotalChunksAppend(objects: seq<EncryptedObject>, last: EncryptedObject)
    ensures TotalChunks(objects + [last]) == TotalChunks(objects) + |last.chunks|
  {
    if objects == [] {
      assert ([] + [last])[1..] == [];
    } else {
      TotalChunksAppend(objects[1..], last);
      assert (objects + [last])[1..] == objects[1..] + [last];
    }
  }

  predicate ShapedAs(objects: seq<EncryptedObject>, descriptors: seq<LogicalObject>) {
    && |objects| == |descriptors|
    && forall i :: 0 <= i < |objects| ==> objects[i].descriptor == descriptors[i] && ValidChunks(objects[i].chunks)
  }

  lemma ShapedNext(objects: seq<EncryptedObject>, descriptors: seq<LogicalObject>, k: nat, next: EncryptedObject)
    requires k < |descriptors| && ShapedAs(objects, descriptors[..k])
    requires next.descriptor == descriptors[k] && ValidChunks(next.chunks)
    ensures ShapedAs(objects + [next], descriptors[..k + 1])
  {
    hide ValidChunks;
  }

  /** The chunks of an object within the limits are valid, whatever was drawn. */
  lemma MaterialChunksAreValid(suite: Suite, request: SealRequest, d: LogicalObject, bytes: Bytes, stream: NonceStream,
                               from: nat)
    requires WellBehaved(suite) && Encryptable(suite, d, bytes)
    ensures
      var item := MaterialOf(suite, request.occurrenceKey, ObjectContextOf(request, d), d, bytes, stream, from).item;
      item.descriptor == d && ValidChunks(item.chunks) && |item.chunks| == ChunkCount(|bytes|)
  {
    ChunksAreCounted(bytes);
    hide WellBehaved, StoredAt, RecordAt, Chunks, ChunkCount, ObjectContextOf;
    var context := ObjectContextOf(request, d);
    forall i: nat | i < |Chunks(bytes)|
      ensures
        var entry := EntryAt(suite, request.occurrenceKey, context, bytes, stream, from, i);
        entry.index == i && 28 <= entry.cipherSize <= 8_388_636 && |entry.nonce| == 16
    {
      RecordExists(suite, request.occurrenceKey, context, bytes, stream, from, i);
    }
  }

  lemma {:induction false} ObjectsAreShaped(suite: Suite, request: SealRequest, plaintext: map<ObjectId, Bytes>,
                                            descriptors: seq<LogicalObject>, stream: NonceStream, from: nat, k: nat)
    requires WellBehaved(suite) && k <= |descriptors| && AllHaveBytes(suite, plaintext, descriptors)
    ensures
      var objects := ObjectsFrom(suite, request, plaintext, descriptors, stream, from, k);
      ShapedAs(objects, descriptors[..k]) && TotalChunks(objects) == Draws(plaintext, descriptors, k)
  {
    hide WellBehaved, MaterialOf, ShapedAs, ChunkCount;
    if k == 0 {
      NothingIsShaped(descriptors);
    } else {
      var d := descriptors[k - 1];
      ObjectsAreShaped(suite, request, plaintext, descriptors, stream, from, k - 1);
      assert HasBytesAt(suite, plaintext, descriptors, k - 1);
      var objects := ObjectsFrom(suite, request, plaintext, descriptors, stream, from, k - 1);
      var drawn := from + Draws(plaintext, descriptors, k - 1);
      var bytes := PlainOf(plaintext, d);
      var next := MaterialOf(suite, request.occurrenceKey, ObjectContextOf(request, d), d, bytes, stream, drawn).item;
      MaterialChunksAreValid(suite, request, d, bytes, stream, drawn);
      ShapedNext(objects, descriptors, k - 1, next);
      TotalChunksAppend(objects, next);
    }
  }

  lemma NothingIsShaped(descriptors: seq<LogicalObject>)
    ensures ShapedAs([], descriptors[..0])
  {
  }

  lemma EncryptedAreShaped(suite: Suite, request: SealRequest, stream: NonceStream, from: nat)
    requires WellBehaved(suite) && Addressable(suite, request) && CaptureSealable(suite, request)
    ensures ShapedAs(EncryptedObjects(suite, request, stream, from), Ordered(suite, request))
    ensures TotalChunks(EncryptedObjects(suite, request, stream, from)) == CaptureDraws(suite, request)
  {
    var ordered := Ordered(suite, request);
    OrderedHaveBytes(suite, request);
    ObjectsAreShaped(suite, request, PlainObjects(suite, request), ordered, stream, from, |ordered|);
    assert ordered[..|ordered|] == ordered;
  }

  lemma {:induction false} ChunksAreAtLeast(objects: seq<EncryptedObject>)
    requires forall i :: 0 <= i < |objects| ==> 0 < |objects[i].chunks|
    ensures |objects| <= TotalChunks(objects)
  {
    if objects != [] {
      ChunksAreAtLeast(objects[1..]);
    }
  }

  // The order of the ids.

  predicate IdsInOrder(s: seq<LogicalObject>) {
    forall i, j :: 0 <= i < j < |s| ==> s[i].objectId <= s[j].objectId
  }

  lemma {:induction false} InsertByIdInOrder(x: LogicalObject, s: seq<LogicalObject>)
    requires IdsInOrder(s)
    ensures IdsInOrder(InsertById(x, s))
  {
    if s != [] && x.objectId > s[0].objectId {
      var rest := InsertById(x, s[1..]);
      InsertByIdInOrder(x, s[1..]);
      InsertByIdMultiset(x, s[1..]);
      forall j | 0 <= j < |rest|
        ensures s[0].objectId <= rest[j].objectId
      {
        assert rest[j] in multiset(rest);
        assert rest[j] == x || rest[j] in s[1..];
      }
    }
  }

  lemma {:induction false} SortByIdInOrder(s: seq<LogicalObject>)
    ensures IdsInOrder(SortById(s))
  {
    if s != [] {
      SortByIdInOrder(s[1..]);
      InsertByIdInOrder(s[0], SortById(s[1..]));
    }
  }

  lemma PermutedIdsDistinct(s: seq<LogicalObject>, t: seq<LogicalObject>)
    requires DistinctIds(s) && multiset(s) == multiset(t)
    ensures DistinctIds(t)
  {
    forall i, j | 0 <= i < j < |t|
      ensures t[i].objectId != t[j].objectId
    {
      MultisetOfDistinct(s, t[i]);
      RepeatedMember(t, i, j);
      assert t[i] in multiset(t) && t[j] in multiset(t);
      var a :| 0 <= a < |s| && s[a] == t[i];
      var b :| 0 <= b < |s| && s[b] == t[j];
      assert if a < b then s[a].objectId != s[b].objectId else s[b].objectId != s[a].objectId;
    }
  }

  /** With new document ids, the ids of the whole batch differ exactly when those of the capsule do. */
  lemma BatchIdsDiffer(suite: Suite, request: SealRequest)
    requires Addressable(suite, request) && DocumentsFresh(request)
    ensures DistinctIds(Descriptors(suite, request)) <==> DistinctIds(request.capsule.objects)
  {
    var all, n := Descriptors(suite, request), |request.capsule.objects|;
    if DistinctIds(all) {
      forall i, j | 0 <= i < j < n
        ensures request.capsule.objects[i].objectId != request.capsule.objects[j].objectId
      {
        assert all[i] == request.capsule.objects[i] && all[j] == request.capsule.objects[j];
      }
    }
    if DistinctIds(request.capsule.objects) {
      forall i, j | 0 <= i < j < |all|
        ensures all[i].objectId != all[j].objectId
      {
        if j < n {
          assert all[i] == request.capsule.objects[i] && all[j] == request.capsule.objects[j];
        } else {
          DocumentIdIsNew(suite, request, i, j);
        }
      }
    }
  }

  /** The id of an added document is none of those before it. */
  lemma DocumentIdIsNew(suite: Suite, request: SealRequest, i: nat, j: nat)
    requires Addressable(suite, request) && DocumentsFresh(request)
    requires |request.capsule.objects| <= j < |Descriptors(suite, request)| && i < j
    ensures Descriptors(suite, request)[i].objectId != Descriptors(suite, request)[j].objectId
  {
    var n, ids := |request.capsule.objects|, request.ids.proofObjectIds;
    assert ids[..1] == [ids[0]] && ids[..2] == [ids[0], ids[1]];
    assert NewId(request, request.ids.capsuleObjectId);
    assert forall k :: 0 <= k < 3 ==> NewId(request, ids[k]);
    if i < n {
      assert Descriptors(suite, request)[i] in request.capsule.objects;
    }
  }

  lemma OrderedAscends(suite: Suite, request: SealRequest)
    requires Addressable(suite, request) && DocumentsFresh(request)
    ensures AscendingIds(Ordered(suite, request)) <==> DistinctIds(request.capsule.objects)
    ensures |Ordered(suite, request)| == |request.capsule.objects| + 4
  {
    var all, ordered := Descriptors(suite, request), Ordered(suite, request);
    BatchIdsDiffer(suite, request);
    SortByIdMultiset(all);
    assert |multiset(ordered)| == |multiset(all)|;
    SortByIdInOrder(all);
    if AscendingIds(ordered) {
      PermutedIdsDistinct(ordered, all);
    }
    if DistinctIds(all) {
      PermutedIdsDistinct(all, ordered);
    }
  }

  // The roles.

  function Having(s: seq<LogicalObject>, role: LogicalObjectRole): seq<LogicalObject> {
    Filter(s, (d: LogicalObject) => d.role == role)
  }

  lemma {:induction false} RolesOfObjects(objects: seq<EncryptedObject>, descriptors: seq<LogicalObject>,
                                          role: LogicalObjectRole)
    requires |objects| == |descriptors| && forall i :: 0 <= i < |objects| ==> objects[i].descriptor == descriptors[i]
    ensures |WithRole(objects, role)| == |Having(descriptors, role)|
    ensures forall i :: 0 <= i < |Having(descriptors, role)| ==>
      WithRole(objects, role)[i].descriptor == Having(descriptors, role)[i]
  {
    if objects != [] {
      RolesOfObjects(objects[1..], descriptors[1..], role);
    }
  }

  lemma {:induction false} HavingAscends(s: seq<LogicalObject>, role: LogicalObjectRole)
    requires AscendingIds(s)
    ensures AscendingIds(Having(s, role))
  {
    if s != [] {
      HavingAscends(s[1..], role);
      FilterMembers(s[1..], (d: LogicalObject) => d.role == role);
      var rest := Having(s[1..], role);
      forall j | 0 <= j < |rest|
        ensures s[0].objectId < rest[j].objectId
      {
        assert rest[j] in s[1..];
      }
    }
  }

  lemma {:induction false} InsertByIdHaving(x: LogicalObject, s: seq<LogicalObject>, role: LogicalObjectRole)
    ensures |Having(InsertById(x, s), role)| == |Having(s, role)| + (if x.role == role then 1 else 0)
  {
    if s == [] {
      assert [x][1..] == [];
    } else if x.objectId <= s[0].objectId {
      assert ([x] + s)[1..] == s;
    } else {
      InsertByIdHaving(x, s[1..], role);
      assert ([s[0]] + InsertById(x, s[1..]))[1..] == InsertById(x, s[1..]);
    }
  }

  lemma {:induction false} SortByIdHaving(s: seq<LogicalObject>, role: LogicalObjectRole)
    ensures |Having(SortById(s), role)| == |Having(s, role)|
  {
    if s != [] {
      SortByIdHaving(s[1..], role);
      InsertByIdHaving(s[0], SortById(s[1..]), role);
    }
  }

  lemma {:induction false} HavingJoins(s: seq<LogicalObject>, t: seq<LogicalObject>, role: LogicalObjectRole)
    ensures Having(s + t, role) == Having(s, role) + Having(t, role)
  {
    if s == [] {
      assert s + t == t;
    } else {
      HavingJoins(s[1..], t, role);
      assert (s + t)[1..] == s[1..] + t;
    }
  }

  lemma NoneHaveIt(s: seq<LogicalObject>, role: LogicalObjectRole)
    ensures |Having(s, role)| == 0 <==> forall d :: d in s ==> d.role != role
  {
    FilterMembers(s, (d: LogicalObject) => d.role == role);
    if |Having(s, role)| > 0 {
      assert Having(s, role)[0] in s;
    }
  }

  /** The roles of the four documents, counted. */
  lemma DocumentRoles(suite: Suite, request: SealRequest, role: LogicalObjectRole)
    requires Addressable(suite, request)
    ensures |Having(Ordered(suite, request), role)| ==
      |Having(request.capsule.objects, role)|
      + (if role == ReplayCapsuleManifest then 1 else if role == AdmissionProof then 3 else 0)
  {
    var documents := [CapsuleDescriptor(suite, request), ProofDescriptor(suite, request, 0),
                      ProofDescriptor(suite, request, 1), ProofDescriptor(suite, request, 2)];
    SortByIdHaving(Descriptors(suite, request), role);
    HavingJoins(request.capsule.objects, documents, role);
    if role == ReplayCapsuleManifest {
      FilterWindow(documents, (d: LogicalObject) => d.role == role, 0, 1);
    } else if role == AdmissionProof {
      FilterWindow(documents, (d: LogicalObject) => d.role == role, 1, 4);
    } else {
      FilterWindow(documents, (d: LogicalObject) => d.role == role, 0, 0);
    }
  }

  lemma RolesMember(suite: Suite, request: SealRequest, role: LogicalObjectRole, i: nat)
    requires Addressable(suite, request) && i < |Having(Ordered(suite, request), role)|
    ensures
      var d := Having(Ordered(suite, request), role)[i];
      d.role == role && d in Descriptors(suite, request)
  {
    var ordered := Ordered(suite, request);
    FilterMembers(ordered, (d: LogicalObject) => d.role == role);
    var d := Having(ordered, role)[i];
    assert d in Having(ordered, role) && d in ordered;
    SortByIdMultiset(Descriptors(suite, request));
    assert d in multiset(ordered);
  }

  /** Without other objects of those roles, the manifest shows the capsule and the proofs in order. */
  lemma DocumentsAreFound(suite: Suite, request: SealRequest)
    requires Addressable(suite, request) && ValidSealingIds(request) && DocumentsFresh(request)
    requires forall d :: d in request.capsule.objects ==> Holdable(d)
    requires DistinctIds(request.capsule.objects)
    ensures Having(Ordered(suite, request), ReplayCapsuleManifest) == [CapsuleDescriptor(suite, request)]
    ensures Having(Ordered(suite, request), AdmissionProof) ==
      [ProofDescriptor(suite, request, 0), ProofDescriptor(suite, request, 1), ProofDescriptor(suite, request, 2)]
  {
    var ordered := Ordered(suite, request);
    DocumentRoles(suite, request, ReplayCapsuleManifest);
    DocumentRoles(suite, request, AdmissionProof);
    NoneHaveIt(request.capsule.objects, ReplayCapsuleManifest);
    NoneHaveIt(request.capsule.objects, AdmissionProof);
    OrderedAscends(suite, request);
    HavingAscends(ordered, AdmissionProof);
    RolesMember(suite, request, ReplayCapsuleManifest, 0);
    RolesMember(suite, request, AdmissionProof, 0);
    RolesMember(suite, request, AdmissionProof, 1);
    RolesMember(suite, request, AdmissionProof, 2);
  }

  // The validation.

  /** Objects of the batch are valid exactly when those of the capsule may be held, with the two added roles apart. */
  lemma DescriptorsAreValid(suite: Suite, request: SealRequest)
    requires Addressable(suite, request) && CaptureSealable(suite, request)
    requires forall d :: d in request.capsule.objects ==> Holdable(d)
    ensures forall d :: d in Descriptors(suite, request) ==> ValidObject(d)
  {
    forall d | d in Descriptors(suite, request)
      ensures ValidObject(d)
    {
      assert HasBytes(suite, PlainObjects(suite, request), d);
      SizeIsBounded(|PlainObjects(suite, request)[d.objectId]|);
    }
  }

  lemma SizeIsBounded(length: nat)
    requires ChunkCount(length) <= MAXIMUM_CHUNKS
    ensures length <= 274_878_824_448
  {
  }

  lemma ManifestOfFits(suite: Suite, request: SealRequest, stream: NonceStream, from: nat)
    requires WellBehaved(suite) && Addressable(suite, request)
    requires ValidSealingIds(request) && CaptureSealable(suite, request) && CaptureFits(suite, request)
    requires |suite.manifestBytes(ManifestOf(suite, request, EncryptedObjects(suite, request, stream, from)))|
          <= CHUNK_BYTES
    ensures
      ValidManifest(suite, ManifestOf(suite, request, EncryptedObjects(suite, request, stream, from)))
  {
    var objects, ordered := EncryptedObjects(suite, request, stream, from), Ordered(suite, request);
    EncryptedAreShaped(suite, request, stream, from);
    OrderedAscends(suite, request);
    DescriptorsAreValid(suite, request);
    hide EncryptedObjects, Ordered, CaptureSealable, WellBehaved, ValidObject, ValidChunks, ProofDigest,
      ValidSealingIds, CaptureDraws, TotalChunks, Holdable, Descriptors;
    ShapedHaveChunks(objects, ordered);
    ChunksAreAtLeast(objects);
    forall i | 0 <= i < |objects|
      ensures ValidObject(objects[i].descriptor)
    {
      OrderedIsListed(suite, request, i);
    }
  }

  lemma ShapedHaveChunks(objects: seq<EncryptedObject>, descriptors: seq<LogicalObject>)
    requires ShapedAs(objects, descriptors)
    ensures forall i :: 0 <= i < |objects| ==> 0 < |objects[i].chunks|
  {
  }

  lemma OrderedIsListed(suite: Suite, request: SealRequest, i: nat)
    requires Addressable(suite, request) && i < |Ordered(suite, request)|
    ensures Ordered(suite, request)[i] in Descriptors(suite, request)
  {
    SortedIsListed(Descriptors(suite, request), i);
  }

  lemma FittingManifestValidates(suite: Suite, request: SealRequest, stream: NonceStream, from: nat)
    requires WellBehaved(suite) && Addressable(suite, request)
    requires ValidSealingIds(request) && CaptureSealable(suite, request) && CaptureFits(suite, request)
    requires |suite.manifestBytes(ManifestOf(suite, request, EncryptedObjects(suite, request, stream, from)))|
          <= CHUNK_BYTES
    ensures
      ValidCaptureManifest(suite, ManifestOf(suite, request, EncryptedObjects(suite, request, stream, from)),
                           request.capsuleDigest, request.proofs)
  {
    var objects, ordered := EncryptedObjects(suite, request, stream, from), Ordered(suite, request);
    ManifestOfFits(suite, request, stream, from);
    EncryptedAreShaped(suite, request, stream, from);
    DocumentsAreFound(suite, request);
    hide EncryptedObjects, Ordered, CaptureSealable, WellBehaved, ValidManifest, ValidSealingIds, WithRole, Having,
      ProofDigest, DistinctIds, ValidChunks, Holdable;
    RolesOfObjects(objects, ordered, ReplayCapsuleManifest);
    RolesOfObjects(objects, ordered, AdmissionProof);
    ProofsAreDescribed(suite, request);
  }

  lemma ProofsAreDescribed(suite: Suite, request: SealRequest)
    requires Addressable(suite, request)
    ensures forall i :: 0 <= i < 3 ==>
      ProofDescriptor(suite, request, i).plainDigest == ProofDigest(suite, request.proofs[i])
  {
  }

  /** What a valid manifest says of the capsule's own objects. */
  lemma ValidObjectsAreHoldable(suite: Suite, request: SealRequest, stream: NonceStream, from: nat)
    requires WellBehaved(suite) && Addressable(suite, request) && CaptureSealable(suite, request)
    requires
      ValidCaptureManifest(suite, ManifestOf(suite, request, EncryptedObjects(suite, request, stream, from)),
                           request.capsuleDigest, request.proofs)
    ensures forall d :: d in request.capsule.objects ==> Holdable(d)
  {
    var objects, ordered := EncryptedObjects(suite, request, stream, from), Ordered(suite, request);
    EncryptedAreShaped(suite, request, stream, from);
    hide EncryptedObjects, Ordered, CaptureSealable, WellBehaved, WithRole, Having, ProofDigest, ValidChunks,
      ValidCapabilities, TotalChunks, AllDistinct;
    RolesOfObjects(objects, ordered, ReplayCapsuleManifest);
    RolesOfObjects(objects, ordered, AdmissionProof);
    DocumentRoles(suite, request, ReplayCapsuleManifest);
    DocumentRoles(suite, request, AdmissionProof);
    NoneHaveIt(request.capsule.objects, ReplayCapsuleManifest);
    NoneHaveIt(request.capsule.objects, AdmissionProof);
    forall d | d in request.capsule.objects
      ensures Holdable(d)
    {
      var i := ListedIsOrdered(suite, request, d);
      assert ValidObject(objects[i].descriptor);
    }
  }

  lemma ListedIsOrdered(suite: Suite, request: SealRequest, d: LogicalObject) returns (i: nat)
    requires Addressable(suite, request) && d in request.capsule.objects
    ensures i < |Ordered(suite, request)| && Ordered(suite, request)[i] == d
  {
    assert d in Descriptors(suite, request);
    SortByIdMultiset(Descriptors(suite, request));
    assert d in multiset(Ordered(suite, request));
    i :| i < |Ordered(suite, request)| && Ordered(suite, request)[i] == d;
  }

  lemma ValidManifestFits(suite: Suite, request: SealRequest, stream: NonceStream, from: nat)
    requires WellBehaved(suite) && Addressable(suite, request) && CaptureSealable(suite, request)
    requires
      ValidCaptureManifest(suite, ManifestOf(suite, request, EncryptedObjects(suite, request, stream, from)),
                           request.capsuleDigest, request.proofs)
    ensures CaptureFits(suite, request)
  {
    var objects, ordered := EncryptedObjects(suite, request, stream, from), Ordered(suite, request);
    EncryptedAreShaped(suite, request, stream, from);
    OrderedAscends(suite, request);
    ValidObjectsAreHoldable(suite, request, stream, from);
    hide EncryptedObjects, Ordered, CaptureSealable, WellBehaved, WithRole, ProofDigest, ValidChunks, ValidObject,
      ValidCapabilities, TotalChunks, Holdable, DistinctIds;
    ProofDigestsApart(suite, request, objects);
  }

  lemma ProofDigestsApart(suite: Suite, request: SealRequest, objects: seq<EncryptedObject>)
    requires WellTyped(request) && AllDistinct(ManifestOf(suite, request, objects).proofDigests)
    ensures forall i, j :: 0 <= i < j < 3 ==>
      ProofDigest(suite, request.proofs[i]) != ProofDigest(suite, request.proofs[j])
  {
    var digests := ManifestOf(suite, request, objects).proofDigests;
    assert forall i :: 0 <= i < 3 ==> digests[i] == ProofDigest(suite, request.proofs[i]);
  }

  /**
   * The manifest of a sealable capture validates if and only if the capture
   * fits and the manifest is one chunk: its versions, chunk entries, order,
   * capsule entry and proof entries never fail.
   */
  lemma ManifestValidatesExactly(suite: Suite, request: SealRequest, stream: NonceStream, from: nat)
    requires WellBehaved(suite) && Addressable(suite, request)
    requires ValidSealingIds(request) && CaptureSealable(suite, request)
    ensures
      var manifest := ManifestOf(suite, request, EncryptedObjects(suite, request, stream, from));
      ValidCaptureManifest(suite, manifest, request.capsuleDigest, request.proofs) <==>
        CaptureFits(suite, request) && |suite.manifestBytes(manifest)| <= CHUNK_BYTES
  {
    hide CaptureFits, CaptureSealable, WellBehaved, ValidSealingIds, EncryptedObjects, ManifestOf;
    var manifest := ManifestOf(suite, request, EncryptedObjects(suite, request, stream, from));
    if ValidCaptureManifest(suite, manifest, request.capsuleDigest, request.proofs) {
      ValidManifestFits(suite, request, stream, from);
    }
    if CaptureFits(suite, request) && |suite.manifestBytes(manifest)| <= CHUNK_BYTES {
      FittingManifestValidates(suite, request, stream, from);
    }
  }
}
