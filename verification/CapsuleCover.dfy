/** A resolved capsule uses every object once, and its meaning does not depend on the reader. */
module CapsuleCover {
  import opened Prelude
  import opened Ordering
  import opened Capsule
  import opened CapsuleResolution

  lemma FoundAreMembers(objects: seq<LogicalObject>, selectors: seq<Selector>)
    requires AllFound(objects, selectors)
    ensures forall o :: o in Found(objects, selectors) ==> o in objects
  {
    forall o | o in Found(objects, selectors)
      ensures o in objects
    {
      var i :| 0 <= i < |selectors| && Found(objects, selectors)[i] == o;
      OneObjectIsMember(objects, selectors[i]);
    }
  }

  ghost predicate AllIn(some: seq<LogicalObject>, objects: seq<LogicalObject>) {
    forall o :: o in some ==> o in objects
  }

  lemma SubjectStageIsIn(docs: Documents, capsule: ReplayCapsule, read: Reader)
    requires SubjectStage(docs, capsule, read).Some?
    ensures
      var stage := SubjectStage(docs, capsule, read).value;
      stage.0 in capsule.objects && AllIn(stage.2, capsule.objects)
  {
    OneObjectIsMember(capsule.objects, SubjectManifestSelector(capsule));
    FoundAreMembers(capsule.objects, SubjectSelectors(SubjectStage(docs, capsule, read).value.1));
  }

  lemma TriggerStageIsIn(docs: Documents, capsule: ReplayCapsule, read: Reader)
    requires TriggerStage(docs, capsule, read).Some?
    ensures
      var stage := TriggerStage(docs, capsule, read).value;
      stage.0 in capsule.objects && AllIn(stage.2, capsule.objects)
  {
    OneObjectIsMember(capsule.objects, TriggerManifestSelector(capsule));
    FoundAreMembers(capsule.objects, TriggerSelectors(TriggerStage(docs, capsule, read).value.1));
  }

  lemma WorldStageIsIn(docs: Documents, capsule: ReplayCapsule, read: Reader)
    requires WorldStage(docs, capsule, read).Some?
    ensures
      var stage := WorldStage(docs, capsule, read).value;
      stage.0 in capsule.objects && AllIn(stage.2, capsule.objects)
  {
    OneObjectIsMember(capsule.objects, WORLD_SELECTOR);
    FoundAreMembers(capsule.objects, WorldSelectors(WorldStage(docs, capsule, read).value.1.points));
  }

  lemma DependencyStageIsIn(docs: Documents, capsule: ReplayCapsule, read: Reader)
    requires DependencyStage(docs, capsule, read).Some?
    ensures AllIn(DependencyObjects(DependencyStage(docs, capsule, read).value), capsule.objects)
  {
    var stage := DependencyStage(docs, capsule, read).value;
    if stage.Some? {
      FilterMembers(capsule.objects, o => Selects(TRANSCRIPT_SELECTOR, o));
      var manifests := Matching(capsule.objects, TRANSCRIPT_SELECTOR);
      assert manifests[0] in manifests;
      FoundAreMembers(capsule.objects, TranscriptSelectors(stage.value.transcript.interactions));
    }
  }

  /** Everything the stages resolve is an object of the capsule. */
  lemma ResolvedAreMembers(docs: Documents, capsule: ReplayCapsule, read: Reader)
    requires Stages(docs, capsule, read).Some?
    ensures AllIn(DescriptorsOf(Stages(docs, capsule, read).value), capsule.objects)
  {
    SubjectStageIsIn(docs, capsule, read);
    TriggerStageIsIn(docs, capsule, read);
    OneObjectIsMember(capsule.objects, FAILURE_SELECTOR);
    WorldStageIsIn(docs, capsule, read);
    DependencyStageIsIn(docs, capsule, read);
    PartsAreIn(Stages(docs, capsule, read).value, capsule.objects);
  }

  lemma PartsAreIn(r: Resolved, objects: seq<LogicalObject>)
    requires r.subjectObject in objects && AllIn(r.subjectMembers, objects)
    requires r.triggerObject in objects && AllIn(r.triggerInputs, objects) && r.failureObject in objects
    requires r.worldObject in objects && AllIn(r.worldArtifacts, objects)
    requires AllIn(DependencyObjects(r.dependency), objects)
    ensures AllIn(DescriptorsOf(r), objects)
  {
  }

  lemma DistinctSameMembers(a: seq<LogicalObject>, b: seq<LogicalObject>)
    requires DistinctIds(a) && DistinctIds(b) && forall o :: o in a <==> o in b
    ensures multiset(a) == multiset(b)
  {
    assert Distinct(a) && Distinct(b);
    forall o
      ensures multiset(a)[o] == multiset(b)[o]
    {
      MultisetOfDistinct(a, o);
      MultisetOfDistinct(b, o);
      assert o in multiset(a) <==> o in a;
      assert o in multiset(b) <==> o in b;
    }
  }

  /** Distinct members of a list that reach all of its ids are all of it. */
  lemma CoverIsPermutation(all: seq<LogicalObject>, objects: seq<LogicalObject>)
    requires DistinctIds(all) && DistinctIds(objects) && AllIn(all, objects) && Ids(all) == Ids(objects)
    ensures multiset(all) == multiset(objects)
  {
    forall o
      ensures o in all <==> o in objects
    {
      if o in objects {
        var k :| 0 <= k < |objects| && objects[k] == o;
        assert o.objectId in Ids(all);
        var i :| 0 <= i < |all| && all[i].objectId == o.objectId;
        assert all[i] in all;
        var j :| 0 <= j < |objects| && objects[j] == all[i];
        assert j == k;
      }
    }
    DistinctSameMembers(all, objects);
  }

  lemma ValidIdsAreDistinct(capsule: ReplayCapsule)
    requires ValidCapsule(capsule)
    ensures DistinctIds(capsule.objects)
  {
    assert AscendingIds(capsule.objects);
  }

  /** Success is an exact cover: the resolved descriptors are the capsule's objects, each once. */
  lemma ResolutionCoversExactly(docs: Documents, capsule: ReplayCapsule, read: Reader)
    requires ResolveSpec(docs, capsule, read).Some?
    ensures multiset(DescriptorsOf(ResolveSpec(docs, capsule, read).value)) == multiset(capsule.objects)
  {
    ResolvedAreMembers(docs, capsule, read);
    ValidIdsAreDistinct(capsule);
    CoverIsPermutation(DescriptorsOf(Stages(docs, capsule, read).value), capsule.objects);
  }

  lemma ParsedAlike<T>(hash: Bytes -> Digest, codec: Codec<T>, o: LogicalObject, a: Result<Bytes>, b: Result<Bytes>)
    requires CollisionFree(hash)
    requires ParseManifest(hash, codec, o, a).Some? && ParseManifest(hash, codec, o, b).Some?
    ensures ParseManifest(hash, codec, o, a) == ParseManifest(hash, codec, o, b)
  {
  }

  lemma SubjectStagesAlike(docs: Documents, capsule: ReplayCapsule, read: Reader, other: Reader)
    requires CollisionFree(docs.hash)
    requires SubjectStage(docs, capsule, read).Some? && SubjectStage(docs, capsule, other).Some?
    ensures SubjectStage(docs, capsule, read) == SubjectStage(docs, capsule, other)
  {
    var o := SubjectStage(docs, capsule, read).value.0;
    ParsedAlike(docs.hash, docs.subject, o, read(0, o), other(0, o));
  }

  lemma TriggerStagesAlike(docs: Documents, capsule: ReplayCapsule, read: Reader, other: Reader)
    requires CollisionFree(docs.hash)
    requires TriggerStage(docs, capsule, read).Some? && TriggerStage(docs, capsule, other).Some?
    ensures TriggerStage(docs, capsule, read) == TriggerStage(docs, capsule, other)
  {
    var o := TriggerStage(docs, capsule, read).value.0;
    ParsedAlike(docs.hash, docs.trigger, o, read(1, o), other(1, o));
  }

  lemma FailureStagesAlike(docs: Documents, capsule: ReplayCapsule, read: Reader, other: Reader)
    requires CollisionFree(docs.hash)
    requires FailureStage(docs, capsule, read).Some? && FailureStage(docs, capsule, other).Some?
    ensures FailureStage(docs, capsule, read) == FailureStage(docs, capsule, other)
  {
    var o := FailureStage(docs, capsule, read).value.0;
    ParsedAlike(docs.hash, docs.failure, o, read(2, o), other(2, o));
  }

  lemma WorldStagesAlike(docs: Documents, capsule: ReplayCapsule, read: Reader, other: Reader)
    requires CollisionFree(docs.hash)
    requires WorldStage(docs, capsule, read).Some? && WorldStage(docs, capsule, other).Some?
    ensures WorldStage(docs, capsule, read) == WorldStage(docs, capsule, other)
  {
    var o := WorldStage(docs, capsule, read).value.0;
    ParsedAlike(docs.hash, docs.world, o, read(3, o), other(3, o));
  }

  lemma DependencyStagesAlike(docs: Documents, capsule: ReplayCapsule, read: Reader, other: Reader)
    requires CollisionFree(docs.hash)
    requires DependencyStage(docs, capsule, read).Some? && DependencyStage(docs, capsule, other).Some?
    ensures DependencyStage(docs, capsule, read) == DependencyStage(docs, capsule, other)
  {
    if DependencyStage(docs, capsule, read).value.Some? {
      var o := DependencyStage(docs, capsule, read).value.value.manifestObject;
      ParsedAlike(docs.hash, docs.transcript, o, read(4, o), other(4, o));
    }
  }

  /** Any two readers that both let resolution succeed give the same resolved value. */
  lemma ReaderCannotChangeMeaning(docs: Documents, capsule: ReplayCapsule, read: Reader, other: Reader)
    requires CollisionFree(docs.hash)
    requires ResolveSpec(docs, capsule, read).Some? && ResolveSpec(docs, capsule, other).Some?
    ensures ResolveSpec(docs, capsule, read) == ResolveSpec(docs, capsule, other)
  {
    SubjectStagesAlike(docs, capsule, read, other);
    TriggerStagesAlike(docs, capsule, read, other);
    FailureStagesAlike(docs, capsule, read, other);
    WorldStagesAlike(docs, capsule, read, other);
    DependencyStagesAlike(docs, capsule, read, other);
  }

  /** The reader returns, at every call, bytes of the declared size and digest. */
  ghost predicate Honest(docs: Documents, capsule: ReplayCapsule, read: Reader) {
    forall n, o :: o in capsule.objects ==>
      read(n, o).Ok? && |read(n, o).value| == o.plainSize && docs.hash(read(n, o).value) == o.plainDigest
  }

  lemma HonestParse<T>(docs: Documents, capsule: ReplayCapsule, codec: Codec<T>, o: LogicalObject, a: Result<Bytes>,
                       honest: Reader, n: nat)
    requires CollisionFree(docs.hash) && Honest(docs, capsule, honest) && o in capsule.objects
    requires ParseManifest(docs.hash, codec, o, a).Some?
    ensures ParseManifest(docs.hash, codec, o, honest(n, o)) == ParseManifest(docs.hash, codec, o, a)
  {
    assert docs.hash(a.value) == docs.hash(honest(n, o).value);
  }

  lemma HonestFirstStages(docs: Documents, capsule: ReplayCapsule, read: Reader, honest: Reader)
    requires CollisionFree(docs.hash) && Honest(docs, capsule, honest)
    ensures SubjectStage(docs, capsule, read).Some? ==>
      SubjectStage(docs, capsule, honest) == SubjectStage(docs, capsule, read)
    ensures TriggerStage(docs, capsule, read).Some? ==>
      TriggerStage(docs, capsule, honest) == TriggerStage(docs, capsule, read)
  {
    if SubjectStage(docs, capsule, read).Some? {
      var o := SubjectStage(docs, capsule, read).value.0;
      SubjectStageIsIn(docs, capsule, read);
      HonestParse(docs, capsule, docs.subject, o, read(0, o), honest, 0);
    }
    if TriggerStage(docs, capsule, read).Some? {
      var o := TriggerStage(docs, capsule, read).value.0;
      TriggerStageIsIn(docs, capsule, read);
      HonestParse(docs, capsule, docs.trigger, o, read(1, o), honest, 1);
    }
  }

  lemma HonestLaterStages(docs: Documents, capsule: ReplayCapsule, read: Reader, honest: Reader)
    requires CollisionFree(docs.hash) && Honest(docs, capsule, honest)
    ensures FailureStage(docs, capsule, read).Some? ==>
      FailureStage(docs, capsule, honest) == FailureStage(docs, capsule, read)
    ensures WorldStage(docs, capsule, read).Some? ==>
      WorldStage(docs, capsule, honest) == WorldStage(docs, capsule, read)
  {
    if FailureStage(docs, capsule, read).Some? {
      var o := FailureStage(docs, capsule, read).value.0;
      OneObjectIsMember(capsule.objects, FAILURE_SELECTOR);
      HonestParse(docs, capsule, docs.failure, o, read(2, o), honest, 2);
    }
    if WorldStage(docs, capsule, read).Some? {
      var o := WorldStage(docs, capsule, read).value.0;
      WorldStageIsIn(docs, capsule, read);
      HonestParse(docs, capsule, docs.world, o, read(3, o), honest, 3);
    }
  }

  lemma HonestDependencyStage(docs: Documents, capsule: ReplayCapsule, read: Reader, honest: Reader)
    requires CollisionFree(docs.hash) && Honest(docs, capsule, honest)
    ensures DependencyStage(docs, capsule, read).Some? ==>
      DependencyStage(docs, capsule, honest) == DependencyStage(docs, capsule, read)
  {
    var stage := DependencyStage(docs, capsule, read);
    if stage.Some? && stage.value.Some? {
      var o := stage.value.value.manifestObject;
      DependencyStageIsIn(docs, capsule, read);
      assert DependencyObjects(stage.value)[0] == o;
      HonestParse(docs, capsule, docs.transcript, o, read(4, o), honest, 4);
    }
  }

  /** If any reader lets resolution succeed, every honest reader does, with the same result. */
  lemma HonestReaderSucceeds(docs: Documents, capsule: ReplayCapsule, read: Reader, honest: Reader)
    requires CollisionFree(docs.hash) && Honest(docs, capsule, honest)
    requires ResolveSpec(docs, capsule, read).Some?
    ensures ResolveSpec(docs, capsule, honest) == ResolveSpec(docs, capsule, read)
  {
    HonestFirstStages(docs, capsule, read, honest);
    HonestLaterStages(docs, capsule, read, honest);
    HonestDependencyStage(docs, capsule, read, honest);
  }
}
