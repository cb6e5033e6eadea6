/** What a resolved capsule is, field by field: the resolver returns exactly that. */
module CapsuleMeaning {
  import opened Prelude
  import opened Ordering
  import opened Capsule
  import opened CapsuleResolution
  import opened CapsuleCover

  /** The object is the only one of the list that fits. */
  predicate Only(objects: seq<LogicalObject>, o: LogicalObject, fits: LogicalObject -> bool) {
    o in objects && fits(o) && forall p :: p in objects && fits(p) ==> p == o
  }

  /** The document is what the reader's bytes of this object say: right size, right digest, read back canonically. */
  predicate Reads<T(==)>(hash: Bytes -> Digest, codec: Codec<T>, o: LogicalObject, bytes: Result<Bytes>, value: T) {
    && o.plainSize <= 1_048_576
    && bytes.Ok? && |bytes.value| == o.plainSize && hash(bytes.value) == o.plainDigest
    && codec.parse(bytes.value) == Some(value) && codec.digest(value) == o.plainDigest
  }

  predicate SubjectMeant(docs: Documents, capsule: ReplayCapsule, read: Reader, r: Resolved) {
    && capsule.subject.artifactMediaType == SUBJECT_CLOSURE_MEDIA_TYPE
    && Only(capsule.objects, r.subjectObject, (p: LogicalObject) =>
         p.role == SubjectRole && p.mediaType == SUBJECT_CLOSURE_MEDIA_TYPE && p.plainDigest == capsule.subjectDigest)
    && Reads(docs.hash, docs.subject, r.subjectObject, read(0, r.subjectObject), r.subject)
    && r.subject.architecture == capsule.subject.architecture
    && r.subject.operatingSystem == capsule.subject.operatingSystem
    && r.subject.executable == capsule.subject.executable
    && r.subject.arguments == capsule.subject.arguments
    && r.subject.workingDirectory == capsule.subject.workingDirectory
    && r.subject.environmentNames == capsule.subject.environmentNames
    && |r.subjectMembers| == |r.subject.members|
    && forall i :: 0 <= i < |r.subject.members| ==>
         var expected := r.subject.members[i];
         Only(capsule.objects, r.subjectMembers[i], (p: LogicalObject) =>
           p.role == SubjectRole && p.mediaType == expected.mediaType && p.plainDigest == expected.digest
           && p.plainSize == expected.size)
  }

  predicate TriggerMeant(docs: Documents, capsule: ReplayCapsule, read: Reader, r: Resolved) {
    && Only(capsule.objects, r.triggerObject, (p: LogicalObject) =>
         p.role == TriggerRole && p.mediaType == TRIGGER_MEDIA_TYPE && p.plainDigest == capsule.triggerDigest)
    && Reads(docs.hash, docs.trigger, r.triggerObject, read(1, r.triggerObject), r.trigger)
    && |r.triggerInputs| == |r.trigger.inputs|
    && forall i :: 0 <= i < |r.trigger.inputs| ==>
         var input := r.trigger.inputs[i];
         Only(capsule.objects, r.triggerInputs[i], (p: LogicalObject) =>
           p.objectId == input.objectId && p.role == TriggerRole && p.plainDigest == input.plainDigest)
  }

  /** The payload names its own object, and the capsule names its identity. */
  predicate FailureMeant(docs: Documents, capsule: ReplayCapsule, read: Reader, r: Resolved) {
    && Only(capsule.objects, r.failureObject, (p: LogicalObject) =>
         p.role == FailureRole && p.mediaType == FAILURE_MEDIA_TYPE)
    && Reads(docs.hash, docs.failure, r.failureObject, read(2, r.failureObject), r.failure)
    && r.failure.objectId == r.failureObject.objectId
    && r.failure.identityDigest == capsule.failureDigest
  }

  /** The artifacts of all points, point by point. */
  function AllArtifacts(points: seq<seq<Artifact>>): seq<Artifact> {
    if points == [] then [] else points[0] + AllArtifacts(points[1..])
  }

  predicate WorldMeant(docs: Documents, capsule: ReplayCapsule, read: Reader, r: Resolved) {
    && Only(capsule.objects, r.worldObject, (p: LogicalObject) =>
         p.role == WorldManifest && p.mediaType == WORLD_MANIFEST_MEDIA_TYPE)
    && Reads(docs.hash, docs.world, r.worldObject, read(3, r.worldObject), r.world)
    && docs.world.digest(r.world) == capsule.worldDigest
    && var artifacts := AllArtifacts(r.world.points);
    && |r.worldArtifacts| == |artifacts|
    && forall i :: 0 <= i < |artifacts| ==>
         var artifact := artifacts[i];
         Only(capsule.objects, r.worldArtifacts[i], (p: LogicalObject) =>
           p.role == WorldState && p.mediaType == artifact.mediaType && p.plainDigest == artifact.digest
           && p.plainSize == artifact.size)
  }

  predicate ExchangeMeant(objects: seq<LogicalObject>, interaction: Interaction, request: LogicalObject,
                          response: LogicalObject)
  {
    && Only(objects, request, (p: LogicalObject) =>
         p.objectId == interaction.requestObjectId && p.role == DependencyTranscriptRole
         && p.plainDigest == interaction.requestDigest)
    && Only(objects, response, (p: LogicalObject) =>
         p.objectId == interaction.responseObjectId && p.role == DependencyTranscriptRole
         && p.plainDigest == interaction.responseDigest)
  }

  predicate ExchangesMeant(objects: seq<LogicalObject>, interactions: seq<Interaction>, found: seq<LogicalObject>) {
    && |found| == 2 * |interactions|
    && forall i :: 0 <= i < |interactions| ==>
         ExchangeMeant(objects, interactions[i], found[2 * i], found[2 * i + 1])
  }

  predicate IsTranscript(p: LogicalObject) {
    p.role == DependencyTranscriptRole && p.mediaType == DEPENDENCY_TRANSCRIPT_MEDIA_TYPE
  }

  /** No transcript in the capsule, or the only one, with every request and response in order. */
  predicate DependencyMeant(docs: Documents, capsule: ReplayCapsule, read: Reader,
                            dependency: Option<ResolvedDependency>)
  {
    if dependency.None? then forall p :: p in capsule.objects ==> !IsTranscript(p)
    else
      var d := dependency.value;
      && Only(capsule.objects, d.manifestObject, IsTranscript)
      && Reads(docs.hash, docs.transcript, d.manifestObject, read(4, d.manifestObject), d.transcript)
      && ExchangesMeant(capsule.objects, d.transcript.interactions, d.objects)
  }

  /** Every object of a valid capsule, each once, in the place its document gives it. */
  predicate Meant(docs: Documents, capsule: ReplayCapsule, read: Reader, r: Resolved) {
    && ValidCapsule(capsule)
    && SubjectMeant(docs, capsule, read, r)
    && TriggerMeant(docs, capsule, read, r)
    && FailureMeant(docs, capsule, read, r)
    && WorldMeant(docs, capsule, read, r)
    && DependencyMeant(docs, capsule, read, r.dependency)
    && multiset([r.subjectObject] + r.subjectMembers + [r.triggerObject] + r.triggerInputs + [r.failureObject]
                + [r.worldObject] + r.worldArtifacts
                + if r.dependency.None? then []
                  else [r.dependency.value.manifestObject] + r.dependency.value.objects)
       == multiset(capsule.objects)
  }

  // The resolver returns exactly what is meant.

  lemma FirstIsMember(objects: seq<LogicalObject>)
    ensures objects == [] || objects[0] in objects
  {
  }

  lemma {:induction false} FilterOnly(objects: seq<LogicalObject>, fits: LogicalObject -> bool, o: LogicalObject)
    requires DistinctIds(objects) && Only(objects, o, fits)
    ensures Filter(objects, fits) == [o]
  {
    var rest := objects[1..];
    assert objects == [objects[0]] + rest;
    FilterMembers(rest, fits);
    if objects[0] == o {
      forall p | p in rest
        ensures !fits(p)
      {
        assert p.objectId != o.objectId;
      }
      FirstIsMember(Filter(rest, fits));
    } else {
      assert DistinctIds(rest);
      FilterOnly(rest, fits, o);
    }
  }

  lemma OnlyIsOne(objects: seq<LogicalObject>, s: Selector, fits: LogicalObject -> bool, o: LogicalObject)
    requires DistinctIds(objects)
    requires forall p :: Selects(s, p) <==> fits(p)
    ensures Only(objects, o, fits) <==> OneObject(objects, s) == Some(o)
  {
    hide Selects;
    if OneObject(objects, s).Some? {
      OneObjectIsMember(objects, s);
    }
    if Only(objects, o, fits) {
      FilterOnly(objects, p => Selects(s, p), o);
    }
  }

  lemma ReadsIsParse<T>(hash: Bytes -> Digest, codec: Codec<T>, o: LogicalObject, bytes: Result<Bytes>, value: T)
    ensures Reads(hash, codec, o, bytes, value) <==> ParseManifest(hash, codec, o, bytes) == Some(value)
  {
  }

  /** The objects found are the ones the selectors pick, position by position. */
  predicate Picked(objects: seq<LogicalObject>, selectors: seq<Selector>, found: seq<LogicalObject>) {
    |found| == |selectors| && forall i :: 0 <= i < |found| ==> OneObject(objects, selectors[i]) == Some(found[i])
  }

  lemma PickedIsFound(objects: seq<LogicalObject>, selectors: seq<Selector>, found: seq<LogicalObject>)
    ensures Picked(objects, selectors, found) <==>
      AllFound(objects, selectors) && Found(objects, selectors) == found
  {
  }

  lemma SubjectIsMeant(docs: Documents, capsule: ReplayCapsule, read: Reader, r: Resolved)
    requires DistinctIds(capsule.objects)
    ensures SubjectMeant(docs, capsule, read, r) <==>
      SubjectStage(docs, capsule, read) == Some((r.subjectObject, r.subject, r.subjectMembers))
  {
    hide OneObject, AllFound, Found, ParseManifest, Only, Reads, DistinctIds;
    OnlyIsOne(capsule.objects, SubjectManifestSelector(capsule), (p: LogicalObject) =>
      p.role == SubjectRole && p.mediaType == SUBJECT_CLOSURE_MEDIA_TYPE && p.plainDigest == capsule.subjectDigest,
      r.subjectObject);
    ReadsIsParse(docs.hash, docs.subject, r.subjectObject, read(0, r.subjectObject), r.subject);
    PickedIsFound(capsule.objects, SubjectSelectors(r.subject), r.subjectMembers);
    if |r.subjectMembers| == |r.subject.members| {
      forall i | 0 <= i < |r.subject.members|
        ensures
          var expected := r.subject.members[i];
          OneObject(capsule.objects, SubjectSelectors(r.subject)[i]) == Some(r.subjectMembers[i]) <==>
            Only(capsule.objects, r.subjectMembers[i], (p: LogicalObject) =>
              p.role == SubjectRole && p.mediaType == expected.mediaType && p.plainDigest == expected.digest
              && p.plainSize == expected.size)
      {
        var expected := r.subject.members[i];
        OnlyIsOne(capsule.objects, SubjectSelectors(r.subject)[i], (p: LogicalObject) =>
          p.role == SubjectRole && p.mediaType == expected.mediaType && p.plainDigest == expected.digest
          && p.plainSize == expected.size, r.subjectMembers[i]);
      }
    }
  }

  lemma TriggerIsMeant(docs: Documents, capsule: ReplayCapsule, read: Reader, r: Resolved)
    requires DistinctIds(capsule.objects)
    ensures TriggerMeant(docs, capsule, read, r) <==>
      TriggerStage(docs, capsule, read) == Some((r.triggerObject, r.trigger, r.triggerInputs))
  {
    hide OneObject, AllFound, Found, ParseManifest, Only, Reads, DistinctIds;
    OnlyIsOne(capsule.objects, TriggerManifestSelector(capsule), (p: LogicalObject) =>
      p.role == TriggerRole && p.mediaType == TRIGGER_MEDIA_TYPE && p.plainDigest == capsule.triggerDigest,
      r.triggerObject);
    ReadsIsParse(docs.hash, docs.trigger, r.triggerObject, read(1, r.triggerObject), r.trigger);
    PickedIsFound(capsule.objects, TriggerSelectors(r.trigger), r.triggerInputs);
    if |r.triggerInputs| == |r.trigger.inputs| {
      forall i | 0 <= i < |r.trigger.inputs|
        ensures
          var input := r.trigger.inputs[i];
          OneObject(capsule.objects, TriggerSelectors(r.trigger)[i]) == Some(r.triggerInputs[i]) <==>
            Only(capsule.objects, r.triggerInputs[i], (p: LogicalObject) =>
              p.objectId == input.objectId && p.role == TriggerRole && p.plainDigest == input.plainDigest)
      {
        var input := r.trigger.inputs[i];
        OnlyIsOne(capsule.objects, TriggerSelectors(r.trigger)[i], (p: LogicalObject) =>
          p.objectId == input.objectId && p.role == TriggerRole && p.plainDigest == input.plainDigest,
          r.triggerInputs[i]);
      }
    }
  }

  lemma FailureIsMeant(docs: Documents, capsule: ReplayCapsule, read: Reader, r: Resolved)
    requires DistinctIds(capsule.objects)
    ensures FailureMeant(docs, capsule, read, r) <==>
      FailureStage(docs, capsule, read) == Some((r.failureObject, r.failure))
  {
    hide OneObject, ParseManifest, Only, Reads, DistinctIds;
    OnlyIsOne(capsule.objects, FAILURE_SELECTOR, (p: LogicalObject) =>
      p.role == FailureRole && p.mediaType == FAILURE_MEDIA_TYPE, r.failureObject);
    ReadsIsParse(docs.hash, docs.failure, r.failureObject, read(2, r.failureObject), r.failure);
  }

  lemma {:induction false} SelectorsOfAll(points: seq<seq<Artifact>>)
    ensures WorldSelectors(points) == ArtifactSelectors(AllArtifacts(points))
  {
    if points != [] {
      SelectorsOfAll(points[1..]);
    }
  }

  lemma WorldIsMeant(docs: Documents, capsule: ReplayCapsule, read: Reader, r: Resolved)
    requires DistinctIds(capsule.objects)
    ensures WorldMeant(docs, capsule, read, r) <==>
      WorldStage(docs, capsule, read) == Some((r.worldObject, r.world, r.worldArtifacts))
  {
    hide OneObject, AllFound, Found, ParseManifest, Only, Reads, DistinctIds, AllArtifacts, WorldSelectors;
    OnlyIsOne(capsule.objects, WORLD_SELECTOR, (p: LogicalObject) =>
      p.role == WorldManifest && p.mediaType == WORLD_MANIFEST_MEDIA_TYPE, r.worldObject);
    ReadsIsParse(docs.hash, docs.world, r.worldObject, read(3, r.worldObject), r.world);
    PickedIsFound(capsule.objects, WorldSelectors(r.world.points), r.worldArtifacts);
    SelectorsOfAll(r.world.points);
    var artifacts := AllArtifacts(r.world.points);
    if |r.worldArtifacts| == |artifacts| {
      forall i | 0 <= i < |artifacts|
        ensures
          var artifact := artifacts[i];
          OneObject(capsule.objects, ArtifactSelectors(artifacts)[i]) == Some(r.worldArtifacts[i]) <==>
            Only(capsule.objects, r.worldArtifacts[i], (p: LogicalObject) =>
              p.role == WorldState && p.mediaType == artifact.mediaType && p.plainDigest == artifact.digest
              && p.plainSize == artifact.size)
      {
        var artifact := artifacts[i];
        OnlyIsOne(capsule.objects, ArtifactSelectors(artifacts)[i], (p: LogicalObject) =>
          p.role == WorldState && p.mediaType == artifact.mediaType && p.plainDigest == artifact.digest
          && p.plainSize == artifact.size, r.worldArtifacts[i]);
      }
    }
  }

  function RequestSelector(interaction: Interaction): Selector {
    Selector(DependencyTranscriptRole, Some(interaction.requestObjectId), None, Some(interaction.requestDigest), None)
  }

  function ResponseSelector(interaction: Interaction): Selector {
    Selector(DependencyTranscriptRole, Some(interaction.responseObjectId), None, Some(interaction.responseDigest),
             None)
  }

  lemma {:induction false} TwoForEach(interactions: seq<Interaction>)
    ensures |TranscriptSelectors(interactions)| == 2 * |interactions|
    ensures forall i :: 0 <= i < |interactions| ==>
      && TranscriptSelectors(interactions)[2 * i] == RequestSelector(interactions[i])
      && TranscriptSelectors(interactions)[2 * i + 1] == ResponseSelector(interactions[i])
  {
    if interactions != [] {
      var rest := interactions[1..];
      TwoForEach(rest);
      forall i | 0 <= i < |interactions|
        ensures TranscriptSelectors(interactions)[2 * i] == RequestSelector(interactions[i])
        ensures TranscriptSelectors(interactions)[2 * i + 1] == ResponseSelector(interactions[i])
      {
        if i > 0 {
          assert TranscriptSelectors(interactions)[2 * i] == TranscriptSelectors(rest)[2 * (i - 1)];
          assert TranscriptSelectors(interactions)[2 * i + 1] == TranscriptSelectors(rest)[2 * (i - 1) + 1];
        }
      }
    }
  }

  lemma ExchangeIsMeant(objects: seq<LogicalObject>, interaction: Interaction, request: LogicalObject,
                        response: LogicalObject)
    requires DistinctIds(objects)
    ensures ExchangeMeant(objects, interaction, request, response) <==>
      && OneObject(objects, RequestSelector(interaction)) == Some(request)
      && OneObject(objects, ResponseSelector(interaction)) == Some(response)
  {
    hide OneObject, Only;
    OnlyIsOne(objects, RequestSelector(interaction), (p: LogicalObject) =>
      p.objectId == interaction.requestObjectId && p.role == DependencyTranscriptRole
      && p.plainDigest == interaction.requestDigest, request);
    OnlyIsOne(objects, ResponseSelector(interaction), (p: LogicalObject) =>
      p.objectId == interaction.responseObjectId && p.role == DependencyTranscriptRole
      && p.plainDigest == interaction.responseDigest, response);
  }

  lemma ExchangesAreMeant(objects: seq<LogicalObject>, interactions: seq<Interaction>, found: seq<LogicalObject>)
    requires DistinctIds(objects)
    ensures ExchangesMeant(objects, interactions, found) <==> Picked(objects, TranscriptSelectors(interactions), found)
  {
    hide OneObject, Only, ExchangeMeant, TranscriptSelectors, DistinctIds;
    TwoForEach(interactions);
    if |found| == 2 * |interactions| {
      forall i | 0 <= i < |interactions|
        ensures ExchangeMeant(objects, interactions[i], found[2 * i], found[2 * i + 1]) <==>
          && OneObject(objects, RequestSelector(interactions[i])) == Some(found[2 * i])
          && OneObject(objects, ResponseSelector(interactions[i])) == Some(found[2 * i + 1])
      {
        ExchangeIsMeant(objects, interactions[i], found[2 * i], found[2 * i + 1]);
      }
      if ExchangesMeant(objects, interactions, found) {
        forall k | 0 <= k < |found|
          ensures OneObject(objects, TranscriptSelectors(interactions)[k]) == Some(found[k])
        {
          var i := k / 2;
          assert k == 2 * i || k == 2 * i + 1;
          assert ExchangeMeant(objects, interactions[i], found[2 * i], found[2 * i + 1]);
        }
      }
    }
  }

  lemma DependencyIsMeant(docs: Documents, capsule: ReplayCapsule, read: Reader,
                          dependency: Option<ResolvedDependency>)
    requires DistinctIds(capsule.objects)
    ensures DependencyMeant(docs, capsule, read, dependency) <==>
      DependencyStage(docs, capsule, read) == Some(dependency)
  {
    hide AllFound, Found, ParseManifest, Only, Reads, DistinctIds, ExchangesMeant, Picked, Selects;
    var manifests := Matching(capsule.objects, TRANSCRIPT_SELECTOR);
    FilterMembers(capsule.objects, o => Selects(TRANSCRIPT_SELECTOR, o));
    FirstIsMember(manifests);
    if dependency.None? {
      NoTranscript(capsule.objects);
    } else {
      var d := dependency.value;
      TranscriptSelected();
      OnlyIsOne(capsule.objects, TRANSCRIPT_SELECTOR, IsTranscript, d.manifestObject);
      ReadsIsParse(docs.hash, docs.transcript, d.manifestObject, read(4, d.manifestObject), d.transcript);
      PickedIsFound(capsule.objects, TranscriptSelectors(d.transcript.interactions), d.objects);
      ExchangesAreMeant(capsule.objects, d.transcript.interactions, d.objects);
    }
  }

  lemma TranscriptSelected()
    ensures forall p :: Selects(TRANSCRIPT_SELECTOR, p) <==> IsTranscript(p)
  {
  }

  lemma NoTranscript(objects: seq<LogicalObject>)
    ensures Matching(objects, TRANSCRIPT_SELECTOR) == [] <==> forall p :: p in objects ==> !IsTranscript(p)
  {
    hide Selects, IsTranscript;
    TranscriptSelected();
    FilterMembers(objects, o => Selects(TRANSCRIPT_SELECTOR, o));
    FirstIsMember(Matching(objects, TRANSCRIPT_SELECTOR));
  }

  /** A permutation of a list of distinct ids has distinct ids. */
  lemma PermutedIds(a: seq<LogicalObject>, b: seq<LogicalObject>)
    requires multiset(a) == multiset(b) && DistinctIds(b)
    ensures DistinctIds(a) && Ids(a) == Ids(b)
  {
    assert forall o :: o in a <==> o in multiset(a);
    assert forall o :: o in b <==> o in multiset(b);
    forall i, j | 0 <= i < j < |a|
      ensures a[i].objectId != a[j].objectId
    {
      assert a[i] in b && a[j] in b;
      if a[i] == a[j] {
        TwiceInMultiset(a, i, j);
        MultisetOfDistinct(b, a[i]);
      }
    }
    forall id
      ensures id in Ids(a) <==> id in Ids(b)
    {
      SameId(a, b, id);
      SameId(b, a, id);
    }
  }

  lemma SameId(a: seq<LogicalObject>, b: seq<LogicalObject>, id: ObjectId)
    requires forall o :: o in a ==> o in b
    ensures id in Ids(a) ==> id in Ids(b)
  {
    if id in Ids(a) {
      var i :| 0 <= i < |a| && a[i].objectId == id;
      assert a[i] in b;
      ListedId(b, a[i]);
    }
  }

  lemma TwiceInMultiset(a: seq<LogicalObject>, i: nat, j: nat)
    requires i < j < |a| && a[i] == a[j]
    ensures multiset(a)[a[i]] >= 2
  {
    assert a == a[..j] + a[j..];
    assert a[..j][i] in a[..j];
    assert a[j..][0] in a[j..];
  }

  lemma StagesAreMeant(docs: Documents, capsule: ReplayCapsule, read: Reader, r: Resolved)
    requires ValidCapsule(capsule)
    ensures Stages(docs, capsule, read) == Some(r) <==>
      && SubjectMeant(docs, capsule, read, r) && TriggerMeant(docs, capsule, read, r)
      && FailureMeant(docs, capsule, read, r) && WorldMeant(docs, capsule, read, r)
      && DependencyMeant(docs, capsule, read, r.dependency)
  {
    ValidIdsAreDistinct(capsule);
    hide ValidCapsule, SubjectMeant, TriggerMeant, FailureMeant, WorldMeant, DependencyMeant, SubjectStage,
      TriggerStage, FailureStage, WorldStage, DependencyStage, DistinctIds;
    SubjectIsMeant(docs, capsule, read, r);
    TriggerIsMeant(docs, capsule, read, r);
    FailureIsMeant(docs, capsule, read, r);
    WorldIsMeant(docs, capsule, read, r);
    DependencyIsMeant(docs, capsule, read, r.dependency);
  }

  /** The resolver returns exactly what is meant, and nothing when nothing is. */
  lemma ResolvedIsMeant(docs: Documents, capsule: ReplayCapsule, read: Reader, r: Resolved)
    ensures Meant(docs, capsule, read, r) <==> ResolveSpec(docs, capsule, read) == Some(r)
  {
    hide SubjectMeant, TriggerMeant, FailureMeant, WorldMeant, DependencyMeant, Stages, DistinctIds, Ids;
    if ValidCapsule(capsule) {
      StagesAreMeant(docs, capsule, read, r);
      ValidIdsAreDistinct(capsule);
      hide ValidCapsule;
      if ResolveSpec(docs, capsule, read) == Some(r) {
        ResolutionCoversExactly(docs, capsule, read);
      }
      if Meant(docs, capsule, read, r) {
        PermutedIds(DescriptorsOf(r), capsule.objects);
      }
    }
  }
}
