/** Resolving a sealed capsule into its typed manifests, with every object used exactly once. */
module CapsuleResolution {
  import opened Prelude
  import opened Ordering
  import opened Capsule

  type Bytes = seq<byte>

  const MAX_MANIFEST_OBJECT_BYTES: nat := 1_048_576

  datatype SubjectMember = SubjectMember(digest: Digest, mediaType: string, size: u64)

  datatype SubjectClosure = SubjectClosure(
    architecture: string, operatingSystem: string, executable: string, arguments: seq<string>,
    workingDirectory: string, environmentNames: seq<string>, members: seq<SubjectMember>)

  datatype TriggerInput = TriggerInput(objectId: ObjectId, plainDigest: Digest)

  datatype Trigger = Trigger(operationId: nat, inputs: seq<TriggerInput>)

  datatype FailurePayload = FailurePayload(objectId: ObjectId, identityDigest: Digest)

  datatype Artifact = Artifact(mediaType: string, digest: Digest, size: u64)

  /** The recoverable points, each with its artifacts. */
  datatype World = World(points: seq<seq<Artifact>>)

  datatype Interaction = Interaction(
    requestObjectId: ObjectId, requestDigest: Digest, responseObjectId: ObjectId, responseDigest: Digest)

  datatype Transcript = Transcript(interactions: seq<Interaction>)

  /** One manifest kind: strict parsing with the document's own validation, and its canonical digest. */
  datatype Codec<!T> = Codec(parse: Bytes -> Option<T>, digest: T -> Digest)

  datatype Documents = Documents(
    hash: Bytes -> Digest, subject: Codec<SubjectClosure>, trigger: Codec<Trigger>, failure: Codec<FailurePayload>,
    world: Codec<World>, transcript: Codec<Transcript>)

  /** A manifest reader; the count of earlier reads lets it answer differently each time. */
  type Reader = (nat, LogicalObject) -> Result<Bytes>

  datatype ResolvedDependency = ResolvedDependency(
    manifestObject: LogicalObject, transcript: Transcript, objects: seq<LogicalObject>)

  datatype Resolved = Resolved(
    subjectObject: LogicalObject, subject: SubjectClosure, subjectMembers: seq<LogicalObject>,
    triggerObject: LogicalObject, trigger: Trigger, triggerInputs: seq<LogicalObject>,
    failureObject: LogicalObject, failure: FailurePayload,
    worldObject: LogicalObject, world: World, worldArtifacts: seq<LogicalObject>,
    dependency: Option<ResolvedDependency>)

  /** What a reference must match; absent fields match anything. */
  datatype Selector = Selector(
    role: LogicalObjectRole, id: Option<ObjectId>, mediaType: Option<string>, digest: Option<Digest>, size: Option<u64>)

  predicate Selects(s: Selector, o: LogicalObject) {
    && o.role == s.role
    && (s.id.Some? ==> o.objectId == s.id.value)
    && (s.mediaType.Some? ==> o.mediaType == s.mediaType.value)
    && (s.digest.Some? ==> o.plainDigest == s.digest.value)
    && (s.size.Some? ==> o.plainSize == s.size.value)
  }

  function Matching(objects: seq<LogicalObject>, s: Selector): seq<LogicalObject> {
    Filter(objects, o => Selects(s, o))
  }

  /** `one_object`: the only match, if there is exactly one. */
  function OneObject(objects: seq<LogicalObject>, s: Selector): Option<LogicalObject> {
    if |Matching(objects, s)| == 1 then Some(Matching(objects, s)[0]) else None
  }

  lemma OneObjectIsMember(objects: seq<LogicalObject>, s: Selector)
    requires OneObject(objects, s).Some?
    ensures OneObject(objects, s).value in objects && Selects(s, OneObject(objects, s).value)
    ensures OneObject(objects, s).value.objectId in Ids(objects)
    ensures forall o :: o in objects && Selects(s, o) ==> o == OneObject(objects, s).value
  {
    FilterMembers(objects, o => Selects(s, o));
    var found := Matching(objects, s);
    assert found[0] in found;
    forall o | o in objects && Selects(s, o)
      ensures o == found[0]
    {
      assert o in found;
    }
    ListedId(objects, found[0]);
  }

  // References, manifest by manifest.

  function SubjectManifestSelector(capsule: ReplayCapsule): Selector {
    Selector(SubjectRole, None, Some(SUBJECT_CLOSURE_MEDIA_TYPE), Some(capsule.subjectDigest), None)
  }

  function TriggerManifestSelector(capsule: ReplayCapsule): Selector {
    Selector(TriggerRole, None, Some(TRIGGER_MEDIA_TYPE), Some(capsule.triggerDigest), None)
  }

  const FAILURE_SELECTOR := Selector(FailureRole, None, Some(FAILURE_MEDIA_TYPE), None, None)
  const WORLD_SELECTOR := Selector(WorldManifest, None, Some(WORLD_MANIFEST_MEDIA_TYPE), None, None)
  const TRANSCRIPT_SELECTOR := Selector(DependencyTranscriptRole, None, Some(DEPENDENCY_TRANSCRIPT_MEDIA_TYPE), None,
                                        None)

  function SubjectSelectors(subject: SubjectClosure): seq<Selector> {
    seq(|subject.members|, i requires 0 <= i < |subject.members| =>
      Selector(SubjectRole, None, Some(subject.members[i].mediaType), Some(subject.members[i].digest),
               Some(subject.members[i].size)))
  }

  function TriggerSelectors(trigger: Trigger): seq<Selector> {
    seq(|trigger.inputs|, i requires 0 <= i < |trigger.inputs| =>
      Selector(TriggerRole, Some(trigger.inputs[i].objectId), None, Some(trigger.inputs[i].plainDigest), None))
  }

  function ArtifactSelectors(artifacts: seq<Artifact>): seq<Selector> {
    seq(|artifacts|, i requires 0 <= i < |artifacts| =>
      Selector(WorldState, None, Some(artifacts[i].mediaType), Some(artifacts[i].digest), Some(artifacts[i].size)))
  }

  function WorldSelectors(points: seq<seq<Artifact>>): seq<Selector> {
    if points == [] then [] else ArtifactSelectors(points[0]) + WorldSelectors(points[1..])
  }

  function TranscriptSelectors(interactions: seq<Interaction>): seq<Selector> {
    if interactions == [] then []
    else
      var first := interactions[0];
      [Selector(DependencyTranscriptRole, Some(first.requestObjectId), None, Some(first.requestDigest), None),
       Selector(DependencyTranscriptRole, Some(first.responseObjectId), None, Some(first.responseDigest), None)]
      + TranscriptSelectors(interactions[1..])
  }

  predicate AllFound(objects: seq<LogicalObject>, selectors: seq<Selector>) {
    forall i :: 0 <= i < |selectors| ==> OneObject(objects, selectors[i]).Some?
  }

  /** The objects the selectors name, in selector order. */
  function Found(objects: seq<LogicalObject>, selectors: seq<Selector>): seq<LogicalObject>
    requires AllFound(objects, selectors)
  {
    seq(|selectors|, i requires 0 <= i < |selectors| => OneObject(objects, selectors[i]).value)
  }

  /** `parse_manifest` on the bytes a reader returned. */
  function ParseManifest<T>(hash: Bytes -> Digest, codec: Codec<T>, o: LogicalObject, bytes: Result<Bytes>): Option<T> {
    if o.plainSize > MAX_MANIFEST_OBJECT_BYTES || bytes.Err? then None
    else if |bytes.value| != o.plainSize || hash(bytes.value) != o.plainDigest then None
    else
      var value := codec.parse(bytes.value);
      if value.Some? && codec.digest(value.value) == o.plainDigest then value else None
  }

  predicate SubjectBinds(capsule: ReplayCapsule, subject: SubjectClosure) {
    && subject.architecture == capsule.subject.architecture
    && subject.operatingSystem == capsule.subject.operatingSystem
    && subject.executable == capsule.subject.executable
    && subject.arguments == capsule.subject.arguments
    && subject.workingDirectory == capsule.subject.workingDirectory
    && subject.environmentNames == capsule.subject.environmentNames
  }

  // What each stage resolves, apart from the consume-once rule.

  function SubjectStage(docs: Documents, capsule: ReplayCapsule, read: Reader)
    : Option<(LogicalObject, SubjectClosure, seq<LogicalObject>)>
  {
    var o := OneObject(capsule.objects, SubjectManifestSelector(capsule));
    if capsule.subject.artifactMediaType != SUBJECT_CLOSURE_MEDIA_TYPE || o.None? then None
    else
      var subject := ParseManifest(docs.hash, docs.subject, o.value, read(0, o.value));
      if subject.None? || !SubjectBinds(capsule, subject.value)
        || !AllFound(capsule.objects, SubjectSelectors(subject.value)) then None
      else Some((o.value, subject.value, Found(capsule.objects, SubjectSelectors(subject.value))))
  }

  function TriggerStage(docs: Documents, capsule: ReplayCapsule, read: Reader)
    : Option<(LogicalObject, Trigger, seq<LogicalObject>)>
  {
    var o := OneObject(capsule.objects, TriggerManifestSelector(capsule));
    if o.None? then None
    else
      var trigger := ParseManifest(docs.hash, docs.trigger, o.value, read(1, o.value));
      if trigger.None? || !AllFound(capsule.objects, TriggerSelectors(trigger.value)) then None
      else Some((o.value, trigger.value, Found(capsule.objects, TriggerSelectors(trigger.value))))
  }

  function FailureStage(docs: Documents, capsule: ReplayCapsule,
                        read: Reader): Option<(LogicalObject, FailurePayload)> {
    var o := OneObject(capsule.objects, FAILURE_SELECTOR);
    if o.None? then None
    else
      var failure := ParseManifest(docs.hash, docs.failure, o.value, read(2, o.value));
      if failure.None? || failure.value.objectId != o.value.objectId
        || failure.value.identityDigest != capsule.failureDigest then None
      else Some((o.value, failure.value))
  }

  function WorldStage(docs: Documents, capsule: ReplayCapsule, read: Reader)
    : Option<(LogicalObject, World, seq<LogicalObject>)>
  {
    var o := OneObject(capsule.objects, WORLD_SELECTOR);
    if o.None? then None
    else
      var world := ParseManifest(docs.hash, docs.world, o.value, read(3, o.value));
      if world.None? || docs.world.digest(world.value) != capsule.worldDigest
        || !AllFound(capsule.objects, WorldSelectors(world.value.points)) then None
      else Some((o.value, world.value, Found(capsule.objects, WorldSelectors(world.value.points))))
  }

  function DependencyStage(docs: Documents, capsule: ReplayCapsule, read: Reader): Option<Option<ResolvedDependency>> {
    var manifests := Matching(capsule.objects, TRANSCRIPT_SELECTOR);
    if manifests == [] then Some(None)
    else if |manifests| > 1 then None
    else
      var transcript := ParseManifest(docs.hash, docs.transcript, manifests[0], read(4, manifests[0]));
      if transcript.None? || !AllFound(capsule.objects, TranscriptSelectors(transcript.value.interactions)) then None
      else Some(Some(ResolvedDependency(manifests[0], transcript.value,
                                        Found(capsule.objects, TranscriptSelectors(transcript.value.interactions)))))
  }

  function DependencyObjects(dependency: Option<ResolvedDependency>): seq<LogicalObject> {
    if dependency.None? then [] else [dependency.value.manifestObject] + dependency.value.objects
  }

  /** Every descriptor of a resolved capsule, in the order the resolver consumes them. */
  function DescriptorsOf(r: Resolved): seq<LogicalObject> {
    [r.subjectObject] + r.subjectMembers + [r.triggerObject] + r.triggerInputs + [r.failureObject]
    + [r.worldObject] + r.worldArtifacts + DependencyObjects(r.dependency)
  }

  function Ids(objects: seq<LogicalObject>): set<ObjectId> {
    set i | 0 <= i < |objects| :: objects[i].objectId
  }

  /** The result put together from the five stages. */
  function Assemble(subject: Option<(LogicalObject, SubjectClosure, seq<LogicalObject>)>,
                    trigger: Option<(LogicalObject, Trigger, seq<LogicalObject>)>,
                    failure: Option<(LogicalObject, FailurePayload)>,
                    world: Option<(LogicalObject, World, seq<LogicalObject>)>,
                    dependency: Option<Option<ResolvedDependency>>): Option<Resolved>
  {
    if subject.None? || trigger.None? || failure.None? || world.None? || dependency.None? then None
    else Some(Resolved(subject.value.0, subject.value.1, subject.value.2, trigger.value.0, trigger.value.1,
                       trigger.value.2, failure.value.0, failure.value.1, world.value.0, world.value.1, world.value.2,
                       dependency.value))
  }

  function Stages(docs: Documents, capsule: ReplayCapsule, read: Reader): Option<Resolved> {
    Assemble(SubjectStage(docs, capsule, read), TriggerStage(docs, capsule, read), FailureStage(docs, capsule, read),
             WorldStage(docs, capsule, read), DependencyStage(docs, capsule, read))
  }

  /** No object is used twice and none is left over. */
  ghost predicate Covers(r: Resolved, objects: seq<LogicalObject>) {
    DistinctIds(DescriptorsOf(r)) && Ids(DescriptorsOf(r)) == Ids(objects)
  }

  ghost function ResolveSpec(docs: Documents, capsule: ReplayCapsule, read: Reader): Option<Resolved> {
    var r := Stages(docs, capsule, read);
    if ValidCapsule(capsule) && r.Some? && Covers(r.value, capsule.objects) then r else None
  }

  // The consume-once tracker and the five resolvers.

  class ObjectConsumption {
    const objects: seq<LogicalObject>
    var consumed: map<ObjectId, bool>
    ghost var used: seq<LogicalObject>

    ghost predicate Valid()
      reads this
    {
      && consumed.Keys == Ids(objects)
      && DistinctIds(used)
      && Ids(used) <= Ids(objects)
      && forall id :: id in consumed ==> (consumed[id] <==> id in Ids(used))
    }

    /** `ObjectConsumption::new` after its role and uniqueness checks. */
    constructor (objects: seq<LogicalObject>)
      ensures this.objects == objects && Valid() && used == []
    {
      this.objects := objects;
      consumed := map id | id in Ids(objects) :: false;
      used := [];
    }

    method Consume(o: LogicalObject) returns (ok: bool)
      requires Valid()
      modifies this
      ensures Valid()
      ensures ok <==> o.objectId in Ids(objects) && DistinctIds(old(used) + [o])
      ensures used == if ok then old(used) + [o] else old(used)
    {
      UsedOnce(used, o);
      if o.objectId !in consumed || consumed[o.objectId] {
        return false;
      }
      consumed := consumed[o.objectId := true];
      used := used + [o];
      return true;
    }

    method RequireComplete() returns (ok: bool)
      requires Valid()
      ensures ok <==> Ids(used) == Ids(objects)
    {
      ok := forall id :: id in consumed ==> consumed[id];
    }
  }

  lemma ListedId(objects: seq<LogicalObject>, o: LogicalObject)
    requires o in objects
    ensures o.objectId in Ids(objects)
  {
    var k :| 0 <= k < |objects| && objects[k] == o;
  }

  lemma UsedOnce(used: seq<LogicalObject>, o: LogicalObject)
    requires DistinctIds(used)
    ensures DistinctIds(used + [o]) <==> o.objectId !in Ids(used)
    ensures Ids(used + [o]) == Ids(used) + {o.objectId}
  {
    var longer := used + [o];
    forall id
      ensures id in Ids(longer) <==> id in Ids(used) || id == o.objectId
    {
      if id in Ids(used) {
        var i :| 0 <= i < |used| && used[i].objectId == id;
        assert longer[i].objectId == id;
      }
      if id in Ids(longer) {
        var i :| 0 <= i < |longer| && longer[i].objectId == id;
        assert i < |used| ==> used[i].objectId == id;
      }
      assert longer[|used|] == o;
    }
    if o.objectId in Ids(used) {
      var i :| 0 <= i < |used| && used[i].objectId == o.objectId;
      assert longer[i].objectId == longer[|used|].objectId;
    }
  }

  lemma PrefixDistinct(all: seq<LogicalObject>, n: nat)
    requires n <= |all| && !DistinctIds(all[..n])
    ensures !DistinctIds(all)
  {
    var i, j :| 0 <= i < j < n && all[..n][i].objectId == all[..n][j].objectId;
    assert all[i].objectId == all[j].objectId;
  }

  /** An object that an earlier consumption used leaves no distinct continuation. */
  lemma AlreadyTaken(objects: seq<LogicalObject>, selectors: seq<Selector>, i: nat, before: seq<LogicalObject>)
    requires i < |selectors| && AllFound(objects, selectors[..i]) && OneObject(objects, selectors[i]).Some?
    requires !DistinctIds(before + Found(objects, selectors[..i]) + [OneObject(objects, selectors[i]).value])
    ensures AllFound(objects, selectors) ==> !DistinctIds(before + Found(objects, selectors))
  {
    if AllFound(objects, selectors) {
      var all := before + Found(objects, selectors);
      assert all[..|before| + i + 1] ==
        before + Found(objects, selectors[..i]) + [OneObject(objects, selectors[i]).value];
      PrefixDistinct(all, |before| + i + 1);
    }
  }

  /** Consume what each selector names, in order. */
  method ConsumeAll(objects: seq<LogicalObject>, selectors: seq<Selector>, consumption: ObjectConsumption)
    returns (r: Option<seq<LogicalObject>>)
    requires consumption.Valid() && consumption.objects == objects
    modifies consumption
    ensures consumption.Valid()
    ensures r.Some? <==>
      AllFound(objects, selectors) && DistinctIds(old(consumption.used) + Found(objects, selectors))
    ensures r.Some? ==> r.value == Found(objects, selectors) && consumption.used == old(consumption.used) + r.value
  {
    hide Ids, DistinctIds, OneObject, Selects;
    var members: seq<LogicalObject> := [];
    ghost var before := consumption.used;
    for i := 0 to |selectors|
      invariant consumption.Valid() && consumption.used == before + members
      invariant AllFound(objects, selectors[..i]) && members == Found(objects, selectors[..i])
    {
      var member := OneObject(objects, selectors[i]);
      if member.None? {
        return None;
      }
      OneObjectIsMember(objects, selectors[i]);
      var unused := consumption.Consume(member.value);
      if !unused {
        AlreadyTaken(objects, selectors, i, before);
        return None;
      }
      members := members + [member.value];
    }
    assert selectors[..|selectors|] == selectors;
    return Some(members);
  }

  method ResolveSubject(docs: Documents, capsule: ReplayCapsule, read: Reader, consumption: ObjectConsumption)
    returns (r: Option<(LogicalObject, SubjectClosure, seq<LogicalObject>)>)
    requires consumption.Valid() && consumption.objects == capsule.objects
    modifies consumption
    ensures consumption.Valid()
    ensures
      var stage := SubjectStage(docs, capsule, read);
      && (r.Some? <==> stage.Some? && DistinctIds(old(consumption.used) + [stage.value.0] + stage.value.2))
      && (r.Some? ==> r == stage && consumption.used == old(consumption.used) + [stage.value.0] + stage.value.2)
  {
    if capsule.subject.artifactMediaType != SUBJECT_CLOSURE_MEDIA_TYPE {
      return None;
    }
    var o := OneObject(capsule.objects, SubjectManifestSelector(capsule));
    if o.None? {
      return None;
    }
    OneObjectIsMember(capsule.objects, SubjectManifestSelector(capsule));
    ghost var before := consumption.used;
    var unused := consumption.Consume(o.value);
    if !unused {
      NotDistinctLonger(before + [o.value], SubjectStage(docs, capsule, read));
      return None;
    }
    var subject := ParseManifest(docs.hash, docs.subject, o.value, read(0, o.value));
    if subject.None? || !SubjectBinds(capsule, subject.value) {
      return None;
    }
    var members := ConsumeAll(capsule.objects, SubjectSelectors(subject.value), consumption);
    return if members.Some? then Some((o.value, subject.value, members.value)) else None;
  }

  lemma NotDistinctLonger<T>(used: seq<LogicalObject>, stage: Option<(LogicalObject, T, seq<LogicalObject>)>)
    requires !DistinctIds(used)
    ensures stage.Some? ==> !DistinctIds(used + stage.value.2)
  {
    if stage.Some? {
      assert (used + stage.value.2)[..|used|] == used;
      PrefixDistinct(used + stage.value.2, |used|);
    }
  }

  method ResolveTrigger(docs: Documents, capsule: ReplayCapsule, read: Reader, consumption: ObjectConsumption)
    returns (r: Option<(LogicalObject, Trigger, seq<LogicalObject>)>)
    requires consumption.Valid() && consumption.objects == capsule.objects
    modifies consumption
    ensures consumption.Valid()
    ensures
      var stage := TriggerStage(docs, capsule, read);
      && (r.Some? <==> stage.Some? && DistinctIds(old(consumption.used) + [stage.value.0] + stage.value.2))
      && (r.Some? ==> r == stage && consumption.used == old(consumption.used) + [stage.value.0] + stage.value.2)
  {
    var o := OneObject(capsule.objects, TriggerManifestSelector(capsule));
    if o.None? {
      return None;
    }
    OneObjectIsMember(capsule.objects, TriggerManifestSelector(capsule));
    ghost var before := consumption.used;
    var unused := consumption.Consume(o.value);
    if !unused {
      NotDistinctLonger(before + [o.value], TriggerStage(docs, capsule, read));
      return None;
    }
    var trigger := ParseManifest(docs.hash, docs.trigger, o.value, read(1, o.value));
    if trigger.None? {
      return None;
    }
    var inputs := ConsumeAll(capsule.objects, TriggerSelectors(trigger.value), consumption);
    return if inputs.Some? then Some((o.value, trigger.value, inputs.value)) else None;
  }

  method ResolveFailure(docs: Documents, capsule: ReplayCapsule, read: Reader, consumption: ObjectConsumption)
    returns (r: Option<(LogicalObject, FailurePayload)>)
    requires consumption.Valid() && consumption.objects == capsule.objects
    modifies consumption
    ensures consumption.Valid()
    ensures
      var stage := FailureStage(docs, capsule, read);
      && (r.Some? <==> stage.Some? && DistinctIds(old(consumption.used) + [stage.value.0]))
      && (r.Some? ==> r == stage && consumption.used == old(consumption.used) + [stage.value.0])
  {
    var o := OneObject(capsule.objects, FAILURE_SELECTOR);
    if o.None? {
      return None;
    }
    OneObjectIsMember(capsule.objects, FAILURE_SELECTOR);
    var unused := consumption.Consume(o.value);
    if !unused {
      return None;
    }
    var failure := ParseManifest(docs.hash, docs.failure, o.value, read(2, o.value));
    if failure.None? || failure.value.objectId != o.value.objectId
      || failure.value.identityDigest != capsule.failureDigest
    {
      return None;
    }
    return Some((o.value, failure.value));
  }

  method ResolveWorld(docs: Documents, capsule: ReplayCapsule, read: Reader, consumption: ObjectConsumption)
    returns (r: Option<(LogicalObject, World, seq<LogicalObject>)>)
    requires consumption.Valid() && consumption.objects == capsule.objects
    modifies consumption
    ensures consumption.Valid()
    ensures
      var stage := WorldStage(docs, capsule, read);
      && (r.Some? <==> stage.Some? && DistinctIds(old(consumption.used) + [stage.value.0] + stage.value.2))
      && (r.Some? ==> r == stage && consumption.used == old(consumption.used) + [stage.value.0] + stage.value.2)
  {
    var o := OneObject(capsule.objects, WORLD_SELECTOR);
    if o.None? {
      return None;
    }
    OneObjectIsMember(capsule.objects, WORLD_SELECTOR);
    ghost var before := consumption.used;
    var unused := consumption.Consume(o.value);
    if !unused {
      NotDistinctLonger(before + [o.value], WorldStage(docs, capsule, read));
      return None;
    }
    var world := ParseManifest(docs.hash, docs.world, o.value, read(3, o.value));
    if world.None? || docs.world.digest(world.value) != capsule.worldDigest {
      return None;
    }
    var artifacts := ConsumeAll(capsule.objects, WorldSelectors(world.value.points), consumption);
    return if artifacts.Some? then Some((o.value, world.value, artifacts.value)) else None;
  }

  lemma ManifestFirst(docs: Documents, capsule: ReplayCapsule, read: Reader, before: seq<LogicalObject>)
    requires Matching(capsule.objects, TRANSCRIPT_SELECTOR) != [] && DependencyStage(docs, capsule, read).Some?
    ensures
      var stage := DependencyStage(docs, capsule, read).value;
      && stage.Some?
      && before + DependencyObjects(stage) ==
           before + [Matching(capsule.objects, TRANSCRIPT_SELECTOR)[0]] + stage.value.objects
  {
  }

  /** A transcript manifest that was already consumed leaves no distinct continuation. */
  lemma ManifestTaken(docs: Documents, capsule: ReplayCapsule, read: Reader, before: seq<LogicalObject>)
    requires Matching(capsule.objects, TRANSCRIPT_SELECTOR) != []
    requires !DistinctIds(before + [Matching(capsule.objects, TRANSCRIPT_SELECTOR)[0]])
    ensures
      var stage := DependencyStage(docs, capsule, read);
      stage.Some? ==> !DistinctIds(before + DependencyObjects(stage.value))
  {
    var stage := DependencyStage(docs, capsule, read);
    if stage.Some? {
      ManifestFirst(docs, capsule, read, before);
      var all := before + DependencyObjects(stage.value);
      var part := before + [Matching(capsule.objects, TRANSCRIPT_SELECTOR)[0]];
      assert all[..|part|] == part;
      LongerNotDistinct(all, part);
    }
  }

  method ResolveDependency(docs: Documents, capsule: ReplayCapsule, read: Reader, consumption: ObjectConsumption)
    returns (r: Option<Option<ResolvedDependency>>)
    requires consumption.Valid() && consumption.objects == capsule.objects
    modifies consumption
    ensures consumption.Valid()
    ensures
      var stage := DependencyStage(docs, capsule, read);
      && (r.Some? <==> stage.Some? && DistinctIds(old(consumption.used) + DependencyObjects(stage.value)))
      && (r.Some? ==> r == stage && consumption.used == old(consumption.used) + DependencyObjects(stage.value))
  {
    var manifests := Matching(capsule.objects, TRANSCRIPT_SELECTOR);
    if manifests == [] {
      assert consumption.used + [] == consumption.used;
      return Some(None);
    }
    if |manifests| > 1 {
      return None;
    }
    FilterMembers(capsule.objects, o => Selects(TRANSCRIPT_SELECTOR, o));
    assert manifests[0] in manifests;
    ListedId(capsule.objects, manifests[0]);
    ghost var before := consumption.used;
    ghost var stage := DependencyStage(docs, capsule, read);
    var unused := consumption.Consume(manifests[0]);
    if !unused {
      ManifestTaken(docs, capsule, read, before);
      return None;
    }
    var transcript := ParseManifest(docs.hash, docs.transcript, manifests[0], read(4, manifests[0]));
    if transcript.None? {
      return None;
    }
    var objects := ConsumeAll(capsule.objects, TranscriptSelectors(transcript.value.interactions), consumption);
    if stage.Some? {
      ManifestFirst(docs, capsule, read, before);
    }
    return if objects.Some? then Some(Some(ResolvedDependency(manifests[0], transcript.value, objects.value)))
      else None;
  }

  lemma LongerNotDistinct(all: seq<LogicalObject>, part: seq<LogicalObject>)
    requires |part| <= |all| && all[..|part|] == part && !DistinctIds(part)
    ensures !DistinctIds(all)
  {
    PrefixDistinct(all, |part|);
  }

  function FirstObjects(subject: (LogicalObject, SubjectClosure, seq<LogicalObject>),
                        trigger: (LogicalObject, Trigger, seq<LogicalObject>),
                        failure: (LogicalObject, FailurePayload)): seq<LogicalObject>
  {
    [subject.0] + subject.2 + [trigger.0] + trigger.2 + [failure.0]
  }

  lemma FirstObjectsParts(subject: (LogicalObject, SubjectClosure, seq<LogicalObject>),
                          trigger: (LogicalObject, Trigger, seq<LogicalObject>),
                          failure: (LogicalObject, FailurePayload))
    ensures !DistinctIds([subject.0] + subject.2) ==> !DistinctIds(FirstObjects(subject, trigger, failure))
    ensures !DistinctIds([subject.0] + subject.2 + [trigger.0] + trigger.2) ==>
      !DistinctIds(FirstObjects(subject, trigger, failure))
  {
    var all := FirstObjects(subject, trigger, failure);
    var part1 := [subject.0] + subject.2;
    var part2 := part1 + [trigger.0] + trigger.2;
    assert all[..|part1|] == part1 && all[..|part2|] == part2;
    if !DistinctIds(part1) {
      LongerNotDistinct(all, part1);
    }
    if !DistinctIds(part2) {
      LongerNotDistinct(all, part2);
    }
  }

  /** Subject, trigger and failure over one fresh tracker. */
  method ResolveFirst(docs: Documents, capsule: ReplayCapsule, read: Reader, consumption: ObjectConsumption)
    returns (r: Option<((LogicalObject, SubjectClosure, seq<LogicalObject>),
                        (LogicalObject, Trigger, seq<LogicalObject>), (LogicalObject, FailurePayload))>)
    requires consumption.Valid() && consumption.objects == capsule.objects && consumption.used == []
    modifies consumption
    ensures consumption.Valid()
    ensures
      var s, t, f := SubjectStage(docs, capsule, read), TriggerStage(docs, capsule, read),
        FailureStage(docs, capsule, read);
      && (r.Some? <==> s.Some? && t.Some? && f.Some? && DistinctIds(FirstObjects(s.value, t.value, f.value)))
      && (r.Some? ==>
          r.value == (s.value, t.value, f.value) && consumption.used == FirstObjects(s.value, t.value, f.value))
  {
    hide Ids, DistinctIds, SubjectStage, TriggerStage, FailureStage;
    ghost var s, t, f := SubjectStage(docs, capsule, read), TriggerStage(docs, capsule, read),
      FailureStage(docs, capsule, read);
    if s.Some? && t.Some? && f.Some? {
      FirstObjectsParts(s.value, t.value, f.value);
    }
    var subject := ResolveSubject(docs, capsule, read, consumption);
    if subject.None? {
      assert s.Some? ==> [] + [s.value.0] + s.value.2 == [s.value.0] + s.value.2;
      return None;
    }
    assert consumption.used == [subject.value.0] + subject.value.2;
    var trigger := ResolveTrigger(docs, capsule, read, consumption);
    if trigger.None? {
      return None;
    }
    var failure := ResolveFailure(docs, capsule, read, consumption);
    if failure.None? {
      return None;
    }
    return Some((subject.value, trigger.value, failure.value));
  }

  /** World and dependency transcript, after the first three. */
  method ResolveRest(docs: Documents, capsule: ReplayCapsule, read: Reader, consumption: ObjectConsumption)
    returns (r: Option<((LogicalObject, World, seq<LogicalObject>), Option<ResolvedDependency>)>)
    requires consumption.Valid() && consumption.objects == capsule.objects
    modifies consumption
    ensures consumption.Valid()
    ensures
      var w, d := WorldStage(docs, capsule, read), DependencyStage(docs, capsule, read);
      if w.None? || d.None? then r.None?
      else
        var all := old(consumption.used) + [w.value.0] + w.value.2 + DependencyObjects(d.value);
        if DistinctIds(all) then r == Some((w.value, d.value)) && consumption.used == all else r.None?
  {
    ghost var w, d := WorldStage(docs, capsule, read), DependencyStage(docs, capsule, read);
    ghost var before := consumption.used;
    var world := ResolveWorld(docs, capsule, read, consumption);
    if world.None? {
      if w.Some? && d.Some? {
        var all := before + [w.value.0] + w.value.2 + DependencyObjects(d.value);
        assert all[..|before + [w.value.0] + w.value.2|] == before + [w.value.0] + w.value.2;
        LongerNotDistinct(all, before + [w.value.0] + w.value.2);
      }
      return None;
    }
    var dependency := ResolveDependency(docs, capsule, read, consumption);
    return if dependency.Some? then Some((world.value, dependency.value)) else None;
  }

  lemma OrderOfAssembly(subject: (LogicalObject, SubjectClosure, seq<LogicalObject>),
                        trigger: (LogicalObject, Trigger, seq<LogicalObject>), failure: (LogicalObject, FailurePayload),
                        world: (LogicalObject, World, seq<LogicalObject>), dependency: Option<ResolvedDependency>)
    ensures
      var r := Assemble(Some(subject), Some(trigger), Some(failure), Some(world), Some(dependency)).value;
      var first := FirstObjects(subject, trigger, failure);
      && DescriptorsOf(r) == first + [world.0] + world.2 + DependencyObjects(dependency)
      && (!DistinctIds(first) ==> !DistinctIds(DescriptorsOf(r)))
  {
    var r := Assemble(Some(subject), Some(trigger), Some(failure), Some(world), Some(dependency)).value;
    var first := FirstObjects(subject, trigger, failure);
    assert DescriptorsOf(r) == first + [world.0] + world.2 + DependencyObjects(dependency);
    assert DescriptorsOf(r)[..|first|] == first;
    if !DistinctIds(first) {
      LongerNotDistinct(DescriptorsOf(r), first);
    }
  }

  /** The five stages over one tracker, then completeness. */
  method ResolveStages(docs: Documents, capsule: ReplayCapsule, read: Reader) returns (r: Option<Resolved>)
    ensures
      var stages := Stages(docs, capsule, read);
      r == if stages.Some? && Covers(stages.value, capsule.objects) then stages else None
  {
    var consumption := new ObjectConsumption(capsule.objects);
    ghost var s, t, f := SubjectStage(docs, capsule, read), TriggerStage(docs, capsule, read),
      FailureStage(docs, capsule, read);
    ghost var w, d := WorldStage(docs, capsule, read), DependencyStage(docs, capsule, read);
    if s.Some? && t.Some? && f.Some? && w.Some? && d.Some? {
      OrderOfAssembly(s.value, t.value, f.value, w.value, d.value);
    }
    var first := ResolveFirst(docs, capsule, read, consumption);
    if first.None? {
      return None;
    }
    var rest := ResolveRest(docs, capsule, read, consumption);
    if rest.None? {
      return None;
    }
    var complete := consumption.RequireComplete();
    if !complete {
      return None;
    }
    return Assemble(Some(first.value.0), Some(first.value.1), Some(first.value.2), Some(rest.value.0),
                    Some(rest.value.1));
  }

  /** `resolve_replay_capsule`. */
  method ResolveReplayCapsule(docs: Documents, capsule: ReplayCapsule, read: Reader) returns (r: Option<Resolved>)
    ensures r == ResolveSpec(docs, capsule, read)
  {
    if !ValidCapsule(capsule) {
      return None;
    }
    r := ResolveStages(docs, capsule, read);
  }
}
