/** The sealed replay capsule, its objects, and what makes one valid. */
module Capsule {
  import opened Prelude
  import opened Ordering
  import opened ProcessorNames

  const SUBJECT_CLOSURE_MEDIA_TYPE := "application/vnd.reproit.subject-closure.v1+json"
  const TRIGGER_MEDIA_TYPE := "application/vnd.reproit.trigger.v1+json"
  const FAILURE_MEDIA_TYPE := "application/vnd.reproit.failure.v1+json"
  const WORLD_MANIFEST_MEDIA_TYPE := "application/vnd.reproit.world-manifest.v1+json"
  const DEPENDENCY_TRANSCRIPT_MEDIA_TYPE := "application/vnd.reproit.dependency-transcript.v1+json"

  datatype ProcessingMode = Managed | Private

  datatype LogicalObjectRole =
    | AdmissionProof
    | CandidateRecord
    | CaptureBatchManifestRole
    | DebugSymbols
    | DependencyTranscriptRole
    | FailureRole
    | ReplayCapsuleManifest
    | SubjectRole
    | TriggerRole
    | WorldManifest
    | WorldState

  datatype LogicalObject = LogicalObject(
    mediaType: string,
    objectId: ObjectId,
    plainDigest: Digest,
    plainSize: u64,
    role: LogicalObjectRole)

  datatype Subject = Subject(
    architecture: string,
    arguments: seq<string>,
    artifactDigest: Digest,
    artifactMediaType: string,
    artifactUri: string,
    environmentNames: seq<string>,
    executable: string,
    operatingSystem: string,
    workingDirectory: string)

  datatype ReplayCapsule = ReplayCapsule(
    closureManifestDigest: Digest,
    failureDigest: Digest,
    objects: seq<LogicalObject>,
    perturbationSuite: string,
    processingMode: ProcessingMode,
    profile: string,
    profileFormat: u64,
    requiredCapabilities: seq<string>,
    subject: Subject,
    subjectDigest: Digest,
    supportBundleDigest: Digest,
    triggerDigest: Digest,
    worldDigest: Digest)

  predicate ValidObject(item: LogicalObject) {
    && 0 < |item.mediaType| <= 128
    && item.plainSize <= 274_878_824_448
    && item.role != CaptureBatchManifestRole
  }

  /** Roles that may appear in a sealed capsule. */
  predicate ReplayableRole(role: LogicalObjectRole) {
    role in {SubjectRole, TriggerRole, FailureRole, WorldManifest, WorldState, DependencyTranscriptRole}
  }

  predicate ValidCapabilities(capabilities: seq<string>) {
    && |capabilities| <= 64
    && StrictlyAscending(capabilities)
    && forall c :: c in capabilities ==> ValidCapability(c)
  }

  predicate ValidEnvironmentName(name: string) {
    0 < |name| <= 256 && forall i :: 0 <= i < |name| ==> '!' <= name[i] <= '~' && name[i] != '='
  }

  predicate ValidSubject(subject: Subject) {
    && |subject.arguments| <= 128
    && (forall a :: a in subject.arguments ==> |a| <= 4096)
    && |subject.environmentNames| <= 256
    && 0 < |subject.artifactMediaType| <= 128
    && 0 < |subject.artifactUri| <= 2048
    && 0 < |subject.executable| <= 4096
    && 0 < |subject.workingDirectory| <= 4096
    && ValidCapability(subject.architecture)
    && ValidCapability(subject.operatingSystem)
    && StrictlyAscending(subject.environmentNames)
    && forall n :: n in subject.environmentNames ==> ValidEnvironmentName(n)
  }

  function Count(objects: seq<LogicalObject>, select: LogicalObject -> bool): nat {
    |Filter(objects, select)|
  }

  predicate IsSubjectManifest(capsule: ReplayCapsule, item: LogicalObject) {
    item.role == SubjectRole && item.mediaType == SUBJECT_CLOSURE_MEDIA_TYPE
    && item.plainDigest == capsule.subjectDigest
  }

  predicate IsTriggerManifest(capsule: ReplayCapsule, item: LogicalObject) {
    item.role == TriggerRole && item.mediaType == TRIGGER_MEDIA_TYPE
    && item.plainDigest == capsule.triggerDigest
  }

  predicate IsFailureManifest(item: LogicalObject) {
    item.role == FailureRole && item.mediaType == FAILURE_MEDIA_TYPE
  }

  predicate IsWorldManifest(item: LogicalObject) {
    item.role == WorldManifest && item.mediaType == WORLD_MANIFEST_MEDIA_TYPE
  }

  predicate IsTranscriptManifest(item: LogicalObject) {
    item.role == DependencyTranscriptRole && item.mediaType == DEPENDENCY_TRANSCRIPT_MEDIA_TYPE
  }

  /** `validate_closure_shape`. */
  predicate ClosureShaped(capsule: ReplayCapsule) {
    && Count(capsule.objects, o => IsSubjectManifest(capsule, o)) == 1
    && Count(capsule.objects, o => IsTriggerManifest(capsule, o)) == 1
    && Count(capsule.objects, o => IsFailureManifest(o)) == 1
    && Count(capsule.objects, o => IsWorldManifest(o)) == 1
    && Count(capsule.objects, o => IsTranscriptManifest(o)) <= 1
  }

  predicate DistinctIds(objects: seq<LogicalObject>) {
    forall i, j :: 0 <= i < j < |objects| ==> objects[i].objectId != objects[j].objectId
  }

  predicate AscendingIds(objects: seq<LogicalObject>) {
    forall i, j :: 0 <= i < j < |objects| ==> objects[i].objectId < objects[j].objectId
  }

  /** Everything `ReplayCapsule::validate` checks besides the capability list. */
  predicate ValidCapsuleBody(capsule: ReplayCapsule) {
    && 0 < |capsule.objects| <= 32_767
    && capsule.perturbationSuite == "reproit.controlled-perturbation.v1"
    && ValidCapability(capsule.profile)
    && 1 <= capsule.profileFormat <= MAX_EXACT_INTEGER
    && (forall o :: o in capsule.objects ==> ValidObject(o) && ReplayableRole(o.role))
    && ClosureShaped(capsule)
    && ValidSubject(capsule.subject)
    && capsule.subject.artifactDigest == capsule.subjectDigest
    && capsule.subject.artifactMediaType == SUBJECT_CLOSURE_MEDIA_TYPE
    && AscendingIds(capsule.objects)
  }

  predicate ValidCapsule(capsule: ReplayCapsule) {
    ValidCapsuleBody(capsule) && ValidCapabilities(capsule.requiredCapabilities)
  }

  /** Replacing the capability list leaves the rest of the validation as it was. */
  lemma BodyIgnoresCapabilities(capsule: ReplayCapsule, capabilities: seq<string>)
    ensures ValidCapsuleBody(capsule.(requiredCapabilities := capabilities)) <==> ValidCapsuleBody(capsule)
  {
    var other := capsule.(requiredCapabilities := capabilities);
    SameFilter(capsule.objects, o => IsSubjectManifest(capsule, o), o => IsSubjectManifest(other, o));
    SameFilter(capsule.objects, o => IsTriggerManifest(capsule, o), o => IsTriggerManifest(other, o));
  }

  lemma {:induction false} SameFilter<T>(s: seq<T>, p: T -> bool, q: T -> bool)
    requires forall x :: x in s ==> p(x) == q(x)
    ensures Filter(s, p) == Filter(s, q)
  {
    if s != [] {
      SameFilter(s[1..], p, q);
    }
  }
}
