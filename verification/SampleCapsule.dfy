/** A small valid capsule: the four manifests a closure needs, one byte each, under the digests of `Numeral`. */
module SampleCapsule {
  import opened Prelude
  import opened Ordering
  import opened Capsule

  /** Bytes read as a numeral with the digits 1 to 256: an injective stand-in for a hash. */
  function Numeral(bytes: seq<byte>): Digest {
    if bytes == [] then 0 else (bytes[0] as int + 1) + 257 * Numeral(bytes[1..])
  }

  lemma {:induction false} NumeralIsInjective(a: seq<byte>, b: seq<byte>)
    requires Numeral(a) == Numeral(b)
    ensures a == b
  {
    if a != [] && b != [] {
      NumeralIsInjective(a[1..], b[1..]);
      assert a == [a[0]] + a[1..] && b == [b[0]] + b[1..];
    }
  }

  lemma NumeralsDiffer()
    ensures CollisionFree(Numeral)
  {
    forall a, b | Numeral(a) == Numeral(b)
      ensures a == b
    {
      NumeralIsInjective(a, b);
    }
  }

  const SUBJECT_OBJECT := LogicalObject(SUBJECT_CLOSURE_MEDIA_TYPE, 1, 2, 1, SubjectRole)
  const TRIGGER_OBJECT := LogicalObject(TRIGGER_MEDIA_TYPE, 2, 3, 1, TriggerRole)
  const FAILURE_OBJECT := LogicalObject(FAILURE_MEDIA_TYPE, 3, 4, 1, FailureRole)
  const WORLD_OBJECT := LogicalObject(WORLD_MANIFEST_MEDIA_TYPE, 4, 5, 1, WorldManifest)

  const SUBJECT := Subject("amd64", [], 2, SUBJECT_CLOSURE_MEDIA_TYPE, "u", [], "x", "linux", "w")

  function SealedWith(capabilities: seq<string>): ReplayCapsule {
    ReplayCapsule(0, 4, [SUBJECT_OBJECT, TRIGGER_OBJECT, FAILURE_OBJECT, WORLD_OBJECT],
                  "reproit.controlled-perturbation.v1", Managed, "p", 1, capabilities, SUBJECT, 2, 0, 3, 5)
  }

  lemma ClosureIsShaped(capabilities: seq<string>)
    ensures ClosureShaped(SealedWith(capabilities))
  {
    var capsule := SealedWith(capabilities);
    FilterWindow(capsule.objects, o => IsSubjectManifest(capsule, o), 0, 1);
    FilterWindow(capsule.objects, o => IsTriggerManifest(capsule, o), 1, 2);
    FilterWindow(capsule.objects, o => IsFailureManifest(o), 2, 3);
    FilterWindow(capsule.objects, o => IsWorldManifest(o), 3, 4);
    FilterWindow(capsule.objects, o => IsTranscriptManifest(o), 4, 4);
  }

  lemma SubjectIsValid()
    ensures ValidSubject(SUBJECT)
  {
  }

  lemma BodyIsValid(capabilities: seq<string>)
    ensures ValidCapsuleBody(SealedWith(capabilities))
  {
    ClosureIsShaped(capabilities);
    SubjectIsValid();
  }
}
