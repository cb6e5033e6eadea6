/** Result types, machine integers and identities shared by every component. */
module Prelude {

  /** The error codes the modelled code distinguishes. */
  datatype ErrorCode =
    | SchemaInvalid
    | RuntimeQuota
    | ObjectDigestMismatch
    | WorldNotClosed
    | WorldProviderMissing
    | DependencyTranscriptMismatch
    | NonceReuse
    | UploadLimitExceeded
    | DecryptionAuthentication
    | AdmissionProofBinding
    | ServiceUnavailable
    | ArtifactNotFound

  datatype Result<+T> = Ok(value: T) | Err(error: ErrorCode) {
    predicate IsFailure() {
      Err?
    }

    function PropagateFailure<U>(): Result<U>
      requires Err?
    {
      Err(error)
    }

    function Extract(): T
      requires Ok?
    {
      value
    }
  }

  datatype Option<+T> = None | Some(value: T)

  datatype Unit = Unit

  newtype byte = b: int | 0 <= b < 256

  const U64_MAX: nat := 0xFFFF_FFFF_FFFF_FFFF
  const U32_MAX: nat := 0xFFFF_FFFF
  const MAX_EXACT_INTEGER: nat := 9_007_199_254_740_991

  type u64 = n: nat | n <= U64_MAX

  /** u64 addition that stops at the largest value instead of wrapping. */
  function SaturatingAdd(a: u64, b: u64): u64 {
    if a + b <= U64_MAX then a + b else U64_MAX
  }

  /** u64 subtraction that stops at zero instead of wrapping. */
  function SaturatingSub(a: nat, b: nat): nat {
    if b <= a then a - b else 0
  }

  function Min(a: nat, b: nat): nat {
    if a <= b then a else b
  }

  /** Digests and typed ids are ordered values; the order of `nat` stands for their byte order. */
  type Digest = nat
  type ObjectId = nat

  /** No two byte strings share a digest. */
  ghost predicate CollisionFree(hash: seq<byte> -> Digest) {
    forall a, b :: hash(a) == hash(b) ==> a == b
  }

  /** A part is no larger than the whole, and only the whole is as large. */
  lemma Subset<T>(a: set<T>, b: set<T>)
    requires a <= b
    ensures |a| <= |b|
    ensures |a| == |b| ==> a == b
  {
    assert b == a + (b - a);
  }
}
