/** Processor views, their validation, and the capability strings that name them. */
module ProcessorRequirement {
  import opened Prelude
  import opened Ordering
  import opened ProcessorNames
  import opened IdentityToken

  datatype ProcessorObservation = ProcessorObservation(
    abi: string,
    architecture: ProcessorArchitecture,
    identity: Option<ProcessorIdentity>,
    instructionFeatures: seq<string>,
    osEnabledStates: seq<string>)

  datatype Requirement = Requirement(
    abi: string,
    architecture: ProcessorArchitecture,
    identity: Option<ProcessorIdentity>,
    instructionFeatures: seq<string>,
    osEnabledStates: seq<string>)

  const FEATURE_PREFIX := "processor.feature."
  const OS_STATE_PREFIX := "processor.os-state."
  const IDENTITY_PREFIX := "processor.identity."
  const REQUIREMENT_PREFIX := "processor.requirement."
  const REDUCTION_PREFIX := "processor.reduction."
  const ARCHITECTURE_PREFIX := "architecture."
  const PROCESSOR_PREFIX := "processor."

  /** `validate_processor_view`. */
  predicate ValidView(abi: string, architecture: ProcessorArchitecture, identity: Option<ProcessorIdentity>,
                      features: seq<string>, states: seq<string>)
  {
    && 0 < |abi| <= 128
    && |features| <= 256
    && |states| <= 64
    && (forall f :: f in features ==> ValidFeature(f))
    && (forall s :: s in states ==> ValidState(s))
    && StrictlyAscending(features)
    && StrictlyAscending(states)
    && match identity {
       case None => true
       case Some(value) => (architecture.Arm64? <==> value.Arm?) && ValidIdentity(value)
     }
  }

  predicate ValidObservation(observation: ProcessorObservation) {
    ValidView(observation.abi, observation.architecture, observation.identity,
              observation.instructionFeatures, observation.osEnabledStates)
  }

  predicate ValidRequirement(requirement: Requirement) {
    ValidView(requirement.abi, requirement.architecture, requirement.identity,
              requirement.instructionFeatures, requirement.osEnabledStates)
  }

  function HexChar(d: nat): char
    requires d < 16
  {
    if d < 10 then DigitChar(d) else ('a' as int + (d - 10)) as char
  }

  /** The last `width` lowercase hexadecimal digits of a digest. */
  function Hex(d: Digest, width: nat): (s: string)
    ensures |s| == width
    ensures forall i :: 0 <= i < |s| ==> IsLower(s[i]) || IsDigit(s[i])
  {
    if width == 0 then "" else Hex(d / 16, width - 1) + [HexChar(d % 16)]
  }

  /** `digest_suffix`: the 64 hexadecimal digits after "sha256:". */
  function DigestSuffix(d: Digest): string {
    Hex(d, 64)
  }

  function ArchitectureCapability(architecture: ProcessorArchitecture): string {
    match architecture
    case Arm64 => "architecture.arm64"
    case X86_64 => "architecture.x86-64"
  }

  function RequirementBinding(digest: Digest): string {
    REQUIREMENT_PREFIX + DigestSuffix(digest)
  }

  function NormalizeAll(prefix: string, names: seq<string>): Result<seq<string>> {
    if names == [] then Ok([])
    else
      var first :- Normalize(names[0]);
      var rest :- NormalizeAll(prefix, names[1..]);
      Ok([prefix + first] + rest)
  }

  function IdentityCapabilities(identity: Option<ProcessorIdentity>): seq<string> {
    match identity
    case None => []
    case Some(value) => [IDENTITY_PREFIX + EncodeIdentityToken(value)]
  }

  /** `processor_requirement_capabilities`; `digest` is the canonical digest of the requirement. */
  function RequirementCapabilities(digest: Requirement -> Digest, requirement: Requirement): Result<seq<string>> {
    if !ValidRequirement(requirement) then Err(SchemaInvalid)
    else
      var features :- NormalizeAll(FEATURE_PREFIX, requirement.instructionFeatures);
      var states :- NormalizeAll(OS_STATE_PREFIX, requirement.osEnabledStates);
      Ok(SortDedup([ArchitectureCapability(requirement.architecture), RequirementBinding(digest(requirement))]
                   + features + states + IdentityCapabilities(requirement.identity)))
  }

  lemma {:induction false} NormalizeAllStep(prefix: string, names: seq<string>, n: nat)
    requires n < |names| && NormalizeAll(prefix, names[..n]).Ok?
    ensures NormalizeAll(prefix, names[..n + 1]) ==
            (if Normalize(names[n]).Ok?
             then Ok(NormalizeAll(prefix, names[..n]).value + [prefix + Normalize(names[n]).value])
             else Err(SchemaInvalid))
  {
    if n == 0 {
      assert names[..0] == [] && names[..1][1..] == [] && names[..1][0] == names[0];
      assert NormalizeAll(prefix, []) == Ok([]);
      if Normalize(names[0]).Ok? {
        assert [prefix + Normalize(names[0]).value] + [] == [] + [prefix + Normalize(names[0]).value];
      }
    } else {
      assert names[..n][1..] == names[1..][..n - 1];
      assert names[..n + 1][1..] == names[1..][..n];
      NormalizeAllStep(prefix, names[1..], n - 1);
      assert names[..n + 1][0] == names[..n][0] == names[0];
      assert names[1..][n - 1] == names[n];
      if Normalize(names[n]).Ok? {
        var tail := NormalizeAll(prefix, names[1..][..n - 1]).value;
        var head := [prefix + Normalize(names[0]).value];
        assert head + (tail + [prefix + Normalize(names[n]).value])
          == head + tail + [prefix + Normalize(names[n]).value];
      }
    }
  }

  lemma {:induction false} NormalizeAllStops(prefix: string, names: seq<string>, n: nat)
    requires n <= |names| && NormalizeAll(prefix, names[..n]).Err?
    ensures NormalizeAll(prefix, names) == Err(SchemaInvalid)
  {
    if n > 0 && Normalize(names[0]).Ok? {
      assert names[..n][1..] == names[1..][..n - 1];
      NormalizeAllStops(prefix, names[1..], n - 1);
    }
  }

  /** The pushing loops of `processor_requirement_capabilities`. */
  method ComputeRequirementCapabilities(digest: Requirement -> Digest, requirement: Requirement)
    returns (r: Result<seq<string>>)
    ensures r == RequirementCapabilities(digest, requirement)
  {
    if !ValidRequirement(requirement) {
      return Err(SchemaInvalid);
    }
    var head := [ArchitectureCapability(requirement.architecture), RequirementBinding(digest(requirement))];
    var capabilities := head;
    ghost var features, states := [], [];
    for i := 0 to |requirement.instructionFeatures|
      invariant NormalizeAll(FEATURE_PREFIX, requirement.instructionFeatures[..i]) == Ok(features)
      invariant capabilities == head + features
    {
      NormalizeAllStep(FEATURE_PREFIX, requirement.instructionFeatures, i);
      var name := Normalize(requirement.instructionFeatures[i]);
      if name.Err? {
        NormalizeAllStops(FEATURE_PREFIX, requirement.instructionFeatures, i + 1);
        return Err(SchemaInvalid);
      }
      capabilities := capabilities + [FEATURE_PREFIX + name.value];
      features := features + [FEATURE_PREFIX + name.value];
    }
    assert requirement.instructionFeatures[..|requirement.instructionFeatures|] == requirement.instructionFeatures;
    for i := 0 to |requirement.osEnabledStates|
      invariant NormalizeAll(OS_STATE_PREFIX, requirement.osEnabledStates[..i]) == Ok(states)
      invariant capabilities == head + features + states
    {
      NormalizeAllStep(OS_STATE_PREFIX, requirement.osEnabledStates, i);
      var name := Normalize(requirement.osEnabledStates[i]);
      if name.Err? {
        NormalizeAllStops(OS_STATE_PREFIX, requirement.osEnabledStates, i + 1);
        return Err(SchemaInvalid);
      }
      capabilities := capabilities + [OS_STATE_PREFIX + name.value];
      states := states + [OS_STATE_PREFIX + name.value];
    }
    assert requirement.osEnabledStates[..|requirement.osEnabledStates|] == requirement.osEnabledStates;
    if requirement.identity.Some? {
      capabilities := capabilities + [IDENTITY_PREFIX + EncodeIdentityToken(requirement.identity.value)];
    }
    assert capabilities == head + features + states + IdentityCapabilities(requirement.identity);
    return Ok(SortDedup(capabilities));
  }

  predicate NamesFit(names: seq<string>) {
    forall n :: n in names ==> |n| <= 96
  }

  ghost predicate Named(prefix: string, names: seq<string>, capability: string) {
    exists n :: n in names && capability == prefix + CapabilitySuffix(n)
  }

  lemma {:induction false} NormalizeAllMembers(prefix: string, names: seq<string>)
    requires forall n :: n in names ==> ValidFeature(n) || ValidState(n)
    ensures NormalizeAll(prefix, names).Ok? <==> NamesFit(names)
    ensures NormalizeAll(prefix, names).Ok? ==>
      forall c :: c in NormalizeAll(prefix, names).value <==> Named(prefix, names, c)
    ensures NormalizeAll(prefix, names).Err? ==> NormalizeAll(prefix, names) == Err(SchemaInvalid)
  {
    if names != [] {
      assert names[0] in names;
      assert names == [names[0]] + names[1..];
      if ValidFeature(names[0]) {
        FeatureNormalizes(names[0]);
      } else {
        StateNormalizes(names[0]);
      }
      NormalizeAllMembers(prefix, names[1..]);
      if NormalizeAll(prefix, names).Ok? {
        var values := NormalizeAll(prefix, names).value;
        forall c
          ensures c in values <==> Named(prefix, names, c)
        {
          if c in values && c != values[0] {
            assert Named(prefix, names[1..], c);
          }
          if Named(prefix, names, c) {
            var n :| n in names && c == prefix + CapabilitySuffix(n);
            assert n != names[0] ==> Named(prefix, names[1..], c);
          }
        }
      }
    }
  }

  /** What a requirement's capability list may contain. */
  ghost predicate CapabilityOf(digest: Requirement -> Digest, requirement: Requirement, c: string) {
    || c == ArchitectureCapability(requirement.architecture)
    || c == RequirementBinding(digest(requirement))
    || Named(FEATURE_PREFIX, requirement.instructionFeatures, c)
    || Named(OS_STATE_PREFIX, requirement.osEnabledStates, c)
    || c in IdentityCapabilities(requirement.identity)
  }

  /** The list exists exactly when the view validates and its names fit, and then holds exactly the named strings. */
  lemma CapabilitiesDescribed(digest: Requirement -> Digest, requirement: Requirement)
    ensures
      var r := RequirementCapabilities(digest, requirement);
      && (r.Ok? <==> ValidRequirement(requirement)
                     && NamesFit(requirement.instructionFeatures) && NamesFit(requirement.osEnabledStates))
      && (r.Ok? ==> StrictlyAscending(r.value) && forall c :: c in r.value <==> CapabilityOf(digest, requirement, c))
  {
    if ValidRequirement(requirement) {
      NormalizeAllMembers(FEATURE_PREFIX, requirement.instructionFeatures);
      NormalizeAllMembers(OS_STATE_PREFIX, requirement.osEnabledStates);
      if RequirementCapabilities(digest, requirement).Ok? {
        var features := NormalizeAll(FEATURE_PREFIX, requirement.instructionFeatures).value;
        var states := NormalizeAll(OS_STATE_PREFIX, requirement.osEnabledStates).value;
        SortDedupIsStrict([ArchitectureCapability(requirement.architecture), RequirementBinding(digest(requirement))]
                          + features + states + IdentityCapabilities(requirement.identity));
      }
    }
  }

  predicate Owned(capability: string) {
    ARCHITECTURE_PREFIX <= capability || PROCESSOR_PREFIX <= capability
  }

  /** No string falls under two of the prefixes. */
  lemma PrefixesDisjoint(c: string)
    ensures !(FEATURE_PREFIX <= c && OS_STATE_PREFIX <= c)
    ensures !(FEATURE_PREFIX <= c && IDENTITY_PREFIX <= c)
    ensures !(OS_STATE_PREFIX <= c && IDENTITY_PREFIX <= c)
    ensures REQUIREMENT_PREFIX <= c || REDUCTION_PREFIX <= c ==>
              !(FEATURE_PREFIX <= c || OS_STATE_PREFIX <= c || IDENTITY_PREFIX <= c)
    ensures !(REQUIREMENT_PREFIX <= c && REDUCTION_PREFIX <= c)
    ensures !(PROCESSOR_PREFIX <= c && ARCHITECTURE_PREFIX <= c)
  {
    assert FEATURE_PREFIX[10] == 'f' && OS_STATE_PREFIX[10] == 'o' && IDENTITY_PREFIX[10] == 'i';
    assert REQUIREMENT_PREFIX[12] == 'q' && REDUCTION_PREFIX[12] == 'd';
    assert REQUIREMENT_PREFIX[10] == 'r' && REDUCTION_PREFIX[10] == 'r';
    assert PROCESSOR_PREFIX[0] == 'p' && ARCHITECTURE_PREFIX[0] == 'a';
  }

  lemma ProcessorPrefixes(c: string)
    requires FEATURE_PREFIX <= c || OS_STATE_PREFIX <= c || IDENTITY_PREFIX <= c
      || REQUIREMENT_PREFIX <= c || REDUCTION_PREFIX <= c
    ensures PROCESSOR_PREFIX <= c
  {
    assert PROCESSOR_PREFIX <= FEATURE_PREFIX && PROCESSOR_PREFIX <= OS_STATE_PREFIX
      && PROCESSOR_PREFIX <= IDENTITY_PREFIX && PROCESSOR_PREFIX <= REQUIREMENT_PREFIX
      && PROCESSOR_PREFIX <= REDUCTION_PREFIX;
  }
}
