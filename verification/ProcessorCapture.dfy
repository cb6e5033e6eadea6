/** From captured capability strings to a requirement and back. */
module ProcessorCapture {
  import opened Prelude
  import opened Ordering
  import opened ProcessorNames
  import opened IdentityToken
  import opened ProcessorRequirement

  /** `filter_map(strip_prefix)`. */
  function StripAll(prefix: string, capabilities: seq<string>): seq<string> {
    if capabilities == [] then []
    else if prefix <= capabilities[0] then [capabilities[0][|prefix|..]] + StripAll(prefix, capabilities[1..])
    else StripAll(prefix, capabilities[1..])
  }

  function MapSuffixes(suffixes: seq<string>): seq<string> {
    seq(|suffixes|, i requires 0 <= i < |suffixes| => FeatureOfSuffix(suffixes[i]))
  }

  function CapturedFeatures(capabilities: seq<string>): seq<string> {
    SortDedup(MapSuffixes(StripAll(FEATURE_PREFIX, capabilities)))
  }

  function CapturedStates(capabilities: seq<string>): seq<string> {
    SortDedup(StripAll(OS_STATE_PREFIX, capabilities))
  }

  /** At most one identity token, decodable and of the captured architecture. */
  function CapturedIdentity(architecture: ProcessorArchitecture, capabilities: seq<string>)
    : Result<Option<ProcessorIdentity>>
  {
    var tokens := StripAll(IDENTITY_PREFIX, capabilities);
    if tokens == [] then Ok(None)
    else if |tokens| > 1 then Err(SchemaInvalid)
    else match DecodeIdentityToken(tokens[0])
      case None => Err(SchemaInvalid)
      case Some(identity) =>
        if identity.Arm? <==> architecture.Arm64? then Ok(Some(identity)) else Err(SchemaInvalid)
  }

  function CaptureAbi(architecture: ProcessorArchitecture): string {
    match architecture
    case Arm64 => "aapcs64-linux-gnu"
    case X86_64 => "sysv-x86-64"
  }

  /** `observation_from_captured_capabilities`. */
  function ObservationFromCaptured(architecture: ProcessorArchitecture, capabilities: seq<string>)
    : Result<ProcessorObservation>
  {
    var identity :- CapturedIdentity(architecture, capabilities);
    var observation := ProcessorObservation(CaptureAbi(architecture), architecture, identity,
                                            CapturedFeatures(capabilities), CapturedStates(capabilities));
    if ValidObservation(observation) then Ok(observation) else Err(SchemaInvalid)
  }

  /** `initial_processor_requirement`: the complete captured observation. */
  function InitialRequirement(observation: ProcessorObservation): Result<Requirement> {
    var requirement := Requirement(observation.abi, observation.architecture, observation.identity,
                                   observation.instructionFeatures, observation.osEnabledStates);
    if ValidRequirement(requirement) then Ok(requirement) else Err(SchemaInvalid)
  }

  predicate SuffixChars(suffix: string) {
    forall i :: 0 <= i < |suffix| ==> CapabilityChar(suffix[i])
  }

  /** One well-formed captured entry: a feature, a state or an identity in canonical form. */
  predicate WellFormedEntry(c: string) {
    || (FEATURE_PREFIX <= c
        && var suffix := c[|FEATURE_PREFIX|..];
        0 < |suffix| <= 96 && SuffixChars(suffix))
    || (OS_STATE_PREFIX <= c
        && var state := c[|OS_STATE_PREFIX|..];
        ValidState(state) && |state| <= 96 && Lacks(state, '_'))
    || (IDENTITY_PREFIX <= c
        && var token := c[|IDENTITY_PREFIX|..];
        DecodeIdentityToken(token).Some? && CanonicalToken(token))
  }

  predicate Captures(c: string) {
    FEATURE_PREFIX <= c || OS_STATE_PREFIX <= c || IDENTITY_PREFIX <= c
  }

  /** Every entry that decoding looks at is in canonical form. */
  predicate WellFormedEntries(captured: seq<string>) {
    forall c :: c in captured && Captures(c) ==> WellFormedEntry(c)
  }

  predicate WellFormedCapture(architecture: ProcessorArchitecture, captured: seq<string>) {
    && StrictlyAscending(captured)
    && (forall c :: c in captured ==> WellFormedEntry(c))
    && var tokens := StripAll(IDENTITY_PREFIX, captured);
    && |tokens| <= 1
    && forall token :: token in tokens && DecodeIdentityToken(token).Some? ==>
         (DecodeIdentityToken(token).value.Arm? <==> architecture.Arm64?)
  }

  lemma {:induction false} StripAllMembers(prefix: string, capabilities: seq<string>, suffix: string)
    ensures suffix in StripAll(prefix, capabilities) <==> prefix + suffix in capabilities
  {
    if capabilities != [] {
      StripAllMembers(prefix, capabilities[1..], suffix);
      assert capabilities == [capabilities[0]] + capabilities[1..];
      if prefix <= capabilities[0] {
        var head := capabilities[0][|prefix|..];
        assert capabilities[0] == prefix + head;
        assert (prefix + suffix)[|prefix|..] == suffix;
      }
    }
  }

  lemma CapturedFeatureMembers(captured: seq<string>, feature: string)
    ensures feature in CapturedFeatures(captured) <==>
      exists suffix :: FEATURE_PREFIX + suffix in captured && feature == FeatureOfSuffix(suffix)
  {
    var suffixes := StripAll(FEATURE_PREFIX, captured);
    SortDedupIsStrict(MapSuffixes(suffixes));
    if feature in MapSuffixes(suffixes) {
      var i :| 0 <= i < |suffixes| && MapSuffixes(suffixes)[i] == feature;
      StripAllMembers(FEATURE_PREFIX, captured, suffixes[i]);
    }
    forall suffix | FEATURE_PREFIX + suffix in captured && feature == FeatureOfSuffix(suffix)
      ensures feature in MapSuffixes(suffixes)
    {
      StripAllMembers(FEATURE_PREFIX, captured, suffix);
      var i :| 0 <= i < |suffixes| && suffixes[i] == suffix;
      assert MapSuffixes(suffixes)[i] == feature;
    }
  }

  lemma CapturedStateMembers(captured: seq<string>, state: string)
    ensures state in CapturedStates(captured) <==> OS_STATE_PREFIX + state in captured
  {
    SortDedupIsStrict(StripAll(OS_STATE_PREFIX, captured));
    StripAllMembers(OS_STATE_PREFIX, captured, state);
  }

  lemma EntrySuffix(prefix: string, suffix: string)
    ensures (prefix + suffix)[|prefix|..] == suffix && prefix <= prefix + suffix
  {
  }

  // Decoding, outright.

  /** The decoded features and states are those of the entries, in order and each once. */
  ghost predicate NamesRead(captured: seq<string>, observation: ProcessorObservation) {
    && StrictlyAscending(observation.instructionFeatures) && StrictlyAscending(observation.osEnabledStates)
    && (forall f :: f in observation.instructionFeatures <==>
          exists suffix :: "processor.feature." + suffix in captured && f == FeatureOfSuffix(suffix))
    && forall s :: s in observation.osEnabledStates <==> "processor.os-state." + s in captured
  }

  /** Entry `k` is the only one for an identity. */
  predicate OnlyToken(captured: seq<string>, k: nat) {
    && k < |captured| && "processor.identity." <= captured[k]
    && forall j :: 0 <= j < |captured| && j != k ==> !("processor.identity." <= captured[j])
  }

  /** No identity entry, or the only one, which decodes to an identity of the architecture. */
  predicate IdentityRead(architecture: ProcessorArchitecture, captured: seq<string>,
                         identity: Option<ProcessorIdentity>)
  {
    if identity.None? then forall c :: c in captured ==> !("processor.identity." <= c)
    else
      exists k :: 0 <= k < |captured| && OnlyToken(captured, k)
        && DecodeIdentityToken(captured[k][19..]) == identity
        && (identity.value.Arm? <==> architecture.Arm64?)
  }

  lemma {:induction false} NoToken(captured: seq<string>)
    ensures StripAll(IDENTITY_PREFIX, captured) == [] <==> forall c :: c in captured ==> !(IDENTITY_PREFIX <= c)
  {
    if captured != [] {
      NoToken(captured[1..]);
      assert captured == [captured[0]] + captured[1..];
      assert captured[0] in captured && forall c :: c in captured <==> c == captured[0] || c in captured[1..];
    }
  }

  lemma NoneLater(captured: seq<string>)
    requires captured != [] && forall c :: c in captured[1..] ==> !(IDENTITY_PREFIX <= c)
    ensures forall j :: 0 < j < |captured| ==> !(IDENTITY_PREFIX <= captured[j])
  {
    forall j | 0 < j < |captured|
      ensures !(IDENTITY_PREFIX <= captured[j])
    {
      assert captured[j] == captured[1..][j - 1] && captured[1..][j - 1] in captured[1..];
    }
  }

  lemma {:induction false} OneToken(captured: seq<string>) returns (k: nat)
    requires |StripAll(IDENTITY_PREFIX, captured)| == 1
    ensures OnlyToken(captured, k) && StripAll(IDENTITY_PREFIX, captured)[0] == captured[k][|IDENTITY_PREFIX|..]
  {
    var rest := captured[1..];
    if IDENTITY_PREFIX <= captured[0] {
      NoToken(rest);
      NoneLater(captured);
      k := 0;
    } else {
      var i := OneToken(rest);
      k := i + 1;
      assert forall j :: 0 < j < |captured| ==> captured[j] == rest[j - 1];
    }
  }

  lemma {:induction false} OnlyTokenStripped(captured: seq<string>, k: nat)
    requires OnlyToken(captured, k)
    ensures StripAll(IDENTITY_PREFIX, captured) == [captured[k][|IDENTITY_PREFIX|..]]
  {
    var rest := captured[1..];
    if k == 0 {
      forall c | c in rest
        ensures !(IDENTITY_PREFIX <= c)
      {
        var j :| 0 <= j < |rest| && rest[j] == c;
        assert captured[j + 1] == c;
      }
      NoToken(rest);
    } else {
      assert !(IDENTITY_PREFIX <= captured[0]);
      assert forall j :: 0 <= j < |rest| ==> rest[j] == captured[j + 1];
      OnlyTokenStripped(rest, k - 1);
    }
  }

  lemma IdentityIsRead(architecture: ProcessorArchitecture, captured: seq<string>, identity: Option<ProcessorIdentity>)
    ensures CapturedIdentity(architecture, captured) == Ok(identity) <==> IdentityRead(architecture, captured, identity)
  {
    hide DecodeIdentityToken;
    NoToken(captured);
    var tokens := StripAll(IDENTITY_PREFIX, captured);
    if |tokens| == 1 {
      var k := OneToken(captured);
      assert OnlyToken(captured, k);
    }
    if k :| 0 <= k < |captured| && OnlyToken(captured, k) {
      OnlyTokenStripped(captured, k);
    }
  }

  lemma NamesAreRead(captured: seq<string>, observation: ProcessorObservation)
    ensures NamesRead(captured, observation) <==>
      && observation.instructionFeatures == CapturedFeatures(captured)
      && observation.osEnabledStates == CapturedStates(captured)
  {
    SortDedupIsStrict(MapSuffixes(StripAll(FEATURE_PREFIX, captured)));
    SortDedupIsStrict(StripAll(OS_STATE_PREFIX, captured));
    hide StripAll, FeatureOfSuffix, SortDedup, MapSuffixes;
    forall f
      ensures f in CapturedFeatures(captured) <==>
        exists suffix :: FEATURE_PREFIX + suffix in captured && f == FeatureOfSuffix(suffix)
    {
      CapturedFeatureMembers(captured, f);
    }
    forall s
      ensures s in CapturedStates(captured) <==> OS_STATE_PREFIX + s in captured
    {
      CapturedStateMembers(captured, s);
    }
    hide CapturedFeatures, CapturedStates;
    if NamesRead(captured, observation) {
      StrictOrderIsUnique(observation.instructionFeatures, CapturedFeatures(captured));
      StrictOrderIsUnique(observation.osEnabledStates, CapturedStates(captured));
    }
  }

  /** Decoding answers exactly the valid observation that the entries say, for every list of capabilities. */
  lemma CaptureIsExact(architecture: ProcessorArchitecture, captured: seq<string>, observation: ProcessorObservation)
    ensures ObservationFromCaptured(architecture, captured) == Ok(observation) <==>
      && ValidObservation(observation) && observation.architecture == architecture
      && observation.abi == (if architecture.Arm64? then "aapcs64-linux-gnu" else "sysv-x86-64")
      && NamesRead(captured, observation) && IdentityRead(architecture, captured, observation.identity)
  {
    hide CapturedFeatures, CapturedStates, CapturedIdentity, ValidObservation, NamesRead, IdentityRead;
    IdentityIsRead(architecture, captured, observation.identity);
    NamesAreRead(captured, observation);
  }

  lemma CapturedFeaturesAreValid(captured: seq<string>, feature: string)
    requires WellFormedEntries(captured) && feature in CapturedFeatures(captured)
    ensures ValidFeature(feature) && |feature| <= 96
    ensures FEATURE_PREFIX + CapabilitySuffix(feature) in captured
  {
    CapturedFeatureMembers(captured, feature);
    var suffix :| FEATURE_PREFIX + suffix in captured && feature == FeatureOfSuffix(suffix);
    EntrySuffix(FEATURE_PREFIX, suffix);
    PrefixesDisjoint(FEATURE_PREFIX + suffix);
    SuffixInversion(suffix);
    forall i | 0 <= i < |feature|
      ensures FeatureChar(feature[i])
    {
      assert CapabilityChar(suffix[i]);
    }
  }

  lemma CapturedStatesAreValid(captured: seq<string>, state: string)
    requires WellFormedEntries(captured) && state in CapturedStates(captured)
    ensures ValidState(state) && |state| <= 96 && CapabilitySuffix(state) == state
    ensures OS_STATE_PREFIX + state in captured
  {
    CapturedStateMembers(captured, state);
    EntrySuffix(OS_STATE_PREFIX, state);
    PrefixesDisjoint(OS_STATE_PREFIX + state);
    StateSuffix(state);
  }

  lemma CapturedIdentityMembers(architecture: ProcessorArchitecture, captured: seq<string>)
    requires WellFormedEntries(captured) && CapturedIdentity(architecture, captured).Ok?
    ensures
      var identity := CapturedIdentity(architecture, captured).value;
      forall c :: c in IdentityCapabilities(identity) <==> c in captured && IDENTITY_PREFIX <= c
  {
    hide StripAll, DecodeIdentityToken, EncodeIdentityToken;
    var tokens := StripAll(IDENTITY_PREFIX, captured);
    if tokens != [] {
      StripAllMembers(IDENTITY_PREFIX, captured, tokens[0]);
      EntrySuffix(IDENTITY_PREFIX, tokens[0]);
      PrefixesDisjoint(IDENTITY_PREFIX + tokens[0]);
      TokenIsCanonical(tokens[0]);
    }
    var identity := CapturedIdentity(architecture, captured).value;
    forall c
      ensures c in IdentityCapabilities(identity) <==> c in captured && IDENTITY_PREFIX <= c
    {
      if IDENTITY_PREFIX <= c {
        assert c == IDENTITY_PREFIX + c[|IDENTITY_PREFIX|..];
        StripAllMembers(IDENTITY_PREFIX, captured, c[|IDENTITY_PREFIX|..]);
      }
    }
  }

  lemma CapturedIdentityIsValid(architecture: ProcessorArchitecture, captured: seq<string>)
    requires WellFormedCapture(architecture, captured)
    ensures
      var r := CapturedIdentity(architecture, captured);
      && r.Ok?
      && (r.value.Some? ==> ValidIdentity(r.value.value) && (r.value.value.Arm? <==> architecture.Arm64?))
      && forall c :: c in IdentityCapabilities(r.value) <==> c in captured && IDENTITY_PREFIX <= c
  {
    var tokens := StripAll(IDENTITY_PREFIX, captured);
    if tokens != [] {
      var token := tokens[0];
      StripAllMembers(IDENTITY_PREFIX, captured, token);
      EntrySuffix(IDENTITY_PREFIX, token);
      PrefixesDisjoint(IDENTITY_PREFIX + token);
      TokenIsCanonical(token);
    }
    CapturedIdentityMembers(architecture, captured);
  }

  /** A well-formed capture decodes exactly when it stays inside the two list bounds. */
  lemma CaptureDecodes(architecture: ProcessorArchitecture, captured: seq<string>)
    requires WellFormedCapture(architecture, captured)
    ensures ObservationFromCaptured(architecture, captured).Ok? <==>
              |CapturedFeatures(captured)| <= 256 && |CapturedStates(captured)| <= 64
  {
    CapturedIdentityIsValid(architecture, captured);
    SortDedupIsStrict(MapSuffixes(StripAll(FEATURE_PREFIX, captured)));
    SortDedupIsStrict(StripAll(OS_STATE_PREFIX, captured));
    forall f | f in CapturedFeatures(captured)
      ensures ValidFeature(f)
    {
      CapturedFeaturesAreValid(captured, f);
    }
    forall s | s in CapturedStates(captured)
      ensures ValidState(s)
    {
      CapturedStatesAreValid(captured, s);
    }
  }

  /** Each captured feature entry is named by exactly one decoded feature. */
  lemma FeatureEntriesReturn(captured: seq<string>, c: string)
    requires WellFormedEntries(captured)
    ensures Named(FEATURE_PREFIX, CapturedFeatures(captured), c) <==> c in captured && FEATURE_PREFIX <= c
  {
    if Named(FEATURE_PREFIX, CapturedFeatures(captured), c) {
      var f :| f in CapturedFeatures(captured) && c == FEATURE_PREFIX + CapabilitySuffix(f);
      CapturedFeaturesAreValid(captured, f);
    }
    if c in captured && FEATURE_PREFIX <= c {
      var suffix := c[|FEATURE_PREFIX|..];
      assert c == FEATURE_PREFIX + suffix;
      PrefixesDisjoint(c);
      SuffixInversion(suffix);
      CapturedFeatureMembers(captured, FeatureOfSuffix(suffix));
    }
  }

  lemma StateEntriesReturn(captured: seq<string>, c: string)
    requires WellFormedEntries(captured)
    ensures Named(OS_STATE_PREFIX, CapturedStates(captured), c) <==> c in captured && OS_STATE_PREFIX <= c
  {
    if Named(OS_STATE_PREFIX, CapturedStates(captured), c) {
      var s :| s in CapturedStates(captured) && c == OS_STATE_PREFIX + CapabilitySuffix(s);
      CapturedStatesAreValid(captured, s);
    }
    if c in captured && OS_STATE_PREFIX <= c {
      var state := c[|OS_STATE_PREFIX|..];
      assert c == OS_STATE_PREFIX + state;
      CapturedStateMembers(captured, state);
      CapturedStatesAreValid(captured, state);
    }
  }

  // The round trip of a whole capture.

  /** What encoding adds to a capture: the architecture and the requirement binding. */
  function Added(digest: Requirement -> Digest, requirement: Requirement): seq<string> {
    [ArchitectureCapability(requirement.architecture), RequirementBinding(digest(requirement))]
  }

  lemma AddedIsNotCaptured(digest: Requirement -> Digest, requirement: Requirement, c: string)
    requires c in Added(digest, requirement)
    ensures !Captures(c)
  {
    PrefixesDisjoint(c);
    if c == ArchitectureCapability(requirement.architecture) {
      assert ARCHITECTURE_PREFIX <= c;
    } else {
      assert REQUIREMENT_PREFIX <= c;
    }
  }

  /** Every entry is canonical, apart from what encoding adds anyway. */
  predicate Canonical(captured: seq<string>, added: seq<string>) {
    forall c :: c in captured ==> c in added || WellFormedEntry(c)
  }

  /** From canonical entries everything comes back. */
  lemma CanonicalReturns(digest: Requirement -> Digest, architecture: ProcessorArchitecture, captured: seq<string>,
                         requirement: Requirement)
    requires ObservationFromCaptured(architecture, captured).Ok?
    requires InitialRequirement(ObservationFromCaptured(architecture, captured).value) == Ok(requirement)
    requires Canonical(captured, Added(digest, requirement))
    ensures RequirementCapabilities(digest, requirement) == Ok(SortDedup(captured + Added(digest, requirement)))
  {
    var added := Added(digest, requirement);
    forall c | c in captured && Captures(c)
      ensures WellFormedEntry(c)
    {
      if c in added {
        AddedIsNotCaptured(digest, requirement, c);
      }
    }
    CapturedIdentityMembers(architecture, captured);
    NamesComeBackShort(captured);
    CapabilitiesDescribed(digest, requirement);
    SortDedupIsStrict(captured + added);
    var list := RequirementCapabilities(digest, requirement).value;
    forall c
      ensures c in list <==> c in SortDedup(captured + added)
    {
      assert c in SortDedup(captured + added) <==> c in captured + added;
      FeatureEntriesReturn(captured, c);
      StateEntriesReturn(captured, c);
    }
    StrictOrderIsUnique(list, SortDedup(captured + added));
  }

  lemma NamesComeBackShort(captured: seq<string>)
    requires WellFormedEntries(captured)
    ensures NamesFit(CapturedFeatures(captured)) && NamesFit(CapturedStates(captured))
  {
    forall f | f in CapturedFeatures(captured)
      ensures |f| <= 96
    {
      CapturedFeaturesAreValid(captured, f);
    }
    forall s | s in CapturedStates(captured)
      ensures |s| <= 96
    {
      CapturedStatesAreValid(captured, s);
    }
  }

  lemma FeatureEntryIsWellFormed(f: string)
    requires ValidFeature(f) && |f| <= 96
    ensures WellFormedEntry(FEATURE_PREFIX + CapabilitySuffix(f))
  {
    var suffix := CapabilitySuffix(f);
    EntrySuffix(FEATURE_PREFIX, suffix);
    forall i | 0 <= i < |suffix|
      ensures CapabilityChar(suffix[i])
    {
      assert FeatureChar(f[i]);
    }
  }

  lemma StateEntryIsWellFormed(s: string)
    requires ValidState(s) && |s| <= 96
    ensures WellFormedEntry(OS_STATE_PREFIX + CapabilitySuffix(s))
  {
    var suffix := CapabilitySuffix(s);
    EntrySuffix(OS_STATE_PREFIX, suffix);
    SuffixLacksUnderscore(s);
    forall i | 0 <= i < |suffix|
      ensures CapabilityChar(suffix[i])
    {
      assert CapabilityChar(s[i]) || s[i] == '_';
    }
  }

  /** The one captured token comes back only in its canonical form. */
  lemma IdentityEntryIsWellFormed(architecture: ProcessorArchitecture, captured: seq<string>, c: string)
    requires CapturedIdentity(architecture, captured).Ok? && c in captured
    requires c in IdentityCapabilities(CapturedIdentity(architecture, captured).value)
    ensures WellFormedEntry(c)
  {
    var tokens := StripAll(IDENTITY_PREFIX, captured);
    var identity := CapturedIdentity(architecture, captured).value.value;
    var token := EncodeIdentityToken(identity);
    EntrySuffix(IDENTITY_PREFIX, token);
    StripAllMembers(IDENTITY_PREFIX, captured, token);
    TokenIsCanonical(tokens[0]);
  }

  /** What comes back was canonical. */
  lemma ReturnedIsCanonical(digest: Requirement -> Digest, architecture: ProcessorArchitecture, captured: seq<string>,
                            requirement: Requirement, c: string)
    requires ObservationFromCaptured(architecture, captured).Ok?
    requires InitialRequirement(ObservationFromCaptured(architecture, captured).value) == Ok(requirement)
    requires NamesFit(requirement.instructionFeatures) && NamesFit(requirement.osEnabledStates)
    requires c in captured && CapabilityOf(digest, requirement, c)
    ensures c in Added(digest, requirement) || WellFormedEntry(c)
  {
    hide WellFormedEntry;
    if Named(FEATURE_PREFIX, requirement.instructionFeatures, c) {
      var f :| f in requirement.instructionFeatures && c == FEATURE_PREFIX + CapabilitySuffix(f);
      FeatureEntryIsWellFormed(f);
    } else if Named(OS_STATE_PREFIX, requirement.osEnabledStates, c) {
      var s :| s in requirement.osEnabledStates && c == OS_STATE_PREFIX + CapabilitySuffix(s);
      StateEntryIsWellFormed(s);
    } else if c in IdentityCapabilities(requirement.identity) {
      IdentityEntryIsWellFormed(architecture, captured, c);
    }
  }

  /**
   * The capture round trip. For any capture that decodes, taking the initial
   * requirement and encoding it again gives the captured list with only the
   * architecture and the requirement binding added, if and only if every
   * entry is canonical.
   */
  lemma CaptureRoundTrip(digest: Requirement -> Digest, architecture: ProcessorArchitecture, captured: seq<string>)
    requires ObservationFromCaptured(architecture, captured).Ok?
    ensures InitialRequirement(ObservationFromCaptured(architecture, captured).value).Ok?
    ensures
      var requirement := InitialRequirement(ObservationFromCaptured(architecture, captured).value).value;
      var added := Added(digest, requirement);
      RequirementCapabilities(digest, requirement) == Ok(SortDedup(captured + added)) <==> Canonical(captured, added)
  {
    var requirement := InitialRequirement(ObservationFromCaptured(architecture, captured).value).value;
    var added := Added(digest, requirement);
    if Canonical(captured, added) {
      CanonicalReturns(digest, architecture, captured, requirement);
    }
    if RequirementCapabilities(digest, requirement) == Ok(SortDedup(captured + added)) {
      CapabilitiesDescribed(digest, requirement);
      SortDedupIsStrict(captured + added);
      forall c | c in captured
        ensures c in added || WellFormedEntry(c)
      {
        assert c in captured + added;
        ReturnedIsCanonical(digest, architecture, captured, requirement, c);
      }
    }
  }
}
