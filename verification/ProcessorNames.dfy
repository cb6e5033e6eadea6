/** Processor names, their capability form, and the two inversions of that form. */
module ProcessorNames {
  import opened Prelude

  predicate IsLower(c: char) { 'a' <= c <= 'z' }

  predicate IsUpper(c: char) { 'A' <= c <= 'Z' }

  predicate IsDigit(c: char) { '0' <= c <= '9' }

  /** `valid_lower_identity` of capability strings: a letter, then letters, digits, '.' and '-'. */
  predicate ValidCapability(value: string) {
    && 0 < |value| <= 128
    && IsLower(value[0])
    && forall i :: 0 <= i < |value| ==> CapabilityChar(value[i])
  }

  predicate CapabilityChar(c: char) {
    IsLower(c) || IsDigit(c) || c == '.' || c == '-'
  }

  predicate FeatureChar(c: char) {
    IsUpper(c) || IsDigit(c) || c == '.' || c == '_' || c == '-'
  }

  predicate ValidFeature(feature: string) {
    0 < |feature| <= 128 && forall i :: 0 <= i < |feature| ==> FeatureChar(feature[i])
  }

  /** `valid_lower_identity` of os-enabled states, which also admits '_'. */
  predicate ValidState(state: string) {
    && 0 < |state| <= 128
    && IsLower(state[0])
    && forall i :: 0 <= i < |state| ==> CapabilityChar(state[i]) || state[i] == '_'
  }

  function LowerChar(c: char): char {
    if IsUpper(c) then (c as int + 32) as char
    else if c == '_' then '-'
    else c
  }

  function UpperChar(c: char): char {
    if IsLower(c) then (c as int - 32) as char
    else if c == '-' then '_'
    else c
  }

  /** `capability_suffix`: ASCII lowercase with underscore to hyphen. */
  function CapabilitySuffix(name: string): string {
    seq(|name|, i requires 0 <= i < |name| => LowerChar(name[i]))
  }

  /** The checker's inverse: ASCII uppercase with hyphen to underscore. */
  function FeatureOfSuffix(suffix: string): string {
    seq(|suffix|, i requires 0 <= i < |suffix| => UpperChar(suffix[i]))
  }

  /** `normalize_processor_name`. */
  function Normalize(value: string): Result<string> {
    var normalized := CapabilitySuffix(value);
    if |normalized| == 0 || |normalized| > 96 || !(forall i :: 0 <= i < |normalized| ==> CapabilityChar(normalized[i]))
    then Err(SchemaInvalid)
    else Ok(normalized)
  }

  predicate Lacks(value: string, c: char) {
    forall i :: 0 <= i < |value| ==> value[i] != c
  }

  /** A valid feature normalizes exactly when it fits in 96 bytes. */
  lemma FeatureNormalizes(feature: string)
    requires ValidFeature(feature)
    ensures Normalize(feature).Ok? <==> |feature| <= 96
  {
  }

  /** A valid state normalizes exactly when it fits in 96 bytes. */
  lemma StateNormalizes(state: string)
    requires ValidState(state)
    ensures Normalize(state).Ok? <==> |state| <= 96
  {
  }

  /** Uppercasing undoes lowercasing on a feature exactly when the feature has no hyphen. */
  lemma FeatureInversion(feature: string)
    requires ValidFeature(feature)
    ensures FeatureOfSuffix(CapabilitySuffix(feature)) == feature <==> Lacks(feature, '-')
  {
    var back := FeatureOfSuffix(CapabilitySuffix(feature));
    forall i | 0 <= i < |feature|
      ensures back[i] == feature[i] <==> feature[i] != '-'
    {
      assert FeatureChar(feature[i]);
    }
    if Lacks(feature, '-') {
      assert back == feature;
    }
  }

  /** Lowercasing undoes uppercasing on every capability suffix. */
  lemma SuffixInversion(suffix: string)
    requires forall i :: 0 <= i < |suffix| ==> CapabilityChar(suffix[i])
    ensures CapabilitySuffix(FeatureOfSuffix(suffix)) == suffix
  {
    var back := CapabilitySuffix(FeatureOfSuffix(suffix));
    forall i | 0 <= i < |suffix|
      ensures back[i] == suffix[i]
    {
      assert CapabilityChar(suffix[i]);
    }
  }

  /** A state is its own capability suffix exactly when it has no underscore. */
  lemma StateSuffix(state: string)
    requires ValidState(state)
    ensures CapabilitySuffix(state) == state <==> Lacks(state, '_')
  {
    var suffix := CapabilitySuffix(state);
    forall i | 0 <= i < |state|
      ensures suffix[i] == state[i] <==> state[i] != '_'
    {
      assert CapabilityChar(state[i]) || state[i] == '_';
    }
    if Lacks(state, '_') {
      assert suffix == state;
    }
  }

  /** A suffix never contains an underscore, so no state with one is named by a capability. */
  lemma SuffixLacksUnderscore(name: string)
    ensures Lacks(CapabilitySuffix(name), '_')
  {
  }

  /** The inverse never contains a hyphen, so no feature with one is named by the checker. */
  lemma InverseLacksHyphen(suffix: string)
    ensures Lacks(FeatureOfSuffix(suffix), '-')
  {
  }

  /** Distinct hyphen-free features have distinct capability suffixes. */
  lemma FeatureSuffixInjective(a: string, b: string)
    requires ValidFeature(a) && ValidFeature(b) && Lacks(a, '-') && Lacks(b, '-')
    requires CapabilitySuffix(a) == CapabilitySuffix(b)
    ensures a == b
  {
    FeatureInversion(a);
    FeatureInversion(b);
  }
}
