/** Structured processor identities and their one-line token. */
module IdentityToken {
  import opened Prelude
  import opened ProcessorNames

  type u32 = n: nat | n <= U32_MAX

  datatype ProcessorArchitecture = Arm64 | X86_64

  datatype ProcessorIdentity =
    | Arm(implementer: string, part: string, revision: string, variant: string)
    | X86(family: u32, microcode: string, model: u32, stepping: u32, vendor: string)

  /** `valid_processor_identity_value`. */
  predicate ValidIdentityValue(value: string) {
    0 < |value| <= 64
    && forall i :: 0 <= i < |value| ==> IsLower(value[i]) || IsDigit(value[i]) || value[i] == '-'
  }

  predicate ValidIdentity(identity: ProcessorIdentity) {
    match identity
    case Arm(implementer, part, revision, variant) =>
      ValidIdentityValue(implementer) && ValidIdentityValue(part)
      && ValidIdentityValue(revision) && ValidIdentityValue(variant)
    case X86(_, microcode, _, _, vendor) =>
      ValidIdentityValue(vendor) && ValidIdentityValue(microcode)
  }

  // Decimal numerals, as `format!` writes them and `str::parse::<u32>` reads them.

  predicate AllDigits(s: string) {
    forall i :: 0 <= i < |s| ==> IsDigit(s[i])
  }

  function DigitChar(d: nat): (c: char)
    requires d < 10
    ensures IsDigit(c)
  {
    ('0' as int + d) as char
  }

  function Decimal(n: nat): string {
    if n < 10 then [DigitChar(n)] else Decimal(n / 10) + [DigitChar(n % 10)]
  }

  function Numeral(s: string): nat
    requires AllDigits(s)
  {
    if s == "" then 0 else Numeral(s[..|s| - 1]) * 10 + (s[|s| - 1] as int - '0' as int)
  }

  /** `u32::from_str`: one optional '+', then digits, and no overflow. */
  function ParseU32(s: string): Option<u32> {
    var digits := if s != "" && s[0] == '+' then s[1..] else s;
    if digits != "" && AllDigits(digits) && Numeral(digits) <= U32_MAX then Some(Numeral(digits)) else None
  }

  /** A numeral in the form `format!` writes: digits without a leading zero. */
  predicate CanonicalNumeral(s: string) {
    s != "" && AllDigits(s) && (s[0] != '0' || |s| == 1)
  }

  lemma {:induction false} DecimalReadsBack(n: nat)
    ensures CanonicalNumeral(Decimal(n)) && Numeral(Decimal(n)) == n
    ensures n > 0 ==> Decimal(n)[0] != '0'
  {
    if n >= 10 {
      DecimalReadsBack(n / 10);
      var s := Decimal(n);
      assert s[..|s| - 1] == Decimal(n / 10);
    } else {
      assert Decimal(n)[..0] == "";
    }
  }

  lemma {:induction false} CanonicalIsDecimal(s: string)
    requires CanonicalNumeral(s)
    ensures Decimal(Numeral(s)) == s
    ensures s[0] != '0' ==> Numeral(s) > 0
  {
    var init := s[..|s| - 1];
    assert s == init + [s[|s| - 1]];
    if init == "" {
      assert Numeral(init) == 0;
    } else {
      CanonicalIsDecimal(init);
      assert Numeral(s) / 10 == Numeral(init) && Numeral(s) % 10 == s[|s| - 1] as int - '0' as int;
    }
  }

  /** Reading a numeral and writing it again returns the text exactly when the text is canonical. */
  lemma NumeralRoundTrip(s: string)
    requires ParseU32(s).Some?
    ensures Decimal(ParseU32(s).value) == s <==> CanonicalNumeral(s)
  {
    DecimalReadsBack(ParseU32(s).value);
    if CanonicalNumeral(s) {
      CanonicalIsDecimal(s);
    }
  }

  lemma ParseDecimal(n: u32)
    ensures ParseU32(Decimal(n)) == Some(n)
  {
    DecimalReadsBack(n);
  }

  // Dot-separated segments, as `format!` joins them and `str::split('.')` cuts them.

  function Join(segments: seq<string>): string {
    if segments == [] then ""
    else if |segments| == 1 then segments[0]
    else segments[0] + "." + Join(segments[1..])
  }

  function Split(s: string): (segments: seq<string>)
    ensures |segments| > 0
  {
    if s == "" then [""]
    else
      var rest := Split(s[1..]);
      if s[0] == '.' then [""] + rest else [[s[0]] + rest[0]] + rest[1..]
  }

  lemma {:induction false} JoinSplit(s: string)
    ensures Join(Split(s)) == s
  {
    if s != "" {
      JoinSplit(s[1..]);
      var rest := Split(s[1..]);
      if s[0] == '.' {
        assert ([""] + rest)[1..] == rest;
      } else {
        assert ([[s[0]] + rest[0]] + rest[1..])[1..] == rest[1..];
      }
      assert s == [s[0]] + s[1..];
    }
  }

  lemma {:induction false} SplitHead(segment: string, rest: string)
    requires Lacks(segment, '.')
    ensures Split(segment + "." + rest) == [segment] + Split(rest)
  {
    var s := segment + "." + rest;
    if segment == "" {
      assert s[1..] == rest;
    } else {
      SplitHead(segment[1..], rest);
      assert s[1..] == segment[1..] + "." + rest;
      assert segment == [segment[0]] + segment[1..];
      assert segment[0] != '.';
    }
  }

  lemma {:induction false} SplitWhole(segment: string)
    requires Lacks(segment, '.')
    ensures Split(segment) == [segment]
  {
    if segment != "" {
      SplitWhole(segment[1..]);
      assert segment == [segment[0]] + segment[1..];
      assert segment[0] != '.';
    }
  }

  lemma {:induction false} SplitJoin(segments: seq<string>)
    requires segments != [] && forall i :: 0 <= i < |segments| ==> Lacks(segments[i], '.')
    ensures Split(Join(segments)) == segments
  {
    if |segments| == 1 {
      SplitWhole(segments[0]);
    } else {
      SplitJoin(segments[1..]);
      SplitHead(segments[0], Join(segments[1..]));
    }
  }

  /** The segments of the token, in the order both architectures fix. */
  function TokenSegments(identity: ProcessorIdentity): seq<string> {
    match identity
    case Arm(implementer, part, revision, variant) => ["arm", implementer, variant, part, revision]
    case X86(family, microcode, model, stepping, vendor) =>
      ["x86", vendor, Decimal(family), Decimal(model), Decimal(stepping), microcode]
  }

  function EncodeIdentityToken(identity: ProcessorIdentity): string {
    Join(TokenSegments(identity))
  }

  function DecodeIdentityToken(token: string): Option<ProcessorIdentity> {
    var s := Split(token);
    if |s| == 6 && s[0] == "x86" then
      var family, model, stepping := ParseU32(s[2]), ParseU32(s[3]), ParseU32(s[4]);
      if family.None? || model.None? || stepping.None? then None
      else if !ValidIdentityValue(s[1]) || !ValidIdentityValue(s[5]) then None
      else Some(X86(family.value, s[5], model.value, stepping.value, s[1]))
    else if |s| == 5 && s[0] == "arm" then
      if ValidIdentityValue(s[1]) && ValidIdentityValue(s[2]) && ValidIdentityValue(s[3]) && ValidIdentityValue(s[4])
      then Some(Arm(s[1], s[3], s[4], s[2]))
      else None
    else None
  }

  /** The numeric segments of an x86 token carry no sign and no leading zero. */
  predicate CanonicalToken(token: string) {
    var s := Split(token);
    |s| == 6 ==> CanonicalNumeral(s[2]) && CanonicalNumeral(s[3]) && CanonicalNumeral(s[4])
  }

  lemma SegmentsLackDots(identity: ProcessorIdentity)
    requires ValidIdentity(identity)
    ensures forall i :: 0 <= i < |TokenSegments(identity)| ==> Lacks(TokenSegments(identity)[i], '.')
  {
    if identity.X86? {
      DecimalReadsBack(identity.family);
      DecimalReadsBack(identity.model);
      DecimalReadsBack(identity.stepping);
    }
  }

  /** The decoder inverts the encoder exactly on the identities that validate. */
  lemma TokenRoundTrip(identity: ProcessorIdentity)
    ensures DecodeIdentityToken(EncodeIdentityToken(identity)) == Some(identity) <==> ValidIdentity(identity)
  {
    if ValidIdentity(identity) {
      SegmentsLackDots(identity);
      SplitJoin(TokenSegments(identity));
      if identity.X86? {
        ParseDecimal(identity.family);
        ParseDecimal(identity.model);
        ParseDecimal(identity.stepping);
      }
    }
  }

  /** The encoder inverts the decoder exactly on canonical tokens. */
  lemma TokenIsCanonical(token: string)
    requires DecodeIdentityToken(token).Some?
    ensures ValidIdentity(DecodeIdentityToken(token).value)
    ensures EncodeIdentityToken(DecodeIdentityToken(token).value) == token <==> CanonicalToken(token)
  {
    var identity := DecodeIdentityToken(token).value;
    var s := Split(token);
    JoinSplit(token);
    SegmentsLackDots(identity);
    SplitJoin(TokenSegments(identity));
    if identity.X86? {
      NumeralRoundTrip(s[2]);
      NumeralRoundTrip(s[3]);
      NumeralRoundTrip(s[4]);
      assert s == ["x86", s[1], s[2], s[3], s[4], s[5]];
    } else {
      assert s == ["arm", s[1], s[2], s[3], s[4]];
    }
  }

  /** A decoded token that the encoder does not return: a leading zero is read and dropped. */
  lemma LeadingZeroIsDropped(vendor: string, microcode: string)
    requires ValidIdentityValue(vendor) && ValidIdentityValue(microcode)
    ensures
      var token := Join(["x86", vendor, "06", "1", "1", microcode]);
      && DecodeIdentityToken(token) == Some(X86(6, microcode, 1, 1, vendor))
      && EncodeIdentityToken(X86(6, microcode, 1, 1, vendor)) != token
  {
    var segments := ["x86", vendor, "06", "1", "1", microcode];
    SplitJoin(segments);
    assert "06"[..1] == "0" && "0"[..0] == "" && "1"[..0] == "";
    assert Numeral("0") == 0 && Numeral("06") == 6 && Numeral("1") == 1;
    assert !CanonicalNumeral(segments[2]);
    TokenIsCanonical(Join(segments));
  }
}
