/** URL-safe base64 without padding, as in section 5 of RFC 4648, for whole groups of three bytes. */
module Base64Url {
  import opened Prelude
  import opened ProcessorNames

  predicate IsDigit64(c: char) {
    IsLower(c) || IsUpper(c) || IsDigit(c) || c == '_' || c == '-'
  }

  function Digit64(n: nat): (c: char)
    requires n < 64
    ensures IsDigit64(c)
  {
    if n < 26 then ('A' as int + n) as char
    else if n < 52 then ('a' as int + n - 26) as char
    else if n < 62 then ('0' as int + n - 52) as char
    else if n == 62 then '-' else '_'
  }

  function Value64(c: char): (n: nat)
    requires IsDigit64(c)
    ensures n < 64
  {
    if IsUpper(c) then c as int - 'A' as int
    else if IsLower(c) then c as int - 'a' as int + 26
    else if IsDigit(c) then c as int - '0' as int + 52
    else if c == '-' then 62 else 63
  }

  /** The four six-bit parts of three bytes. */
  function Parts(a: byte, b: byte, c: byte): (p: (nat, nat, nat, nat))
    ensures p.0 < 64 && p.1 < 64 && p.2 < 64 && p.3 < 64
  {
    (a as int / 4, a as int % 4 * 16 + b as int / 16, b as int % 16 * 4 + c as int / 64, c as int % 64)
  }

  function Joined(w: nat, x: nat, y: nat, z: nat): seq<byte>
    requires w < 64 && x < 64 && y < 64 && z < 64
  {
    [(w * 4 + x / 16) as byte, (x % 16 * 16 + y / 4) as byte, (y % 4 * 64 + z) as byte]
  }

  function Group(a: byte, b: byte, c: byte): string {
    var p := Parts(a, b, c);
    [Digit64(p.0), Digit64(p.1), Digit64(p.2), Digit64(p.3)]
  }

  function Ungroup(w: char, x: char, y: char, z: char): seq<byte>
    requires IsDigit64(w) && IsDigit64(x) && IsDigit64(y) && IsDigit64(z)
  {
    Joined(Value64(w), Value64(x), Value64(y), Value64(z))
  }

  function Encode(bytes: seq<byte>): (text: string)
    ensures |text| == |bytes| / 3 * 4 && forall i :: 0 <= i < |text| ==> IsDigit64(text[i])
  {
    if |bytes| < 3 then [] else Group(bytes[0], bytes[1], bytes[2]) + Encode(bytes[3..])
  }

  function Decode(text: string): seq<byte> {
    if |text| < 4 || !(IsDigit64(text[0]) && IsDigit64(text[1]) && IsDigit64(text[2]) && IsDigit64(text[3])) then []
    else Ungroup(text[0], text[1], text[2], text[3]) + Decode(text[4..])
  }

  lemma DigitReadsBack(n: nat)
    requires n < 64
    ensures Value64(Digit64(n)) == n
  {
  }

  lemma PartsJoin(a: byte, b: byte, c: byte)
    ensures
      var p := Parts(a, b, c);
      Joined(p.0, p.1, p.2, p.3) == [a, b, c]
  {
  }

  lemma GroupReadsBack(a: byte, b: byte, c: byte)
    ensures
      var group := Group(a, b, c);
      Ungroup(group[0], group[1], group[2], group[3]) == [a, b, c]
  {
    hide Digit64, Value64, Parts, Joined, IsDigit64;
    var p := Parts(a, b, c);
    DigitReadsBack(p.0);
    DigitReadsBack(p.1);
    DigitReadsBack(p.2);
    DigitReadsBack(p.3);
    PartsJoin(a, b, c);
  }

  /** Every whole number of groups is read back. */
  lemma {:induction false} EncodingReadsBack(bytes: seq<byte>)
    requires |bytes| % 3 == 0
    ensures Decode(Encode(bytes)) == bytes
  {
    if bytes != [] {
      GroupReadsBack(bytes[0], bytes[1], bytes[2]);
      EncodingReadsBack(bytes[3..]);
      assert Encode(bytes)[4..] == Encode(bytes[3..]);
      assert bytes == [bytes[0], bytes[1], bytes[2]] + bytes[3..];
    }
  }
}
