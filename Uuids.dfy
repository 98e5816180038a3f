/**
 * Foundation's `UUID(uuidString:)`: the textual form of section 3 of RFC 4122,
 * 32 hexadecimal digits (either case) in groups of 8-4-4-4-12 separated by hyphens.
 */
module Uuids {
  import opened Wrappers

  /** A UUID, as the 128-bit number its digits spell. */
  datatype Uuid = Uuid(value: nat)

  predicate IsHexDigit(c: char) {
    '0' <= c <= '9' || 'a' <= c <= 'f' || 'A' <= c <= 'F'
  }

  function HexDigitValue(c: char): (d: nat)
    requires IsHexDigit(c)
    ensures d < 16
  {
    if '0' <= c <= '9' then c as int - '0' as int
    else if 'a' <= c <= 'f' then c as int - 'a' as int + 10
    else c as int - 'A' as int + 10
  }

  predicate IsHyphenPosition(i: int) {
    i == 8 || i == 13 || i == 18 || i == 23
  }

  /** Well-formed text of a UUID: 36 characters, hyphens at the four group breaks, hex digits elsewhere. */
  predicate IsUuidString(s: string) {
    && |s| == 36
    && (forall i :: 0 <= i < 36 && IsHyphenPosition(i) ==> s[i] == '-')
    && (forall i :: 0 <= i < 36 && !IsHyphenPosition(i) ==> IsHexDigit(s[i]))
  }

  /** Position in the 36-character text of the `k`-th of the 32 digits. */
  function DigitPosition(k: nat): (i: nat)
    requires k < 32
    ensures i < 36 && !IsHyphenPosition(i)
  {
    if k < 8 then k else if k < 12 then k + 1 else if k < 16 then k + 2 else if k < 20 then k + 3 else k + 4
  }

  predicate IsHexDigits(s: string) {
    forall i :: 0 <= i < |s| ==> IsHexDigit(s[i])
  }

  /** The 32 digits of a well-formed UUID text, hyphens dropped. */
  function UuidDigits(s: string): (d: string)
    requires IsUuidString(s)
    ensures |d| == 32 && IsHexDigits(d)
  {
    seq(32, k requires 0 <= k < 32 => s[DigitPosition(k)])
  }

  /** Big-endian value of a string of hex digits. */
  function HexValue(s: string): nat
    requires IsHexDigits(s)
  {
    if s == [] then 0 else HexValue(s[..|s| - 1]) * 16 + HexDigitValue(s[|s| - 1])
  }

  /** `UUID(uuidString: s)`: a UUID when the text is well formed, nothing otherwise. */
  function ParseUuid(s: string): (r: Option<Uuid>)
    ensures r.Some? <==> IsUuidString(s)
  {
    if IsUuidString(s) then Some(Uuid(HexValue(UuidDigits(s)))) else None
  }

  /** The last digit of a UUID text fixes its value modulo 16. */
  lemma ParsedLastDigit(s: string)
    requires IsUuidString(s)
    ensures ParseUuid(s).value.value % 16 == HexDigitValue(s[35])
  {
    var d := UuidDigits(s);
    assert d[31] == s[35];
    assert d[..31] + [d[31]] == d;
  }
}
