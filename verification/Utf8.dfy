/** The bytes of a character in UTF-8, for the codes of one to four bytes. */
module Utf8 {
  import opened Optional

  const MAX_CODE: nat := 0x10FFFF

  /** `print_unicode_char`. */
  function Encode(code: nat): seq<nat> {
    if code <= 0x7F then [code]
    else if code <= 0x7FF then [0xC0 + code / 64, 0x80 + code % 64]
    else if code <= 0xFFFF then [0xE0 + code / 4096, 0x80 + code / 64 % 64, 0x80 + code % 64]
    else if code <= MAX_CODE then
      [0xF0 + code / 262144, 0x80 + code / 4096 % 64, 0x80 + code / 64 % 64, 0x80 + code % 64]
    else []
  }

  predicate Continues(b: nat) {
    0x80 <= b < 0xC0
  }

  /** The character at the front of `bytes` and how many bytes it takes: the first byte says how
      many follow, and the shortest form is required. */
  function Decode(bytes: seq<nat>): Option<(nat, nat)> {
    if bytes == [] then None
    else
      var b := bytes[0];
      if b < 0x80 then Some((b, 1))
      else if 0xC0 <= b < 0xE0 && |bytes| >= 2 && Continues(bytes[1]) then
        var code := (b - 0xC0) * 64 + (bytes[1] - 0x80);
        if code > 0x7F then Some((code, 2)) else None
      else if 0xE0 <= b < 0xF0 && |bytes| >= 3 && Continues(bytes[1]) && Continues(bytes[2]) then
        var code := (b - 0xE0) * 4096 + (bytes[1] - 0x80) * 64 + (bytes[2] - 0x80);
        if code > 0x7FF then Some((code, 3)) else None
      else if 0xF0 <= b < 0xF8 && |bytes| >= 4 && Continues(bytes[1]) && Continues(bytes[2]) && Continues(bytes[3]) then
        var code := (b - 0xF0) * 262144 + (bytes[1] - 0x80) * 4096 + (bytes[2] - 0x80) * 64 + (bytes[3] - 0x80);
        if 0xFFFF < code <= MAX_CODE then Some((code, 4)) else None
      else None
  }

  /** The base-64 digits of a number. */
  lemma Digits64(code: nat)
    ensures code == code / 64 * 64 + code % 64
    ensures code == code / 4096 * 4096 + code / 64 % 64 * 64 + code % 64
    ensures code == code / 262144 * 262144 + code / 4096 % 64 * 4096 + code / 64 % 64 * 64 + code % 64
  {
    assert code / 64 / 64 == code / 4096;
    assert code / 4096 / 64 == code / 262144;
  }

  /** Decoding what was written gives the character back, whatever bytes follow; each written
      value is a byte. */
  lemma RoundTrip(code: nat, more: seq<nat>)
    requires code <= MAX_CODE
    ensures Decode(Encode(code) + more) == Some((code, |Encode(code)|))
    ensures forall k :: 0 <= k < |Encode(code)| ==> Encode(code)[k] < 256
  {
    Digits64(code);
  }

  /** Characters of one, two, three and four bytes. */
  lemma Examples()
    ensures Encode(0x41) == [0x41] && Encode(0xE9) == [0xC3, 0xA9] && Encode(0x20AC) == [0xE2, 0x82, 0xAC]
    ensures Encode(0x1F600) == [0xF0, 0x9F, 0x98, 0x80]
  {
  }
}
