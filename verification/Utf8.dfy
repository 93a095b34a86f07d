/** UTF-8 (RFC 3629), decoding malformed input with the replacement character. */
module Utf8 {
  import opened IdempotencyRecords

  const REPLACEMENT: char := '\U{FFFD}'

  function EncodeChar(c: char): Bytes {
    var n := c as int;
    if n < 0x80 then [n]
    else if n < 0x800 then [0xC0 + n / 64, 0x80 + n % 64]
    else if n < 0x1_0000 then [0xE0 + n / 4096, 0x80 + n / 64 % 64, 0x80 + n % 64]
    else [0xF0 + n / 262144, 0x80 + n / 4096 % 64, 0x80 + n / 64 % 64, 0x80 + n % 64]
  }

  function Encode(s: string): Bytes {
    if s == "" then [] else EncodeChar(s[0]) + Encode(s[1..])
  }

  /** Whether byte `i` exists and lies in the range. */
  predicate InRange(data: Bytes, i: nat, low: byte, high: byte) {
    i < |data| && low <= data[i] <= high
  }

  /** The payload bits of a continuation byte. */
  function Low(data: Bytes, i: nat): int
    requires i < |data|
  {
    data[i] as int - 0x80
  }

  /** The character at the front and the bytes it takes; a malformed front is replaced together
      with the longest part of it that could still have been valid. */
  function DecodeChar(data: Bytes): (r: (char, nat))
    requires data != []
    ensures 1 <= r.1 <= |data|
  {
    var b: int := data[0];
    if b < 0x80 then (b as char, 1)
    else if 0xC2 <= b < 0xE0 then
      if InRange(data, 1, 0x80, 0xBF) then (((b - 0xC0) * 64 + Low(data, 1)) as char, 2) else (REPLACEMENT, 1)
    else if 0xE0 <= b < 0xF0 then
      if !InRange(data, 1, if b == 0xE0 then 0xA0 else 0x80, if b == 0xED then 0x9F else 0xBF) then (REPLACEMENT, 1)
      else if !InRange(data, 2, 0x80, 0xBF) then (REPLACEMENT, 2)
      else (((b - 0xE0) * 4096 + Low(data, 1) * 64 + Low(data, 2)) as char, 3)
    else if 0xF0 <= b < 0xF5 then
      if !InRange(data, 1, if b == 0xF0 then 0x90 else 0x80, if b == 0xF4 then 0x8F else 0xBF) then (REPLACEMENT, 1)
      else if !InRange(data, 2, 0x80, 0xBF) then (REPLACEMENT, 2)
      else if !InRange(data, 3, 0x80, 0xBF) then (REPLACEMENT, 3)
      else (((b - 0xF0) * 262144 + Low(data, 1) * 4096 + Low(data, 2) * 64 + Low(data, 3)) as char, 4)
    else (REPLACEMENT, 1)
  }

  function Decode(data: Bytes): string {
    if data == [] then ""
    else
      var (c, used) := DecodeChar(data);
      [c] + Decode(data[used..])
  }

  /** The groups of six bits of a character number. */
  lemma SixBitGroups(n: nat)
    ensures n == n / 64 * 64 + n % 64
    ensures n == n / 4096 * 4096 + n / 64 % 64 * 64 + n % 64
    ensures n == n / 262144 * 262144 + n / 4096 % 64 * 4096 + n / 64 % 64 * 64 + n % 64
  {
    assert n / 64 / 64 == n / 4096 && n / 4096 / 64 == n / 262144;
  }

  lemma CharIsDecoded(c: char, rest: Bytes)
    ensures DecodeChar(EncodeChar(c) + rest) == (c, |EncodeChar(c)|)
  {
    var n := c as int;
    SixBitGroups(n);
    var data := EncodeChar(c) + rest;
    assert forall i | 0 <= i < |EncodeChar(c)| :: data[i] == EncodeChar(c)[i];
  }

  /** Decoding undoes encoding, for every text. */
  lemma {:induction false} RoundTrip(s: string)
    ensures Decode(Encode(s)) == s
  {
    hide DecodeChar, EncodeChar;
    if s != "" {
      var rest := Encode(s[1..]);
      CharIsDecoded(s[0], rest);
      CharIsSomething(s[0]);
      var data := EncodeChar(s[0]) + rest;
      assert data[|EncodeChar(s[0])|..] == rest;
      RoundTrip(s[1..]);
    }
  }

  lemma CharIsSomething(c: char)
    ensures EncodeChar(c) != []
  {
  }

  lemma EncodeInjective(s: string, t: string)
    requires Encode(s) == Encode(t)
    ensures s == t
  {
    RoundTrip(s);
    RoundTrip(t);
  }

  predicate IsAscii(s: string) {
    forall i | 0 <= i < |s| :: s[i] as int < 128
  }

  /** ASCII text is its own encoding. */
  function AsciiBytes(s: string): (data: Bytes)
    requires IsAscii(s)
    ensures |data| == |s|
  {
    if s == "" then [] else var b: byte := s[0] as int; [b] + AsciiBytes(s[1..])
  }

  lemma {:induction false} AsciiIsDecoded(s: string)
    requires IsAscii(s)
    ensures Decode(AsciiBytes(s)) == s
  {
    if s != "" {
      var data := AsciiBytes(s);
      assert data[0] == s[0] as int && data[1..] == AsciiBytes(s[1..]);
      AsciiIsDecoded(s[1..]);
      assert DecodeChar(data) == (s[0], 1);
    }
  }

  // The bytes themselves (section 3 of RFC 3629)

  predicate Continues(b: byte) {
    0x80 <= b < 0xC0
  }

  /** One to four bytes, the number of them and the bits of the character in their places. */
  lemma EncodedBytes(c: char)
    ensures var n, bytes := c as int, EncodeChar(c);
      if n < 0x80 then |bytes| == 1 && bytes[0] as int == n
      else if n < 0x800 then
        && |bytes| == 2 && 0xC2 <= bytes[0] < 0xE0 && Continues(bytes[1])
        && n == (bytes[0] as int - 0xC0) * 64 + (bytes[1] as int - 0x80)
      else if n < 0x1_0000 then
        && |bytes| == 3 && 0xE0 <= bytes[0] < 0xF0 && Continues(bytes[1]) && Continues(bytes[2])
        && n == (bytes[0] as int - 0xE0) * 4096 + (bytes[1] as int - 0x80) * 64 + (bytes[2] as int - 0x80)
      else
        && |bytes| == 4 && 0xF0 <= bytes[0] < 0xF5
        && Continues(bytes[1]) && Continues(bytes[2]) && Continues(bytes[3])
        && n == (bytes[0] as int - 0xF0) * 262144 + (bytes[1] as int - 0x80) * 4096 +
          (bytes[2] as int - 0x80) * 64 + (bytes[3] as int - 0x80)
  {
    SixBitGroups(c as int);
  }

  /** A text is encoded character by character. */
  lemma {:induction false} EncodedConcat(s: string, t: string)
    ensures Encode("") == [] && Encode(s + t) == Encode(s) + Encode(t)
  {
    if s == "" {
      assert s + t == t;
    } else {
      assert (s + t)[1..] == s[1..] + t;
      EncodedConcat(s[1..], t);
    }
  }

  /** A byte that starts no character, a character cut short, an overlong form, a surrogate. */
  lemma MalformedIsReplaced()
    ensures Decode([0xFF]) == Decode([0xBF]) == [REPLACEMENT]
    ensures Decode([0xE2, 0x82]) == [REPLACEMENT] && Decode([0xE2, 0x28]) == [REPLACEMENT, '(']
    ensures Decode([0xC0, 0x80]) == [REPLACEMENT, REPLACEMENT]
    ensures Decode([0xED, 0xA0]) == [REPLACEMENT, REPLACEMENT]
  {
    var none: Bytes := [];
    DecodeOneMore([0xFF], none);
    DecodeOneMore([0xBF], none);
    DecodeOneMore([0xE2, 0x82], none);
    DecodeOneMore([0xE2, 0x28], [0x28]);
    DecodeOneMore([0x28], none);
    DecodeOneMore([0xC0, 0x80], [0x80]);
    DecodeOneMore([0x80], none);
    DecodeOneMore([0xED, 0xA0], [0xA0]);
    DecodeOneMore([0xA0], none);
  }

  lemma DecodeOneMore(data: Bytes, rest: Bytes)
    requires data != [] && data[DecodeChar(data).1..] == rest
    ensures Decode(data) == [DecodeChar(data).0] + Decode(rest)
  {
  }
}
