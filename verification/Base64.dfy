/** Base64 (section 4 of RFC 4648), with the lenient decoder of the standard library. */
module Base64 {
  import opened Wrappers
  import opened IdempotencyRecords
  import Text

  type Sextet = v: int | 0 <= v < 64

  function DigitOf(v: Sextet): char {
    if v < 26 then ('A' as int + v) as char
    else if v < 52 then ('a' as int + v - 26) as char
    else if v < 62 then ('0' as int + v - 52) as char
    else if v == 62 then '+'
    else '/'
  }

  function ValueOf(c: char): Option<Sextet> {
    if 'A' <= c <= 'Z' then Some(c as int - 'A' as int)
    else if 'a' <= c <= 'z' then Some(c as int - 'a' as int + 26)
    else if '0' <= c <= '9' then Some(c as int - '0' as int + 52)
    else if c == '+' then Some(62)
    else if c == '/' then Some(63)
    else None
  }

  function Encode(data: Bytes): string {
    if data == [] then ""
    else if |data| == 1 then
      [DigitOf(data[0] / 4), DigitOf(data[0] % 4 * 16), '=', '=']
    else if |data| == 2 then
      [DigitOf(data[0] / 4), DigitOf(data[0] % 4 * 16 + data[1] / 16), DigitOf(data[1] % 16 * 4), '=']
    else
      Quad(data[0], data[1], data[2]) + Encode(data[3..])
  }

  function Quad(a: byte, b: byte, c: byte): string {
    [DigitOf(a / 4), DigitOf(a % 4 * 16 + b / 16), DigitOf(b % 16 * 4 + c / 64), DigitOf(c % 64)]
  }

  /** The decoder's scan: `position` in the current quad, the bits `left` over from the last
      digit, and the pads seen since.  Characters outside the alphabet are skipped, and enough
      pads end the scan, whatever follows. */
  function Scan(s: string, position: nat, left: Sextet, pads: nat): Option<Bytes>
    requires position < 4
    requires position == 2 ==> left < 16
    requires position == 3 ==> left < 4
  {
    if s == "" then
      if position == 0 then Some([]) else None
    else if s[0] == '=' then
      if position >= 2 && position + pads + 1 >= 4 then Some([])
      else Scan(s[1..], position, left, if position >= 2 then pads + 1 else pads)
    else
      match ValueOf(s[0])
      case None => Scan(s[1..], position, left, pads)
      case Some(v) =>
        if position == 0 then Scan(s[1..], 1, v, 0)
        else if position == 1 then Emit(left * 4 + v / 16, Scan(s[1..], 2, v % 16, 0))
        else if position == 2 then Emit(left * 16 + v / 4, Scan(s[1..], 3, v % 4, 0))
        else Emit(left * 64 + v, Scan(s[1..], 0, 0, 0))
  }

  function Emit(b: byte, rest: Option<Bytes>): Option<Bytes> {
    match rest
    case None => None
    case Some(data) => Some([b] + data)
  }

  function Decode(s: string): Option<Bytes> {
    Scan(s, 0, 0, 0)
  }

  lemma ValueOfDigit(v: Sextet)
    ensures ValueOf(DigitOf(v)) == Some(v) && DigitOf(v) != '=' && DigitOf(v) as int < 128
  {
  }

  lemma ScanDigit(v: Sextet, rest: string, position: nat, left: Sextet, pads: nat)
    requires position < 4
    requires position == 2 ==> left < 16
    requires position == 3 ==> left < 4
    ensures Scan([DigitOf(v)] + rest, position, left, pads) ==
      if position == 0 then Scan(rest, 1, v, 0)
      else if position == 1 then Emit(left * 4 + v / 16, Scan(rest, 2, v % 16, 0))
      else if position == 2 then Emit(left * 16 + v / 4, Scan(rest, 3, v % 4, 0))
      else Emit(left * 64 + v, Scan(rest, 0, 0, 0))
  {
    ValueOfDigit(v);
    assert ([DigitOf(v)] + rest)[1..] == rest;
  }

  /** The bits of three bytes, regrouped into four digits and back. */
  lemma QuadBits(a: byte, b: byte, c: byte)
    ensures a / 4 < 64 && a % 4 * 16 + b / 16 < 64 && b % 16 * 4 + c / 64 < 64
    ensures a / 4 * 4 + (a % 4 * 16 + b / 16) / 16 == a
    ensures (a % 4 * 16 + b / 16) % 16 * 16 + (b % 16 * 4 + c / 64) / 4 == b
    ensures (b % 16 * 4 + c / 64) % 4 * 64 + c % 64 == c
  {
    assert (a % 4 * 16 + b / 16) / 16 == a % 4 && (a % 4 * 16 + b / 16) % 16 == b / 16;
    assert (b % 16 * 4 + c / 64) / 4 == b % 16 && (b % 16 * 4 + c / 64) % 4 == c / 64;
  }

  /** Four digits, scanned from the start of a quad. */
  lemma ScanQuad(v0: Sextet, v1: Sextet, v2: Sextet, v3: Sextet, rest: string)
    ensures Decode([DigitOf(v0), DigitOf(v1), DigitOf(v2), DigitOf(v3)] + rest) ==
      Emit(v0 * 4 + v1 / 16, Emit(v1 % 16 * 16 + v2 / 4, Emit(v2 % 4 * 64 + v3, Decode(rest))))
  {
    var s3 := [DigitOf(v3)] + rest;
    var s2 := [DigitOf(v2)] + s3;
    var s1 := [DigitOf(v1)] + s2;
    assert [DigitOf(v0), DigitOf(v1), DigitOf(v2), DigitOf(v3)] + rest == [DigitOf(v0)] + s1;
    ScanDigit(v0, s1, 0, 0, 0);
    ScanDigit(v1, s2, 1, v0, 0);
    ScanDigit(v2, s3, 2, v1 % 16, 0);
    ScanDigit(v3, rest, 3, v2 % 4, 0);
  }

  lemma DecodeQuad(a: byte, b: byte, c: byte, rest: string)
    ensures Decode(Quad(a, b, c) + rest) == Emit(a, Emit(b, Emit(c, Decode(rest))))
  {
    QuadBits(a, b, c);
    ScanQuad(a / 4, a % 4 * 16 + b / 16, b % 16 * 4 + c / 64, c % 64, rest);
  }

  /** Two digits and two pads give one byte. */
  lemma ScanTwoPads(v0: Sextet, v1: Sextet)
    ensures Decode([DigitOf(v0), DigitOf(v1), '=', '=']) == Some([v0 * 4 + v1 / 16])
  {
    var s1 := [DigitOf(v1)] + "==";
    assert [DigitOf(v0), DigitOf(v1), '=', '='] == [DigitOf(v0)] + s1;
    ScanDigit(v0, s1, 0, 0, 0);
    ScanDigit(v1, "==", 1, v0, 0);
    assert "=="[1..] == "=";
    assert Scan("==", 2, v1 % 16, 0) == Scan("=", 2, v1 % 16, 1) == Some([]);
    assert [v0 * 4 + v1 / 16] + [] == [v0 * 4 + v1 / 16];
  }

  /** Three digits and one pad give two bytes. */
  lemma ScanOnePad(v0: Sextet, v1: Sextet, v2: Sextet)
    ensures Decode([DigitOf(v0), DigitOf(v1), DigitOf(v2), '=']) ==
      Some([v0 * 4 + v1 / 16, v1 % 16 * 16 + v2 / 4])
  {
    var s2 := [DigitOf(v2)] + "=";
    var s1 := [DigitOf(v1)] + s2;
    assert [DigitOf(v0), DigitOf(v1), DigitOf(v2), '='] == [DigitOf(v0)] + s1;
    ScanDigit(v0, s1, 0, 0, 0);
    ScanDigit(v1, s2, 1, v0, 0);
    ScanDigit(v2, "=", 2, v1 % 16, 0);
    assert Scan("=", 3, v2 % 4, 0) == Some([]);
    var a, b := v0 * 4 + v1 / 16, v1 % 16 * 16 + v2 / 4;
    assert [a] + ([b] + []) == [a, b];
  }

  lemma DecodeOne(a: byte)
    ensures Decode(Encode([a])) == Some([a])
  {
    var v0: Sextet, v1: Sextet := a / 4, a % 4 * 16;
    assert v0 * 4 + v1 / 16 == a;
    ScanTwoPads(v0, v1);
  }

  lemma DecodeTwo(a: byte, b: byte)
    ensures Decode(Encode([a, b])) == Some([a, b])
  {
    QuadBits(a, b, 0);
    var v0: Sextet, v1: Sextet, v2: Sextet := a / 4, a % 4 * 16 + b / 16, b % 16 * 4;
    assert v0 * 4 + v1 / 16 == a && v1 % 16 * 16 + v2 / 4 == b;
    assert Encode([a, b]) == [DigitOf(v0), DigitOf(v1), DigitOf(v2), '='];
    hide *;
    ScanOnePad(v0, v1, v2);
  }

  /** Decoding gives back every byte string that was encoded. */
  lemma {:induction false} RoundTrip(data: Bytes)
    ensures Decode(Encode(data)) == Some(data)
  {
    if |data| == 1 {
      DecodeOne(data[0]);
      assert data == [data[0]];
    } else if |data| == 2 {
      DecodeTwo(data[0], data[1]);
      assert data == [data[0], data[1]];
    } else if |data| > 2 {
      RoundTrip(data[3..]);
      DecodeQuad(data[0], data[1], data[2], Encode(data[3..]));
      assert data == [data[0]] + ([data[1]] + ([data[2]] + data[3..]));
    }
  }

  /** The encoding is plain ASCII text. */
  lemma {:induction false} EncodedIsAscii(data: Bytes)
    ensures forall c <- Encode(data) :: c as int < 128
  {
    if |data| > 2 {
      EncodedIsAscii(data[3..]);
    }
  }

  /** The digits in their order: capital letters, small letters, decimal digits, plus and slash. */
  lemma AlphabetIs(v: Sextet)
    ensures v < 26 ==> DigitOf(v) == Text.CAPITAL_LETTERS[v]
    ensures 26 <= v < 52 ==> DigitOf(v) == Text.SMALL_LETTERS[v - 26]
    ensures 52 <= v < 62 ==> DigitOf(v) == "0123456789"[v - 52]
    ensures v == 62 ==> DigitOf(v) == '+'
    ensures v == 63 ==> DigitOf(v) == '/'
  {
    if v < 52 {
      Text.LettersInOrder(if v < 26 then v else v - 26);
    }
  }

  /** Three bytes are four digits with the same bits in the same order. */
  lemma ThreeBytesAreFourDigits(a: byte, b: byte, c: byte, rest: Bytes)
    returns (v0: Sextet, v1: Sextet, v2: Sextet, v3: Sextet)
    ensures Encode([a, b, c] + rest) == [DigitOf(v0), DigitOf(v1), DigitOf(v2), DigitOf(v3)] + Encode(rest)
    ensures a as int * 65536 + b as int * 256 + c as int == v0 * 262144 + v1 * 4096 + v2 * 64 + v3
  {
    QuadBits(a, b, c);
    v0, v1, v2, v3 := a / 4, a % 4 * 16 + b / 16, b % 16 * 4 + c / 64, c % 64;
    hide DigitOf;
    var data := [a, b, c] + rest;
    assert data[0] == a && data[1] == b && data[2] == c && data[3..] == rest;
  }

  /** Two bytes, or one, at the end are three digits, or two, with zeros after the bits and pads
      after the digits. */
  lemma LastBytesArePadded(a: byte, b: byte)
    returns (v0: Sextet, v1: Sextet, v2: Sextet, w1: Sextet)
    ensures Encode([a, b]) == [DigitOf(v0), DigitOf(v1), DigitOf(v2), '=']
    ensures a as int * 1024 + b as int * 4 == v0 * 4096 + v1 * 64 + v2
    ensures Encode([a]) == [DigitOf(v0), DigitOf(w1), '=', '='] && a as int * 16 == v0 * 64 + w1
    ensures Encode([]) == ""
  {
    QuadBits(a, b, 0);
    v0, v1, v2, w1 := a / 4, a % 4 * 16 + b / 16, b % 16 * 4, a % 4 * 16;
    hide DigitOf;
  }
}
