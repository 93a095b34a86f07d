/** Percent-encoding of query text (section 2.1 of RFC 3986), with plus for space. */
module Percent {
  import opened IdempotencyRecords
  import opened Text
  import Utf8

  /** Letters, digits and `_.-~` stand for themselves. */
  predicate AlwaysSafe(b: byte) {
    || ('a' as int <= b <= 'z' as int) || ('A' as int <= b <= 'Z' as int) || ('0' as int <= b <= '9' as int)
    || b == '_' as int || b == '.' as int || b == '-' as int || b == '~' as int
  }

  function QuoteByte(b: byte): string {
    if AlwaysSafe(b) then [b as char]
    else if b == 32 then "+"
    else ['%', UpperHex(b / 16), UpperHex(b % 16)]
  }

  function QuoteBytes(data: Bytes): string {
    if data == [] then "" else QuoteByte(data[0]) + QuoteBytes(data[1..])
  }

  function QuotePlus(s: string): string {
    QuoteBytes(Utf8.Encode(s))
  }

  function PlusToSpace(s: string): string {
    if s == "" then "" else [if s[0] == '+' then ' ' else s[0]] + PlusToSpace(s[1..])
  }

  /** `%` and two hexadecimal digits are one byte; any other `%` stands for itself. */
  function UnquoteBytes(s: string): Bytes
    requires Utf8.IsAscii(s)
  {
    if s == "" then []
    else if s[0] == '%' && |s| >= 3 && IsHex(s[1]) && IsHex(s[2]) then
      [16 * HexValue(s[1]) + HexValue(s[2])] + UnquoteBytes(s[3..])
    else
      var b: byte := s[0] as int;
      [b] + UnquoteBytes(s[1..])
  }

  /** Length of the ASCII run at the front. */
  function AsciiRun(s: string): (n: nat)
    ensures n <= |s| && Utf8.IsAscii(s[..n])
    ensures s != "" && s[0] as int < 128 ==> n > 0
  {
    if s == "" || s[0] as int >= 128 then 0
    else
      var n := AsciiRun(s[1..]) + 1;
      assert s[..n] == [s[0]] + s[1..][..n - 1];
      n
  }

  /** Each ASCII run is unquoted to bytes and decoded; other characters are kept. */
  function UnquoteRuns(s: string): string
    decreases |s|
  {
    if s == "" then ""
    else
      var n := AsciiRun(s);
      if n == 0 then [s[0]] + UnquoteRuns(s[1..])
      else Utf8.Decode(UnquoteBytes(s[..n])) + UnquoteRuns(s[n..])
  }

  function Unquote(s: string): string {
    if '%' !in s then s else UnquoteRuns(s)
  }

  function UnquotePlus(s: string): string {
    Unquote(PlusToSpace(s))
  }

  lemma {:induction false} QuotedIsPlain(data: Bytes)
    ensures forall c <- QuoteBytes(data) :: 32 < c as int < 127 && c != '&' && c != '='
    ensures QuoteBytes(data) == "" <==> data == []
  {
    if data != [] {
      QuotedIsPlain(data[1..]);
      assert forall c <- QuoteByte(data[0]) :: 32 < c as int < 127 && c != '&' && c != '=';
    }
  }

  lemma {:induction false} SpacedConcat(s: string, t: string)
    ensures PlusToSpace(s + t) == PlusToSpace(s) + PlusToSpace(t)
  {
    if s == "" {
      assert s + t == t;
    } else {
      assert (s + t)[1..] == s[1..] + t;
      SpacedConcat(s[1..], t);
    }
  }

  lemma {:induction false} NoPlusNoChange(s: string)
    requires '+' !in s
    ensures PlusToSpace(s) == s
  {
    if s != "" {
      NoPlusNoChange(s[1..]);
    }
  }

  lemma UpperHexIsRead(v: nat)
    requires v < 16
    ensures IsHex(UpperHex(v)) && HexValue(UpperHex(v)) == v && UpperHex(v) != '+' && UpperHex(v) as int < 128
  {
  }

  /** The spaced form of one quoted byte. */
  function SpacedByte(b: byte): string {
    if AlwaysSafe(b) || b == 32 then [b as char] else ['%', UpperHex(b / 16), UpperHex(b % 16)]
  }

  lemma SpacedQuoteByte(b: byte)
    ensures PlusToSpace(QuoteByte(b)) == SpacedByte(b) && Utf8.IsAscii(SpacedByte(b))
  {
    UpperHexIsRead(b / 16);
    UpperHexIsRead(b % 16);
    if b == 32 && !AlwaysSafe(b) {
      assert "+"[1..] == "";
    } else {
      NoPlusNoChange(QuoteByte(b));
    }
  }

  lemma ByteIsUnquoted(b: byte, rest: string)
    requires Utf8.IsAscii(rest) && Utf8.IsAscii(SpacedByte(b) + rest)
    ensures UnquoteBytes(SpacedByte(b) + rest) == [b] + UnquoteBytes(rest)
  {
    UpperHexIsRead(b / 16);
    UpperHexIsRead(b % 16);
    hide UpperHex, HexValue, IsHex;
    var s := SpacedByte(b) + rest;
    if |SpacedByte(b)| == 1 {
      assert s[0] == b as char && s[1..] == rest;
    } else {
      assert s[0] == '%' && s[1] == UpperHex(b / 16) && s[2] == UpperHex(b % 16) && s[3..] == rest;
    }
  }

  lemma {:induction false} BytesAreUnquoted(data: Bytes)
    ensures Utf8.IsAscii(PlusToSpace(QuoteBytes(data)))
    ensures UnquoteBytes(PlusToSpace(QuoteBytes(data))) == data
  {
    hide QuoteByte, SpacedByte, UnquoteBytes, PlusToSpace;
    if data == [] {
      NothingIsUnquoted();
    } else {
      var rest := PlusToSpace(QuoteBytes(data[1..]));
      BytesAreUnquoted(data[1..]);
      SpacedConcat(QuoteByte(data[0]), QuoteBytes(data[1..]));
      SpacedQuoteByte(data[0]);
      ByteIsUnquoted(data[0], rest);
    }
  }

  lemma NothingIsUnquoted()
    ensures PlusToSpace("") == "" && UnquoteBytes("") == []
  {
  }

  lemma {:induction false} AsciiIsOneRun(s: string)
    requires Utf8.IsAscii(s)
    ensures AsciiRun(s) == |s|
  {
    if s != "" {
      AsciiIsOneRun(s[1..]);
    }
  }

  lemma {:induction false} NoPercentNoChange(s: string)
    requires Utf8.IsAscii(s) && '%' !in s
    ensures UnquoteBytes(s) == Utf8.AsciiBytes(s)
  {
    if s != "" {
      NoPercentNoChange(s[1..]);
    }
  }

  lemma OneRunIsUnquoted(s: string)
    requires Utf8.IsAscii(s) && s != ""
    ensures UnquoteRuns(s) == Utf8.Decode(UnquoteBytes(s))
  {
    hide Utf8.Decode, UnquoteBytes, AsciiRun;
    AsciiIsOneRun(s);
    var text := Utf8.Decode(UnquoteBytes(s));
    assert s[..|s|] == s && s[|s|..] == "";
    assert UnquoteRuns("") == "" && text + "" == text;
  }

  /** On ASCII text the shortcut for text without `%` changes nothing. */
  lemma AsciiIsUnquoted(s: string)
    requires Utf8.IsAscii(s)
    ensures Unquote(s) == Utf8.Decode(UnquoteBytes(s))
  {
    if '%' !in s {
      NoPercentNoChange(s);
      Utf8.AsciiIsDecoded(s);
    } else {
      OneRunIsUnquoted(s);
    }
  }

  /** Unquoting undoes quoting, for every text. */
  lemma RoundTrip(s: string)
    ensures UnquotePlus(QuotePlus(s)) == s
  {
    BytesAreUnquoted(Utf8.Encode(s));
    AsciiIsUnquoted(PlusToSpace(QuotePlus(s)));
    Utf8.RoundTrip(s);
  }

  lemma {:induction false} UnquotedIsSomething(s: string)
    requires s != ""
    ensures UnquotePlus(s) != ""
  {
    var t := PlusToSpace(s);
    assert t != "";
    if '%' in t {
      var n := AsciiRun(t);
      if n > 0 {
        assert UnquoteBytes(t[..n]) != [];
        assert Utf8.Decode(UnquoteBytes(t[..n])) != "";
      }
    }
  }

  // What unquoting does, whoever wrote the text

  /** A hexadecimal digit in either case, and its value. */
  predicate HexDigit(c: char, v: int) {
    0 <= v < 16 && (c == "0123456789abcdef"[v] || c == "0123456789ABCDEF"[v])
  }

  lemma HexDigitIsRead(c: char, v: int)
    requires HexDigit(c, v)
    ensures IsHex(c) && HexValue(c) == v && c != '+' && c as int < 128
  {
    assert v < 10 ==> "0123456789abcdef"[v] as int == 48 + v && "0123456789ABCDEF"[v] as int == 48 + v;
    assert v >= 10 ==> "0123456789abcdef"[v] as int == 87 + v && "0123456789ABCDEF"[v] as int == 55 + v;
  }

  /** A text that writes bytes: plus for a space, `%` and two hexadecimal digits for any byte, and
      any other ASCII character for itself. */
  ghost predicate Writes(s: string, data: Bytes) {
    if data == [] then s == ""
    else
      || (s != "" && s[0] == '+' && data[0] == 32 && Writes(s[1..], data[1..]))
      || (s != "" && s[0] != '+' && s[0] != '%' && s[0] as int == data[0] as int < 128 && Writes(s[1..], data[1..]))
      || (|s| >= 3 && s[0] == '%' && HexDigit(s[1], data[0] / 16) && HexDigit(s[2], data[0] % 16) &&
          Writes(s[3..], data[1..]))
  }

  lemma EscapeIsUnquoted(high: char, low: char, b: byte, rest: string)
    requires HexDigit(high, b / 16) && HexDigit(low, b % 16)
    requires Utf8.IsAscii(rest) && Utf8.IsAscii(['%', high, low] + rest)
    ensures UnquoteBytes(['%', high, low] + rest) == [b] + UnquoteBytes(rest)
  {
    HexDigitIsRead(high, b / 16);
    HexDigitIsRead(low, b % 16);
    hide HexDigit, IsHex, HexValue;
    var s := ['%', high, low] + rest;
    assert s[0] == '%' && s[1] == high && s[2] == low && s[3..] == rest;
  }

  lemma EscapeStaysSpaced(high: char, low: char, rest: string)
    requires high != '+' && low != '+'
    ensures PlusToSpace(['%', high, low] + rest) == ['%', high, low] + PlusToSpace(rest)
  {
    hide PlusToSpace;
    SpacedConcat(['%', high, low], rest);
    NoPlusNoChange(['%', high, low]);
  }

  lemma EscapeIsSpaced(high: char, low: char, b: byte, rest: string)
    requires HexDigit(high, b / 16) && HexDigit(low, b % 16) && Utf8.IsAscii(PlusToSpace(rest))
    ensures Utf8.IsAscii(PlusToSpace(['%', high, low] + rest))
    ensures UnquoteBytes(PlusToSpace(['%', high, low] + rest)) == [b] + UnquoteBytes(PlusToSpace(rest))
  {
    HexDigitIsRead(high, b / 16);
    HexDigitIsRead(low, b % 16);
    hide HexDigit, IsHex, HexValue, UnquoteBytes, PlusToSpace;
    EscapeStaysSpaced(high, low, rest);
    EscapeIsUnquoted(high, low, b, PlusToSpace(rest));
  }

  lemma {:induction false} WrittenIsSpaced(s: string, data: Bytes)
    requires Writes(s, data)
    ensures Utf8.IsAscii(PlusToSpace(s)) && UnquoteBytes(PlusToSpace(s)) == data
    decreases |s|
  {
    if data == [] {
      NothingIsUnquoted();
    } else if s[0] == '%' {
      WrittenIsSpaced(s[3..], data[1..]);
      EscapeIsSpaced(s[1], s[2], data[0], s[3..]);
      hide PlusToSpace, UnquoteBytes;
      assert s == ['%', s[1], s[2]] + s[3..];
      assert data == [data[0]] + data[1..];
    } else {
      WrittenIsSpaced(s[1..], data[1..]);
      var spaced := PlusToSpace(s);
      assert spaced[0] as int == data[0] as int && spaced[0] != '%' && spaced[1..] == PlusToSpace(s[1..]);
      assert data == [data[0]] + data[1..];
    }
  }

  /** Whatever text writes the bytes of a UTF-8 encoding, digits in either case, is read as the
      text that is encoded. */
  lemma WrittenIsUnquoted(s: string, data: Bytes)
    requires Writes(s, data)
    ensures UnquotePlus(s) == Utf8.Decode(data)
  {
    WrittenIsSpaced(s, data);
    AsciiIsUnquoted(PlusToSpace(s));
  }

  lemma {:induction false} SpacedCharByChar(s: string)
    ensures |PlusToSpace(s)| == |s|
    ensures forall i | 0 <= i < |s| :: PlusToSpace(s)[i] == if s[i] == '+' then ' ' else s[i]
  {
    if s != "" {
      SpacedCharByChar(s[1..]);
    }
  }

  /** Without a percent sign, each plus is a space. */
  lemma PlusIsSpace(s: string)
    requires '%' !in s
    ensures |UnquotePlus(s)| == |s|
    ensures forall i | 0 <= i < |s| :: UnquotePlus(s)[i] == if s[i] == '+' then ' ' else s[i]
  {
    SpacedCharByChar(s);
  }

  lemma {:induction false} RunIsCut(s: string, c: char, t: string)
    requires c as int >= 128
    ensures AsciiRun(s + [c] + t) == AsciiRun(s)
  {
    var all := s + [c] + t;
    if s == "" {
      assert all[0] == c;
    } else {
      assert all[0] == s[0] && all[1..] == s[1..] + [c] + t;
      RunIsCut(s[1..], c, t);
    }
  }

  lemma FirstRun(s: string)
    requires s != ""
    ensures UnquoteRuns(s) ==
      if AsciiRun(s) == 0 then [s[0]] + UnquoteRuns(s[1..])
      else Utf8.Decode(UnquoteBytes(s[..AsciiRun(s)])) + UnquoteRuns(s[AsciiRun(s)..])
  {
  }

  lemma CutInFront(s: string, c: char, t: string, n: nat)
    requires n <= |s|
    ensures (s + [c] + t)[..n] == s[..n] && (s + [c] + t)[n..] == s[n..] + [c] + t
    ensures s != "" ==> (s + [c] + t)[0] == s[0]
  {
  }

  lemma NoRun(s: string, c: char, t: string)
    requires s == "" && c as int >= 128
    ensures UnquoteRuns(s + [c] + t) == UnquoteRuns(s) + [c] + UnquoteRuns(t)
  {
    var all := s + [c] + t;
    assert all[0] == c && all[1..] == t && UnquoteRuns(s) == "" && AsciiRun(all) == 0;
    FirstRun(all);
    hide UnquoteRuns, AsciiRun, UnquoteBytes, Utf8.Decode;
  }

  lemma RunsGoOn(first: string, all: string, s: string, c: string, t: string)
    requires all == first + (s + c + t)
    ensures all == (first + s) + c + t
  {
  }

  lemma {:induction false} RunEnds(s: string, c: char, t: string)
    requires c as int >= 128
    ensures UnquoteRuns(s + [c] + t) == UnquoteRuns(s) + [c] + UnquoteRuns(t)
    decreases |s|
  {
    if s == "" {
      NoRun(s, c, t);
    } else {
      RunIsCut(s, c, t);
      var n := AsciiRun(s);
      var k := if n == 0 then 1 else n;
      CutInFront(s, c, t, n);
      CutInFront(s, c, t, k);
      FirstRun(s + [c] + t);
      FirstRun(s);
      RunEnds(s[k..], c, t);
      hide *;
      var first := if n == 0 then [s[0]] else Utf8.Decode(UnquoteBytes(s[..n]));
      RunsGoOn(first, UnquoteRuns(s + [c] + t), UnquoteRuns(s[k..]), [c], UnquoteRuns(t));
    }
  }

  lemma {:induction false} NoPercentNoRuns(s: string)
    requires '%' !in s
    ensures UnquoteRuns(s) == s
    decreases |s|
  {
    if s != "" {
      var n := AsciiRun(s);
      if n == 0 {
        NoPercentNoRuns(s[1..]);
        assert s == [s[0]] + s[1..];
      } else {
        NoPercentNoChange(s[..n]);
        Utf8.AsciiIsDecoded(s[..n]);
        NoPercentNoRuns(s[n..]);
        assert s == s[..n] + s[n..];
      }
    }
  }

  /** A character beyond ASCII stays, and what is before and after it is read for itself. */
  lemma BeyondAsciiStays(s: string, c: char, t: string)
    requires c as int >= 128
    ensures UnquotePlus(s + [c] + t) == UnquotePlus(s) + [c] + UnquotePlus(t)
  {
    SpacedConcat(s + [c], t);
    SpacedConcat(s, [c]);
    NoPlusNoChange([c]);
    var a, b := PlusToSpace(s), PlusToSpace(t);
    assert PlusToSpace(s + [c] + t) == a + [c] + b;
    RunEnds(a, c, b);
    if '%' !in a { NoPercentNoRuns(a); }
    if '%' !in b { NoPercentNoRuns(b); }
    if '%' !in a + [c] + b { NoPercentNoRuns(a + [c] + b); }
    hide UnquoteRuns, PlusToSpace;
  }

  lemma HexDigitsAre(c: char)
    ensures IsHex(c) <==> c in "0123456789abcdefABCDEF"
  {
  }

  /** Whether two hexadecimal digits follow at this position. */
  predicate DigitsFollow(s: string, i: nat) {
    i + 2 < |s| && s[i + 1] in "0123456789abcdefABCDEF" && s[i + 2] in "0123456789abcdefABCDEF"
  }

  lemma {:induction false} StrayPercentIsPlain(s: string)
    requires Utf8.IsAscii(s) && forall i | 0 <= i < |s| :: s[i] == '%' ==> !DigitsFollow(s, i)
    ensures UnquoteBytes(s) == Utf8.AsciiBytes(s)
  {
    if s != "" {
      if |s| >= 3 {
        HexDigitsAre(s[1]);
        HexDigitsAre(s[2]);
      }
      assert s[0] == '%' ==> !DigitsFollow(s, 0);
      hide IsHex;
      forall i | 0 <= i < |s[1..]| ensures s[1..][i] == '%' ==> !DigitsFollow(s[1..], i) {
        assert DigitsFollow(s[1..], i) ==> DigitsFollow(s, i + 1);
      }
      StrayPercentIsPlain(s[1..]);
    }
  }

  /** A percent sign without two hexadecimal digits after it stays, too. */
  lemma StrayPercentStays(s: string)
    requires Utf8.IsAscii(s) && '+' !in s
    requires forall i | 0 <= i < |s| :: s[i] == '%' ==> !DigitsFollow(s, i)
    ensures UnquotePlus(s) == s
  {
    NoPlusNoChange(s);
    StrayPercentIsPlain(s);
    AsciiIsUnquoted(s);
    Utf8.AsciiIsDecoded(s);
  }
}
