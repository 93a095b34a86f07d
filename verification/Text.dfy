/** Characters, digits and lists of text. */
module Text {
  predicate IsDigit(c: char) {
    '0' <= c <= '9'
  }

  function DigitOf(d: nat): char
    requires d < 10
  {
    ('0' as int + d) as char
  }

  /** Decimal notation, as Python's str does it. */
  function DecimalText(n: nat): string {
    if n < 10 then [DigitOf(n)] else DecimalText(n / 10) + [DigitOf(n % 10)]
  }

  /** A whole number in decimal notation. */
  function IntText(n: int): string {
    if n < 0 then "-" + DecimalText(-n) else DecimalText(n)
  }

  /** Reads digits while there are any, starting from the number read so far. */
  function ReadDigits(n: nat, s: string): (nat, string)
    decreases |s|
  {
    if s == "" || !IsDigit(s[0]) then (n, s)
    else ReadDigits(10 * n + (s[0] as int - '0' as int), s[1..])
  }

  lemma {:induction false} DecimalIsRead(n: nat, rest: string)
    requires rest == "" || !IsDigit(rest[0])
    ensures ReadDigits(0, DecimalText(n) + rest) == (n, rest)
  {
    DecimalReadsOn(n, rest);
  }

  lemma {:induction false} DecimalReadsOn(n: nat, rest: string)
    ensures ReadDigits(0, DecimalText(n) + rest) == ReadDigits(n, rest)
    decreases n
  {
    if n < 10 {
      assert (DecimalText(n) + rest)[1..] == rest;
    } else {
      var last := [DigitOf(n % 10)];
      assert DecimalText(n) + rest == DecimalText(n / 10) + (last + rest);
      DecimalReadsOn(n / 10, last + rest);
      assert (last + rest)[1..] == rest;
    }
  }

  lemma {:induction false} DecimalStartsRight(n: nat)
    ensures DecimalText(n) != "" && IsDigit(DecimalText(n)[0])
    ensures DecimalText(n)[0] == '0' <==> n == 0
    decreases n
  {
    if n >= 10 {
      DecimalStartsRight(n / 10);
    }
  }

  predicate IsHex(c: char) {
    IsDigit(c) || 'a' <= c <= 'f' || 'A' <= c <= 'F'
  }

  function HexValue(c: char): nat
    requires IsHex(c)
  {
    if IsDigit(c) then c as int - '0' as int
    else if 'a' <= c <= 'f' then c as int - 'a' as int + 10
    else c as int - 'A' as int + 10
  }

  function LowerHex(d: nat): char
    requires d < 16
  {
    if d < 10 then DigitOf(d) else ('a' as int + d - 10) as char
  }

  function UpperHex(d: nat): char
    requires d < 16
  {
    if d < 10 then DigitOf(d) else ('A' as int + d - 10) as char
  }

  function UpperChar(c: char): char {
    if 'a' <= c <= 'z' then (c as int - 'a' as int + 'A' as int) as char else c
  }

  /** Upper case, for ASCII letters. */
  function Upper(s: string): (r: string)
    ensures '\n' in r <==> '\n' in s
  {
    if s == "" then ""
    else
      assert s == [s[0]] + s[1..];
      [UpperChar(s[0])] + Upper(s[1..])
  }

  const CAPITAL_LETTERS := "ABCDEFGHIJKLMNOPQRSTUVWXYZ"

  const SMALL_LETTERS := "abcdefghijklmnopqrstuvwxyz"

  lemma LettersInOrder(k: nat)
    requires k < 26
    ensures CAPITAL_LETTERS[k] as int == 65 + k && SMALL_LETTERS[k] as int == 97 + k
  {
  }

  lemma SmallLettersAreThese(c: char)
    ensures c in SMALL_LETTERS <==> 97 <= c as int <= 122
  {
    if 97 <= c as int <= 122 {
      LettersInOrder(c as int - 97);
      assert SMALL_LETTERS[c as int - 97] == c;
    } else if c in SMALL_LETTERS {
      var k :| 0 <= k < |SMALL_LETTERS| && SMALL_LETTERS[k] == c;
      LettersInOrder(k);
    }
  }

  lemma UpperCharIs(c: char)
    ensures forall k | 0 <= k < 26 :: c == SMALL_LETTERS[k] ==> UpperChar(c) == CAPITAL_LETTERS[k]
    ensures c !in SMALL_LETTERS ==> UpperChar(c) == c
  {
    SmallLettersAreThese(c);
    forall k | 0 <= k < 26 ensures c == SMALL_LETTERS[k] ==> UpperChar(c) == CAPITAL_LETTERS[k] {
      LettersInOrder(k);
    }
  }

  /** Each small letter gives way to its capital, and everything else stays. */
  lemma {:induction false} UpperIs(s: string)
    ensures |Upper(s)| == |s|
    ensures forall i, k | 0 <= i < |s| && 0 <= k < 26 :: s[i] == SMALL_LETTERS[k] ==> Upper(s)[i] == CAPITAL_LETTERS[k]
    ensures forall i | 0 <= i < |s| :: s[i] !in SMALL_LETTERS ==> Upper(s)[i] == s[i]
  {
    if s != "" {
      UpperIs(s[1..]);
      UpperCharIs(s[0]);
      hide UpperChar;
      assert Upper(s)[1..] == Upper(s[1..]);
    }
  }

  /** A word in capitals or small letters, one by one. */
  predicate Spelled(text: string, capitals: string, smalls: string) {
    && |text| == |capitals| == |smalls|
    && forall i | 0 <= i < |text| :: text[i] == capitals[i] || text[i] == smalls[i]
  }

  lemma {:induction false} UpperCharByChar(s: string)
    ensures |Upper(s)| == |s| && forall i | 0 <= i < |s| :: Upper(s)[i] == UpperChar(s[i])
  {
    if s != "" {
      UpperCharByChar(s[1..]);
      assert Upper(s)[1..] == Upper(s[1..]);
    }
  }

  lemma UpperIsSpelled(text: string, capitals: string, smalls: string)
    requires |capitals| == |smalls|
    requires forall i | 0 <= i < |capitals| ::
      65 <= capitals[i] as int <= 90 && smalls[i] as int == capitals[i] as int + 32
    ensures Upper(text) == capitals <==> Spelled(text, capitals, smalls)
  {
    UpperCharByChar(text);
    hide Upper;
  }

  /** Python's replace for a one-character pattern. */
  function Replace(s: string, c: char, text: string): string {
    if s == "" then "" else (if s[0] == c then text else [s[0]]) + Replace(s[1..], c, text)
  }

  function Joined(separator: string, parts: seq<string>): string {
    if parts == [] then ""
    else if |parts| == 1 then parts[0]
    else parts[0] + separator + Joined(separator, parts[1..])
  }

  /** Python's split on a one-character separator; the empty text has one empty part. */
  function Split(separator: char, s: string): seq<string> {
    if separator !in s then [s]
    else
      var i := IndexOf(separator, s);
      [s[..i]] + Split(separator, s[i + 1..])
  }

  /** Position of the first occurrence. */
  function IndexOf(c: char, s: string): (i: nat)
    requires c in s
    ensures i < |s| && s[i] == c && c !in s[..i]
  {
    if s[0] == c then 0
    else
      assert s == [s[0]] + s[1..];
      var i := IndexOf(c, s[1..]) + 1;
      assert s[..i] == [s[0]] + s[1..][..i - 1];
      i
  }

  lemma IndexAfterPrefix(c: char, prefix: string, rest: string)
    requires c !in prefix
    ensures c in prefix + [c] + rest
    ensures IndexOf(c, prefix + [c] + rest) == |prefix|
  {
    var s := prefix + [c] + rest;
    assert s[|prefix|] == c;
    var i := IndexOf(c, s);
    assert forall k | 0 <= k < |prefix| :: s[k] == prefix[k];
    forall k | 0 <= k < i ensures s[k] != c {
      assert s[k] in s[..i];
    }
  }

  /** Splitting undoes joining when no part contains the separator. */
  lemma {:induction false} SplitJoined(separator: char, parts: seq<string>)
    requires parts != [] && forall part <- parts :: separator !in part
    ensures Split(separator, Joined([separator], parts)) == parts
  {
    if |parts| == 1 {
      assert parts == [parts[0]];
    } else {
      var rest := Joined([separator], parts[1..]);
      var s := parts[0] + [separator] + rest;
      assert Joined([separator], parts) == s;
      IndexAfterPrefix(separator, parts[0], rest);
      assert s[..|parts[0]|] == parts[0] && s[|parts[0]| + 1..] == rest;
      SplitJoined(separator, parts[1..]);
    }
  }

  lemma {:induction false} SplitConcat(separator: char, s: string, t: string)
    ensures Split(separator, s + [separator] + t) == Split(separator, s) + Split(separator, t)
    decreases |s|
  {
    var all := s + [separator] + t;
    if separator !in s {
      IndexAfterPrefix(separator, s, t);
      assert all[..|s|] == s && all[|s| + 1..] == t;
    } else {
      var i := IndexOf(separator, s);
      assert s == s[..i] + [separator] + s[i + 1..];
      assert all == s[..i] + [separator] + (s[i + 1..] + [separator] + t);
      IndexAfterPrefix(separator, s[..i], s[i + 1..] + [separator] + t);
      assert all[..i] == s[..i] && all[i + 1..] == s[i + 1..] + [separator] + t;
      SplitConcat(separator, s[i + 1..], t);
    }
  }

  /** What counts as white space up to the code point 255. */
  predicate IsBlank(c: char) {
    var n := c as int;
    9 <= n <= 13 || 28 <= n <= 32 || n == 0x85 || n == 0xA0
  }

  function StripLeft(s: string): string {
    if s != "" && IsBlank(s[0]) then StripLeft(s[1..]) else s
  }

  function StripRight(s: string): string {
    if s != "" && IsBlank(s[|s| - 1]) then StripRight(s[..|s| - 1]) else s
  }

  function Strip(s: string): string {
    StripRight(StripLeft(s))
  }

  predicate AllBlank(s: string) {
    forall i | 0 <= i < |s| :: IsBlank(s[i])
  }

  lemma BlanksAre(c: char)
    ensures IsBlank(c) <==> c in " \t\n\r" || c as int in {11, 12, 28, 29, 30, 31, 0x85, 0xA0}
  {
  }

  /** The part of a text from its first to its last character that is not blank. */
  ghost predicate TrimsTo(text: string, core: string) {
    exists left, right ::
      && AllBlank(left) && AllBlank(right) && text == left + core + right
      && (core != "" ==> !IsBlank(core[0]) && !IsBlank(core[|core| - 1]))
  }

  lemma {:induction false} StripLeftPadding(pad: string, s: string)
    requires AllBlank(pad)
    ensures StripLeft(pad + s) == StripLeft(s)
  {
    if pad == "" {
      assert pad + s == s;
    } else {
      assert (pad + s)[1..] == pad[1..] + s;
      StripLeftPadding(pad[1..], s);
    }
  }

  lemma {:induction false} StripRightPadding(s: string, pad: string)
    requires AllBlank(pad)
    ensures StripRight(s + pad) == StripRight(s)
  {
    if pad == "" {
      assert s + pad == s;
    } else {
      assert (s + pad)[..|s + pad| - 1] == s + pad[..|pad| - 1];
      StripRightPadding(s, pad[..|pad| - 1]);
    }
  }

  lemma {:induction false} StripLeftCuts(s: string) returns (left: string)
    ensures AllBlank(left) && s == left + StripLeft(s)
    ensures StripLeft(s) != "" ==> !IsBlank(StripLeft(s)[0])
  {
    if s != "" && IsBlank(s[0]) {
      var rest := StripLeftCuts(s[1..]);
      left := [s[0]] + rest;
      assert s == [s[0]] + s[1..];
    } else {
      left := "";
    }
  }

  lemma {:induction false} StripRightCuts(s: string)
    ensures |StripRight(s)| <= |s| && StripRight(s) == s[..|StripRight(s)|]
    ensures forall i | |StripRight(s)| <= i < |s| :: IsBlank(s[i])
    ensures StripRight(s) != "" ==> !IsBlank(StripRight(s)[|StripRight(s)| - 1])
  {
    if s != "" && IsBlank(s[|s| - 1]) {
      var front := s[..|s| - 1];
      StripRightCuts(front);
      assert StripRight(s) == StripRight(front);
      hide StripRight, IsBlank;
      assert forall i | 0 <= i < |front| :: front[i] == s[i];
    }
  }

  lemma StripTrims(text: string)
    ensures TrimsTo(text, Strip(text))
  {
    var left := StripLeftCuts(text);
    var rest := StripLeft(text);
    StripRightCuts(rest);
    hide StripLeft, StripRight, IsBlank;
    var right := rest[|Strip(text)|..];
    assert rest == Strip(text) + right;
    assert text == left + Strip(text) + right && AllBlank(right);
  }

  lemma TrimmedIsStripped(left: string, core: string, right: string)
    requires AllBlank(left) && AllBlank(right)
    requires core != "" ==> !IsBlank(core[0]) && !IsBlank(core[|core| - 1])
    ensures Strip(left + core + right) == core
  {
    assert left + core + right == left + (core + right);
    StripLeftPadding(left, core + right);
    if core == "" {
      assert core + right == right + "" == right;
      StripLeftPadding(right, "");
    } else {
      assert (core + right)[0] == core[0];
      StripRightPadding(core, right);
    }
  }

  /** Stripping leaves this part and no other. */
  lemma StripIs(text: string, core: string)
    ensures TrimsTo(text, core) <==> core == Strip(text)
  {
    StripTrims(text);
    hide Strip, IsBlank, AllBlank;
    if TrimsTo(text, core) {
      var left, right :| && AllBlank(left) && AllBlank(right) && text == left + core + right
        && (core != "" ==> !IsBlank(core[0]) && !IsBlank(core[|core| - 1]));
      TrimmedIsStripped(left, core, right);
    }
  }

  lemma BlankIsStripped(text: string)
    ensures Strip(text) == "" <==> AllBlank(text)
  {
    StripIs(text, "");
    if AllBlank(text) {
      var left, right := text, "";
      assert AllBlank(right) && text == left + "" + right;
    }
  }
}
