/** JSON objects of scalars (RFC 8259), as the standard library writes and reads them. */
module Json {
  import opened Wrappers
  import opened Text

  datatype Value = Null | Bool(b: bool) | Int(n: int) | Str(text: string)

  type Members = seq<(string, Value)>

  // Writing

  function Hex4(n: nat): string
    requires n < 0x1_0000
  {
    [LowerHex(n / 4096), LowerHex(n / 256 % 16), LowerHex(n / 16 % 16), LowerHex(n % 16)]
  }

  /** Everything outside printable ASCII is escaped; beyond the basic plane, as a surrogate pair. */
  function EscapeChar(c: char): string {
    var n := c as int;
    if c == '"' then "\\\""
    else if c == '\\' then "\\\\"
    else if c == '\n' then "\\n"
    else if c == '\r' then "\\r"
    else if c == '\t' then "\\t"
    else if n == 8 then "\\b"
    else if n == 12 then "\\f"
    else if 32 <= n <= 126 then [c]
    else if n < 0x1_0000 then "\\u" + Hex4(n)
    else
      var m := n - 0x1_0000;
      "\\u" + Hex4(0xD800 + m / 1024) + "\\u" + Hex4(0xDC00 + m % 1024)
  }

  function Escape(text: string): string {
    if text == "" then "" else EscapeChar(text[0]) + Escape(text[1..])
  }

  function Quoted(text: string): string {
    "\"" + Escape(text) + "\""
  }

  function ValueText(v: Value): string {
    match v
    case Null => "null"
    case Bool(b) => if b then "true" else "false"
    case Int(n) => IntText(n)
    case Str(text) => Quoted(text)
  }

  function MemberText(member: (string, Value)): string {
    Quoted(member.0) + ": " + ValueText(member.1)
  }

  function MembersText(members: Members): string {
    if members == [] then "}"
    else MemberText(members[0]) + (if |members| == 1 then "" else ", ") + MembersText(members[1..])
  }

  function Dumps(members: Members): string {
    "{" + MembersText(members)
  }

  // Reading

  predicate IsSpace(c: char) {
    c == ' ' || c == '\t' || c == '\n' || c == '\r'
  }

  function SkipSpace(s: string): (rest: string)
    ensures |rest| <= |s|
  {
    if s != "" && IsSpace(s[0]) then SkipSpace(s[1..]) else s
  }

  /** Four hexadecimal digits. */
  function ReadHex4(s: string): Option<nat> {
    if |s| >= 4 && IsHex(s[0]) && IsHex(s[1]) && IsHex(s[2]) && IsHex(s[3])
    then Some(4096 * HexValue(s[0]) + 256 * HexValue(s[1]) + 16 * HexValue(s[2]) + HexValue(s[3]))
    else None
  }

  /** The character after `\u`, and how much text it took. */
  function ReadUnicode(s: string): Option<(char, nat)> {
    match ReadHex4(s)
    case None => None
    case Some(n) =>
      if n < 0xD800 || n >= 0xE000 then Some((n as char, 4))
      else if n < 0xDC00 && |s| >= 10 && s[4] == '\\' && s[5] == 'u' then
        (match ReadHex4(s[6..])
         case Some(m) =>
           if 0xDC00 <= m < 0xE000
           then Some(((0x1_0000 + (n - 0xD800) * 1024 + (m - 0xDC00)) as char, 10))
           else None
         case None => None)
      else None
  }

  function ReadEscape(c: char): Option<char> {
    if c == '"' || c == '\\' || c == '/' then Some(c)
    else if c == 'n' then Some('\n')
    else if c == 'r' then Some('\r')
    else if c == 't' then Some('\t')
    else if c == 'b' then Some(8 as char)
    else if c == 'f' then Some(12 as char)
    else None
  }

  function Prepend(c: char, tail: Option<(string, string)>): Option<(string, string)> {
    match tail
    case None => None
    case Some((text, rest)) => Some(([c] + text, rest))
  }

  /** The text up to the closing quote, and what follows it. */
  function ReadString(s: string): (r: Option<(string, string)>)
    ensures r.Some? ==> |r.value.1| < |s|
    decreases |s|
  {
    if s == "" || s[0] as int < 32 then None
    else if s[0] == '"' then Some(("", s[1..]))
    else if s[0] != '\\' then Prepend(s[0], ReadString(s[1..]))
    else if |s| == 1 then None
    else if s[1] == 'u' then
      match ReadUnicode(s[2..])
      case None => None
      case Some((c, used)) => if 2 + used <= |s| then Prepend(c, ReadString(s[2 + used..])) else None
    else
      match ReadEscape(s[1])
      case None => None
      case Some(c) => Prepend(c, ReadString(s[2..]))
  }

  predicate StartsWith(prefix: string, s: string) {
    |prefix| <= |s| && s[..|prefix|] == prefix
  }

  /** An integer: no leading zeros, and no fraction or exponent after it. */
  function ReadNat(s: string): Option<(nat, string)> {
    if s == "" || !IsDigit(s[0]) then None
    else
      var (n, rest) := if s[0] == '0' then (0, s[1..]) else ReadDigits(0, s);
      if rest != "" && (rest[0] == '.' || rest[0] == 'e' || rest[0] == 'E') then None else Some((n, rest))
  }

  function ReadValue(s: string): Option<(Value, string)> {
    if StartsWith("null", s) then Some((Null, s[4..]))
    else if StartsWith("true", s) then Some((Bool(true), s[4..]))
    else if StartsWith("false", s) then Some((Bool(false), s[5..]))
    else if StartsWith("\"", s) then
      match ReadString(s[1..])
      case None => None
      case Some((text, rest)) => Some((Str(text), rest))
    else if StartsWith("-", s) then
      match ReadNat(s[1..])
      case None => None
      case Some((n, rest)) => var negative: int := -(n as int); Some((Int(negative), rest))
    else
      match ReadNat(s)
      case None => None
      case Some((n, rest)) => Some((Int(n), rest))
  }

  /** A name, a colon and a value, with optional space. */
  function ReadMember(s: string): Option<((string, Value), string)> {
    if !StartsWith("\"", s) then None
    else
      match ReadString(s[1..])
      case None => None
      case Some((name, afterName)) => ReadAfterName(name, SkipSpace(afterName))
  }

  function ReadAfterName(name: string, s: string): Option<((string, Value), string)> {
    if !StartsWith(":", s) then None
    else
      match ReadValue(SkipSpace(s[1..]))
      case None => None
      case Some((v, afterValue)) => Some(((name, v), SkipSpace(afterValue)))
  }

  /** Members up to the closing brace; each must leave less text than it found. */
  function ReadMembers(s: string): Option<(Members, string)>
    decreases |s|, 1
  {
    match ReadMember(s)
    case None => None
    case Some((member, rest)) => ReadOn(|s|, member, rest)
  }

  function ReadOn(length: nat, member: (string, Value), rest: string): Option<(Members, string)>
    decreases length, 0
  {
    if StartsWith("}", rest) then Some(([member], rest[1..]))
    else if !StartsWith(",", rest) then None
    else
      var next := SkipSpace(rest[1..]);
      if |next| >= length then None
      else
        match ReadMembers(next)
        case None => None
        case Some((members, end)) => Some(([member] + members, end))
  }

  function Loads(s: string): Option<Members> {
    var start := SkipSpace(s);
    if !StartsWith("{", start) then None
    else
      var first := SkipSpace(start[1..]);
      var parsed: Option<(Members, string)> :=
        if StartsWith("}", first) then Some(([], first[1..])) else ReadMembers(first);
      match parsed
      case None => None
      case Some((members, rest)) => if SkipSpace(rest) == "" then Some(members) else None
  }

  /** The value a name stands for: the last member with that name. */
  function Lookup(members: Members, name: string): Option<Value> {
    if members == [] then None
    else if members[|members| - 1].0 == name then Some(members[|members| - 1].1)
    else Lookup(members[..|members| - 1], name)
  }

  // Reading undoes writing

  lemma LowerHexIsRead(v: nat)
    requires v < 16
    ensures IsHex(LowerHex(v)) && HexValue(LowerHex(v)) == v
  {
  }

  lemma FourDigits(n: nat)
    ensures n == 4096 * (n / 4096) + 256 * (n / 256 % 16) + 16 * (n / 16 % 16) + n % 16
  {
    var q, r, t := n / 16, n / 256, n / 4096;
    assert q / 16 == r && r / 16 == t;
  }

  lemma Hex4IsRead(n: nat, rest: string)
    requires n < 0x1_0000
    ensures ReadHex4(Hex4(n) + rest) == Some(n)
  {
    var a, b, c, d := n / 4096, n / 256 % 16, n / 16 % 16, n % 16;
    LowerHexIsRead(a);
    LowerHexIsRead(b);
    LowerHexIsRead(c);
    LowerHexIsRead(d);
    FourDigits(n);
    var s := Hex4(n) + rest;
    hide LowerHex, HexValue, IsHex;
    assert s[0] == LowerHex(a) && s[1] == LowerHex(b) && s[2] == LowerHex(c) && s[3] == LowerHex(d);
  }

  lemma SurrogatesAreRead(c: char, rest: string)
    requires c as int >= 0x1_0000
    ensures var m := c as int - 0x1_0000;
      ReadUnicode(Hex4(0xD800 + m / 1024) + "\\u" + Hex4(0xDC00 + m % 1024) + rest) == Some((c, 10))
  {
    var m := c as int - 0x1_0000;
    var high, low := 0xD800 + m / 1024, 0xDC00 + m % 1024;
    var tail := Hex4(low) + rest;
    var s := Hex4(high) + "\\u" + Hex4(low) + rest;
    assert s == Hex4(high) + ("\\u" + tail);
    Hex4IsRead(high, "\\u" + tail);
    assert s[6..] == tail;
    Hex4IsRead(low, rest);
  }

  lemma PlainCharIsRead(c: char, rest: string)
    requires 32 <= c as int <= 126 && c != '"' && c != '\\'
    ensures ReadString([c] + rest) == Prepend(c, ReadString(rest))
  {
    assert ([c] + rest)[1..] == rest;
  }

  lemma ShortEscapeIsRead(letter: char, c: char, rest: string)
    requires letter != 'u' && ReadEscape(letter) == Some(c)
    ensures ReadString(['\\', letter] + rest) == Prepend(c, ReadString(rest))
  {
    var s := ['\\', letter] + rest;
    assert s[0] == '\\' && s[1] == letter && s[2..] == rest;
  }

  lemma UnicodeEscapeIsRead(code: string, c: char, rest: string)
    requires ReadUnicode(code + rest) == Some((c, |code|))
    ensures ReadString("\\u" + code + rest) == Prepend(c, ReadString(rest))
  {
    var s := "\\u" + code + rest;
    assert s[0] == '\\' && s[1] == 'u' && s[2..] == code + rest && s[2 + |code|..] == rest;
  }

  lemma BasicPlaneIsRead(c: char, rest: string)
    requires c as int < 0x1_0000
    ensures ReadString("\\u" + Hex4(c as int) + rest) == Prepend(c, ReadString(rest))
  {
    Hex4IsRead(c as int, rest);
    UnicodeEscapeIsRead(Hex4(c as int), c, rest);
  }

  lemma BeyondBasicPlaneIsRead(c: char, rest: string)
    requires c as int >= 0x1_0000
    ensures ReadString(EscapeChar(c) + rest) == Prepend(c, ReadString(rest))
  {
    hide ReadString, ReadUnicode;
    var m := c as int - 0x1_0000;
    SurrogatesAreRead(c, rest);
    var code := Hex4(0xD800 + m / 1024) + "\\u" + Hex4(0xDC00 + m % 1024);
    UnicodeEscapeIsRead(code, c, rest);
    assert EscapeChar(c) == "\\u" + code;
  }

  /** One escaped character is read back, and reading goes on after it. */
  lemma EscapedCharIsRead(c: char, rest: string)
    ensures ReadString(EscapeChar(c) + rest) == Prepend(c, ReadString(rest))
  {
    hide ReadString, ReadUnicode, Hex4;
    var n := c as int;
    if c == '"' || c == '\\' {
      ShortEscapeIsRead(c, c, rest);
    } else if c == '\n' {
      ShortEscapeIsRead('n', c, rest);
    } else if c == '\r' {
      ShortEscapeIsRead('r', c, rest);
    } else if c == '\t' {
      ShortEscapeIsRead('t', c, rest);
    } else if n == 8 {
      ShortEscapeIsRead('b', c, rest);
    } else if n == 12 {
      ShortEscapeIsRead('f', c, rest);
    } else if 32 <= n <= 126 {
      PlainCharIsRead(c, rest);
    } else if n < 0x1_0000 {
      BasicPlaneIsRead(c, rest);
    } else {
      BeyondBasicPlaneIsRead(c, rest);
    }
  }

  lemma {:induction false} QuotedIsRead(text: string, rest: string)
    ensures ReadString(Escape(text) + "\"" + rest) == Some((text, rest))
  {
    if text == "" {
      assert Escape(text) + "\"" + rest == "\"" + rest;
    } else {
      var tail := Escape(text[1..]) + "\"" + rest;
      assert Escape(text) + "\"" + rest == EscapeChar(text[0]) + tail;
      EscapedCharIsRead(text[0], tail);
      QuotedIsRead(text[1..], rest);
      assert text == [text[0]] + text[1..];
    }
  }

  /** What may follow a value in the written form. */
  predicate EndsValue(rest: string) {
    rest != "" && (rest[0] == ',' || rest[0] == '}')
  }

  lemma NatIsRead(n: nat, rest: string)
    requires EndsValue(rest)
    ensures ReadNat(DecimalText(n) + rest) == Some((n, rest))
    ensures IsDigit((DecimalText(n) + rest)[0])
  {
    DecimalStartsRight(n);
    DecimalIsRead(n, rest);
    if n == 0 {
      assert (DecimalText(n) + rest)[1..] == rest;
    }
  }

  lemma WordIsRead(v: Value, rest: string)
    requires v.Null? || v.Bool?
    ensures ReadValue(ValueText(v) + rest) == Some((v, rest))
  {
    var s := ValueText(v) + rest;
    assert s[..|ValueText(v)|] == ValueText(v) && s[|ValueText(v)|..] == rest;
    if v == Bool(false) {
      assert s[0] == 'f';
    } else if v == Bool(true) {
      assert s[0] == 't';
    }
  }

  lemma TextIsRead(text: string, rest: string)
    ensures ReadValue(Quoted(text) + rest) == Some((Str(text), rest))
  {
    hide ReadString, Escape, ReadNat;
    var s := Quoted(text) + rest;
    QuotedIsRead(text, rest);
    assert s[..1] == "\"" && s[1..] == Escape(text) + "\"" + rest;
    assert s[0] == '"';
  }

  lemma NegativeIsRead(n: nat, rest: string)
    requires n > 0 && EndsValue(rest)
    ensures ReadValue("-" + DecimalText(n) + rest) == Some((Int(-(n as int)), rest))
  {
    hide ReadString, ReadNat, DecimalText, ReadDigits;
    var s := "-" + DecimalText(n) + rest;
    NatIsRead(n, rest);
    assert s[0] == '-' && s[..1] == "-" && s[1..] == DecimalText(n) + rest;
  }

  lemma NaturalIsRead(n: nat, rest: string)
    requires EndsValue(rest)
    ensures ReadValue(DecimalText(n) + rest) == Some((Int(n), rest))
  {
    hide ReadString, ReadNat, DecimalText, ReadDigits;
    NatIsRead(n, rest);
    assert IsDigit((DecimalText(n) + rest)[0]);
  }

  lemma IntIsRead(n: int, rest: string)
    requires EndsValue(rest)
    ensures ReadValue(ValueText(Int(n)) + rest) == Some((Int(n), rest))
  {
    hide ReadValue, DecimalText;
    if n < 0 {
      NegativeIsRead(-n, rest);
    } else {
      NaturalIsRead(n, rest);
    }
  }

  lemma ValueStartsWithNoSpace(v: Value)
    ensures ValueText(v) != "" && !IsSpace(ValueText(v)[0])
  {
    match v
    case Int(n) => DecimalStartsRight(if n < 0 then -n else n);
    case _ =>
  }

  lemma ValueIsRead(v: Value, rest: string)
    requires EndsValue(rest)
    ensures ReadValue(ValueText(v) + rest) == Some((v, rest))
  {
    match v
    case Str(text) => TextIsRead(text, rest);
    case Int(n) => IntIsRead(n, rest);
    case _ => WordIsRead(v, rest);
  }

  lemma OneSpaceIsSkipped(s: string)
    requires s != "" && !IsSpace(s[0])
    ensures SkipSpace(" " + s) == s
  {
    assert (" " + s)[1..] == s;
  }

  lemma NothingIsSkipped(s: string)
    requires s != "" && !IsSpace(s[0])
    ensures SkipSpace(s) == s
  {
  }

  lemma AfterNameIsRead(name: string, v: Value, rest: string)
    requires EndsValue(rest)
    ensures ReadAfterName(name, ": " + ValueText(v) + rest) == Some(((name, v), rest))
  {
    hide ReadValue, ValueText, SkipSpace;
    var text := ValueText(v) + rest;
    var s := ": " + ValueText(v) + rest;
    assert s[..1] == ":" && s[1..] == " " + text;
    ValueStartsWithNoSpace(v);
    OneSpaceIsSkipped(text);
    ValueIsRead(v, rest);
    NothingIsSkipped(rest);
  }

  lemma MemberIsRead(member: (string, Value), rest: string)
    requires EndsValue(rest)
    ensures ReadMember(MemberText(member) + rest) == Some((member, rest))
  {
    hide ReadAfterName, ReadString, ValueText, Escape, SkipSpace;
    var afterName := ": " + ValueText(member.1) + rest;
    var s := MemberText(member) + rest;
    assert s[..1] == "\"" && s[1..] == Escape(member.0) + "\"" + afterName;
    QuotedIsRead(member.0, afterName);
    AfterNameIsRead(member.0, member.1, rest);
    NothingIsSkipped(afterName);
  }

  lemma {:induction false} MembersAreRead(members: Members)
    requires members != []
    ensures ReadMembers(MembersText(members)) == Some((members, ""))
  {
    if |members| == 1 {
      assert members == [members[0]] && members[1..] == [];
      assert MembersText(members) == MemberText(members[0]) + "}";
      MemberIsRead(members[0], "}");
    } else {
      MembersAreRead(members[1..]);
      MoreMembersAreRead(members[0], members[1..]);
      assert members == [members[0]] + members[1..];
    }
  }

  lemma ReadsOn(length: nat, member: (string, Value), rest: string, members: Members)
    requires StartsWith(",", rest) && |SkipSpace(rest[1..])| < length
    requires ReadMembers(SkipSpace(rest[1..])) == Some((members, ""))
    ensures ReadOn(length, member, rest) == Some(([member] + members, ""))
  {
    hide ReadMembers, SkipSpace;
    assert rest[0] == ',' && !StartsWith("}", rest);
  }

  lemma ReadMembersGoesOn(s: string, member: (string, Value), rest: string, members: Members)
    requires ReadMember(s) == Some((member, rest)) && StartsWith(",", rest)
    requires |SkipSpace(rest[1..])| < |s|
    requires ReadMembers(SkipSpace(rest[1..])) == Some((members, ""))
    ensures ReadMembers(s) == Some(([member] + members, ""))
  {
    hide ReadMember, SkipSpace, ReadString;
    ReadsOn(|s|, member, rest, members);
    hide ReadOn;
  }

  lemma MembersTextGoesOn(first: (string, Value), more: Members)
    requires more != []
    ensures MembersText([first] + more) == MemberText(first) + (", " + MembersText(more))
  {
    hide MemberText;
    assert ([first] + more)[1..] == more;
  }

  lemma MembersTextIsQuoted(members: Members)
    requires members != []
    ensures MembersText(members) != "" && MembersText(members)[0] == '"'
  {
    assert MemberText(members[0])[0] == '"';
  }

  lemma MoreMembersAreRead(first: (string, Value), more: Members)
    requires more != [] && ReadMembers(MembersText(more)) == Some((more, ""))
    ensures ReadMembers(MembersText([first] + more)) == Some(([first] + more, ""))
  {
    hide ReadMember, ReadMembers, MembersText, MemberText, SkipSpace;
    var next := MembersText(more);
    var rest := ", " + next;
    MembersTextGoesOn(first, more);
    MemberIsRead(first, rest);
    assert rest[..1] == "," && rest[1..] == " " + next;
    MembersTextIsQuoted(more);
    OneSpaceIsSkipped(next);
    ReadMembersGoesOn(MembersText([first] + more), first, rest, more);
  }

  lemma NoMembersAreRead()
    ensures MembersText([]) == "}" && StartsWith("}", "}") && SkipSpace("}") == "}"
  {
  }

  /** Every object of scalars is read back exactly as it was written. */
  lemma RoundTrip(members: Members)
    ensures Loads(Dumps(members)) == Some(members)
  {
    hide ReadMembers, MembersText;
    var s := Dumps(members);
    assert s[0] == '{' && s[..1] == "{" && s[1..] == MembersText(members);
    if members == [] {
      NoMembersAreRead();
    } else {
      MembersAreRead(members);
      MembersTextIsQuoted(members);
    }
  }
}
