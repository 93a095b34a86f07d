/** Printing settings as a dotenv file, and reading one back. */
module Dotenv {
  import opened Wrappers
  import opened Text

  const QUOTED_CHARS := " \t\n\r\"$\\#"

  predicate NeedsQuoting(value: string) {
    value == "" || exists i :: 0 <= i < |value| && value[i] in QUOTED_CHARS
  }

  function FormatValue(value: string): string {
    if !NeedsQuoting(value) then value
    else
      var escaped := Replace(Replace(Replace(value, '\\', "\\\\"), '"', "\\\""), '$', "\\$");
      "\"" + escaped + "\""
  }

  // Three replacements, one pass

  function EscapedChar(c: char): string {
    if c == '\\' || c == '"' || c == '$' then ['\\', c] else [c]
  }

  function Escaped(s: string): string {
    if s == "" then "" else EscapedChar(s[0]) + Escaped(s[1..])
  }

  lemma {:induction false} ReplaceConcat(s: string, t: string, c: char, text: string)
    ensures Replace(s + t, c, text) == Replace(s, c, text) + Replace(t, c, text)
  {
    if s == "" {
      assert s + t == t;
    } else {
      assert (s + t)[1..] == s[1..] + t;
      ReplaceConcat(s[1..], t, c, text);
    }
  }

  lemma ReplaceOne(d: char, c: char, text: string)
    ensures Replace([d], c, text) == if d == c then text else [d]
  {
    assert [d][1..] == "";
  }

  /** The backslashes that one replacement brings in are not touched by the next ones. */
  lemma {:induction false} ThreeReplacesAreOnePass(s: string)
    ensures Replace(Replace(Replace(s, '\\', "\\\\"), '"', "\\\""), '$', "\\$") == Escaped(s)
  {
    if s != "" {
      var c, rest := s[0], s[1..];
      ThreeReplacesAreOnePass(rest);
      var first := if c == '\\' then "\\\\" else [c];
      var one := Replace(rest, '\\', "\\\\");
      ReplaceConcat(first, one, '"', "\\\"");
      var second := Replace(first, '"', "\\\"");
      var two := Replace(one, '"', "\\\"");
      ReplaceConcat(second, two, '$', "\\$");
      ReplaceOne(c, '"', "\\\"");
      ReplaceOne(c, '$', "\\$");
      ReplaceOne('\\', '"', "\\\"");
      ReplaceOne('\\', '$', "\\$");
      ReplaceOne('"', '$', "\\$");
      ReplaceConcat("\\", "\\", '"', "\\\"");
      ReplaceConcat("\\", "\\", '$', "\\$");
      ReplaceConcat("\\", "\"", '$', "\\$");
      assert "\\" + "\\" == "\\\\" && "\\" + "\"" == "\\\"";
    }
  }

  lemma {:induction false} EscapedIsNoShorter(s: string)
    ensures |Escaped(s)| >= |s|
  {
    if s != "" {
      EscapedIsNoShorter(s[1..]);
    }
  }

  /** A value is left bare exactly if it is not empty and has no blank, tab, line end, double
      quote, dollar sign, backslash or hash; else it is put in double quotes. */
  lemma LeftBareExactlyIf(value: string)
    ensures FormatValue(value) == value <==>
      && value != ""
      && ' ' !in value && '\t' !in value && '\n' !in value && '\r' !in value
      && '"' !in value && '$' !in value && '\\' !in value && '#' !in value
    ensures FormatValue(value) != value ==> FormatValue(value) == "\"" + Escaped(value) + "\""
  {
    ThreeReplacesAreOnePass(value);
    EscapedIsNoShorter(value);
    hide Replace, Escaped;
    var q := QUOTED_CHARS;
    assert q[0] == ' ' && q[1] == '\t' && q[2] == '\n' && q[3] == '\r' && q[4] == '"' && q[5] == '$';
    assert q[6] == '\\' && q[7] == '#' && |q| == 8;
    if NeedsQuoting(value) && value != "" {
      var i :| 0 <= i < |value| && value[i] in q;
      assert value[i] in value;
    } else if value != "" {
      assert forall i | 0 <= i < |value| :: value[i] !in q;
    }
  }

  // Rendering

  /** One line of text, in pieces short enough to look through for a line end. */
  function Header(): string {
    "# Generated by todos_app" + ".shared.config.export" + " \U{2014} do not edit;" +
    " update config TOML" + " instead."
  }

  predicate OneLine(s: string) {
    forall i | 0 <= i < |s| :: s[i] != '\n'
  }

  predicate IsComment(line: string) {
    line != "" && line[0] == '#' && OneLine(line)
  }

  lemma HeaderIsComment()
    ensures IsComment(Header())
  {
    assert OneLine("# Generated by todos_app") && OneLine(".shared.config.export");
    assert OneLine(" \U{2014} do not edit;") && OneLine(" update config TOML") && OneLine(" instead.");
  }

  type Pair = (string, string)

  function Line(pair: Pair): string {
    pair.0 + "=" + FormatValue(pair.1)
  }

  /** The pairs a file holds: the profile first, when there is one that is not empty. */
  function AllPairs(pairs: seq<Pair>, envProfile: Option<string>): seq<Pair> {
    (if envProfile.Some? && envProfile.value != "" then [("ENV_PROFILE", envProfile.value)] else []) + pairs
  }

  function Lines(pairs: seq<Pair>): string {
    if pairs == [] then "" else Line(pairs[0]) + "\n" + Lines(pairs[1..])
  }

  lemma {:induction false} JoinedAppend(lines: seq<string>, line: string)
    requires lines != []
    ensures Joined("\n", lines + [line]) == Joined("\n", lines) + "\n" + line
  {
    if |lines| == 1 {
      assert (lines + [line])[1..] == [line];
    } else {
      assert (lines + [line])[1..] == lines[1..] + [line];
      JoinedAppend(lines[1..], line);
    }
  }

  lemma {:induction false} LinesAppend(pairs: seq<Pair>, pair: Pair)
    ensures Lines(pairs + [pair]) == Lines(pairs) + Line(pair) + "\n"
  {
    if pairs == [] {
      assert pairs + [pair] == [pair] && [pair][1..] == pairs;
    } else {
      assert (pairs + [pair])[1..] == pairs[1..] + [pair];
      LinesAppend(pairs[1..], pair);
      var first, rest := Line(pairs[0]) + "\n", Lines(pairs[1..]);
      assert Lines(pairs) == first + rest;
      assert Lines(pairs + [pair]) == first + (rest + Line(pair) + "\n");
      hide *;
    }
  }

  lemma AppendOnBothSides(joined: string, end: string, start: string, lines: string, line: string)
    requires joined + end == start + lines
    ensures joined + end + line + end == start + (lines + line + end)
  {
    assert (start + lines) + line == start + (lines + line);
    assert (start + (lines + line)) + end == start + ((lines + line) + end);
  }

  /** One more line in the list is one more line in the text. */
  lemma OneLineMore(lines: seq<string>, pairs: seq<Pair>, pair: Pair)
    requires lines != [] && Joined("\n", lines) + "\n" == Header() + "\n" + Lines(pairs)
    ensures Joined("\n", lines + [Line(pair)]) + "\n" == Header() + "\n" + Lines(pairs + [pair])
  {
    JoinedAppend(lines, Line(pair));
    LinesAppend(pairs, pair);
    hide *;
    AppendOnBothSides(Joined("\n", lines), "\n", Header() + "\n", Lines(pairs), Line(pair));
  }

  method RenderDotenv(pairs: seq<Pair>, envProfile: Option<string>) returns (text: string)
    ensures text == Header() + "\n" + Lines(AllPairs(pairs, envProfile))
  {
    var lines := [Header()];
    ghost var printed: seq<Pair> := [];
    hide Header, FormatValue;
    assert Joined("\n", lines) + "\n" == Header() + "\n" + Lines(printed);
    hide Joined, Lines;
    if envProfile.Some? && envProfile.value != "" {
      OneLineMore(lines, printed, ("ENV_PROFILE", envProfile.value));
      printed := printed + [("ENV_PROFILE", envProfile.value)];
      lines := lines + ["ENV_PROFILE" + "=" + FormatValue(envProfile.value)];
    }
    ghost var profile := printed;
    for i := 0 to |pairs|
      invariant lines != [] && printed == profile + pairs[..i]
      invariant Joined("\n", lines) + "\n" == Header() + "\n" + Lines(printed)
    {
      var (name, value) := pairs[i];
      OneLineMore(lines, printed, pairs[i]);
      printed := printed + [pairs[i]];
      lines := lines + [name + "=" + FormatValue(value)];
    }
    assert printed == AllPairs(pairs, envProfile);
    text := Joined("\n", lines) + "\n";
  }

  // Reading

  /** Inside double quotes (section 2.2.3 of the POSIX Shell Command Language): a backslash
      escapes a dollar sign, a backquote, a double quote, a backslash or a line end, and stands
      for itself before anything else. The value, and what follows the closing quote. */
  function ReadQuoted(s: string): (r: Option<(string, string)>)
    ensures r.Some? ==> |r.value.1| < |s|
  {
    if s == "" then None
    else if s[0] == '"' then Some(("", s[1..]))
    else if s[0] == '\\' && |s| > 1 && s[1] in "$`\"\\\n" then
      match ReadQuoted(s[2..])
      case None => None
      case Some((value, rest)) => Some(((if s[1] == '\n' then "" else [s[1]]) + value, rest))
    else
      match ReadQuoted(s[1..])
      case None => None
      case Some((value, rest)) => Some(([s[0]] + value, rest))
  }

  /** Up to a character that is not included. */
  function Until(c: char, s: string): (r: string)
    ensures |r| <= |s| && (|r| < |s| ==> s[|r|] == c)
  {
    if s == "" || s[0] == c then "" else [s[0]] + Until(c, s[1..])
  }

  /** One assignment, and what follows its line end. */
  function ReadLine(s: string): (r: Option<(Pair, string)>)
    ensures r.Some? ==> |r.value.1| < |s|
  {
    var name := Until('=', s);
    if |name| == |s| then None
    else
      var after := s[|name| + 1..];
      if after != "" && after[0] == '"' then
        match ReadQuoted(after[1..])
        case None => None
        case Some((value, rest)) => if rest != "" && rest[0] == '\n' then Some(((name, value), rest[1..])) else None
      else
        var value := Until('\n', after);
        if |value| == |after| then None else Some(((name, value), after[|value| + 1..]))
  }

  /** All assignments of a file; a line that starts with a hash is a comment. */
  function ReadDotenv(s: string): Option<seq<Pair>>
    decreases |s|
  {
    if s == "" then Some([])
    else if s[0] == '#' then
      var comment := Until('\n', s);
      if |comment| == |s| then Some([]) else ReadDotenv(s[|comment| + 1..])
    else
      match ReadLine(s)
      case None => None
      case Some((pair, rest)) =>
        match ReadDotenv(rest)
        case None => None
        case Some(pairs) => Some([pair] + pairs)
  }

  lemma {:induction false} UntilStops(c: char, s: string, rest: string)
    requires c !in s
    ensures Until(c, s + [c] + rest) == s
  {
    if s == "" {
      assert s + [c] + rest == [c] + rest;
    } else {
      assert (s + [c] + rest)[1..] == s[1..] + [c] + rest;
      UntilStops(c, s[1..], rest);
    }
  }

  lemma EscapedCharIsRead(c: char, s: string, value: string, rest: string)
    requires ReadQuoted(s) == Some((value, rest))
    ensures ReadQuoted(EscapedChar(c) + s) == Some(([c] + value, rest))
  {
    var escaped := EscapedChar(c) + s;
    if c == '\\' || c == '"' || c == '$' {
      assert escaped[0] == '\\' && escaped[1] == c && escaped[2..] == s;
    } else {
      assert escaped[0] == c && escaped[1..] == s;
    }
  }

  lemma {:induction false} QuotedIsRead(value: string, rest: string)
    ensures ReadQuoted(Escaped(value) + "\"" + rest) == Some((value, rest))
  {
    if value == "" {
      assert Escaped(value) + "\"" + rest == "\"" + rest;
    } else {
      var s := Escaped(value[1..]) + "\"" + rest;
      QuotedIsRead(value[1..], rest);
      hide ReadQuoted, EscapedChar;
      EscapedCharIsRead(value[0], s, value[1..], rest);
      assert Escaped(value) + "\"" + rest == EscapedChar(value[0]) + s;
      assert value == [value[0]] + value[1..];
    }
  }

  /** A name that a reader can tell from a comment and from the value. */
  predicate Nameable(name: string) {
    '=' !in name && (name == "" || name[0] != '#')
  }

  lemma QuotedValueIsRead(value: string, rest: string)
    requires NeedsQuoting(value)
    ensures var after := FormatValue(value) + "\n" + rest;
      after[0] == '"' && ReadQuoted(after[1..]) == Some((value, "\n" + rest))
  {
    ThreeReplacesAreOnePass(value);
    QuotedIsRead(value, "\n" + rest);
    hide NeedsQuoting, Replace, Escaped, ReadQuoted;
    var after := FormatValue(value) + "\n" + rest;
    assert after[1..] == Escaped(value) + "\"" + ("\n" + rest);
  }

  lemma BareValueIsRead(value: string, rest: string)
    requires !NeedsQuoting(value)
    ensures var after := FormatValue(value) + "\n" + rest;
      after[0] != '"' && |value| < |after| && Until('\n', after) == value && after[|value| + 1..] == rest
  {
    assert QUOTED_CHARS[2] == '\n' && QUOTED_CHARS[4] == '"';
    assert forall i | 0 <= i < |value| :: value[i] !in QUOTED_CHARS;
    assert '\n' !in value && value[0] != '"';
    UntilStops('\n', value, rest);
    hide Until;
    var after := FormatValue(value) + "\n" + rest;
    assert after == value + ['\n'] + rest;
  }

  /** Whatever the value, line ends included, it is read back from its line. */
  lemma LineIsRead(pair: Pair, rest: string)
    requires Nameable(pair.0)
    ensures ReadLine(Line(pair) + "\n" + rest) == Some((pair, rest))
  {
    var (name, value) := pair;
    hide FormatValue, NeedsQuoting, ReadQuoted, Until;
    var after := FormatValue(value) + "\n" + rest;
    var s := Line(pair) + "\n" + rest;
    assert s == name + ['='] + after;
    UntilStops('=', name, after);
    assert s[|name| + 1..] == after && |after| > 0;
    if NeedsQuoting(value) {
      QuotedValueIsRead(value, rest);
      assert ("\n" + rest)[1..] == rest;
    } else {
      BareValueIsRead(value, rest);
    }
  }

  ghost predicate AllNameable(pairs: seq<Pair>) {
    forall i | 0 <= i < |pairs| :: Nameable(pairs[i].0)
  }

  lemma LineIsNoComment(pair: Pair)
    requires Nameable(pair.0)
    ensures Line(pair) != "" && Line(pair)[0] != '#'
  {
    hide FormatValue;
  }

  lemma {:induction false} LinesAreRead(pairs: seq<Pair>)
    requires AllNameable(pairs)
    ensures ReadDotenv(Lines(pairs)) == Some(pairs)
  {
    if pairs != [] {
      var rest := Lines(pairs[1..]);
      LinesAreRead(pairs[1..]);
      LineIsRead(pairs[0], rest);
      assert Lines(pairs) == Line(pairs[0]) + "\n" + rest;
      assert pairs == [pairs[0]] + pairs[1..];
      LineIsNoComment(pairs[0]);
      hide Line, ReadLine;
      assert (Line(pairs[0]) + "\n" + rest)[0] == Line(pairs[0])[0];
    }
  }

  /** A reader gets back exactly the pairs that were printed, whatever their values. */
  lemma DotenvRoundTrip(pairs: seq<Pair>, envProfile: Option<string>)
    requires AllNameable(pairs)
    ensures ReadDotenv(Header() + "\n" + Lines(AllPairs(pairs, envProfile))) == Some(AllPairs(pairs, envProfile))
  {
    var all := AllPairs(pairs, envProfile);
    assert forall i | 0 <= i < |all| :: Nameable(all[i].0);
    LinesAreRead(all);
    HeaderIsComment();
    hide Lines, AllPairs, Header;
    CommentIsSkipped(Header(), Lines(all));
  }

  lemma CommentIsSkipped(comment: string, rest: string)
    requires IsComment(comment)
    ensures ReadDotenv(comment + "\n" + rest) == ReadDotenv(rest)
  {
    UntilStops('\n', comment, rest);
    var file := comment + "\n" + rest;
    assert file == comment + ['\n'] + rest;
    assert file[|comment| + 1..] == rest;
  }
}
