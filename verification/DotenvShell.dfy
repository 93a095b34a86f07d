/** What a shell assigns when it sources a printed file, a line at a time. */
module DotenvShell {
  import opened Wrappers
  import opened Text
  import opened Dotenv

  /** What the text alone does not say: what a tilde and a login name expand to, what a command
      prints, and whether the assignment takes place in this shell when its word is ended by an
      operator and what follows that. */
  datatype Shell = Shell(tilde: string -> string, output: string -> string, proceeds: string -> bool)

  predicate EndsWord(c: char) {
    c in "|&;<>() \t\n"
  }

  predicate Quotes(c: char) {
    c in "'\"`\\$"
  }

  function Prepend(text: string, value: Option<string>): Option<string> {
    if value.None? then None else Some(text + value.value)
  }

  /** The rest of a word, outside quotes (section 2.2 of the POSIX Shell Command Language). There
      is no value if a quote does not end on this line, or for a dollar sign, of which printed
      files have none without a backslash. */
  function Word(shell: Shell, s: string): Option<string>
    decreases |s|, 0
  {
    if s == "" then Some("")
    else if EndsWord(s[0]) then if shell.proceeds(s) then Some("") else None
    else if s[0] == '\'' then
      if '\'' !in s[1..] then None
      else
        var i := IndexOf('\'', s[1..]);
        Prepend(s[1..][..i], Word(shell, s[1..][i + 1..]))
    else if s[0] == '`' then
      if '`' !in s[1..] then None
      else
        var i := IndexOf('`', s[1..]);
        Prepend(shell.output(s[1..][..i]), Word(shell, s[1..][i + 1..]))
    else if s[0] == '"' then InDoubleQuotes(shell, s[1..])
    else if s[0] == '$' then None
    else if s[0] == '\\' then
      if |s| == 1 then None
      else Prepend(if s[1] == '\n' then "" else [s[1]], Word(shell, s[2..]))
    else if s[0] == ':' then Prepend(":", WordWithTilde(shell, s[1..]))
    else Prepend([s[0]], Word(shell, s[1..]))
  }

  /** Inside double quotes (section 2.2.3). */
  function InDoubleQuotes(shell: Shell, s: string): Option<string>
    decreases |s|, 0
  {
    if s == "" || s[0] == '$' then None
    else if s[0] == '"' then Word(shell, s[1..])
    else if s[0] == '`' then
      if '`' !in s[1..] then None
      else
        var i := IndexOf('`', s[1..]);
        Prepend(shell.output(s[1..][..i]), InDoubleQuotes(shell, s[1..][i + 1..]))
    else if s[0] == '\\' && |s| > 1 && s[1] in "$`\"\\\n" then
      Prepend(if s[1] == '\n' then "" else [s[1]], InDoubleQuotes(shell, s[2..]))
    else Prepend([s[0]], InDoubleQuotes(shell, s[1..]))
  }

  /** The login name after a tilde. */
  function Login(s: string): (login: string)
    ensures login <= s
    ensures |login| < |s| ==> s[|login|] in "/:" || EndsWord(s[|login|]) || Quotes(s[|login|])
    ensures forall i | 0 <= i < |login| :: login[i] !in "/:" && !EndsWord(login[i]) && !Quotes(login[i])
  {
    if s == "" || s[0] in "/:" || EndsWord(s[0]) || Quotes(s[0]) then ""
    else
      assert s == [s[0]] + s[1..];
      [s[0]] + Login(s[1..])
  }

  /** A word, or its rest after a colon: here a tilde is expanded (section 2.6.1), unless part of
      the login name is quoted. */
  function WordWithTilde(shell: Shell, s: string): Option<string>
    decreases |s|, 1
  {
    if s == "" || s[0] != '~' then Word(shell, s)
    else
      var login := Login(s[1..]);
      var rest := s[1..][|login|..];
      if rest != "" && Quotes(rest[0]) then Word(shell, s)
      else Prepend(shell.tilde(login), Word(shell, rest))
  }

  /** The value that `NAME=token` assigns in the shell that reads the line, if it assigns one. */
  function ReadByShell(shell: Shell, token: string): Option<string> {
    WordWithTilde(shell, token)
  }

  // Values left bare

  /** A value that needs no quotes. */
  predicate Bare(s: string) {
    forall i | 0 <= i < |s| :: s[i] !in QUOTED_CHARS
  }

  /** What the printer leaves bare although a shell acts on it. */
  predicate ActedOn(c: char) {
    c in "|&;<>()'`"
  }

  predicate LeftAlone(s: string) {
    forall i | 0 <= i < |s| :: !ActedOn(s[i])
  }

  /** Every tilde that is expanded, at the start or after a colon, expands to itself. */
  predicate TildesStay(tilde: string -> string, s: string, atStart: bool) {
    s != "" ==>
      && (atStart && s[0] == '~' ==> tilde(Login(s[1..])) == "~" + Login(s[1..]))
      && TildesStay(tilde, s[1..], s[0] == ':')
  }

  /** A tilde stays, for want of such a login, or gives way to a directory name. */
  ghost predicate Expands(tilde: string -> string) {
    forall login :: tilde(login) == "~" + login || tilde(login) == "" || tilde(login)[0] != '~'
  }

  function ReadFrom(shell: Shell, s: string, atStart: bool): Option<string> {
    if atStart then WordWithTilde(shell, s) else Word(shell, s)
  }

  lemma BareChars(s: string)
    requires Bare(s) && s != ""
    ensures s[0] !in " \t\n\"\\$" && Bare(s[1..])
    ensures ActedOn(s[0]) <==> EndsWord(s[0]) || s[0] == '\'' || s[0] == '`'
  {
    var q := QUOTED_CHARS;
    assert s[0] !in q;
    assert s[0] != q[0] && s[0] != q[1] && s[0] != q[2] && s[0] != q[4] && s[0] != q[5] && s[0] != q[6];
  }

  lemma {:induction false} TildesStayAfter(tilde: string -> string, login: string, rest: string)
    requires forall i | 0 <= i < |login| :: login[i] != ':'
    ensures TildesStay(tilde, login + rest, false) <==> TildesStay(tilde, rest, false)
  {
    if login == "" {
      assert login + rest == rest;
    } else {
      assert (login + rest)[1..] == login[1..] + rest;
      TildesStayAfter(tilde, login[1..], rest);
    }
  }

  lemma PartsAreBare(s: string, n: nat)
    requires n <= |s|
    ensures Bare(s) ==> Bare(s[n..])
    ensures LeftAlone(s) ==> LeftAlone(s[n..])
  {
    assert forall i | 0 <= i < |s[n..]| :: s[n..][i] == s[n + i];
  }

  lemma CharByChar(shell: Shell, s: string, atStart: bool)
    requires Bare(s) && s != "" && !ActedOn(s[0]) && !(atStart && s[0] == '~')
    ensures ReadFrom(shell, s, atStart) == Prepend([s[0]], ReadFrom(shell, s[1..], s[0] == ':'))
  {
    BareChars(s);
    assert Word(shell, s) == Prepend([s[0]], ReadFrom(shell, s[1..], s[0] == ':'));
  }

  lemma ActedOnAreSpecial(c: char)
    ensures ActedOn(c) ==> EndsWord(c) || Quotes(c)
  {
  }

  /** A word that starts with a tilde, cut after its login name. */
  lemma AfterLogin(s: string) returns (login: string, rest: string)
    requires Bare(s) && s != "" && s[0] == '~'
    ensures login == Login(s[1..]) && rest == s[1..][|login|..] && s == "~" + login + rest
    ensures rest == s[1 + |login|..] && Bare(rest)
    ensures forall i | 0 <= i < |login| :: login[i] != ':' && !ActedOn(login[i])
    ensures rest != "" ==> rest[0] == '/' || rest[0] == ':' || ActedOn(rest[0])
    ensures rest != "" ==> (Quotes(rest[0]) <==> rest[0] == '\'' || rest[0] == '`')
  {
    login := Login(s[1..]);
    rest := s[1..][|login|..];
    PartsAreBare(s, 1 + |login|);
    if rest != "" { CharAfterLogin(rest); }
    hide Login, Bare, ActedOn, EndsWord, Quotes;
    assert s[1..] == login + rest;
    forall i | 0 <= i < |login| ensures login[i] != ':' && !ActedOn(login[i]) {
      assert login[i] !in "/:";
      ActedOnAreSpecial(login[i]);
    }
  }

  lemma CharAfterLogin(rest: string)
    requires Bare(rest) && rest != "" && (rest[0] in "/:" || EndsWord(rest[0]) || Quotes(rest[0]))
    ensures rest[0] == '/' || rest[0] == ':' || ActedOn(rest[0])
    ensures Quotes(rest[0]) <==> rest[0] == '\'' || rest[0] == '`'
  {
    BareChars(rest);
  }

  lemma TildeIsExpanded(shell: Shell, s: string, login: string, rest: string)
    requires s != "" && s[0] == '~' && login == Login(s[1..]) && rest == s[1..][|login|..] && s[1..] == login + rest
    requires forall i | 0 <= i < |login| :: login[i] != ':'
    ensures WordWithTilde(shell, s) ==
      if rest != "" && Quotes(rest[0]) then Prepend("~", Word(shell, s[1..]))
      else Prepend(shell.tilde(login), Word(shell, rest))
    ensures TildesStay(shell.tilde, s, true) <==>
      shell.tilde(login) == "~" + login && TildesStay(shell.tilde, rest, false)
  {
    assert Word(shell, s) == Prepend("~", Word(shell, s[1..]));
    TildesStayAfter(shell.tilde, login, rest);
  }

  /** A value that nothing acts on is read as it is. */
  lemma {:induction false} LeftAloneIsRead(shell: Shell, s: string, atStart: bool)
    requires Bare(s) && LeftAlone(s) && TildesStay(shell.tilde, s, atStart)
    ensures ReadFrom(shell, s, atStart) == Some(s)
    decreases |s|
  {
    if s == "" {
      assert Word(shell, s) == Some("");
    } else {
      if atStart && s[0] == '~' {
        var login, rest := AfterLogin(s);
        assert s[1..] == login + rest;
        TildeIsExpanded(shell, s, login, rest);
        PartsAreBare(s, 1 + |login|);
        LeftAloneIsRead(shell, rest, false);
      } else {
        CharByChar(shell, s, atStart);
        PartsAreBare(s, 1);
        assert s == [s[0]] + s[1..];
        LeftAloneIsRead(shell, s[1..], s[0] == ':');
      }
    }
  }

  /** Reading on after a single quote never yields one at once. */
  lemma {:induction false} QuoteIsGone(shell: Shell, s: string)
    requires Bare(s) && forall command :: shell.output(command) == "/"
    ensures var value := Word(shell, s); value.Some? && value.value != "" ==> value.value[0] != '\''
    decreases |s|
  {
    if s != "" {
      BareChars(s);
      if s[0] == '\'' && '\'' in s[1..] {
        var i := IndexOf('\'', s[1..]);
        assert s[1..][i + 1..] == s[i + 2..];
        PartsAreBare(s, i + 2);
        QuoteIsGone(shell, s[1..][i + 1..]);
        assert i > 0 ==> s[1..][..i][0] == s[1];
        assert i > 0 ==> s[1] in s[1..][..i];
      } else if s[0] == ':' {
        var value := WordWithTilde(shell, s[1..]);
      }
    }
  }

  lemma JoinedIsLeftAlone(login: string, rest: string, s: string)
    requires s == "~" + login + rest && LeftAlone(rest)
    requires forall i | 0 <= i < |login| :: !ActedOn(login[i])
    ensures LeftAlone(s)
  {
  }

  lemma ActedOnAtOnce(shell: Shell, s: string)
    requires Bare(s) && s != "" && ActedOn(s[0]) && forall command :: shell.output(command) == "/"
    ensures Word(shell, s) != Some(s)
  {
    BareChars(s);
    if s[0] == '\'' { QuoteIsGone(shell, s); }
  }

  lemma TildeGivesWay(shell: Shell, s: string, login: string, rest: string)
    requires Expands(shell.tilde) && shell.tilde(login) != "~" + login
    requires s != "" && s[0] == '~' && Bare(rest)
    requires rest != "" ==> rest[0] == '/' || rest[0] == ':' || EndsWord(rest[0])
    ensures Prepend(shell.tilde(login), Word(shell, rest)) != Some(s)
  {
    if shell.tilde(login) == "" && rest != "" {
      BareChars(rest);
      assert rest[0] == ':' ==> Word(shell, rest) == Prepend(":", WordWithTilde(shell, rest[1..]));
      assert rest[0] == '/' ==> Word(shell, rest) == Prepend("/", Word(shell, rest[1..]));
    }
  }

  /** A value that something acts on is not read as it is, when commands print a slash. */
  lemma {:induction false} ActedOnIsNotRead(shell: Shell, s: string, atStart: bool)
    requires Bare(s) && Expands(shell.tilde) && forall command :: shell.output(command) == "/"
    requires !LeftAlone(s) || !TildesStay(shell.tilde, s, atStart)
    ensures ReadFrom(shell, s, atStart) != Some(s)
    decreases |s|, 1
  {
    hide Word, WordWithTilde, Login, Expands, TildesStay;
    if s == "" {
      NothingToActOn(shell.tilde, atStart);
    } else if atStart && s[0] == '~' {
      ActedOnAfterTilde(shell, s);
    } else if ActedOn(s[0]) {
      ActedOnAtOnce(shell, s);
      NoTildeNoChange(shell, s);
    } else {
      CharByChar(shell, s, atStart);
      PartsAreBare(s, 1);
      TildesStayOn(shell.tilde, s, atStart);
      assert LeftAlone(s[1..]) ==> LeftAlone(s) by {
        assert forall i | 0 < i < |s| :: s[i] == s[1..][i - 1];
      }
      ActedOnIsNotRead(shell, s[1..], s[0] == ':');
      assert s == [s[0]] + s[1..];
    }
  }

  lemma NothingToActOn(tilde: string -> string, atStart: bool)
    ensures LeftAlone("") && TildesStay(tilde, "", atStart)
  {
  }

  lemma NoTildeNoChange(shell: Shell, s: string)
    requires s != "" && s[0] != '~'
    ensures WordWithTilde(shell, s) == Word(shell, s)
  {
  }

  lemma TildesStayOn(tilde: string -> string, s: string, atStart: bool)
    requires s != "" && !(atStart && s[0] == '~')
    ensures TildesStay(tilde, s, atStart) <==> TildesStay(tilde, s[1..], s[0] == ':')
  {
  }

  lemma {:induction false} ActedOnAfterTilde(shell: Shell, s: string)
    requires Bare(s) && Expands(shell.tilde) && forall command :: shell.output(command) == "/"
    requires s != "" && s[0] == '~' && (!LeftAlone(s) || !TildesStay(shell.tilde, s, true))
    ensures WordWithTilde(shell, s) != Some(s)
    decreases |s|, 0
  {
    hide Word, WordWithTilde, Login, Expands, TildesStay;
    var login, rest := AfterLogin(s);
    assert s[1..] == login + rest;
    TildeIsExpanded(shell, s, login, rest);
    PartsAreBare(s, 1);
    if rest != "" && Quotes(rest[0]) {
      assert s[1..][|login|] == rest[0];
      ActedOnIsNotRead(shell, s[1..], false);
      assert s == "~" + s[1..];
    } else if shell.tilde(login) == "~" + login {
      if LeftAlone(rest) { JoinedIsLeftAlone(login, rest, s); }
      ActedOnIsNotRead(shell, rest, false);
    } else {
      TildeGivesWay(shell, s, login, rest);
    }
  }

  // Values in quotes

  lemma EscapedCharIsRead(shell: Shell, c: char, rest: string)
    ensures c != '`' ==>
      InDoubleQuotes(shell, EscapedChar(c) + rest) == Prepend([c], InDoubleQuotes(shell, rest))
    ensures c == '`' && (forall command :: shell.output(command) == "/") ==>
      var value := InDoubleQuotes(shell, EscapedChar(c) + rest); value.Some? ==> value.value[..1] == "/"
  {
    var s := EscapedChar(c) + rest;
    assert EscapedChar(c) == ['\\', c] ==> s[2..] == rest;
    assert EscapedChar(c) == [c] ==> s[1..] == rest;
  }

  lemma {:induction false} EscapedIsRead(shell: Shell, value: string)
    ensures '`' !in value ==> InDoubleQuotes(shell, Escaped(value) + "\"") == Some(value)
    ensures '`' in value && (forall command :: shell.output(command) == "/") ==>
      InDoubleQuotes(shell, Escaped(value) + "\"") != Some(value)
  {
    if value == "" {
      assert Escaped(value) + "\"" == "\"";
      assert Word(shell, "") == Some("");
    } else {
      var c, rest := value[0], Escaped(value[1..]) + "\"";
      EscapedCharIsRead(shell, c, rest);
      EscapedIsRead(shell, value[1..]);
      assert Escaped(value) + "\"" == EscapedChar(c) + rest;
      assert value == [c] + value[1..];
      hide InDoubleQuotes, Word, EscapedChar;
    }
  }

  lemma QuotedIsRead(shell: Shell, value: string)
    requires NeedsQuoting(value)
    ensures ReadByShell(shell, FormatValue(value)) == InDoubleQuotes(shell, Escaped(value) + "\"")
  {
    ThreeReplacesAreOnePass(value);
    var token := FormatValue(value);
    assert token[1..] == Escaped(value) + "\"";
    assert Word(shell, token) == InDoubleQuotes(shell, token[1..]);
  }

  // Both

  /** What can be looked up before printing: no backquote; and if the value is left bare, no
      operator or single quote either, and no tilde that expands. */
  predicate SafeToSource(tilde: string -> string, value: string) {
    if NeedsQuoting(value) then '`' !in value else LeftAlone(value) && TildesStay(tilde, value, true)
  }

  lemma UnquotedIsBare(value: string)
    requires !NeedsQuoting(value)
    ensures Bare(value) && FormatValue(value) == value
  {
  }

  lemma SafeIsRead(shell: Shell, value: string)
    requires SafeToSource(shell.tilde, value)
    ensures ReadByShell(shell, FormatValue(value)) == Some(value)
  {
    if NeedsQuoting(value) {
      QuotedIsRead(shell, value);
      EscapedIsRead(shell, value);
    } else {
      UnquotedIsBare(value);
      LeftAloneIsRead(shell, value, true);
    }
  }

  lemma UnsafeIsNotRead(shell: Shell, value: string)
    requires !SafeToSource(shell.tilde, value)
    requires Expands(shell.tilde) && forall command :: shell.output(command) == "/"
    ensures ReadByShell(shell, FormatValue(value)) != Some(value)
  {
    hide FormatValue, Word, WordWithTilde, InDoubleQuotes, TildesStay;
    if NeedsQuoting(value) {
      QuotedIsRead(shell, value);
      EscapedIsRead(shell, value);
    } else {
      UnquotedIsBare(value);
      ActedOnIsNotRead(shell, value, true);
    }
  }

  /** A shell that sources the file gets a value right, whatever commands print, exactly if it is
      safe to source. */
  lemma ShellReadsExactlyIf(value: string, tilde: string -> string, proceeds: string -> bool)
    requires Expands(tilde)
    ensures SafeToSource(tilde, value) <==>
      forall output :: ReadByShell(Shell(tilde, output, proceeds), FormatValue(value)) == Some(value)
  {
    hide SafeToSource, ReadByShell, Expands;
    if SafeToSource(tilde, value) {
      forall output ensures ReadByShell(Shell(tilde, output, proceeds), FormatValue(value)) == Some(value) {
        SafeIsRead(Shell(tilde, output, proceeds), value);
      }
    } else {
      var output := (command: string) => "/";
      UnsafeIsNotRead(Shell(tilde, output, proceeds), value);
    }
  }

  lemma CutAtSemicolon(shell: Shell, value: string)
    requires value == "a;b" && shell.proceeds(";b")
    ensures !NeedsQuoting(value) && ReadByShell(shell, value) == Some("a")
  {
    assert value[1..] == ";b";
    assert Word(shell, value[1..]) == Some("");
    assert Word(shell, value) == Prepend("a", Word(shell, value[1..]));
    NoTildeNoChange(shell, value);
    assert "a" + "" == "a";
  }

  /** Left bare, a semicolon cuts the value off, and what follows it is a command. */
  lemma SemicolonCutsValue(shell: Shell)
    requires shell.proceeds(";b")
    ensures FormatValue("a;b") == "a;b" && ReadByShell(shell, "a;b") == Some("a")
  {
    hide NeedsQuoting, ReadByShell;
    CutAtSemicolon(shell, "a;b");
  }

  /** Left bare, single quotes vanish. */
  lemma SingleQuotesVanish(shell: Shell)
    ensures FormatValue("'a'") == "'a'" && ReadByShell(shell, "'a'") == Some("a")
  {
    var value := "'a'";
    var rest := value[1..];
    assert rest == "a'";
    assert rest[1] == '\'';
    assert IndexOf('\'', rest) == 1;
    assert rest[..1] == "a" && rest[2..] == "";
    assert Word(shell, rest[2..]) == Some("");
    assert Word(shell, value) == Prepend("a", Word(shell, rest[2..]));
    NoTildeNoChange(shell, value);
    assert "a" + "" == "a";
  }
}
