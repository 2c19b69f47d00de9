/**
 * Quoting words for a POSIX shell, and the hook command built from quoted words. The lexer follows section 2.2 of
 * the POSIX.1-2017 Shell Command Language; it gives up on whatever would be more than a plain list of words.
 */
module Shell {
  import opened Options

  /** `value.replace('\'', r#"'"'"'"#)`. */
  function EscapeQuotes(value: string): string {
    if value == "" then ""
    else EscapeQuotes(value[..|value| - 1]) + (if value[|value| - 1] == '\'' then "'\"'\"'" else [value[|value| - 1]])
  }

  /** `shell_escape`, which panics on NUL. */
  function ShellEscape(value: string): string
    requires '\0' !in value
  {
    "'" + EscapeQuotes(value) + "'"
  }

  function BuildHookCommand(binary: string, agent: string, event: string, url: string): string
    requires '\0' !in binary && '\0' !in agent && '\0' !in event && '\0' !in url
  {
    ShellEscape(binary)
    + " --agent " + ShellEscape(agent) + " --event " + ShellEscape(event) + " --server-url " + ShellEscape(url)
  }

  // --- The shell's reading of it ---

  datatype Quoting = Unquoted | Single | Double

  datatype Lexer =
    | Lexer(words: seq<string>, word: Option<string>, quoting: Quoting)
    | NotPlain

  const START := Lexer([], None, Unquoted)

  /** Characters with a meaning of their own outside quotes. */
  predicate Special(c: char) {
    || c == '|' || c == '&' || c == ';' || c == '<' || c == '>' || c == '(' || c == ')' || c == '$' || c == '`'
    || c == '\\' || c == '*' || c == '?' || c == '[' || c == '#' || c == '~' || c == '=' || c == '%' || c == '!'
    || c == '{' || c == '}' || c == '\n'
  }

  /** Characters that open a quotation or separate words. */
  predicate Breaks(c: char) { c == '\'' || c == '"' || c == ' ' || c == '\t' }

  function Started(word: Option<string>): string { if word.Some? then word.value else "" }

  function Step(l: Lexer, c: char): Lexer {
    match l
    case NotPlain => NotPlain
    case Lexer(words, word, Single) =>
      if c == '\'' then Lexer(words, word, Unquoted) else Lexer(words, Some(Started(word) + [c]), Single)
    case Lexer(words, word, Double) =>
      if c == '"' then Lexer(words, word, Unquoted)
      else if c in "$`\\" then NotPlain
      else Lexer(words, Some(Started(word) + [c]), Double)
    case Lexer(words, word, Unquoted) =>
      if c == '\'' then Lexer(words, Some(Started(word)), Single)
      else if c == '"' then Lexer(words, Some(Started(word)), Double)
      else if c == ' ' || c == '\t' then Lexer(if word.Some? then words + [word.value] else words, None, Unquoted)
      else if Special(c) then NotPlain
      else Lexer(words, Some(Started(word) + [c]), Unquoted)
  }

  function Lex(l: Lexer, s: string): Lexer {
    if s == "" then l else Step(Lex(l, s[..|s| - 1]), s[|s| - 1])
  }

  /** The words of a command line, when it is a plain list of them. */
  function Words(s: string): Option<seq<string>> {
    match Lex(START, s)
    case NotPlain => None
    case Lexer(words, word, quoting) =>
      if quoting != Unquoted then None else Some(if word.Some? then words + [word.value] else words)
  }

  lemma {:induction false} LexConcat(l: Lexer, a: string, b: string)
    ensures Lex(l, a + b) == Lex(Lex(l, a), b)
  {
    if b == "" {
      assert a + b == a;
    } else {
      LexConcat(l, a, b[..|b| - 1]);
      assert (a + b)[..|a + b| - 1] == a + b[..|b| - 1];
    }
  }

  /** Inside single quotes the escaped text stands for itself, quotes included. */
  lemma {:induction false} LexEscaped(words: seq<string>, word: string, value: string)
    ensures Lex(Lexer(words, Some(word), Single), EscapeQuotes(value)) == Lexer(words, Some(word + value), Single)
  {
    var l := Lexer(words, Some(word), Single);
    if value == "" {
      assert word + value == word;
    } else {
      var init, c := value[..|value| - 1], value[|value| - 1];
      LexEscaped(words, word, init);
      var piece := if c == '\'' then "'\"'\"'" else [c];
      LexConcat(l, EscapeQuotes(init), piece);
      assert word + init + [c] == word + value;
      LexPiece(words, word + init, c);
    }
  }

  lemma LexPiece(words: seq<string>, word: string, c: char)
    ensures Lex(Lexer(words, Some(word), Single), if c == '\'' then "'\"'\"'" else [c])
              == Lexer(words, Some(word + [c]), Single)
  {
    var l := Lexer(words, Some(word), Single);
    if c == '\'' {
      var s := "'\"'\"'";
      LexFirst(l, s);
      LexFirst(Lexer(words, Some(word), Unquoted), s[1..]);
      LexFirst(Lexer(words, Some(word), Double), s[2..]);
      LexFirst(Lexer(words, Some(word + [c]), Double), s[3..]);
      LexFirst(Lexer(words, Some(word + [c]), Unquoted), s[4..]);
    } else {
      LexOne(l, c);
    }
  }

  lemma LexFirst(l: Lexer, s: string)
    requires s != ""
    ensures Lex(l, s) == Lex(Step(l, s[0]), s[1..])
  {
    assert s == [s[0]] + s[1..];
    LexConcat(l, [s[0]], s[1..]);
    LexOne(l, s[0]);
  }

  lemma LexOne(l: Lexer, c: char)
    ensures Lex(l, [c]) == Step(l, c)
  {
    assert [c][..0] == "";
  }

  /** A quoted value is one word. */
  lemma LexQuoted(words: seq<string>, value: string)
    requires '\0' !in value
    ensures Lex(Lexer(words, None, Unquoted), ShellEscape(value)) == Lexer(words, Some(value), Unquoted)
  {
    var l := Lexer(words, None, Unquoted);
    LexOne(l, '\'');
    LexEscaped(words, "", value);
    LexOne(Lexer(words, Some(value), Single), '\'');
    LexConcat(l, "'" + EscapeQuotes(value), "'");
    LexConcat(l, "'", EscapeQuotes(value));
    assert "" + value == value;
  }

  /** A word of plain characters between blanks. */
  predicate Plain(s: string) { s != "" && forall c :: c in s ==> !Special(c) && !Breaks(c) }

  lemma {:induction false} LexPlain(words: seq<string>, s: string)
    requires Plain(s)
    ensures Lex(Lexer(words, None, Unquoted), s) == Lexer(words, Some(s), Unquoted)
  {
    var init, c := s[..|s| - 1], s[|s| - 1];
    assert s == init + [c] && c in s;
    if init == "" {
      assert Started(None) + [c] == s;
    } else {
      assert forall d :: d in init ==> d in s;
      LexPlain(words, init);
    }
  }

  /** `" flag "` after a finished word ends that word and adds the flag. */
  lemma LexFlag(words: seq<string>, word: string, flag: string)
    requires Plain(flag)
    ensures Lex(Lexer(words, Some(word), Unquoted), " " + flag + " ") == Lexer(words + [word, flag], None, Unquoted)
  {
    var l := Lexer(words, Some(word), Unquoted);
    LexOne(l, ' ');
    LexConcat(l, " ", flag);
    LexPlain(words + [word], flag);
    LexConcat(l, " " + flag, " ");
    LexOne(Lexer(words + [word], Some(flag), Unquoted), ' ');
    assert words + [word] + [flag] == words + [word, flag];
  }

  lemma FlagsPlain()
    ensures Plain("--agent") && Plain("--event") && Plain("--server-url")
  {
    assert forall c :: 'a' <= c <= 'z' || c == '-' ==> !Special(c) && !Breaks(c);
    hide Special;
  }

  /** The hook command is read back as its seven words, whatever the paths and names contain. */
  lemma HookCommandReadsBack(binary: string, agent: string, event: string, url: string)
    requires '\0' !in binary && '\0' !in agent && '\0' !in event && '\0' !in url
    ensures Words(BuildHookCommand(binary, agent, event, url)) ==
            Some([binary, "--agent", agent, "--event", event, "--server-url", url])
  {
    FlagsPlain();
    hide Lex, Plain;
    var s1 := ShellEscape(binary);
    var s2 := s1 + " --agent ";
    var s3 := s2 + ShellEscape(agent);
    var s4 := s3 + " --event ";
    var s5 := s4 + ShellEscape(event);
    var s6 := s5 + " --server-url ";
    LexQuoted([], binary);
    LexFlag([], binary, "--agent");
    LexConcat(START, s1, " --agent ");
    assert " --agent " == " " + "--agent" + " " && [] + [binary, "--agent"] == [binary, "--agent"];
    LexQuoted([binary, "--agent"], agent);
    LexConcat(START, s2, ShellEscape(agent));
    LexFlag([binary, "--agent"], agent, "--event");
    LexConcat(START, s3, " --event ");
    assert " --event " == " " + "--event" + " ";
    var w4 := [binary, "--agent", agent, "--event"];
    assert [binary, "--agent"] + [agent, "--event"] == w4;
    LexQuoted(w4, event);
    LexConcat(START, s4, ShellEscape(event));
    LexFlag(w4, event, "--server-url");
    LexConcat(START, s5, " --server-url ");
    assert " --server-url " == " " + "--server-url" + " ";
    var w6 := [binary, "--agent", agent, "--event", event, "--server-url"];
    assert w4 + [event, "--server-url"] == w6;
    LexQuoted(w6, url);
    LexConcat(START, s6, ShellEscape(url));
    assert BuildHookCommand(binary, agent, event, url) == s6 + ShellEscape(url);
    assert w6 + [url] == [binary, "--agent", agent, "--event", event, "--server-url", url];
  }
}
