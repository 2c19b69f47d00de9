/**
 * How the lines of a secrets file are read, also those a person wrote: which lines hold a secret, and what their
 * quotes and escapes stand for.
 */
module SecretLines {
  import opened Options
  import opened Texts
  import opened Secrets

  // --- Lines ---

  /** Blanks, perhaps `export`, the key, an equals sign and the value, with blanks around each. */
  predicate SpellsBy(raw: string, key: string, value: string, a: string, mark: string, c: string, d: string, e: string)
  {
    && Blank(a) && Blank(c) && Blank(d) && Blank(e) && Trimmed(value)
    && key != "" && Trimmed(key) && '=' !in key
    && (if mark == "" then key[0] != '#' && !("export " <= key) else "export " <= mark && Blank(mark[7..]))
    && raw == a + mark + key + c + "=" + d + value + e
  }

  ghost predicate Spells(raw: string, key: string, value: string) {
    exists a, mark, c, d, e :: SpellsBy(raw, key, value, a, mark, c, d, e)
  }

  /** The line split at its first equals sign. */
  predicate HalvesAt(line: string, left: string, right: string) {
    line == left + "=" + right && '=' !in left && Trimmed(line) && line[0] != '#'
  }

  lemma ParseHalves(raw: string, left: string, right: string)
    requires HalvesAt(Trim(raw), left, right)
    ensures ParseLine(raw) == var key := NormalizeEnvKey(left);
                              if key == "" then None else Some((key, UnescapeEnvValue(Trim(right))))
  {
    var line := Trim(raw);
    assert line[..|left|] == left && line[|left|] == '=' && line[|left| + 1..] == right;
    IndexOfIs(line, '=', |left|);
    hide Trim, IndexOf, NormalizeEnvKey, UnescapeEnvValue;
  }

  lemma LineHasHalves(raw: string) returns (left: string, right: string)
    requires ParseLine(raw).Some?
    ensures HalvesAt(Trim(raw), left, right) && NormalizeEnvKey(left) != ""
  {
    TrimIsTrimmed(raw);
    hide Trim, IndexOf, NormalizeEnvKey, UnescapeEnvValue;
    var line := Trim(raw);
    var k := IndexOf(line, '=').value;
    left, right := line[..k], line[k + 1..];
  }

  /** The key in what stands before the equals sign. */
  lemma KeyHasParts(left: string) returns (a: string, mark: string, c: string)
    requires NormalizeEnvKey(left) != "" && '=' !in left
    ensures KeyParts(left, NormalizeEnvKey(left), a, mark, c)
  {
    var inner := Trim(left);
    TrimIsTrimmed(left);
    a, c := TrimDrops(left);
    mark := "";
    if "export " <= inner {
      var b, z := TrimDrops(inner[7..]);
      TrimIsTrimmed(inner[7..]);
      hide Trim, Blank, Trimmed;
      mark, c := Exported(left, inner, a, c, b, NormalizeEnvKey(left), z);
    }
  }

  predicate KeyParts(left: string, key: string, a: string, mark: string, c: string) {
    && Blank(a) && Blank(c) && left == a + mark + key + c && Trimmed(key) && '=' !in key
    && (if mark == "" then !("export " <= key) else "export " <= mark && Blank(mark[7..]))
  }

  lemma Exported(left: string, inner: string, a: string, c: string, b: string, key: string, z: string)
      returns (mark: string, tail: string)
    requires left == a + inner + c && "export " <= inner && inner[7..] == b + key + z
    requires Blank(a) && Blank(b) && Blank(c) && Blank(z) && Trimmed(key) && '=' !in key
    ensures KeyParts(left, key, a, mark, tail)
  {
    mark, tail := "export " + b, z + c;
    assert mark[7..] == b;
    assert inner == "export " + (b + key + z);
    assert left == a + mark + key + tail;
  }

  lemma LineHasParts(raw: string) returns (value: string)
    requires ParseLine(raw).Some?
    ensures Spells(raw, ParseLine(raw).value.0, value) && UnescapeEnvValue(value) == ParseLine(raw).value.1
  {
    var left, right := LineHasHalves(raw);
    ParseHalves(raw, left, right);
    var before, behind := TrimDrops(raw);
    var a, mark, c := KeyHasParts(left);
    var d, e := TrimDrops(right);
    value := Trim(right);
    TrimIsTrimmed(right);
    UnescapeTrims(value);
    hide Trim, NormalizeEnvKey, UnescapeEnvValue, ParseLine;
    NoBlankInFront(Trim(raw), left, right, a, mark, NormalizeEnvKey(left), c);
    hide HalvesAt, KeyParts, Trimmed, Blank;
    PartsSpell(raw, before, left, right, behind, NormalizeEnvKey(left), value, a, mark, c, d, e);
  }

  lemma UnescapeTrims(value: string)
    requires Trimmed(value)
    ensures Trim(value) == value
  {
    TrimIsTrimmed(value);
  }

  /** The line is trimmed, so its key stands at its front. */
  lemma NoBlankInFront(line: string, left: string, right: string, a: string, mark: string, key: string, c: string)
    requires HalvesAt(line, left, right) && KeyParts(left, key, a, mark, c) && key != ""
    ensures mark == "" ==> key[0] != '#'
  {
    assert a <= line && forall x :: x in a ==> IsWhitespace(x);
    assert a == "";
    assert left == mark + key + c;
    assert mark == "" ==> line[0] == key[0];
  }

  lemma PartsSpell(raw: string, before: string, left: string, right: string, behind: string, key: string, value: string,
                   a: string, mark: string, c: string, d: string, e: string)
    requires Blank(before) && Blank(behind) && HalvesAt(left + "=" + right, left, right)
    requires raw == before + (left + "=" + right) + behind && right == d + value + e && Blank(d) && Blank(e)
    requires KeyParts(left, key, a, mark, c) && Trimmed(value) && key != "" && (mark == "" ==> key[0] != '#')
    ensures Spells(raw, key, value)
  {
    assert raw == (before + a) + mark + key + c + "=" + d + value + (e + behind);
    assert SpellsBy(raw, key, value, before + a, mark, c, d, e + behind);
  }

  lemma KeyIsNormal(mark: string, key: string, c: string)
    requires Blank(c) && key != "" && Trimmed(key)
    requires if mark == "" then !("export " <= key) else "export " <= mark && Blank(mark[7..])
    ensures NormalizeEnvKey(mark + key + c) == key
  {
    if mark == "" {
      assert "" + key + c == key + c;
      TrimOneEnd(c, key);
    } else {
      ExportedIsNormal(mark, mark[7..], key, c);
    }
  }

  lemma ExportedIsNormal(mark: string, b: string, key: string, c: string)
    requires Blank(b) && Blank(c) && key != "" && Trimmed(key) && mark == "export " + b
    ensures NormalizeEnvKey(mark + key + c) == key
  {
    TrimOneEnd(b, key);
    ExportedStandsAlone(mark + key, b + key);
    TrimOneEnd(c, mark + key);
    hide NormalizeEnvKey, Trim, Blank, Trimmed;
    StripExport(mark + key + c, mark + key, b + key);
  }

  lemma ExportedStandsAlone(inner: string, behind: string)
    requires inner == "export " + behind && behind != "" && !IsWhitespace(behind[|behind| - 1])
    ensures Trimmed(inner) && inner[7..] == behind
  {
    assert inner[0] == 'e' && inner[|inner| - 1] == behind[|behind| - 1];
  }

  lemma StripExport(left: string, inner: string, behind: string)
    requires Trim(left) == inner && "export " <= inner && inner[7..] == behind
    ensures NormalizeEnvKey(left) == Trim(behind)
  {
    hide Trim;
  }

  lemma LeftHasNoEquals(mark: string, key: string, c: string)
    requires Blank(c) && '=' !in key && (mark == "" || ("export " <= mark && Blank(mark[7..])))
    ensures '=' !in mark + key + c
  {
    assert '=' !in c;
    if mark != "" {
      assert mark == "export " + mark[7..] && '=' !in mark[7..];
    }
  }

  lemma LeftStarts(mark: string, key: string, c: string)
    requires key != "" && Trimmed(key) && (if mark == "" then key[0] != '#' else "export " <= mark)
    ensures var left := mark + key + c; left != "" && left[0] != '#' && !IsWhitespace(left[0])
  {
    assert (mark + key + c)[0] == if mark == "" then key[0] else 'e';
  }

  lemma SpelledIsParsed(raw: string, key: string, value: string, a: string, mark: string, c: string, d: string,
                        e: string)
    requires SpellsBy(raw, key, value, a, mark, c, d, e)
    ensures ParseLine(raw) == Some((key, UnescapeEnvValue(value)))
  {
    var left := mark + key + c;
    KeyIsNormal(mark, key, c);
    LeftHasNoEquals(mark, key, c);
    LeftStarts(mark, key, c);
    LeftGroups(a, mark, key, c);
    hide Trim, ParseLine, NormalizeEnvKey, UnescapeEnvValue;
    if value == "" {
      NoRest(raw, a, left, d, e);
      TrimIs("", "", "");
    } else {
      FullRest(raw, a, left, d, value, e);
      TrimOneEnd(d, value);
    }
  }

  lemma LeftGroups(a: string, mark: string, key: string, c: string)
    ensures a + mark + key + c == a + (mark + key + c)
  {
  }

  lemma NoRest(raw: string, a: string, left: string, d: string, e: string)
    requires Blank(a) && Blank(d) && Blank(e) && raw == a + left + "=" + d + "" + e
    requires left != "" && '=' !in left && left[0] != '#' && !IsWhitespace(left[0])
    ensures ParseLine(raw) == var key := NormalizeEnvKey(left);
                              if key == "" then None else Some((key, UnescapeEnvValue(Trim(""))))
  {
    hide Trim, ParseLine, NormalizeEnvKey, UnescapeEnvValue;
    var line := left + "=" + "";
    assert line[|line| - 1] == '=' && line[0] == left[0];
    assert raw == a + line + (d + e);
    TrimIs(a, line, d + e);
    ParseHalves(raw, left, "");
  }

  lemma FullRest(raw: string, a: string, left: string, d: string, value: string, e: string)
    requires Blank(a) && Blank(d) && Blank(e) && raw == a + left + "=" + d + value + e && Trimmed(value) && value != ""
    requires left != "" && '=' !in left && left[0] != '#' && !IsWhitespace(left[0])
    ensures ParseLine(raw) == var key := NormalizeEnvKey(left);
                              if key == "" then None else Some((key, UnescapeEnvValue(Trim(d + value))))
  {
    hide Trim, ParseLine, NormalizeEnvKey, UnescapeEnvValue;
    var line := left + "=" + (d + value);
    assert line[|line| - 1] == value[|value| - 1] && line[0] == left[0];
    assert raw == a + line + e;
    TrimIs(a, line, e);
    ParseHalves(raw, left, d + value);
  }

  /** A line holds a secret exactly when it spells one, and the value is what the spelled one stands for. */
  lemma LineExactly(raw: string, key: string, text: string)
    ensures ParseLine(raw) == Some((key, text)) <==>
            exists value :: Spells(raw, key, value) && UnescapeEnvValue(value) == text
  {
    hide ParseLine, UnescapeEnvValue, SpellsBy;
    if ParseLine(raw) == Some((key, text)) {
      var value := LineHasParts(raw);
    }
    forall value | Spells(raw, key, value) ensures ParseLine(raw) == Some((key, UnescapeEnvValue(value))) {
      var a, mark, c, d, e :| SpellsBy(raw, key, value, a, mark, c, d, e);
      SpelledIsParsed(raw, key, value, a, mark, c, d, e);
    }
  }

  // --- Values ---

  /** Values without quotes around them stand for themselves. */
  lemma BareValue(value: string)
    requires Trimmed(value)
    requires value == "" || value[0] !in "'\"" || value[|value| - 1] != value[0] || |value| == 1
    ensures UnescapeEnvValue(value) == value
  {
    TrimIsTrimmed(value);
  }

  /** Between double quotes is a JSON string, and if it is none, the text is taken as it stands. */
  lemma DoubleQuoted(body: string)
    ensures UnescapeEnvValue("\"" + body + "\"")
              == match JsonString(body + "\"") case Some(text) => text case None => body
  {
    var value := "\"" + body + "\"";
    TrimIsTrimmed(value);
    assert value[1..] == body + "\"" && value[1..|value| - 1] == body;
    hide JsonString, Trim;
  }

  /** How a text is written between single quotes: a backslash before each quote and each backslash. */
  function SingleEscaped(text: string): string {
    if text == "" then ""
    else (if text[0] in "'\\" then ['\\', text[0]] else [text[0]]) + SingleEscaped(text[1..])
  }

  /** The text with its backslashes doubled. */
  function Doubled(text: string): string {
    if text == "" then "" else (if text[0] == '\\' then "\\\\" else [text[0]]) + Doubled(text[1..])
  }

  lemma {:induction false} QuotesComeBack(text: string)
    ensures Replace(SingleEscaped(text), "\\'", "'") == Doubled(text)
    ensures SingleEscaped(text) == "" || SingleEscaped(text)[0] != '\''
  {
    if text != "" {
      var rest := SingleEscaped(text[1..]);
      QuotesComeBack(text[1..]);
      var s := SingleEscaped(text);
      if text[0] == '\'' {
        assert s[2..] == rest;
      } else if text[0] == '\\' {
        assert s[1..] == "\\" + rest && s[1..][1..] == rest;
        assert Replace(s, "\\'", "'") == ['\\'] + Replace(s[1..], "\\'", "'");
        assert !("\\'" <= s[1..]);
      } else {
        assert s[1..] == rest;
      }
    }
  }

  lemma {:induction false} BackslashesComeBack(text: string)
    ensures Replace(Doubled(text), "\\\\", "\\") == text
  {
    if text != "" {
      BackslashesComeBack(text[1..]);
      var s := Doubled(text);
      if text[0] == '\\' {
        assert s[2..] == Doubled(text[1..]);
      } else {
        assert s[1..] == Doubled(text[1..]);
      }
    }
  }

  /** Any text can be written between single quotes. */
  lemma SingleQuoted(text: string)
    ensures UnescapeEnvValue("'" + SingleEscaped(text) + "'") == text
    ensures '\'' !in text && '\\' !in text ==> SingleEscaped(text) == text
  {
    var value := "'" + SingleEscaped(text) + "'";
    assert value[0] == '\'' && value[|value| - 1] == '\'';
    TrimIsTrimmed(value);
    assert value[1..|value| - 1] == SingleEscaped(text);
    QuotesComeBack(text);
    BackslashesComeBack(text);
    PlainIsAsIs(text);
  }

  lemma {:induction false} PlainIsAsIs(text: string)
    ensures '\'' !in text && '\\' !in text ==> SingleEscaped(text) == text
  {
    if text != "" {
      PlainIsAsIs(text[1..]);
      assert text == [text[0]] + text[1..];
    }
  }

  /** Nothing, or `export` and a blank, before the key. */
  predicate Mark(mark: string) { mark == "" || ("export " <= mark && Blank(mark[7..])) }

  /** No quotes to take off. */
  predicate Bare(text: string) {
    Trimmed(text) && !(|text| >= 2 && text[0] in "'\"" && text[|text| - 1] == text[0])
  }

  /** The lines of a person who writes a key and a text, perhaps after `export`: the text bare, or in single quotes. */
  lemma PlainLines(mark: string, key: string, text: string)
    requires Mark(mark) && GoodKey(key)
    ensures Bare(text) ==> ParseLine(mark + key + "=" + text) == Some((key, text))
    ensures ParseLine(mark + key + "='" + SingleEscaped(text) + "'") == Some((key, text))
    ensures '\'' !in text && '\\' !in text ==> SingleEscaped(text) == text
  {
    SingleQuoted(text);
    if Bare(text) { BareValue(text); }
    hide ParseLine, UnescapeEnvValue, SingleEscaped, Mark, GoodKey;
    if Bare(text) { PlainLine(mark, key, text); }
    QuotesStandAlone(SingleEscaped(text));
    hide Trimmed, Bare;
    PlainLine(mark, key, "'" + SingleEscaped(text) + "'");
    EqualsQuote(mark, key, SingleEscaped(text));
  }

  lemma EqualsQuote(mark: string, key: string, body: string)
    ensures mark + key + "='" + body + "'" == mark + key + "=" + ("'" + body + "'")
  {
    assert "='" == "=" + "'";
  }

  lemma QuotesStandAlone(body: string)
    ensures Trimmed("'" + body + "'")
  {
    var value := "'" + body + "'";
    assert value[0] == '\'' && value[|value| - 1] == '\'';
  }

  lemma PlainLine(mark: string, key: string, value: string)
    requires Mark(mark) && GoodKey(key) && Trimmed(value)
    ensures ParseLine(mark + key + "=" + value) == Some((key, UnescapeEnvValue(value)))
  {
    hide ParseLine, UnescapeEnvValue;
    var line := mark + key + "=" + value;
    NoBlanks(mark, key, value);
    assert SpellsBy(line, key, value, "", mark, "", "", "");
    hide SpellsBy;
    SpelledIsParsed(line, key, value, "", mark, "", "", "");
  }

  lemma NoBlanks(mark: string, key: string, value: string)
    ensures mark + key + "=" + value == "" + mark + key + "" + "=" + "" + value + ""
  {
    assert "" + mark == mark;
  }

  // --- Replacement ---

  predicate Occurs(s: string, from: string, i: nat) {
    i + |from| <= |s| && s[i..i + |from|] == from
  }

  /** The text `from` occurs at none of the first `n` places. */
  predicate Clear(s: string, from: string, n: nat) {
    forall i :: 0 <= i < n ==> !Occurs(s, from, i)
  }

  /** The pieces with a text between each two of them. */
  function Between(pieces: seq<string>, text: string): string {
    if pieces == [] then "" else if |pieces| == 1 then pieces[0] else pieces[0] + text + Between(pieces[1..], text)
  }

  /** The text falls into pieces at the occurrences found from left to right, and these are replaced. */
  ghost predicate ReplacedIn(s: string, from: string, to: string, r: string, pieces: seq<string>) {
    && pieces != [] && s == Between(pieces, from) && r == Between(pieces, to)
    && (forall k :: 0 <= k < |pieces| - 1 ==> Clear(pieces[k] + from, from, |pieces[k]|))
    && Clear(pieces[|pieces| - 1], from, |pieces[|pieces| - 1]|)
  }

  lemma {:induction false} ReplaceExactly(s: string, from: string, to: string) returns (pieces: seq<string>)
    requires from != ""
    ensures pieces != [] && ReplacedIn(s, from, to, Replace(s, from, to), pieces)
  {
    hide Occurs, ReplacedIn;
    if s == "" {
      pieces := [""];
      NothingReplaced(from, to);
    } else if from <= s {
      var rest := ReplaceExactly(s[|from|..], from, to);
      pieces := [""] + rest;
      assert s == from + s[|from|..];
      ReplacedFirst(s[|from|..], from, to, Replace(s[|from|..], from, to), rest);
    } else {
      var rest := ReplaceExactly(s[1..], from, to);
      pieces := [[s[0]] + rest[0]] + rest[1..];
      assert s == [s[0]] + s[1..];
      ReplacedLater(s[0], s[1..], from, to, Replace(s[1..], from, to), rest);
    }
  }

  lemma NothingReplaced(from: string, to: string)
    requires from != ""
    ensures ReplacedIn("", from, to, "", [""])
  {
  }

  lemma ReplacedFirst(s: string, from: string, to: string, r: string, rest: seq<string>)
    requires from != "" && ReplacedIn(s, from, to, r, rest)
    ensures ReplacedIn(from + s, from, to, to + r, [""] + rest)
  {
    hide Occurs;
    var pieces := [""] + rest;
    assert pieces[1..] == rest && "" + from == from && "" + to == to;
  }

  lemma ReplacedLater(c: char, s: string, from: string, to: string, r: string, rest: seq<string>)
    requires from != "" && ReplacedIn(s, from, to, r, rest) && !(from <= [c] + s)
    ensures ReplacedIn([c] + s, from, to, [c] + r, [[c] + rest[0]] + rest[1..])
  {
    var first := [c] + rest[0];
    var pieces := [first] + rest[1..];
    assert pieces[1..] == rest[1..];
    if |rest| == 1 {
      ClearLater(c, rest[0], from, |rest[0]|);
    } else {
      assert [c] + s == first + from + Between(rest[1..], from);
      assert first + from == [c] + (rest[0] + from);
      assert first + from <= [c] + s;
      ClearLater(c, rest[0] + from, from, |rest[0]|);
    }
  }

  lemma ClearLater(c: char, s: string, from: string, n: nat)
    requires Clear(s, from, n) && !(from <= [c] + s)
    ensures Clear([c] + s, from, n + 1)
  {
    hide Occurs;
    forall i | 0 <= i < n + 1 ensures !Occurs([c] + s, from, i) {
      if i > 0 {
        OccursLater(c, s, from, i);
      } else {
        OccursFirst([c] + s, from);
      }
    }
  }

  lemma OccursFirst(s: string, from: string)
    ensures Occurs(s, from, 0) <==> from <= s
  {
  }

  lemma OccursLater(c: char, s: string, from: string, i: nat)
    requires i > 0
    ensures Occurs([c] + s, from, i) <==> Occurs(s, from, i - 1)
  {
    if i + |from| <= |s| + 1 {
      assert ([c] + s)[i..i + |from|] == s[i - 1..i - 1 + |from|];
    }
  }

  // --- Files ---

  /** The text behind at most two byte order marks: the one that reading the file strips, and the parser's own. */
  predicate Unmarked(text: string, rest: string) {
    || (text == rest && (rest == "" || rest[0] != '\U{FEFF}'))
    || (text == ['\U{FEFF}'] + rest && (rest == "" || rest[0] != '\U{FEFF}'))
    || text == ['\U{FEFF}', '\U{FEFF}'] + rest
  }

  /** Line `n` is the last that holds the key, and this is the value it holds. */
  ghost predicate HeldLast(lines: seq<string>, key: string, value: string, n: nat) {
    && n < |lines| && ParseLine(lines[n]) == Some((key, value))
    && forall m :: n < m < |lines| && ParseLine(lines[m]).Some? ==> ParseLine(lines[m]).value.0 != key
  }

  /** The map has the keys that some line holds, each with the value of the last such line. */
  ghost predicate Collects(lines: seq<string>, values: map<string, string>) {
    && (forall key :: key in values ==> exists n :: HeldLast(lines, key, values[key], n))
    && (forall n, key, value :: HeldLast(lines, key, value, n) ==> key in values)
  }

  lemma {:induction false} ParsedExactly(lines: seq<string>)
    ensures Collects(lines, ParseLines(lines))
  {
    hide ParseLine;
    if lines != [] {
      var init, last := lines[..|lines| - 1], lines[|lines| - 1];
      assert lines == init + [last];
      ParsedExactly(init);
      ParseLinesSnoc(lines);
      hide ParseLines, Collects;
      match ParseLine(last)
      case Some((key, value)) => CollectsHeld(init, last, ParseLines(init), key, value);
      case None => CollectsNone(init, last, ParseLines(init));
    }
  }

  lemma HeldSnoc(init: seq<string>, last: string)
    requires ParseLine(last).None?
    ensures forall n, key, value :: HeldLast(init + [last], key, value, n) <==> HeldLast(init, key, value, n)
  {
    hide ParseLine;
    forall n: nat, key, value ensures HeldLast(init + [last], key, value, n) <==> HeldLast(init, key, value, n) {
      assert n < |init| ==> (init + [last])[n] == init[n];
      assert forall m :: n < m < |init| ==> (init + [last])[m] == init[m];
    }
  }

  lemma CollectsNone(init: seq<string>, last: string, values: map<string, string>)
    requires Collects(init, values) && ParseLine(last).None?
    ensures Collects(init + [last], values)
  {
    HeldSnoc(init, last);
    hide ParseLine, HeldLast;
  }

  lemma CollectsHeld(init: seq<string>, last: string, values: map<string, string>, key: string, value: string)
    requires Collects(init, values) && ParseLine(last) == Some((key, value))
    ensures Collects(init + [last], values[key := value])
  {
    hide ParseLine;
    var lines, next := init + [last], values[key := value];
    assert HeldLast(lines, key, value, |init|);
    forall k | k in next ensures exists n :: HeldLast(lines, k, next[k], n) {
      if k != key {
        var n :| HeldLast(init, k, values[k], n);
        HeldBefore(init, last, k, values[k], n);
      }
    }
    forall n: nat, k, v | HeldLast(lines, k, v, n) ensures k in next {
      if k != key {
        HeldBefore(init, last, k, v, n);
      }
    }
  }

  lemma HeldBefore(init: seq<string>, last: string, key: string, value: string, n: nat)
    requires ParseLine(last).Some? && ParseLine(last).value.0 != key
    ensures HeldLast(init + [last], key, value, n) <==> HeldLast(init, key, value, n)
  {
    hide ParseLine;
    assert n < |init| ==> (init + [last])[n] == init[n];
    assert forall m :: n < m < |init| ==> (init + [last])[m] == init[m];
  }

  /** Loading a file collects the secrets on its lines. */
  lemma LoadExactly(text: string, rest: string)
    requires Unmarked(text, rest)
    ensures Collects(Lines(rest), Load(text))
  {
    hide ParseLines, Lines, Collects;
    ParsedExactly(Lines(rest));
    assert StripBom(StripBom(text)) == rest;
  }
}
