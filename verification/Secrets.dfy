/**
 * The secrets file: one `key=value` line per secret, with values quoted when they hold anything unusual. `Intact` says
 * exactly when reading the file gives back what was saved.
 */
module Secrets {
  import opened Options
  import opened Texts

  const BOM := '\U{FEFF}'

  // --- Values ---

  predicate ShellSafe(c: char) {
    'a' <= c <= 'z' || 'A' <= c <= 'Z' || '0' <= c <= '9' || c in "_-./:+=@"
  }

  /** What is known of the characters that Rust's `Debug` prints as themselves. */
  ghost predicate Printable(plain: char -> bool) {
    && (forall c :: plain(c) ==> ' ' <= c)
    && (forall c :: ' ' <= c <= '~' ==> plain(c))
  }

  function HexDigits(n: nat): (r: string)
    ensures '\n' !in r
  {
    var digit := "0123456789abcdef"[n % 16];
    if n < 16 then [digit] else HexDigits(n / 16) + [digit]
  }

  /** One character inside a string's `Debug` form. */
  function DebugChar(plain: char -> bool, c: char): string {
    if c == '\0' then "\\0"
    else if c == '\t' then "\\t"
    else if c == '\r' then "\\r"
    else if c == '\n' then "\\n"
    else if c == '"' then "\\\""
    else if c == '\\' then "\\\\"
    else if plain(c) then [c]
    else "\\u{" + HexDigits(c as int) + "}"
  }

  function DebugBody(plain: char -> bool, value: string): string {
    if value == "" then "" else DebugChar(plain, value[0]) + DebugBody(plain, value[1..])
  }

  /** `escape_env_value`. */
  function EscapeEnvValue(plain: char -> bool, value: string): string {
    if value == "" || exists c :: c in value && !ShellSafe(c) then "\"" + DebugBody(plain, value) + "\"" else value
  }

  function HexValue(c: char): Option<nat> {
    if '0' <= c <= '9' then Some((c - '0') as nat)
    else if 'a' <= c <= 'f' then Some((c - 'a') as nat + 10)
    else if 'A' <= c <= 'F' then Some((c - 'A') as nat + 10)
    else None
  }

  /** Four hexadecimal digits, after a backslash and a `u`. */
  function Hex4(s: string): (r: Option<nat>)
    ensures r.Some? ==> |s| >= 6 && r.value < 0x10000
  {
    if |s| < 6 || s[0] != '\\' || s[1] != 'u' then None
    else
      match (HexValue(s[2]), HexValue(s[3]), HexValue(s[4]), HexValue(s[5]))
      case (Some(a), Some(b), Some(c), Some(d)) =>
        if a < 16 && b < 16 && c < 16 && d < 16 then Some(a * 4096 + b * 256 + c * 16 + d) else None
      case _ => None
  }

  function Cons(c: char, rest: Option<string>): Option<string> {
    match rest case Some(s) => Some([c] + s) case None => None
  }

  /** The rest of a JSON string after its opening quote, by section 7 of RFC 8259. */
  function JsonString(s: string): Option<string> {
    if s == "" || s[0] < ' ' then None
    else if s[0] == '"' then if |s| == 1 then Some("") else None
    else if s[0] != '\\' then Cons(s[0], JsonString(s[1..]))
    else if |s| == 1 then None
    else
      match s[1]
      case '"' => Cons('"', JsonString(s[2..]))
      case '\\' => Cons('\\', JsonString(s[2..]))
      case '/' => Cons('/', JsonString(s[2..]))
      case 'b' => Cons('\U{8}', JsonString(s[2..]))
      case 'f' => Cons('\U{C}', JsonString(s[2..]))
      case 'n' => Cons('\n', JsonString(s[2..]))
      case 'r' => Cons('\r', JsonString(s[2..]))
      case 't' => Cons('\t', JsonString(s[2..]))
      case 'u' => JsonUnicode(s)
      case _ => None
  }

  /** A code unit, or two of them for a character beyond the basic plane. */
  function JsonUnicode(s: string): Option<string>
    decreases s, 0
  {
    match Hex4(s)
    case None => None
    case Some(unit) =>
      if unit < 0xD800 || 0xDFFF < unit then Cons(unit as char, JsonString(s[6..]))
      else if 0xDC00 <= unit then None
      else
        match Hex4(s[6..])
        case None => None
        case Some(low) =>
          if low < 0xDC00 || 0xDFFF < low then None
          else Cons((0x10000 + (unit - 0xD800) * 0x400 + (low - 0xDC00)) as char, JsonString(s[12..]))
  }

  /** `str::replace`. */
  function Replace(s: string, from: string, to: string): string
    requires from != ""
  {
    if s == "" then ""
    else if from <= s then to + Replace(s[|from|..], from, to)
    else [s[0]] + Replace(s[1..], from, to)
  }

  /** `unescape_env_value`. */
  function UnescapeEnvValue(raw: string): string {
    var value := Trim(raw);
    if |value| >= 2 && value[0] == '"' && value[|value| - 1] == '"' then
      match JsonString(value[1..])
      case Some(s) => s
      case None => value[1..|value| - 1]
    else if |value| >= 2 && value[0] == '\'' && value[|value| - 1] == '\'' then
      Replace(Replace(value[1..|value| - 1], "\\'", "'"), "\\\\", "\\")
    else value
  }

  // --- Lines ---

  function StripPrefix(s: string, prefix: string): Option<string> {
    if prefix <= s then Some(s[|prefix|..]) else None
  }

  /** `normalize_env_key`. */
  function NormalizeEnvKey(key: string): string {
    match StripPrefix(Trim(key), "export ")
    case Some(rest) => Trim(rest)
    case None => Trim(key)
  }

  function Line(plain: char -> bool, key: string, value: string): string {
    key + "=" + EscapeEnvValue(plain, value)
  }

  /** The secret on one line, if there is one. */
  function ParseLine(raw: string): Option<(string, string)> {
    var line := Trim(raw);
    if line == "" || line[0] == '#' then None
    else
      match IndexOf(line, '=')
      case None => None
      case Some(k) =>
        var key := NormalizeEnvKey(line[..k]);
        if key == "" then None else Some((key, UnescapeEnvValue(Trim(line[k + 1..]))))
  }

  // --- Files ---

  function StripBom(s: string): string { if s != "" && s[0] == BOM then s[1..] else s }

  function ParseLines(lines: seq<string>): map<string, string> {
    if lines == [] then map[]
    else
      var before := ParseLines(lines[..|lines| - 1]);
      match ParseLine(lines[|lines| - 1])
      case Some((key, value)) => before[key := value]
      case None => before
  }

  function Parsed(text: string): map<string, string> { ParseLines(Lines(StripBom(text))) }

  /** `SecretStore::load`: reading the file strips a byte order mark of its own. */
  function Load(text: string): map<string, string> { Parsed(StripBom(text)) }

  /** The order in which the ordered map yields its keys; nothing here depends on which order it is. */
  ghost predicate Lists(keys: seq<string>, values: map<string, string>) {
    && (forall k :: k in keys <==> k in values)
    && (forall i, j :: 0 <= i < j < |keys| ==> keys[i] != keys[j])
  }

  function FileLines(plain: char -> bool, keys: seq<string>, values: map<string, string>): seq<string>
    requires forall k :: k in keys ==> k in values
  {
    seq(|keys|, i requires 0 <= i < |keys| => Line(plain, keys[i], values[keys[i]]))
  }

  function Saved(plain: char -> bool, keys: seq<string>, values: map<string, string>): string
    requires forall k :: k in keys ==> k in values
  {
    Unlines(FileLines(plain, keys, values))
  }

  /** A key that a line can carry. */
  predicate GoodKey(key: string) {
    key != "" && Trimmed(key) && '=' !in key && '\n' !in key && key[0] != '#' && !("export " <= key)
  }

  /** No character with a `Debug` escape unknown to JSON. */
  predicate GoodValue(plain: char -> bool, value: string) {
    forall c :: c in value ==> plain(c) || c in "\t\r\n"
  }

  ghost predicate Intact(plain: char -> bool, keys: seq<string>, values: map<string, string>)
    requires forall k :: k in keys ==> k in values
  {
    && (forall k :: k in keys ==> GoodKey(k) && GoodValue(plain, values[k]))
    && (keys == [] || keys[0] == "" || keys[0][0] != BOM)
  }

  // --- The value round trip ---

  lemma {:induction false} DebugReadsBack(plain: char -> bool, value: string)
    requires Printable(plain)
    ensures JsonString(DebugBody(plain, value) + "\"") == if GoodValue(plain, value) then Some(value) else None
  {
    if value != "" {
      var c, rest := value[0], value[1..];
      DebugReadsBack(plain, rest);
      var tail := DebugBody(plain, rest) + "\"";
      assert DebugBody(plain, value) + "\"" == DebugChar(plain, c) + tail;
      assert value == [c] + rest;
      assert GoodValue(plain, value) <==> (plain(c) || c in "\t\r\n") && GoodValue(plain, rest) by {
        assert forall d :: d in value <==> d == c || d in rest;
      }
      DebugCharReadsBack(plain, c, tail);
    }
  }

  lemma DebugCharReadsBack(plain: char -> bool, c: char, tail: string)
    requires Printable(plain)
    ensures JsonString(DebugChar(plain, c) + tail) ==
            if plain(c) || c in "\t\r\n" then Cons(c, JsonString(tail)) else None
  {
    var piece := DebugChar(plain, c);
    var s := piece + tail;
    if c != '\0' && c in "\t\r\n\"\\" {
      assert s[2..] == tail;
    } else if c != '\0' && plain(c) {
      assert s[1..] == tail;
    } else if c != '\0' {
      assert s[0] == '\\' && s[1] == 'u' && s[2] == '{';
      assert HexValue('{') == None;
    }
  }

  lemma DebugBodyGrows(plain: char -> bool, value: string)
    requires Printable(plain)
    ensures |DebugBody(plain, value)| >= |value| && '\n' !in DebugBody(plain, value)
    ensures !GoodValue(plain, value) ==> |DebugBody(plain, value)| > |value|
  {
    if value != "" {
      DebugBodyGrows(plain, value[1..]);
      assert value == [value[0]] + value[1..];
    }
  }

  lemma QuotedStandsAlone(body: string)
    requires '\n' !in body
    ensures var e := "\"" + body + "\""; Trimmed(e) && '\n' !in e && e[|e| - 1] != '\r'
  {
    var e := "\"" + body + "\"";
    assert e[0] == '"' && e[|e| - 1] == '"';
  }

  lemma SafeStandsAlone(value: string)
    requires value != "" && forall c :: c in value ==> ShellSafe(c)
    ensures Trimmed(value) && '\n' !in value && value[|value| - 1] != '\r'
  {
    assert value[0] in value && value[|value| - 1] in value;
    assert forall c :: ShellSafe(c) ==> !IsWhitespace(c) && c != '\n' && c != '\r';
  }

  /** What is written for a value has no blank at either end and no newline. */
  lemma EscapedStandsAlone(plain: char -> bool, value: string)
    requires Printable(plain)
    ensures var e := EscapeEnvValue(plain, value); e != "" && Trimmed(e) && '\n' !in e && e[|e| - 1] != '\r'
  {
    DebugBodyGrows(plain, value);
    if value == "" || exists c :: c in value && !ShellSafe(c) {
      QuotedStandsAlone(DebugBody(plain, value));
    } else {
      SafeStandsAlone(value);
    }
  }

  /** A value comes back exactly when JSON knows every escape it was written with. */
  lemma ValueRoundTrip(plain: char -> bool, value: string)
    requires Printable(plain)
    ensures UnescapeEnvValue(Trim(EscapeEnvValue(plain, value))) == value <==> GoodValue(plain, value)
  {
    hide IsWhitespace, Trim, JsonString, DebugBody;
    var e := EscapeEnvValue(plain, value);
    EscapedStandsAlone(plain, value);
    TrimIsTrimmed(e);
    if value == "" || exists c :: c in value && !ShellSafe(c) {
      var body := DebugBody(plain, value);
      assert e[1..] == body + "\"" && e[1..|e| - 1] == body;
      DebugReadsBack(plain, value);
      DebugBodyGrows(plain, value);
    } else {
      assert value[0] in value;
    }
  }

  /** The characters a value can be written bare with. */
  predicate Harmless(c: char) {
    || 'a' <= c <= 'z' || 'A' <= c <= 'Z' || '0' <= c <= '9'
    || c in ['_', '-', '.', '/', ':', '+', '=', '@']
  }

  /** A value of harmless characters is written bare, any other between double quotes. */
  lemma EscapeExactly(plain: char -> bool, value: string)
    ensures var e := EscapeEnvValue(plain, value);
            if value != "" && forall c :: c in value ==> Harmless(c) then e == value
            else |e| >= 2 && e[0] == '"' && e[|e| - 1] == '"'
  {
    assert forall c :: ShellSafe(c) <==> Harmless(c);
    hide DebugBody, ShellSafe, Harmless;
  }

  // --- The line round trip ---

  lemma TrimShortens(s: string)
    ensures |Trim(s)| <= |s| && (|Trim(s)| == |s| ==> Trim(s) == s)
  {
    TrimStartShortens(s);
  }

  lemma {:induction false} TrimStartShortens(s: string)
    ensures |TrimStart(s)| <= |s| && (|TrimStart(s)| == |s| ==> TrimStart(s) == s)
  {
    if s != "" && IsWhitespace(s[0]) { TrimStartShortens(s[1..]); }
  }

  /** Trimming a line trims the front of its key. */
  lemma {:induction false} TrimLine(key: string, e: string)
    requires e != "" && Trimmed(e)
    ensures Trim(key + "=" + e) == TrimStart(key) + "=" + e
  {
    var line := key + "=" + e;
    if key != "" && IsWhitespace(key[0]) {
      TrimLine(key[1..], e);
      assert line[1..] == key[1..] + "=" + e;
    } else {
      assert !IsWhitespace(line[0]);
      assert line[|line| - 1] == e[|e| - 1];
    }
  }

  lemma NormalizeShortens(key: string)
    ensures |NormalizeEnvKey(key)| <= |key| && (|NormalizeEnvKey(key)| == |key| ==> NormalizeEnvKey(key) == key)
  {
    hide IsWhitespace, Trim;
    TrimShortens(key);
    if "export " <= Trim(key) { TrimShortens(Trim(key)[7..]); }
  }

  /** The key read from a line is no longer than the one written, and of the same length only if it is the same. */
  lemma KeyShortens(key: string, e: string)
    requires e != "" && Trimmed(e)
    ensures var p := ParseLine(key + "=" + e);
            p.Some? ==> |p.value.0| <= |key| && (|p.value.0| == |key| ==> p.value.0 == key)
  {
    hide IsWhitespace, TrimStart, TrimEnd, UnescapeEnvValue, NormalizeEnvKey;
    TrimLine(key, e);
    var front := TrimStart(key);
    var line := front + "=" + e;
    TrimStartShortens(key);
    assert line[|front|] == '=' && line == Trim(key + "=" + e);
    assert forall n: nat :: |front| < n <= |line| ==> line[|front|] in line[..n];
    var k := IndexOf(line, '=');
    if k.Some? {
      assert line[..k.value] == front[..k.value];
      NormalizeShortens(front[..k.value]);
    }
  }

  /** With its front trimmed and no `=` inside, a key is read up to the `=` after it. */
  lemma ParseWritten(key: string, e: string)
    requires e != "" && Trimmed(e) && key != "" && Trimmed(key) && '=' !in key
    ensures ParseLine(key + "=" + e) ==
            if key[0] == '#' || NormalizeEnvKey(key) == "" then None
                else Some((NormalizeEnvKey(key), UnescapeEnvValue(Trim(e))))
  {
    TrimLine(key, e);
    var line := key + "=" + e;
    assert line[..|key|] == key && line[|key| + 1..] == e && line[|key|] == '=';
    IndexOfIs(line, '=', |key|);
  }

  /** A parsed key is trimmed, not empty, and made of characters of the line other than `=`. */
  lemma ParsedKey(line: string)
    ensures var p := ParseLine(line);
            p.Some? ==> p.value.0 != "" && Trimmed(p.value.0) && forall c :: c in p.value.0 ==> c in line && c != '='
  {
    TrimIsTrimmed(line);
    var k := IndexOf(Trim(line), '=');
    if k.Some? {
      var raw := Trim(line)[..k.value];
      assert forall c :: c in raw ==> c in Trim(line) && c != '=';
      TrimIsTrimmed(raw);
      if "export " <= Trim(raw) {
        TrimIsTrimmed(Trim(raw)[7..]);
        assert forall c :: c in Trim(raw)[7..] ==> c in Trim(raw);
      }
    }
  }

  /** A key without an `export ` in front is taken as it is. */
  lemma GoodKeyIsNormal(key: string)
    requires GoodKey(key)
    ensures NormalizeEnvKey(key) == key
  {
    TrimIsTrimmed(key);
  }

  lemma NormalIsPlain(key: string)
    requires Trimmed(key) && NormalizeEnvKey(key) == key
    ensures !("export " <= key)
  {
    hide IsWhitespace;
    TrimIsTrimmed(key);
    if "export " <= key { TrimShortens(key[7..]); }
  }

  /** A key read from its own line is a good one. */
  lemma OwnKeyIsGood(key: string, e: string)
    requires e != "" && Trimmed(e) && '\n' !in key
    requires ParseLine(key + "=" + e).Some? && ParseLine(key + "=" + e).value.0 == key
    ensures GoodKey(key)
  {
    hide ParseLine, Trim, Trimmed, IsWhitespace, IndexOf, UnescapeEnvValue, NormalizeEnvKey;
    ParsedKey(key + "=" + e);
    assert key != "" && Trimmed(key) && '=' !in key;
    ParseWritten(key, e);
    NormalIsPlain(key);
  }

  /** A line gives back its key and value exactly when both are fit for a line. */
  lemma LineRoundTrip(plain: char -> bool, key: string, value: string)
    requires Printable(plain) && '\n' !in key
    ensures ParseLine(Line(plain, key, value)) == Some((key, value)) <==> GoodKey(key) && GoodValue(plain, value)
  {
    var e := EscapeEnvValue(plain, value);
    EscapedStandsAlone(plain, value);
    ValueRoundTrip(plain, value);
    hide ParseLine, EscapeEnvValue, UnescapeEnvValue, NormalizeEnvKey, Printable, GoodValue;
    if GoodKey(key) {
      GoodKeyIsNormal(key);
      ParseWritten(key, e);
    } else if ParseLine(key + "=" + e) == Some((key, value)) {
      OwnKeyIsGood(key, e);
    }
  }

  // --- The file round trip ---

  /** What is left of the key on the n-th line once the byte order marks are gone. */
  function WrittenKey(keys: seq<string>, n: nat): string
    requires n < |keys|
  {
    if n == 0 then StripBom(StripBom(keys[0])) else keys[n]
  }

  /** The n-th line as it is read. */
  function WrittenLine(plain: char -> bool, keys: seq<string>, values: map<string, string>, n: nat): string
    requires n < |keys| && forall k :: k in keys ==> k in values
  {
    Line(plain, WrittenKey(keys, n), values[keys[n]])
  }

  function WrittenLines(plain: char -> bool, keys: seq<string>, values: map<string, string>): seq<string>
    requires forall k :: k in keys ==> k in values
  {
    seq(|keys|, i requires 0 <= i < |keys| => WrittenLine(plain, keys, values, i))
  }

  /** A mark at the front of a file is a mark at the front of its first key. */
  lemma MarkOfFirstLine(plain: char -> bool, key: string, value: string, rest: string)
    ensures StripBom(Line(plain, key, value) + rest) == Line(plain, StripBom(key), value) + rest
  {
    if key != "" && key[0] == BOM {
      assert (Line(plain, key, value) + rest)[1..] == Line(plain, key[1..], value) + rest;
    }
  }

  /** Reading the saved text reads the lines written, the first one without its marks. */
  lemma LoadReadsLines(plain: char -> bool, keys: seq<string>, values: map<string, string>)
    requires Printable(plain) && (forall k :: k in keys ==> k in values) && forall k :: k in keys ==> '\n' !in k
    ensures Load(Saved(plain, keys, values)) == ParseLines(WrittenLines(plain, keys, values))
  {
    hide Line, ParseLine, ParseLines, IsWhitespace, IndexOf, EscapeEnvValue, Printable, Clean;
    if keys != [] {
      var key, value := keys[0], values[keys[0]];
      var saved, written := FileLines(plain, keys, values), WrittenLines(plain, keys, values);
      var rest := "\n" + Unlines(saved[1..]);
      assert saved == [saved[0]] + saved[1..] && written == [written[0]] + saved[1..];
      UnlinesFirst(saved[0], saved[1..]);
      UnlinesFirst(written[0], saved[1..]);
      MarkOfFirstLine(plain, key, value, rest);
      MarkOfFirstLine(plain, StripBom(key), value, rest);
      forall i: nat | i < |keys| ensures Clean(written[i]) { WrittenIsClean(plain, keys, values, i); }
      LinesUnlines(written);
    }
  }

  lemma WrittenIsClean(plain: char -> bool, keys: seq<string>, values: map<string, string>, n: nat)
    requires Printable(plain) && n < |keys| && (forall k :: k in keys ==> k in values) && '\n' !in keys[n]
    ensures Clean(WrittenLine(plain, keys, values, n))
  {
    EscapedStandsAlone(plain, values[keys[n]]);
    var line, e := WrittenLine(plain, keys, values, n), EscapeEnvValue(plain, values[keys[n]]);
    assert line[|line| - 1] == e[|e| - 1];
    assert forall c :: c in WrittenKey(keys, n) ==> c in keys[n];
  }

  /** The entries of a file are those of its lines, the last one winning. */
  lemma {:induction false} ParsedFrom(lines: seq<string>, key: string)
    requires key in ParseLines(lines)
    ensures exists n: nat :: n < |lines| && ParseLine(lines[n]) == Some((key, ParseLines(lines)[key]))
  {
    var last := |lines| - 1;
    var p := ParseLine(lines[last]);
    if p.Some? && p.value.0 == key {
      assert p == Some((key, ParseLines(lines)[key]));
    } else {
      ParsedFrom(lines[..last], key);
      var n: nat :| n < last && ParseLine(lines[..last][n]) == Some((key, ParseLines(lines[..last])[key]));
      assert lines[n] == lines[..last][n];
    }
  }

  lemma ParseLinesSnoc(lines: seq<string>)
    requires lines != []
    ensures ParseLines(lines) ==
            match ParseLine(lines[|lines| - 1])
            case Some((key, value)) => ParseLines(lines[..|lines| - 1])[key := value]
            case None => ParseLines(lines[..|lines| - 1])
  {
  }

  /** Lines with distinct keys are all kept. */
  lemma {:induction false} ParseDistinct(lines: seq<string>, keys: seq<string>, values: map<string, string>)
    requires |lines| == |keys| && (forall k :: k in keys ==> k in values)
    requires forall i, j :: 0 <= i < j < |keys| ==> keys[i] != keys[j]
    requires forall i :: 0 <= i < |keys| ==> ParseLine(lines[i]) == Some((keys[i], values[keys[i]]))
    ensures ParseLines(lines) == map k | k in keys :: values[k]
  {
    hide ParseLine;
    if lines != [] {
      hide ParseLines;
      ParseLinesSnoc(lines);
      var n := |lines| - 1;
      assert keys == keys[..n] + [keys[n]];
      ParseDistinct(lines[..n], keys[..n], values);
    }
  }

  lemma GoodKeyHasText(key: string)
    requires GoodKey(key)
    ensures key != "" && '\n' !in key
  {
  }

  /** If everything is intact, the file is read back as it was. */
  lemma IntactReadsBack(plain: char -> bool, keys: seq<string>, values: map<string, string>)
    requires Printable(plain) && Lists(keys, values) && Intact(plain, keys, values)
    ensures Load(Saved(plain, keys, values)) == values
  {
    hide ParseLine, Line, ParseLines, Load, Saved, Printable, GoodKey, GoodValue;
    forall k | k in keys ensures '\n' !in k { GoodKeyHasText(k); }
    LoadReadsLines(plain, keys, values);
    var lines := WrittenLines(plain, keys, values);
    forall i | 0 <= i < |keys| ensures ParseLine(lines[i]) == Some((keys[i], values[keys[i]])) {
      GoodKeyHasText(keys[i]);
      assert WrittenKey(keys, i) == keys[i];
      LineRoundTrip(plain, keys[i], values[keys[i]]);
    }
    ParseDistinct(lines, keys, values);
  }

  /** A key with a newline cannot come out of any file. */
  lemma LoadedHasNoNewline(text: string, key: string)
    requires key in Load(text)
    ensures '\n' !in key
  {
    var lines := Lines(StripBom(StripBom(text)));
    ParsedFrom(lines, key);
    var n: nat :| n < |lines| && ParseLine(lines[n]) == Some((key, ParseLines(lines)[key]));
    LinesHaveNoNewline(StripBom(StripBom(text)));
    ParsedKey(lines[n]);
    assert lines[n] in Lines(StripBom(StripBom(text)));
  }

  function LongestKey(keys: seq<string>): (r: nat)
    ensures forall k :: k in keys ==> |k| <= r
  {
    if keys == [] then 0
    else
      var rest := LongestKey(keys[1..]);
      assert keys == [keys[0]] + keys[1..];
      if |keys[0]| > rest then |keys[0]| else rest
  }

  lemma WrittenShortens(plain: char -> bool, keys: seq<string>, values: map<string, string>, n: nat)
    requires Printable(plain) && n < |keys| && forall k :: k in keys ==> k in values
    ensures |WrittenKey(keys, n)| <= |keys[n]|
              && (|WrittenKey(keys, n)| == |keys[n]| ==> WrittenKey(keys, n) == keys[n])
    ensures var p := ParseLine(WrittenLine(plain, keys, values, n));
            p.Some? ==>
              && |p.value.0| <= |WrittenKey(keys, n)|
              && (|p.value.0| == |WrittenKey(keys, n)| ==> p.value.0 == WrittenKey(keys, n))
  {
    EscapedStandsAlone(plain, values[keys[n]]);
    KeyShortens(WrittenKey(keys, n), EscapeEnvValue(plain, values[keys[n]]));
  }

  /**
   * When a file is read back as it was, each key comes from its own line: a line yields its own key or a shorter one,
   * so a key taken from another line would call for a longer key that is taken from yet another one.
   */
  lemma {:induction false} OwnLine(plain: char -> bool, keys: seq<string>, values: map<string, string>, n: nat)
    requires Printable(plain) && Lists(keys, values) && n < |keys|
    requires ParseLines(WrittenLines(plain, keys, values)) == values
    ensures WrittenKey(keys, n) == keys[n]
              && ParseLine(WrittenLine(plain, keys, values, n)) == Some((keys[n], values[keys[n]]))
    decreases LongestKey(keys) - |keys[n]|
  {
    hide ParseLine, ParseLines, Printable, Line, EscapeEnvValue;
    var lines := WrittenLines(plain, keys, values);
    assert keys[n] in keys;
    ParsedFrom(lines, keys[n]);
    var m: nat :| m < |lines| && ParseLine(lines[m]) == Some((keys[n], ParseLines(lines)[keys[n]]));
    WrittenShortens(plain, keys, values, m);
    assert keys[m] in keys;
    if m != n {
      OwnLine(plain, keys, values, m);
    }
  }

  lemma BackOnlyIfIntact(plain: char -> bool, keys: seq<string>, values: map<string, string>)
    requires Printable(plain) && Lists(keys, values) && Load(Saved(plain, keys, values)) == values
    ensures Intact(plain, keys, values)
  {
    hide ParseLine, Line, Load, Saved, ParseLines, Printable, GoodKey, GoodValue;
    forall k | k in keys ensures '\n' !in k { LoadedHasNoNewline(Saved(plain, keys, values), k); }
    LoadReadsLines(plain, keys, values);
    forall k | k in keys ensures GoodKey(k) && GoodValue(plain, values[k]) {
      var n: nat :| n < |keys| && keys[n] == k;
      OwnLine(plain, keys, values, n);
      LineRoundTrip(plain, k, values[k]);
    }
    if keys != [] {
      OwnLine(plain, keys, values, 0);
      MarkShortens(keys[0]);
    }
  }

  lemma MarkShortens(key: string)
    requires StripBom(StripBom(key)) == key
    ensures key == "" || key[0] != BOM
  {
    assert |StripBom(StripBom(key))| <= |StripBom(key)| <= |key|;
  }

  /** The saved file is read back as it was exactly when every key and every value is fit for it. */
  lemma FileRoundTrip(plain: char -> bool, keys: seq<string>, values: map<string, string>)
    requires Printable(plain) && Lists(keys, values)
    ensures Load(Saved(plain, keys, values)) == values <==> Intact(plain, keys, values)
  {
    if Intact(plain, keys, values) { IntactReadsBack(plain, keys, values); }
    if Load(Saved(plain, keys, values)) == values { BackOnlyIfIntact(plain, keys, values); }
  }

  /** A value holding NUL is one that is lost: `Debug` writes it as an escape that JSON does not know. */
  lemma NulIsLost(plain: char -> bool, key: string)
    requires Printable(plain)
    ensures Load(Saved(plain, [key], map[key := "\0"])) != map[key := "\0"]
  {
    var values := map[key := "\0"];
    assert '\0' in values[key] && !plain('\0');
    assert !GoodValue(plain, values[key]);
    FileRoundTrip(plain, [key], values);
    hide Load, Saved;
    assert key in [key];
  }
}
