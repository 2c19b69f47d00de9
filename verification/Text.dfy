/** The string operations of the standard library that the rewriters use. */
module Texts {
  import opened Options

  /** The Unicode White_Space property, which `trim` and its kin go by. */
  predicate IsWhitespace(c: char) {
    var code := c as int;
    9 <= code <= 13 || code == 0x20 || code == 0x85 || code == 0xA0 || code == 0x1680 || 0x2000 <= code <= 0x200A
    || code == 0x2028 || code == 0x2029 || code == 0x202F || code == 0x205F || code == 0x3000
  }

  function TrimStart(s: string): (r: string)
    ensures r != "" ==> !IsWhitespace(r[0])
    ensures forall c :: c in r ==> c in s
  {
    if s != "" && IsWhitespace(s[0]) then TrimStart(s[1..]) else s
  }

  function TrimEnd(s: string): (r: string)
    ensures r != "" ==> !IsWhitespace(r[|r| - 1])
    ensures r <= s
  {
    if s != "" && IsWhitespace(s[|s| - 1]) then TrimEnd(s[..|s| - 1]) else s
  }

  function Trim(s: string): string { TrimEnd(TrimStart(s)) }

  /** Nothing to trim at either end. */
  predicate Trimmed(s: string) {
    s == "" || (!IsWhitespace(s[0]) && !IsWhitespace(s[|s| - 1]))
  }

  lemma TrimIsTrimmed(s: string)
    ensures Trimmed(Trim(s)) && (Trimmed(s) ==> Trim(s) == s) && forall c :: c in Trim(s) ==> c in s
  {
  }

  // --- Trimming ---

  predicate Blank(s: string) {
    forall c :: c in s ==> IsWhitespace(c)
  }

  lemma {:induction false} TrimStartDrops(s: string) returns (a: string)
    ensures Blank(a) && s == a + TrimStart(s)
  {
    a := "";
    if s != "" && IsWhitespace(s[0]) {
      var rest := TrimStartDrops(s[1..]);
      a := [s[0]] + rest;
    }
  }

  lemma {:induction false} TrimEndDrops(s: string) returns (b: string)
    ensures Blank(b) && s == TrimEnd(s) + b
  {
    b := "";
    if s != "" && IsWhitespace(s[|s| - 1]) {
      var rest := TrimEndDrops(s[..|s| - 1]);
      b := rest + [s[|s| - 1]];
    }
  }

  /** Trimming takes blanks off both ends. */
  lemma TrimDrops(s: string) returns (a: string, b: string)
    ensures Blank(a) && Blank(b) && s == a + Trim(s) + b
  {
    a := TrimStartDrops(s);
    b := TrimEndDrops(TrimStart(s));
  }

  lemma {:induction false} TrimStartIs(a: string, s: string)
    requires Blank(a)
    ensures TrimStart(a + s) == TrimStart(s)
  {
    if a == "" {
      assert a + s == s;
    } else {
      assert (a + s)[1..] == a[1..] + s && a[0] in a;
      TrimStartIs(a[1..], s);
    }
  }

  lemma {:induction false} TrimEndIs(s: string, b: string)
    requires Blank(b)
    ensures TrimEnd(s + b) == TrimEnd(s)
  {
    if b == "" {
      assert s + b == s;
    } else {
      var init, last := b[..|b| - 1], b[|b| - 1];
      assert (s + b)[..|s + b| - 1] == s + init && (s + b)[|s + b| - 1] == last && last in b;
      TrimEndIs(s, init);
    }
  }

  lemma TrimIs(a: string, s: string, b: string)
    requires Blank(a) && Blank(b) && Trimmed(s)
    ensures Trim(a + s + b) == s
  {
    assert a + s + b == a + (s + b);
    TrimStartIs(a, s + b);
    if s == "" {
      assert s + b == b && b + "" == b;
      TrimStartIs(b, "");
    } else {
      assert (s + b)[0] == s[0];
      TrimEndIs(s, b);
    }
  }

  /** Blanks at one end only. */
  lemma TrimOneEnd(a: string, s: string)
    requires Blank(a) && Trimmed(s)
    ensures Trim(a + s) == Trim(s + a) == s
  {
    TrimIs(a, s, "");
    TrimIs("", s, a);
    assert a + s + "" == a + s && "" + s + a == s + a;
  }

  lemma {:induction false} TrimEndKeepsFirst(s: string)
    requires s != "" && !IsWhitespace(s[0])
    ensures TrimEnd(s) != "" && TrimEnd(s)[0] == s[0]
  {
    if IsWhitespace(s[|s| - 1]) {
      TrimEndKeepsFirst(s[..|s| - 1]);
    }
  }

  // --- Searching ---

  function IndexOf(s: string, c: char): (r: Option<nat>)
    ensures r.Some? ==> r.value < |s| && s[r.value] == c && c !in s[..r.value]
    ensures r.None? ==> c !in s
  {
    if s == "" then None
    else if s[0] == c then Some(0)
    else
      match IndexOf(s[1..], c)
      case None => assert s == [s[0]] + s[1..]; None
      case Some(k) => assert s[..k + 1] == [s[0]] + s[1..][..k]; Some(k + 1)
  }

  predicate EndsWith(s: string, suffix: string) {
    |suffix| <= |s| && s[|s| - |suffix|..] == suffix
  }

  // --- Lines ---

  /** A line that is read back as written: no newline inside, no carriage return at the end. */
  predicate Clean(line: string) { '\n' !in line && (line == "" || line[|line| - 1] != '\r') }

  /** `str::lines`: the newline and one carriage return before it are dropped. */
  function Lines(s: string): seq<string> {
    if s == "" then []
    else
      match IndexOf(s, '\n')
      case None => [s]
      case Some(k) =>
        var line := s[..k];
        [if line != "" && line[k - 1] == '\r' then line[..k - 1] else line] + Lines(s[k + 1..])
  }

  function Unlines(lines: seq<string>): string {
    if lines == [] then "" else Unlines(lines[..|lines| - 1]) + lines[|lines| - 1] + "\n"
  }

  lemma {:induction false} UnlinesConcat(a: seq<string>, b: seq<string>)
    ensures Unlines(a + b) == Unlines(a) + Unlines(b)
  {
    if b == [] {
      assert a + b == a;
    } else {
      var init, last := b[..|b| - 1], b[|b| - 1];
      UnlinesConcat(a, init);
      assert (a + b)[..|a + b| - 1] == a + init && (a + b)[|a + b| - 1] == last;
    }
  }

  lemma {:induction false} IndexOfIs(s: string, c: char, k: nat)
    requires k < |s| && s[k] == c && c !in s[..k]
    ensures IndexOf(s, c) == Some(k)
  {
    if k > 0 {
      assert s[0] in s[..k];
      assert forall d :: d in s[1..][..k - 1] ==> d in s[..k];
      IndexOfIs(s[1..], c, k - 1);
    }
  }

  /** What `str::lines` makes of a line: a carriage return at its end goes. */
  function Chomp(line: string): string {
    if line != "" && line[|line| - 1] == '\r' then line[..|line| - 1] else line
  }

  function Chomped(lines: seq<string>): (r: seq<string>)
    ensures |r| == |lines| && forall k :: 0 <= k < |r| ==> r[k] == Chomp(lines[k])
  {
    seq(|lines|, k requires 0 <= k < |lines| => Chomp(lines[k]))
  }

  /** Reading lines back costs each of them a carriage return at its end. */
  lemma {:induction false} LinesOfUnlines(lines: seq<string>)
    requires forall line :: line in lines ==> '\n' !in line
    ensures Lines(Unlines(lines)) == Chomped(lines)
  {
    if lines != [] {
      hide Lines, Unlines, Chomp, Chomped;
      var first, rest := lines[0], lines[1..];
      assert first in lines && lines == [first] + rest;
      UnlinesFirst(first, rest);
      LinesFirst(first, Unlines(rest));
      LinesOfUnlines(rest);
      ChompedFirst(first, rest);
    }
  }

  lemma ChompedFirst(first: string, rest: seq<string>)
    ensures Chomped([first] + rest) == [Chomp(first)] + Chomped(rest)
  {
    hide Chomp;
    var all := [first] + rest;
    assert forall k :: 0 <= k < |rest| ==> all[k + 1] == rest[k];
  }

  lemma LinesFirst(first: string, rest: string)
    requires '\n' !in first
    ensures Lines(first + ("\n" + rest)) == [Chomp(first)] + Lines(rest)
  {
    var s := first + ("\n" + rest);
    assert s[..|first|] == first && s[|first| + 1..] == rest;
    IndexOfIs(s, '\n', |first|);
    hide IndexOf;
  }

  lemma LinesLast(last: string)
    requires '\n' !in last
    ensures Lines(last) == if last == "" then [] else [last]
  {
  }

  lemma UnlinesFirst(first: string, rest: seq<string>)
    ensures Unlines([first] + rest) == first + ("\n" + Unlines(rest))
  {
    UnlinesConcat([first], rest);
    assert [first][..0] == [];
    assert Unlines([first]) == first + "\n";
  }

  lemma LinesUnlines(lines: seq<string>)
    requires forall line :: line in lines ==> Clean(line)
    ensures Lines(Unlines(lines)) == lines
  {
    LinesOfUnlines(lines);
    forall k | 0 <= k < |lines| ensures Chomped(lines)[k] == lines[k] {
      assert lines[k] in lines;
    }
  }

  /** Different lines make different texts. */
  lemma {:induction false} UnlinesInjective(a: seq<string>, b: seq<string>)
    requires (forall line :: line in a ==> '\n' !in line) && (forall line :: line in b ==> '\n' !in line)
    requires Unlines(a) == Unlines(b)
    ensures a == b
  {
    if a == [] || b == [] {
      TextOfNothing(a);
      TextOfNothing(b);
    } else {
      assert a == [a[0]] + a[1..] && b == [b[0]] + b[1..];
      UnlinesFirst(a[0], a[1..]);
      UnlinesFirst(b[0], b[1..]);
      var s := Unlines(a);
      assert a[0] in a && b[0] in b;
      assert s[..|a[0]|] == a[0] && s[..|b[0]|] == b[0];
      IndexOfIs(s, '\n', |a[0]|);
      IndexOfIs(s, '\n', |b[0]|);
      assert s[|a[0]| + 1..] == Unlines(a[1..]) && s[|b[0]| + 1..] == Unlines(b[1..]);
      UnlinesInjective(a[1..], b[1..]);
    }
  }

  lemma TextOfNothing(lines: seq<string>)
    ensures Unlines(lines) == "" <==> lines == []
  {
  }

  lemma {:induction false} LinesHaveNoNewline(s: string)
    ensures forall line :: line in Lines(s) ==> '\n' !in line
  {
    var k := IndexOf(s, '\n');
    if s != "" && k.Some? {
      LinesHaveNoNewline(s[k.value + 1..]);
    }
  }

  // --- Trailing blank lines ---

  function DropTrailingBlank(lines: seq<string>): (r: seq<string>)
    ensures r <= lines && forall k :: |r| <= k < |lines| ==> lines[k] == ""
    ensures r != [] ==> r[|r| - 1] != ""
  {
    if lines != [] && lines[|lines| - 1] == "" then DropTrailingBlank(lines[..|lines| - 1]) else lines
  }

  function TrimEndNewlines(s: string): (r: string)
    ensures r <= s && forall k :: |r| <= k < |s| ==> s[k] == '\n'
    ensures r != "" ==> r[|r| - 1] != '\n'
  {
    if s != "" && s[|s| - 1] == '\n' then TrimEndNewlines(s[..|s| - 1]) else s
  }

  /** `normalize_trailing_newline`. */
  function NormalizeTrailingNewline(s: string): string {
    var trimmed := TrimEndNewlines(s);
    if trimmed == "" then "" else trimmed + "\n"
  }

  /** On lines, normalizing the trailing newline drops the blank lines at the end. */
  lemma {:induction false} NormalizeDropsBlank(lines: seq<string>)
    requires forall line :: line in lines ==> '\n' !in line
    ensures NormalizeTrailingNewline(Unlines(lines)) == Unlines(DropTrailingBlank(lines))
  {
    if lines != [] {
      var init, last := lines[..|lines| - 1], lines[|lines| - 1];
      assert last in lines;
      assert forall line :: line in init ==> line in lines;
      var s := Unlines(lines);
      assert s[..|s| - 1] == Unlines(init) + last;
      if last == "" {
        NormalizeDropsBlank(init);
        assert Unlines(init) + last == Unlines(init);
      } else {
        assert (Unlines(init) + last)[|Unlines(init)| + |last| - 1] == last[|last| - 1];
        assert last[|last| - 1] in last;
        var body := Unlines(init) + last;
        assert s == body + "\n" && s[|s| - 1] == '\n' && s[..|s| - 1] == body;
        assert TrimEndNewlines(body) == body;
        assert TrimEndNewlines(s) == body;
      }
    }
  }
}
