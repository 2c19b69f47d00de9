/**
 * Rewriting Codex's `config.toml`: split into sections, set the feature flag and the server entry, print.
 * Running the rewrite on its own output changes nothing.
 */
module CodexToml {
  import opened Options
  import opened Texts

  datatype Section = Section(header: Option<string>, lines: seq<string>)

  const FEATURES := "features"
  const SERVER := "mcp_servers.memory-bank"
  const HOOKS_KEY := "codex_hooks"
  const HOOKS_LINE := "codex_hooks = true"

  // --- Reading ---

  function ParseTableHeader(line: string): Option<string> {
    var trimmed := Trim(line);
    if !("[" <= trimmed) || "[[" <= trimmed then None
    else
      match IndexOf(trimmed, ']')
      case None => None
      case Some(close) =>
        if close == 0 then None
        else
          var remainder := Trim(trimmed[close + 1..]);
          if remainder != "" && remainder[0] != '#' then None else Some(Trim(trimmed[1..close]))
  }

  predicate IsAssignment(line: string, key: string) {
    var trimmed := TrimStart(line);
    key <= trimmed && "=" <= TrimStart(trimmed[|key|..])
  }

  /** Appends lines to the last section. */
  function AddLines(sections: seq<Section>, lines: seq<string>): (r: seq<Section>)
    requires sections != []
    ensures |r| == |sections| && r[..|r| - 1] == sections[..|sections| - 1]
    ensures r[|r| - 1] == Section(sections[|r| - 1].header, sections[|r| - 1].lines + lines)
  {
    var last := sections[|sections| - 1];
    sections[..|sections| - 1] + [last.(lines := last.lines + lines)]
  }

  /** The sections of a list of lines, the first one being what precedes any header. */
  function Split(lines: seq<string>): (r: seq<Section>)
    ensures r != []
  {
    if lines == [] then [Section(None, [])]
    else
      var line, rest := lines[|lines| - 1], Split(lines[..|lines| - 1]);
      match ParseTableHeader(line)
      case Some(header) => rest + [Section(Some(header), [])]
      case None => AddLines(rest, [line])
  }

  // --- Editing ---

  predicate HasAssignment(lines: seq<string>) {
    exists k :: 0 <= k < |lines| && IsAssignment(lines[k], HOOKS_KEY)
  }

  /** The first assignment of the flag becomes the wanted one, later ones go. */
  function SetFlag(lines: seq<string>): seq<string> {
    if lines == [] then []
    else
      var init, last := lines[..|lines| - 1], lines[|lines| - 1];
      if !IsAssignment(last, HOOKS_KEY) then SetFlag(init) + [last]
      else if HasAssignment(init) then SetFlag(init)
      else SetFlag(init) + [HOOKS_LINE]
  }

  function UpsertFeaturesLines(lines: seq<string>): seq<string> {
    if HasAssignment(lines) then SetFlag(lines) else SetFlag(lines) + [HOOKS_LINE]
  }

  function ServerLines(url: string): seq<string> {
    ["url = \"" + url + "/mcp\"", "enabled = true"]
  }

  predicate Conflicts(line: string) {
    IsAssignment(line, "features") || IsAssignment(line, "mcp_servers")
  }

  function WithoutConflicts(lines: seq<string>): (r: seq<string>)
    ensures forall line :: line in r ==> line in lines && !Conflicts(line)
  {
    if lines == [] then []
    else
      var rest, last := WithoutConflicts(lines[..|lines| - 1]), lines[|lines| - 1];
      if Conflicts(last) then rest else rest + [last]
  }

  predicate Seen(sections: seq<Section>, header: string) {
    exists k :: 0 <= k < |sections| && sections[k].header == Some(header)
  }

  /** What the loop renders of the sections so far. */
  function Rewrite(sections: seq<Section>, url: string): seq<Section> {
    if sections == [] then []
    else
      var init, s := sections[..|sections| - 1], sections[|sections| - 1];
      var rest := Rewrite(init, url);
      if s.header == None then rest + [Section(None, WithoutConflicts(s.lines))]
      else if s.header == Some(FEATURES) then
        if Seen(init, FEATURES) then rest else rest + [s.(lines := UpsertFeaturesLines(s.lines))]
      else if s.header == Some(SERVER) then
        if Seen(init, SERVER) then rest else rest + [s.(lines := ServerLines(url))]
      else rest + [s]
  }

  function UpsertSections(sections: seq<Section>, url: string): seq<Section> {
    Rewrite(sections, url)
      + (if Seen(sections, FEATURES) then [] else [Section(Some(FEATURES), UpsertFeaturesLines([]))])
      + (if Seen(sections, SERVER) then [] else [Section(Some(SERVER), ServerLines(url))])
  }

  // --- Printing ---

  function HeaderLine(header: string): string { "[" + header + "]" }

  function Print(s: Section): seq<string> {
    (if s.header.Some? then [HeaderLine(s.header.value)] else []) + s.lines
  }

  datatype Rendered = Rendered(text: string, wroteAnything: bool)

  function Separator(r: Rendered): string {
    if r.wroteAnything && !EndsWith(r.text, "\n\n") then (if EndsWith(r.text, "\n") then "\n" else "\n\n") else ""
  }

  /** `render_sections`, on characters as the source does it. */
  function Render(sections: seq<Section>): Rendered {
    if sections == [] then Rendered("", false)
    else
      var r, s := Render(sections[..|sections| - 1]), sections[|sections| - 1];
      if s.header.None? && s.lines == [] then r else Rendered(r.text + Separator(r) + Unlines(Print(s)), true)
  }

  function Upsert(contents: string, url: string): string {
    Render(UpsertSections(Split(Lines(contents)), url)).text
  }

  /** The rewrite as it reaches the file. */
  function Configure(contents: string, url: string): string {
    NormalizeTrailingNewline(Upsert(contents, url))
  }

  // --- Sections that survive printing and splitting ---

  /** A header as it comes out of a line. */
  ghost predicate PlainHeader(header: string) {
    Trim(header) == header && ']' !in header && '\n' !in header
  }

  /** A header that is read back as printed: printing `[` before another `[` makes no header. */
  ghost predicate GoodHeader(header: string) { PlainHeader(header) && !("[" <= header) }

  ghost predicate GoodLine(line: string) { '\n' !in line && ParseTableHeader(line).None? }

  /** What splitting gives: lines that are no headers, under headers that came out of lines. */
  ghost predicate Sectioned(sections: seq<Section>) {
    && sections != [] && sections[0].header.None?
    && (forall k :: 0 < k < |sections| ==> sections[k].header.Some? && PlainHeader(sections[k].header.value))
    && (forall k, line :: 0 <= k < |sections| && line in sections[k].lines ==> GoodLine(line))
  }

  /** Every header is one that reads back. */
  ghost predicate HeadersReadBack(sections: seq<Section>) {
    forall k :: 0 <= k < |sections| && sections[k].header.Some? ==> !("[" <= sections[k].header.value)
  }

  ghost predicate Formed(sections: seq<Section>) { Sectioned(sections) && HeadersReadBack(sections) }

  function Flatten(sections: seq<Section>): seq<string> {
    if sections == [] then [] else Flatten(sections[..|sections| - 1]) + Print(sections[|sections| - 1])
  }

  lemma HeaderReadsBack(header: string)
    requires GoodHeader(header)
    ensures ParseTableHeader(HeaderLine(header)) == Some(header)
  {
    var line := HeaderLine(header);
    TrimIsTrimmed(line);
    assert Trim(line) == line;
    var k := |header| + 1;
    assert line[k] == ']' && line[1..k] == header;
    assert line[..k] == "[" + header;
    IndexOfIs(line, ']', k);
    assert line[k + 1..] == "";
    assert line[1] == if header == "" then ']' else header[0];
  }

  lemma HeaderIsPlain(line: string)
    requires '\n' !in line && ParseTableHeader(line).Some?
    ensures PlainHeader(ParseTableHeader(line).value)
  {
    var trimmed := Trim(line);
    TrimIsTrimmed(line);
    var close := IndexOf(trimmed, ']').value;
    var inner := trimmed[1..close];
    TrimIsTrimmed(inner);
    TrimIsTrimmed(Trim(inner));
    assert forall c :: c in inner ==> c in trimmed[..close] && c in line;
  }

  lemma AddLinesTwice(sections: seq<Section>, a: seq<string>, b: seq<string>)
    requires sections != []
    ensures AddLines(AddLines(sections, a), b) == AddLines(sections, a + b) && AddLines(sections, []) == sections
  {
    var last := sections[|sections| - 1];
    assert (last.lines + a) + b == last.lines + (a + b) && last.lines + [] == last.lines;
    assert sections == sections[..|sections| - 1] + [last];
  }

  lemma {:induction false} SplitAppend(lines: seq<string>, body: seq<string>)
    requires forall line :: line in body ==> ParseTableHeader(line).None?
    ensures Split(lines + body) == AddLines(Split(lines), body)
  {
    hide ParseTableHeader, AddLines;
    if body == [] {
      assert lines + body == lines;
      AddLinesTwice(Split(lines), [], []);
    } else {
      var init, last := body[..|body| - 1], body[|body| - 1];
      assert last in body && forall line :: line in init ==> line in body;
      SplitAppend(lines, init);
      assert (lines + body)[..|lines + body| - 1] == lines + init;
      AddLinesTwice(Split(lines), init, [last]);
      assert init + [last] == body;
    }
  }

  lemma SplitSection(lines: seq<string>, s: Section)
    requires s.header.Some? && GoodHeader(s.header.value) && forall line :: line in s.lines ==> GoodLine(line)
    ensures Split(lines + Print(s)) == Split(lines) + [s]
  {
    hide ParseTableHeader, AddLines, Split, GoodHeader, HeaderLine;
    HeaderReadsBack(s.header.value);
    var headed := lines + [HeaderLine(s.header.value)];
    assert forall line :: line in s.lines ==> ParseTableHeader(line).None?;
    SplitAppend(headed, s.lines);
    assert lines + Print(s) == headed + s.lines;
    SplitAtHeader(lines, HeaderLine(s.header.value));
    ExtendLast(Split(lines), s);
  }

  lemma SplitAtHeader(lines: seq<string>, line: string)
    requires ParseTableHeader(line).Some?
    ensures Split(lines + [line]) == Split(lines) + [Section(ParseTableHeader(line), [])]
  {
    hide ParseTableHeader, AddLines;
    assert (lines + [line])[..|lines|] == lines;
  }

  lemma ExtendLast(sections: seq<Section>, s: Section)
    ensures AddLines(sections + [Section(s.header, [])], s.lines) == sections + [s]
  {
    assert [] + s.lines == s.lines;
  }

  lemma SectionedParts(sections: seq<Section>)
    requires Sectioned(sections)
    ensures var init, last := sections[..|sections| - 1], sections[|sections| - 1];
            && (forall line :: line in last.lines ==> GoodLine(line))
            && (init != [] ==> Sectioned(init) && last.header.Some? && PlainHeader(last.header.value))
            && (init == [] ==> last.header.None?)
  {
    hide PlainHeader, GoodLine;
  }

  lemma FormedParts(sections: seq<Section>)
    requires Formed(sections)
    ensures var init, last := sections[..|sections| - 1], sections[|sections| - 1];
            && (forall line :: line in last.lines ==> GoodLine(line))
            && (init != [] ==> Formed(init) && last.header.Some? && GoodHeader(last.header.value))
            && (init == [] ==> last.header.None?)
  {
    SectionedParts(sections);
    hide PlainHeader, GoodLine, Sectioned;
  }

  lemma SplitPrelude(lines: seq<string>)
    requires forall line :: line in lines ==> GoodLine(line)
    ensures Split(lines) == [Section(None, lines)]
  {
    SplitAppend([], lines);
    assert [] + lines == lines;
  }

  lemma {:induction false} SplitFlatten(sections: seq<Section>)
    requires Formed(sections)
    ensures Split(Flatten(sections)) == sections
  {
    FormedParts(sections);
    hide Formed, GoodHeader, GoodLine, Split;
    var init, last := sections[..|sections| - 1], sections[|sections| - 1];
    assert sections == init + [last];
    if init == [] {
      SplitPrelude(last.lines);
      assert Flatten(sections) == last.lines by {
        assert Flatten(init) == [] && Print(last) == [] + last.lines;
      }
    } else {
      SplitFlatten(init);
      SplitSection(Flatten(init), last);
    }
  }

  lemma SectionedHeader(sections: seq<Section>, header: string)
    requires Sectioned(sections) && PlainHeader(header)
    ensures Sectioned(sections + [Section(Some(header), [])])
  {
    hide PlainHeader, GoodLine;
  }

  lemma SectionedLines(sections: seq<Section>, lines: seq<string>)
    requires Sectioned(sections) && forall line :: line in lines ==> GoodLine(line)
    ensures Sectioned(AddLines(sections, lines))
  {
    hide PlainHeader, GoodLine;
    var r := AddLines(sections, lines);
    assert forall k :: 0 <= k < |r| ==> r[k].header == sections[k].header;
    forall k, l | 0 <= k < |r| && l in r[k].lines ensures GoodLine(l) {
      assert l in sections[k].lines || l in lines;
    }
  }

  lemma {:induction false} SplitIsSectioned(lines: seq<string>)
    requires forall line :: line in lines ==> '\n' !in line
    ensures Sectioned(Split(lines))
  {
    hide ParseTableHeader, Trim, Sectioned, PlainHeader, AddLines;
    if lines == [] {
      SectionedNothing();
    } else {
      var init, line := lines[..|lines| - 1], lines[|lines| - 1];
      assert line in lines && forall l :: l in init ==> l in lines;
      SplitIsSectioned(init);
      if ParseTableHeader(line).Some? {
        HeaderIsPlain(line);
        SectionedHeader(Split(init), ParseTableHeader(line).value);
      } else {
        SectionedLines(Split(init), [line]);
      }
    }
  }

  lemma SectionedNothing()
    ensures Sectioned([Section(None, [])])
  {
  }

  // --- Printing on lines ---

  /** Printing leaves a blank line after a section that does not end with one. */
  predicate NeedsBlank(s: Section) {
    if s.header.Some? then s.lines == [] || s.lines[|s.lines| - 1] != ""
    else s.lines != [] && !(|s.lines| >= 2 && s.lines[|s.lines| - 1] == "")
  }

  function Padded(s: Section): Section {
    if NeedsBlank(s) then s.(lines := s.lines + [""]) else s
  }

  function PadAll(sections: seq<Section>): (r: seq<Section>)
    ensures |r| == |sections| && forall k :: 0 <= k < |r| ==> r[k] == Padded(sections[k])
  {
    seq(|sections|, k requires 0 <= k < |sections| => Padded(sections[k]))
  }

  /** All sections but the last are followed by a blank line. */
  function PadInner(sections: seq<Section>): (r: seq<Section>)
    requires sections != []
    ensures |r| == |sections| && (forall k :: 0 <= k < |r| - 1 ==> r[k] == Padded(sections[k]))
              && r[|r| - 1] == sections[|r| - 1]
  {
    PadAll(sections[..|sections| - 1]) + [sections[|sections| - 1]]
  }

  lemma FlattenPad(init: seq<Section>, last: Section)
    ensures Flatten(init + [Padded(last)]) == Flatten(init + [last]) + (if NeedsBlank(last) then [""] else [])
  {
    assert (init + [Padded(last)])[..|init|] == init && (init + [last])[..|init|] == init;
  }

  lemma {:induction false} TextEnds(lines: seq<string>)
    requires lines != [] && '\n' !in lines[|lines| - 1]
    ensures EndsWith(Unlines(lines), "\n")
    ensures EndsWith(Unlines(lines), "\n\n") <==> |lines| >= 2 && lines[|lines| - 1] == ""
  {
    var last := lines[|lines| - 1];
    var init := lines[..|lines| - 1];
    var s := Unlines(lines);
    assert s == Unlines(init) + last + "\n";
    if last != "" {
      assert s[|s| - 2] == last[|last| - 1] && last[|last| - 1] in last;
      assert s[|s| - 2..][0] == s[|s| - 2];
    } else if init != [] {
      var before := Unlines(init);
      assert before[|before| - 1] == '\n' && s == before + "\n";
      assert s[|s| - 2..] == "\n\n";
    }
  }

  /** The character-level printer prints the padded sections line by line. */
  lemma {:induction false} RenderPrintsPadded(sections: seq<Section>)
    requires Sectioned(sections)
    ensures Render(sections) == Rendered(Unlines(Flatten(PadInner(sections))), Flatten(PadInner(sections)) != [])
  {
    var init, last := sections[..|sections| - 1], sections[|sections| - 1];
    if |sections| == 1 {
      assert init == [] && PadInner(sections) == [last];
      assert Flatten([last]) == Flatten([]) + Print(last) by { assert [last][..0] == []; }
      assert Render(init) == Rendered("", false);
      assert [] + Print(last) == Print(last) == last.lines;
    } else {
      SectionedParts(sections);
      RenderPrintsPadded(init);
      SeparatorIsPadding(init);
      var r := Render(init);
      var padded := PadInner(sections);
      assert padded[..|init|] == PadAll(init);
      assert Flatten(padded) == Flatten(PadAll(init)) + Print(last);
      UnlinesConcat(Flatten(PadAll(init)), Print(last));
    }
  }

  lemma SeparatorIsPadding(sections: seq<Section>)
    requires Sectioned(sections)
    requires Render(sections) == Rendered(Unlines(Flatten(PadInner(sections))), Flatten(PadInner(sections)) != [])
    ensures Render(sections).text + Separator(Render(sections)) == Unlines(Flatten(PadAll(sections)))
  {
    PaddingIsLast(sections);
    if Flatten(PadInner(sections)) != [] {
      LastLine(sections);
      TextSeparator(Flatten(PadInner(sections)));
    }
  }

  lemma PaddingIsLast(sections: seq<Section>)
    requires sections != []
    ensures Flatten(PadAll(sections))
              == Flatten(PadInner(sections)) + (if NeedsBlank(sections[|sections| - 1]) then [""] else [])
    ensures Flatten(PadInner(sections)) == [] ==> !NeedsBlank(sections[|sections| - 1])
  {
    var init, last := sections[..|sections| - 1], sections[|sections| - 1];
    var padded := PadAll(init);
    assert PadInner(sections) == padded + [last] && PadAll(sections) == padded + [Padded(last)];
    FlattenPad(padded, last);
    assert (padded + [last])[..|padded|] == padded;
    if Flatten(PadInner(sections)) == [] {
      NothingToPad(last);
    }
  }

  /** The separator after some lines is one more blank line, unless there is one already. */
  lemma TextSeparator(lines: seq<string>)
    requires lines != [] && '\n' !in lines[|lines| - 1]
    ensures Unlines(lines) + Separator(Rendered(Unlines(lines), true)) ==
            Unlines(lines + (if |lines| >= 2 && lines[|lines| - 1] == "" then [] else [""]))
  {
    TextEnds(lines);
    UnlinesConcat(lines, [""]);
    OneBlankLine();
    hide Unlines;
    assert lines + [] == lines;
  }

  lemma OneBlankLine()
    ensures Unlines([""]) == "\n"
  {
    assert [""][..0] == [];
  }

  lemma NothingToPad(s: Section)
    requires Print(s) == []
    ensures !NeedsBlank(s)
  {
  }

  /** The last printed line is the last section's, and it is blank with something before it unless padding is due. */
  lemma LastLine(sections: seq<Section>)
    requires Sectioned(sections) && Flatten(PadInner(sections)) != []
    ensures var lines, last := Flatten(PadInner(sections)), sections[|sections| - 1];
            && '\n' !in lines[|lines| - 1]
            && (NeedsBlank(last) <==> !(|lines| >= 2 && lines[|lines| - 1] == ""))
  {
    var init, last := sections[..|sections| - 1], sections[|sections| - 1];
    var padded := PadAll(init);
    assert PadInner(sections) == padded + [last] && (padded + [last])[..|padded|] == padded;
    assert forall line :: line in last.lines ==> GoodLine(line);
    assert last.header.None? ==> |sections| == 1 && padded == [];
    assert last.lines != [] ==> last.lines[|last.lines| - 1] in last.lines;
  }
}
