/**
 * What the rewrite of Codex's `config.toml` produces and writes: sections in order, with the flag and the server's
 * entry as wanted, printed line by line.
 */
module CodexTomlWritten {
  import opened Options
  import opened Texts
  import opened CodexToml

  // --- The feature flag ---

  /** Every assignment of the flag is the wanted line, and there is at most one. */
  ghost predicate FlagTidy(lines: seq<string>) {
    && (forall k :: 0 <= k < |lines| && IsAssignment(lines[k], HOOKS_KEY) ==> lines[k] == HOOKS_LINE)
    && (forall j, k :: 0 <= j < k < |lines|
          ==> !(IsAssignment(lines[j], HOOKS_KEY) && IsAssignment(lines[k], HOOKS_KEY)))
  }

  lemma PlainIsTrimmed(s: string)
    requires s != "" && !IsWhitespace(s[0]) && !IsWhitespace(s[|s| - 1])
    ensures Trim(s) == s && TrimStart(s) == s
  {
  }

  /** A line that starts with a letter is no header. */
  lemma NotAHeader(line: string)
    requires line != "" && !IsWhitespace(line[0]) && !IsWhitespace(line[|line| - 1]) && line[0] != '['
    ensures ParseTableHeader(line).None?
  {
    PlainIsTrimmed(line);
  }

  lemma WantedLineAssigns()
    ensures IsAssignment(HOOKS_LINE, HOOKS_KEY) && !IsAssignment("", HOOKS_KEY) && !Conflicts("")
    ensures GoodLine(HOOKS_LINE) && GoodLine("")
  {
    hide IsAssignment, ParseTableHeader, IsWhitespace;
    WantedLineReads();
    BlankLine();
  }

  lemma WantedLineReads()
    ensures IsAssignment(HOOKS_LINE, HOOKS_KEY) && GoodLine(HOOKS_LINE)
  {
    hide ParseTableHeader, Trim, TrimStart, IsAssignment, Clean;
    WantedLineSpelled();
    WantedLineClean();
    NotAHeader(HOOKS_LINE);
    PlainIsTrimmed(HOOKS_LINE);
    AssignsWithSpace(HOOKS_KEY, "= true");
  }

  lemma WantedLineSpelled()
    ensures HOOKS_LINE == HOOKS_KEY + (" " + "= true")
  {
    assert " " + "= true" == " = true";
  }

  lemma WantedLineClean()
    ensures Clean(HOOKS_LINE) && !IsWhitespace(HOOKS_LINE[0]) && HOOKS_LINE[0] != '['
              && !IsWhitespace(HOOKS_LINE[|HOOKS_LINE| - 1])
  {
    assert HOOKS_LINE[0] == 'c' && HOOKS_LINE[|HOOKS_LINE| - 1] == 'e';
  }

  lemma AssignsWithSpace(key: string, rest: string)
    requires rest != "" && rest[0] == '=' && TrimStart(key + (" " + rest)) == key + (" " + rest)
    ensures IsAssignment(key + (" " + rest), key)
  {
    var line := key + (" " + rest);
    assert line[|key|..] == " " + rest && (" " + rest)[1..] == rest;
    assert TrimStart(rest) == rest && TrimStart(" " + rest) == TrimStart(rest);
    assert "=" <= rest;
    hide TrimStart;
  }

  lemma BlankLine()
    ensures !IsAssignment("", HOOKS_KEY) && !Conflicts("") && GoodLine("")
  {
  }

  lemma FlagTidySnoc(init: seq<string>, last: string)
    ensures FlagTidy(init + [last]) <==>
              FlagTidy(init) && (IsAssignment(last, HOOKS_KEY) ==> last == HOOKS_LINE && !HasAssignment(init))
  {
    hide IsAssignment;
    var lines := init + [last];
    assert forall k :: 0 <= k < |init| ==> lines[k] == init[k];
    assert lines[|init|] == last;
  }

  lemma {:induction false} SetFlagTidies(lines: seq<string>)
    ensures FlagTidy(SetFlag(lines)) && (HasAssignment(SetFlag(lines)) <==> HasAssignment(lines))
    ensures forall line :: line in SetFlag(lines) ==> line in lines || line == HOOKS_LINE
  {
    WantedLineAssigns();
    hide IsAssignment, FlagTidy, HasAssignment, GoodLine, Conflicts;
    if lines == [] {
      NoLinesTidy();
    } else {
      var init, last := lines[..|lines| - 1], lines[|lines| - 1];
      SetFlagTidies(init);
      var rest := SetFlag(init);
      assert lines == init + [last];
      AssignmentSnoc(init, last);
      AssignmentSnoc(rest, last);
      AssignmentSnoc(rest, HOOKS_LINE);
      FlagTidySnoc(rest, last);
      FlagTidySnoc(rest, HOOKS_LINE);
    }
  }

  lemma NoLinesTidy()
    ensures FlagTidy([]) && !HasAssignment([])
  {
  }

  lemma AssignmentSnoc(init: seq<string>, last: string)
    ensures HasAssignment(init + [last]) <==> HasAssignment(init) || IsAssignment(last, HOOKS_KEY)
  {
    hide IsAssignment;
    var lines := init + [last];
    if HasAssignment(init) {
      var k :| 0 <= k < |init| && IsAssignment(init[k], HOOKS_KEY);
      assert lines[k] == init[k];
    }
    assert lines[|init|] == last;
  }

  lemma {:induction false} SetFlagFixed(lines: seq<string>)
    requires FlagTidy(lines)
    ensures SetFlag(lines) == lines
  {
    hide IsAssignment, FlagTidy, HasAssignment;
    if lines != [] {
      var init, last := lines[..|lines| - 1], lines[|lines| - 1];
      assert lines == init + [last];
      FlagTidySnoc(init, last);
      SetFlagFixed(init);
    }
  }

  /** The features section as the rewrite leaves it. */
  ghost predicate FlagSet(lines: seq<string>) { FlagTidy(lines) && HasAssignment(lines) }

  lemma FeaturesSet(lines: seq<string>)
    ensures FlagSet(UpsertFeaturesLines(lines))
    ensures forall line :: line in UpsertFeaturesLines(lines) ==> line in lines || line == HOOKS_LINE
    ensures FlagSet(lines) ==> UpsertFeaturesLines(lines) == lines
  {
    SetFlagTidies(lines);
    WantedLineAssigns();
    AssignmentSnoc(SetFlag(lines), HOOKS_LINE);
    if FlagSet(lines) {
      SetFlagFixed(lines);
    }
  }

  lemma FlagSurvivesBlank(lines: seq<string>)
    ensures FlagSet(lines + [""]) <==> FlagSet(lines)
  {
    BlankLine();
    hide IsAssignment, FlagTidy, HasAssignment;
    AssignmentSnoc(lines, "");
    FlagTidySnoc(lines, "");
  }

  lemma {:induction false} FlagSurvivesStrip(lines: seq<string>)
    ensures FlagSet(DropTrailingBlank(lines)) <==> FlagSet(lines)
  {
    hide FlagSet;
    if lines != [] && lines[|lines| - 1] == "" {
      FlagSurvivesStrip(lines[..|lines| - 1]);
      FlagSurvivesBlank(lines[..|lines| - 1]);
      assert lines == lines[..|lines| - 1] + [""];
    }
  }

  // --- Sections the rewrite is done with ---

  ghost predicate Once(sections: seq<Section>, header: string) {
    forall j, k :: 0 <= j < k < |sections|
        ==> !(sections[j].header == Some(header) && sections[k].header == Some(header))
  }

  /** Rewriting the section only restores the server's lines. */
  ghost predicate Tidy(s: Section) {
    && (s.header == None ==> forall line :: line in s.lines ==> !Conflicts(line))
    && (s.header == Some(FEATURES) ==> FlagSet(s.lines))
  }

  function Restored(s: Section, url: string): Section {
    if s.header == Some(SERVER) then s.(lines := ServerLines(url)) else s
  }

  function RestoreAll(sections: seq<Section>, url: string): (r: seq<Section>)
    ensures |r| == |sections| && forall k :: 0 <= k < |r| ==> r[k] == Restored(sections[k], url)
  {
    seq(|sections|, k requires 0 <= k < |sections| => Restored(sections[k], url))
  }

  ghost predicate AllTidy(sections: seq<Section>) {
    forall k :: 0 <= k < |sections| ==> Tidy(sections[k])
  }

  lemma {:induction false} NothingConflicts(lines: seq<string>)
    requires forall line :: line in lines ==> !Conflicts(line)
    ensures WithoutConflicts(lines) == lines
  {
    if lines != [] {
      hide Conflicts;
      NothingConflicts(lines[..|lines| - 1]);
      assert lines[|lines| - 1] in lines;
    }
  }

  /** The section the loop pushes for one it meets. */
  function Rewritten(s: Section, url: string): Section {
    if s.header == None then Section(None, WithoutConflicts(s.lines))
    else if s.header == Some(FEATURES) then s.(lines := UpsertFeaturesLines(s.lines))
    else if s.header == Some(SERVER) then s.(lines := ServerLines(url))
    else s
  }

  /** The loop skips a section of its own that it has met before. */
  predicate Skipped(init: seq<Section>, s: Section) {
    (s.header == Some(FEATURES) && Seen(init, FEATURES)) || (s.header == Some(SERVER) && Seen(init, SERVER))
  }

  lemma RewriteStep(init: seq<Section>, last: Section, url: string)
    ensures Rewrite(init + [last], url)
              == Rewrite(init, url) + (if Skipped(init, last) then [] else [Rewritten(last, url)])
  {
    hide Seen, UpsertFeaturesLines, WithoutConflicts, ServerLines;
    var sections := init + [last];
    assert sections[..|sections| - 1] == init && sections[|sections| - 1] == last;
  }

  /** What a rewrite produces: well-formed and tidy, with one section of each kind, the server's as wanted. */
  ghost predicate Produced(sections: seq<Section>, url: string) {
    && Sectioned(sections) && AllTidy(sections)
    && Once(sections, FEATURES) && Once(sections, SERVER)
    && RestoreAll(sections, url) == sections
  }

  lemma ServerLinesGood(url: string)
    requires '\n' !in url
    ensures forall line :: line in ServerLines(url) ==> GoodLine(line)
  {
    hide GoodLine;
    UrlLineGood(url);
    EnabledGood();
  }

  lemma UrlLineGood(url: string)
    requires '\n' !in url
    ensures GoodLine("url = \"" + url + "/mcp\"")
  {
    var line := "url = \"" + url + "/mcp\"";
    assert line[0] == 'u' && !IsWhitespace(line[0]) && line[|line| - 1] == '"';
    NotAHeader(line);
    hide ParseTableHeader, IsWhitespace;
  }

  lemma EnabledGood()
    ensures GoodLine("enabled = true")
  {
    hide ParseTableHeader;
    EnabledSpelled();
    NotAHeader("enabled = true");
  }

  lemma EnabledSpelled()
    ensures Clean("enabled = true")
    ensures var line := "enabled = true"; !IsWhitespace(line[0]) && line[0] != '[' && !IsWhitespace(line[|line| - 1])
  {
    var line := "enabled = true";
    assert line[0] == 'e' && line[|line| - 1] == 'e';
  }

  /** Adding one section at the end keeps what was produced, when its kind is not there yet. */
  lemma ProducedSnoc(sections: seq<Section>, s: Section, url: string)
    requires Produced(sections, url) && s.header.Some? && PlainHeader(s.header.value)
    requires Tidy(s) && Restored(s, url) == s && (forall line :: line in s.lines ==> GoodLine(line))
    requires s.header == Some(FEATURES) ==> !Seen(sections, FEATURES)
    requires s.header == Some(SERVER) ==> !Seen(sections, SERVER)
    ensures Produced(sections + [s], url)
  {
    hide Tidy, PlainHeader, GoodLine;
    assert RestoreAll(sections + [s], url) == RestoreAll(sections, url) + [Restored(s, url)];
  }

  lemma SeenSnoc(sections: seq<Section>, s: Section, header: string)
    ensures Seen(sections + [s], header) <==> Seen(sections, header) || s.header == Some(header)
  {
    var more := sections + [s];
    if Seen(sections, header) {
      var k :| 0 <= k < |sections| && sections[k].header == Some(header);
      assert more[k] == sections[k];
    }
    assert more[|sections|] == s;
  }

  lemma OwnHeadersGood()
    ensures GoodHeader(FEATURES) && GoodHeader(SERVER) && PlainHeader(FEATURES) && PlainHeader(SERVER)
  {
    PlainIsTrimmed(FEATURES);
    PlainIsTrimmed(SERVER);
    hide Trim;
  }

  lemma RewrittenGood(s: Section, url: string)
    requires '\n' !in url && (forall line :: line in s.lines ==> GoodLine(line))
    ensures var r := Rewritten(s, url);
            Tidy(r) && Restored(r, url) == r && r.header == s.header
                && forall line :: line in r.lines ==> GoodLine(line)
  {
    WantedLineAssigns();
    hide GoodLine, FlagSet, UpsertFeaturesLines, WithoutConflicts, Conflicts, ServerLines;
    FeaturesSet(s.lines);
    ServerLinesGood(url);
  }

  lemma {:induction false} RewriteProduces(sections: seq<Section>, url: string)
    requires '\n' !in url && Sectioned(sections)
    ensures Produced(Rewrite(sections, url), url)
    ensures Seen(Rewrite(sections, url), FEATURES) <==> Seen(sections, FEATURES)
    ensures Seen(Rewrite(sections, url), SERVER) <==> Seen(sections, SERVER)
  {
    assert sections != [];
    hide Sectioned, GoodLine, PlainHeader, Tidy, Restored, Rewritten, Rewrite, Seen, Produced, Skipped;
    var init, last := sections[..|sections| - 1], sections[|sections| - 1];
    SectionedParts(sections);
    assert sections == init + [last];
    if init == [] {
      assert sections == [last];
      RewriteAlone(last, url);
    } else {
      RewriteProduces(init, url);
      RewriteOneMore(init, last, url);
    }
  }

  lemma RewriteAlone(s: Section, url: string)
    requires '\n' !in url && s.header.None? && forall line :: line in s.lines ==> GoodLine(line)
    ensures Produced(Rewrite([s], url), url)
    ensures forall header :: !Seen(Rewrite([s], url), header) && !Seen([s], header)
  {
    hide GoodLine, PlainHeader, Tidy, Restored, Rewritten, Rewrite, Seen, Produced;
    NothingRewritten(url);
    RewriteStep([], s, url);
    NoneSkipped(s);
    assert [] + [s] == [s] && [] + [Rewritten(s, url)] == [Rewritten(s, url)];
    RewrittenGood(s, url);
    ProducedPrelude(Rewritten(s, url), url);
    forall header ensures !Seen(Rewrite([s], url), header) && !Seen([s], header) {
      SeenSnoc([], s, header);
      SeenSnoc([], Rewritten(s, url), header);
    }
  }

  lemma NoneSkipped(s: Section)
    ensures !Skipped([], s)
  {
  }

  lemma RewriteOneMore(init: seq<Section>, last: Section, url: string)
    requires '\n' !in url && Produced(Rewrite(init, url), url)
    requires last.header.Some? && PlainHeader(last.header.value) && forall line :: line in last.lines ==> GoodLine(line)
    requires Seen(Rewrite(init, url), FEATURES) <==> Seen(init, FEATURES)
    requires Seen(Rewrite(init, url), SERVER) <==> Seen(init, SERVER)
    ensures var r := Rewrite(init + [last], url);
            && Produced(r, url)
            && (Seen(r, FEATURES) <==> Seen(init + [last], FEATURES))
            && (Seen(r, SERVER) <==> Seen(init + [last], SERVER))
  {
    hide GoodLine, PlainHeader, Tidy, Restored, Rewritten, Rewrite, Seen, Produced;
    var r := Rewritten(last, url);
    RewrittenGood(last, url);
    RewriteStep(init, last, url);
    SeenSnoc(init, last, FEATURES);
    SeenSnoc(init, last, SERVER);
    SeenSnoc(Rewrite(init, url), r, FEATURES);
    SeenSnoc(Rewrite(init, url), r, SERVER);
    if Skipped(init, last) {
      assert Rewrite(init, url) + [] == Rewrite(init, url);
    } else {
      ProducedSnoc(Rewrite(init, url), r, url);
    }
  }

  lemma NothingRewritten(url: string)
    ensures Rewrite([], url) == [] && forall header :: !Seen([], header)
  {
  }

  lemma ProducedPrelude(s: Section, url: string)
    requires s.header == None && Tidy(s) && forall line :: line in s.lines ==> GoodLine(line)
    ensures Produced([s], url)
  {
    hide GoodLine, PlainHeader, Tidy;
  }

  lemma OwnSections(url: string)
    ensures Rewritten(Section(Some(FEATURES), []), url) == Section(Some(FEATURES), UpsertFeaturesLines([]))
    ensures Rewritten(Section(Some(SERVER), []), url) == Section(Some(SERVER), ServerLines(url))
    ensures Some(FEATURES) != Some(SERVER)
  {
  }

  /** Whatever the text was, the rewritten sections are as produced, with both kinds present. */
  lemma UpsertProduces(sections: seq<Section>, url: string)
    requires '\n' !in url && Sectioned(sections)
    ensures var r := UpsertSections(sections, url);
            Produced(r, url) && Seen(r, FEATURES) && Seen(r, SERVER)
  {
    hide Sectioned, Produced, Seen, Rewrite, Rewritten, UpsertFeaturesLines, ServerLines;
    RewriteProduces(sections, url);
    OwnSections(url);
    var r := Rewrite(sections, url);
    if !Seen(sections, FEATURES) {
      AddsOwn(r, FEATURES, url);
      r := r + [Rewritten(Section(Some(FEATURES), []), url)];
    }
    if !Seen(sections, SERVER) {
      AddsOwn(r, SERVER, url);
      r := r + [Rewritten(Section(Some(SERVER), []), url)];
    }
    assert r == UpsertSections(sections, url);
  }

  /** A section of one's own is added when there is none of its kind. */
  lemma AddsOwn(sections: seq<Section>, header: string, url: string)
    requires '\n' !in url && Produced(sections, url) && (header == FEATURES || header == SERVER)
              && !Seen(sections, header)
    ensures var r := sections + [Rewritten(Section(Some(header), []), url)];
            Produced(r, url) && forall h :: Seen(r, h) <==> Seen(sections, h) || h == header
  {
    hide Sectioned, GoodLine, GoodHeader, Tidy, Produced, Seen, Rewritten, Restored;
    var s := Section(Some(header), []);
    OwnHeadersGood();
    RewrittenGood(s, url);
    ProducedSnoc(sections, Rewritten(s, url), url);
    forall h ensures Seen(sections + [Rewritten(s, url)], h) <==> Seen(sections, h) || h == header {
      SeenSnoc(sections, Rewritten(s, url), h);
    }
  }

  // --- The sections of the file as written ---

  function Stripped(s: Section): Section { s.(lines := DropTrailingBlank(s.lines)) }

  /** Printing pads every section but the last, and normalizing strips the last. */
  function Written(sections: seq<Section>): (r: seq<Section>)
    requires sections != []
    ensures |r| == |sections| && (forall k :: 0 <= k < |r| - 1 ==> r[k] == Padded(sections[k]))
    ensures r[|r| - 1] == Stripped(sections[|r| - 1])
  {
    PadAll(sections[..|sections| - 1]) + [Stripped(sections[|sections| - 1])]
  }

  lemma {:induction false} StripTail(front: seq<string>, tail: seq<string>)
    requires front != [] && front[|front| - 1] != ""
    ensures DropTrailingBlank(front + tail) == front + DropTrailingBlank(tail)
  {
    if tail == [] {
      assert front + tail == front;
    } else {
      assert (front + tail)[..|front + tail| - 1] == front + tail[..|tail| - 1];
      if tail[|tail| - 1] == "" {
        StripTail(front, tail[..|tail| - 1]);
      }
    }
  }

  lemma WrittenIsStripped(sections: seq<Section>)
    requires |sections| > 1 && sections[|sections| - 1].header.Some?
    ensures DropTrailingBlank(Flatten(PadInner(sections))) == Flatten(Written(sections))
  {
    var init, last := sections[..|sections| - 1], sections[|sections| - 1];
    var padded := PadAll(init);
    assert PadInner(sections) == padded + [last] && (padded + [last])[..|padded|] == padded;
    assert Written(sections) == padded + [Stripped(last)] && (padded + [Stripped(last)])[..|padded|] == padded;
    var front := Flatten(padded) + [HeaderLine(last.header.value)];
    assert Flatten(PadInner(sections)) == front + last.lines;
    assert Flatten(Written(sections)) == front + DropTrailingBlank(last.lines);
    StripTail(front, last.lines);
  }

  lemma WrittenSectioned(sections: seq<Section>)
    requires Sectioned(sections) && |sections| > 1
    ensures Sectioned(Written(sections)) && (HeadersReadBack(sections) ==> HeadersReadBack(Written(sections)))
  {
    BlankLine();
    hide GoodLine, PlainHeader, DropTrailingBlank, NeedsBlank;
    var w := Written(sections);
    forall k, line | 0 <= k < |w| && line in w[k].lines ensures GoodLine(line) {
      if k == |w| - 1 {
        assert line in sections[k].lines;
      } else {
        assert line in sections[k].lines || line == "";
      }
    }
  }

  lemma {:induction false} FlattenOnLines(sections: seq<Section>)
    requires forall k :: 0 <= k < |sections| && sections[k].header.Some? ==> PlainHeader(sections[k].header.value)
    requires forall k, line :: 0 <= k < |sections| && line in sections[k].lines ==> GoodLine(line)
    ensures forall line :: line in Flatten(sections) ==> '\n' !in line
  {
    if sections != [] {
      var last := sections[|sections| - 1];
      hide ParseTableHeader;
      FlattenOnLines(sections[..|sections| - 1]);
      assert forall line :: line in last.lines ==> GoodLine(line);
    }
  }

  /** The file as written, in terms of the rewritten sections. */
  lemma FileWritten(sections: seq<Section>)
    requires Sectioned(sections) && |sections| > 1
    ensures NormalizeTrailingNewline(Render(sections).text) == Unlines(Flatten(Written(sections)))
    ensures Sectioned(Written(sections)) && forall line :: line in Flatten(Written(sections)) ==> '\n' !in line
  {
    hide Render, NeedsBlank, DropTrailingBlank, NormalizeTrailingNewline, Unlines, Sectioned, Flatten;
    SectionedParts(sections);
    RenderPrintsPadded(sections);
    PaddedOnLines(sections);
    NormalizeDropsBlank(Flatten(PadInner(sections)));
    assert sections[..|sections| - 1] != [];
    WrittenIsStripped(sections);
    WrittenSectioned(sections);
    WrittenOnLines(Written(sections));
  }

  lemma WrittenOnLines(sections: seq<Section>)
    requires Sectioned(sections)
    ensures forall line :: line in Flatten(sections) ==> '\n' !in line
  {
    hide PlainHeader, GoodLine;
    FlattenOnLines(sections);
  }

  lemma PaddedOnLines(sections: seq<Section>)
    requires Sectioned(sections)
    ensures forall line :: line in Flatten(PadInner(sections)) ==> '\n' !in line
  {
    BlankLine();
    hide PlainHeader, GoodLine, NeedsBlank;
    var p := PadInner(sections);
    forall k, line | 0 <= k < |p| && line in p[k].lines ensures GoodLine(line) {
      assert line in sections[k].lines || line == "";
    }
    FlattenOnLines(p);
  }

  lemma PaddedTidy(s: Section)
    requires Tidy(s)
    ensures Tidy(Padded(s)) && Tidy(Stripped(s))
  {
    BlankLine();
    hide FlagSet, Conflicts, NeedsBlank;
    FlagSurvivesBlank(s.lines);
    FlagSurvivesStrip(s.lines);
    assert forall line :: line in s.lines + [""] ==> line in s.lines || line == "";
  }

  lemma WrittenTidy(sections: seq<Section>, url: string)
    requires Produced(sections, url) && |sections| > 1
    ensures var w := Written(sections);
            && AllTidy(w) && Once(w, FEATURES) && Once(w, SERVER)
            && (forall header :: Seen(sections, header) ==> Seen(w, header))
  {
    hide Sectioned, FlagSet, Conflicts, Tidy, NeedsBlank, DropTrailingBlank, RestoreAll, FEATURES, SERVER;
    var w := Written(sections);
    forall k | 0 <= k < |w| ensures Tidy(w[k]) && w[k].header == sections[k].header {
      assert Tidy(sections[k]);
      PaddedTidy(sections[k]);
    }
    forall header | Seen(sections, header) ensures Seen(w, header) {
      var k :| 0 <= k < |sections| && sections[k].header == Some(header);
      assert w[k].header == Some(header);
    }
  }

  // --- The file ---

  lemma {:induction false} RewriteNotEmpty(sections: seq<Section>, url: string)
    requires sections != []
    ensures Rewrite(sections, url) != []
  {
    var init, last := sections[..|sections| - 1], sections[|sections| - 1];
    assert sections == init + [last];
    RewriteStep(init, last, url);
    if init == [] {
      NothingRewritten(url);
    } else {
      RewriteNotEmpty(init, url);
    }
  }

  /** The sections of the file that `Configure` writes. */
  function Wanted(contents: string, url: string): (r: seq<Section>)
    ensures r != []
  {
    RewriteNotEmpty(Split(Lines(contents)), url);
    UpsertSections(Split(Lines(contents)), url)
  }

  /** For every text: what the file consists of, section by section. */
  lemma ConfigureWrites(contents: string, url: string)
    requires '\n' !in url
    ensures var r := Wanted(contents, url);
            && Produced(r, url) && Seen(r, FEATURES) && Seen(r, SERVER) && |r| > 1
            && Configure(contents, url) == Unlines(Flatten(Written(r)))
            && Sectioned(Written(r)) && (forall line :: line in Flatten(Written(r)) ==> '\n' !in line)
  {
    hide Split, Lines, Produced, Seen, Sectioned, UpsertSections, Render, Flatten;
    LinesHaveNoNewline(contents);
    SplitIsSectioned(Lines(contents));
    UpsertProduces(Split(Lines(contents)), url);
    ProducedParts(Wanted(contents, url), url);
    FileWritten(Wanted(contents, url));
  }

  lemma ProducedParts(sections: seq<Section>, url: string)
    requires Produced(sections, url) && Seen(sections, FEATURES)
    ensures Sectioned(sections) && |sections| > 1
  {
    hide AllTidy, Once, GoodLine, PlainHeader;
    var k :| 0 <= k < |sections| && sections[k].header == Some(FEATURES);
    assert sections[0].header.None?;
  }

  lemma UpsertSeen(sections: seq<Section>, url: string)
    requires Seen(sections, FEATURES) && Seen(sections, SERVER)
    ensures UpsertSections(sections, url) == Rewrite(sections, url)
  {
    hide Rewrite;
    assert Rewrite(sections, url) + [] + [] == Rewrite(sections, url);
  }
}
