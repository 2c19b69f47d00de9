/** The loops of the `config.toml` rewriter, each against its function in `CodexToml`. */
module CodexConfigurator {
  import opened Options
  import opened Texts
  import opened CodexToml
  import CodexTomlWritten
  import CodexTomlMerge
  import CodexTomlExact
  import opened CodexTomlShapes
  import CodexTomlRest

  method SplitSections(contents: string) returns (sections: seq<Section>)
    ensures sections == Split(Lines(contents))
    ensures exists heads :: FallsInto(Lines(contents), sections, heads)
  {
    hide ParseTableHeader, Lines, FallsInto;
    var lines := Lines(contents);
    ghost var _ := SplitExactly(lines);
    sections := [Section(None, [])];
    for k := 0 to |lines|
      invariant sections == Split(lines[..k])
    {
      assert lines[..k + 1][..k] == lines[..k];
      var header := ParseTableHeader(lines[k]);
      if header.Some? {
        sections := sections + [Section(header, [])];
      } else {
        var last := sections[|sections| - 1];
        sections := sections[|sections| - 1 := last.(lines := last.lines + [lines[k]])];
        assert sections == AddLines(Split(lines[..k]), [lines[k]]);
      }
    }
    assert lines[..|lines|] == lines;
  }

  method UpsertFeatures(lines: seq<string>) returns (rendered: seq<string>)
    ensures rendered == UpsertFeaturesLines(lines)
    ensures CodexTomlWritten.FlagSet(rendered) && CodexTomlRest.SetsFlag(lines, rendered)
  {
    CodexTomlRest.FeaturesExactly(lines);
    hide IsAssignment, CodexTomlWritten.FlagSet, CodexTomlRest.SetsFlag;
    rendered := [];
    var isSet := false;
    for k := 0 to |lines|
      invariant rendered == SetFlag(lines[..k]) && isSet == HasAssignment(lines[..k])
    {
      assert lines[..k + 1][..k] == lines[..k] && lines[..k + 1] == lines[..k] + [lines[k]];
      CodexTomlWritten.AssignmentSnoc(lines[..k], lines[k]);
      if IsAssignment(lines[k], HOOKS_KEY) {
        if !isSet {
          rendered := rendered + [HOOKS_LINE];
          isSet := true;
        }
      } else {
        rendered := rendered + [lines[k]];
      }
    }
    assert lines[..|lines|] == lines;
    if !isSet {
      rendered := rendered + [HOOKS_LINE];
    }
  }

  method RetainUnconflicting(lines: seq<string>) returns (kept: seq<string>)
    ensures kept == WithoutConflicts(lines)
    ensures Without(lines, {"features", "mcp_servers"}, kept)
  {
    WithoutConflictsExactly(lines);
    hide Without;
    kept := [];
    for k := 0 to |lines|
      invariant kept == WithoutConflicts(lines[..k])
    {
      assert lines[..k + 1][..k] == lines[..k];
      if !Conflicts(lines[k]) {
        kept := kept + [lines[k]];
      }
    }
    assert lines[..|lines|] == lines;
  }

  /** A blank line between what was written and what comes next, unless there is one. */
  method PushSeparator(rendered: string, wroteAnything: bool) returns (separated: string)
    ensures separated == rendered + Separator(Rendered(rendered, wroteAnything))
  {
    separated := rendered;
    if wroteAnything && !EndsWith(rendered, "\n\n") {
      if !EndsWith(rendered, "\n") {
        separated := separated + "\n";
      }
      separated := separated + "\n";
    }
  }

  method PushLines(rendered: string, lines: seq<string>) returns (written: string)
    ensures written == rendered + Unlines(lines)
  {
    written := rendered;
    assert rendered + Unlines([]) == rendered;
    for k := 0 to |lines|
      invariant written == rendered + Unlines(lines[..k])
    {
      assert lines[..k + 1][..k] == lines[..k];
      written := written + lines[k];
      written := written + "\n";
      assert Unlines(lines[..k + 1]) == Unlines(lines[..k]) + lines[k] + "\n";
    }
    assert lines[..|lines|] == lines;
  }

  method RenderSections(sections: seq<Section>) returns (rendered: string)
    ensures rendered == Render(sections).text
  {
    rendered := "";
    var wroteAnything := false;
    for k := 0 to |sections|
      invariant Rendered(rendered, wroteAnything) == Render(sections[..k])
    {
      assert sections[..k + 1][..k] == sections[..k];
      hide Separator, Unlines, Print;
      var s := sections[k];
      if s.header.Some? || s.lines != [] {
        rendered := PushSeparator(rendered, wroteAnything);
        rendered := PushLines(rendered, Print(s));
        wroteAnything := true;
      }
    }
    assert sections[..|sections|] == sections;
  }

  method UpsertAll(sections: seq<Section>, url: string) returns (rendered: seq<Section>)
    ensures rendered == UpsertSections(sections, url)
  {
    rendered := [];
    var featuresSeen, serverSeen := false, false;
    for k := 0 to |sections|
      invariant rendered == Rewrite(sections[..k], url)
      invariant featuresSeen == Seen(sections[..k], FEATURES) && serverSeen == Seen(sections[..k], SERVER)
    {
      var s := sections[k];
      assert sections[..k + 1] == sections[..k] + [s];
      CodexTomlWritten.RewriteStep(sections[..k], s, url);
      CodexTomlWritten.SeenSnoc(sections[..k], s, FEATURES);
      CodexTomlWritten.SeenSnoc(sections[..k], s, SERVER);
      hide Rewrite, Seen, UpsertFeaturesLines, WithoutConflicts, ServerLines, CodexTomlWritten.FlagSet;
      match s.header
      case None =>
        var kept := RetainUnconflicting(s.lines);
        rendered := rendered + [Section(None, kept)];
      case Some(header) =>
        if header == FEATURES {
          if featuresSeen { continue; }
          featuresSeen := true;
          var lines := UpsertFeatures(s.lines);
          rendered := rendered + [s.(lines := lines)];
        } else if header == SERVER {
          if serverSeen { continue; }
          serverSeen := true;
          rendered := rendered + [s.(lines := ServerLines(url))];
        } else {
          rendered := rendered + [s];
        }
    }
    assert sections[..|sections|] == sections;
    if !featuresSeen {
      var lines := UpsertFeatures([]);
      rendered := rendered + [Section(Some(FEATURES), lines)];
    }
    if !serverSeen {
      rendered := rendered + [Section(Some(SERVER), ServerLines(url))];
    }
  }

  /** The text that goes into the file. Rewriting it changes nothing exactly when it is clean and settles. */
  method UpsertCodexConfigToml(contents: string, url: string) returns (file: string)
    ensures file == Configure(contents, url)
    ensures '\n' !in url ==> CodexTomlRest.Configured(contents, url, file)
    ensures var wanted := CodexTomlWritten.Wanted(contents, url);
            '\n' !in url ==>
              (Configure(file, url) == file <==> CodexTomlMerge.AllClean(wanted) && CodexTomlMerge.Settles(wanted))
  {
    if '\n' !in url {
      CodexTomlExact.ConfigureTwiceExactly(contents, url);
      CodexTomlRest.ConfigureKeepsTheRest(contents, url);
    }
    hide CodexTomlRest.Configured;
    var sections := SplitSections(contents);
    var edited := UpsertAll(sections, url);
    var rendered := RenderSections(edited);
    file := NormalizeTrailingNewline(rendered);
  }
}
