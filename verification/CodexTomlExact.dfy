/** When rewriting Codex's `config.toml` a second time changes nothing, and a file where it does not. */
module CodexTomlExact {
  import opened Options
  import opened Texts
  import opened CodexToml
  import opened CodexTomlWritten
  import opened CodexTomlMerge
  import opened CodexTomlReturns

  // --- The fixed point ---

  lemma ProducedCalm(sections: seq<Section>, url: string)
    requires Produced(sections, url)
    ensures AllCalm(Written(sections), url)
    ensures Once(Written(sections), FEATURES) && Once(Written(sections), SERVER)
  {
    assert sections != [];
    hide Sectioned, NeedsBlank, DropTrailingBlank, FlagSet, Conflicts, ServerLines;
    var w := Written(sections);
    forall k | 0 <= k < |w| ensures Calm(w[k], url) {
      assert Tidy(sections[k]) && Restored(sections[k], url) == sections[k];
      hide Once, AllTidy;
      PaddedIsCalm(sections[k], url);
    }
    assert SameHeaders(w, sections);
    SameHeadersSame(w, sections, FEATURES);
    SameHeadersSame(w, sections, SERVER);
  }

  /** What is read of the file at the second run. */
  lemma ReadAgain(contents: string, url: string)
    requires '\n' !in url && AllClean(Wanted(contents, url))
    ensures var r := Wanted(contents, url);
            var m := Merged(Written(r));
            && Split(Lines(Configure(contents, url))) == m
            && Formed(m) && Flatten(m) == Flatten(Written(r))
            && Once(m, FEATURES) && Once(m, SERVER) && Seen(m, FEATURES) && Seen(m, SERVER)
            && (AllCalm(m, url) <==> Settles(r))
            && (forall k :: 0 <= k < |m| - 1 ==> !NeedsBlank(m[k])) && Stripped(m[|m| - 1]) == m[|m| - 1]
  {
    hide Configure, Lines, Unlines, Written, Flatten, Clean, Sectioned, Seen, Merged, Split, AllCalm, Settles, Once,
      NeedsBlank, DropTrailingBlank, AllClean, Wanted, HeadersReadBack, FlagsIn, PlainHeader;
    var r := Wanted(contents, url);
    var w := Written(r);
    ConfigureWrites(contents, url);
    ProducedCalm(r, url);
    WrittenKeepsSeen(r, url);
    hide Produced;
    CleanFile(r);
    LinesUnlines(Flatten(w));
    SplitMerges(w);
    MergedFormed(w);
    FlattenMerged(w);
    OwnHeadersGood();
    MergedOwn(w, FEATURES);
    MergedOwn(w, SERVER);
    MergedCalm(w, url);
    SettlesWritten(r);
    LastHasHeader(r);
    MergedWritten(r);
  }

  lemma LastHasHeader(sections: seq<Section>)
    requires Sectioned(sections) && |sections| > 1
    ensures sections[|sections| - 1].header.Some?
  {
    hide PlainHeader, GoodLine;
  }

  lemma WrittenKeepsSeen(sections: seq<Section>, url: string)
    requires Produced(sections, url) && |sections| > 1
    ensures Sectioned(sections)
    ensures forall header :: Seen(sections, header) ==> Seen(Written(sections), header)
  {
    WrittenTidy(sections, url);
    hide Written, Once, AllTidy, Seen;
  }

  /** For a file of clean lines, a second run changes nothing exactly when the sections taken in are welcome. */
  lemma CleanTwiceExactly(contents: string, url: string)
    requires '\n' !in url && AllClean(Wanted(contents, url))
    ensures Configure(Configure(contents, url), url) == Configure(contents, url) <==> Settles(Wanted(contents, url))
  {
    hide Configure, Lines, Unlines, Flatten, Clean, Sectioned, Seen, Merged, Split, AllCalm, Settles, Once, Produced,
      NeedsBlank, DropTrailingBlank, AllClean, Rewrite, Written;
    var r, file := Wanted(contents, url), Configure(contents, url);
    var m := Merged(Written(r));
    ConfigureWrites(contents, url);
    ReadAgain(contents, url);
    WrittenAgain(m, url);
    UpsertSeen(m, url);
    var r2 := Rewrite(m, url);
    assert Wanted(file, url) == r2;
    ConfigureWrites(file, url);
    if Configure(file, url) == file {
      UnlinesInjective(Flatten(Written(r)), Flatten(Written(r2)));
      SplitMerges(Written(r));
      SplitMerges(Written(r2));
      HeadersWritten(r2, m);
      NothingToMerge(Written(r2));
    }
  }

  lemma HeadersWritten(r: seq<Section>, m: seq<Section>)
    requires r != [] && SameHeaders(r, m) && HeadersReadBack(m)
    ensures HeadersReadBack(Written(r))
  {
    hide NeedsBlank, DropTrailingBlank;
  }

  /**
   * Configuring Codex again changes nothing exactly when no line of the file ends with a carriage return of its own,
   * and every section whose printed header is none is welcome in the section before it.
   */
  lemma ConfigureTwiceExactly(contents: string, url: string)
    requires '\n' !in url
    ensures Configure(Configure(contents, url), url) == Configure(contents, url) <==>
            AllClean(Wanted(contents, url)) && Settles(Wanted(contents, url))
  {
    hide Configure, AllClean, Settles, Wanted;
    if Configure(Configure(contents, url), url) == Configure(contents, url) { StableIsClean(contents, url); }
    if AllClean(Wanted(contents, url)) { CleanTwiceExactly(contents, url); }
  }

  /** In particular, for clean lines without a bracketed header. */
  lemma ConfigureTwice(contents: string, url: string)
    requires '\n' !in url && AllClean(Wanted(contents, url)) && HeadersReadBack(Wanted(contents, url))
    ensures Configure(Configure(contents, url), url) == Configure(contents, url)
  {
    assert Settles(Wanted(contents, url)) by { hide Wanted, Welcome, Host; }
    ConfigureTwiceExactly(contents, url);
  }

  // --- A file that changes again ---

  /** A string over four lines, which is valid TOML. */
  const UNSETTLED_LINES := ["s = \"\"\"", "[ [x]", "features = 1", "\"\"\""]

  /** The header that the rewriter sees in it. */
  lemma UnsettledHeader()
    ensures ParseTableHeader("[ [x]") == Some("[x")
  {
    var line := "[ [x]";
    PlainIsTrimmed(line);
    assert line[..4] == "[ [x";
    IndexOfIs(line, ']', 4);
    assert line[5..] == "" && line[1..4] == " [x";
    assert TrimStart(" [x") == "[x" by { assert " [x"[1..] == "[x"; }
    PlainIsTrimmed("[x");
  }

  /** A line that starts with a letter or a quote and ends in one or a digit. */
  predicate Plain(line: string) {
    line != "" && !IsWhitespace(line[0]) && !IsWhitespace(line[|line| - 1]) && line[0] != '['
  }

  lemma UnsettledPlain()
    ensures Plain("s = \"\"\"") && Plain("features = 1") && Plain("\"\"\"")
  {
    assert "features = 1"[11] == '1';
  }

  lemma FeaturesConflict()
    ensures Conflicts("features = 1")
  {
    UnsettledPlain();
    PlainIsTrimmed("features = 1");
    FeaturesSpelled();
    hide TrimStart, Trim, IsAssignment;
    AssignsWithSpace("features", "= 1");
  }

  lemma FeaturesSpelled()
    ensures "features = 1" == "features" + (" " + "= 1")
  {
    assert " " + "= 1" == " = 1";
  }

  lemma UnsettledClean()
    ensures forall line :: line in UNSETTLED_LINES ==> Clean(line)
  {
  }

  /** A header between lines that are none splits them into two sections. */
  lemma SplitAround(before: seq<string>, line: string, after: seq<string>)
    requires ParseTableHeader(line).Some?
    requires forall l :: l in before || l in after ==> ParseTableHeader(l).None?
    ensures Split(before + [line] + after) == [Section(None, before), Section(ParseTableHeader(line), after)]
  {
    hide ParseTableHeader, Split, AddLines;
    SplitOfNothing();
    SplitAppend([], before);
    assert [] + before == before;
    SplitAtHeader(before, line);
    SplitAppend(before + [line], after);
    ExtendLast([Section(None, before)], Section(ParseTableHeader(line), after));
  }

  /** Four lines of which the second is a header are split into two sections. */
  lemma SplitOfFour(a: string, b: string, c: string, d: string, header: string)
    requires Plain(a) && Plain(c) && Plain(d) && ParseTableHeader(b) == Some(header)
    ensures Split([a, b, c, d]) == [Section(None, [a]), Section(Some(header), [c, d])]
  {
    hide ParseTableHeader, Split, Plain;
    PlainIsNoHeader(a);
    PlainIsNoHeader(c);
    PlainIsNoHeader(d);
    SplitAround([a], b, [c, d]);
    assert [a] + [b] + [c, d] == [a, b, c, d];
  }

  lemma PlainIsNoHeader(line: string)
    requires Plain(line)
    ensures ParseTableHeader(line).None?
  {
    NotAHeader(line);
  }

  lemma UnsettledSections()
    ensures Split(UNSETTLED_LINES)
              == [Section(None, ["s = \"\"\""]), Section(Some("[x"), ["features = 1", "\"\"\""])]
  {
    hide Split, ParseTableHeader, Plain;
    UnsettledHeader();
    UnsettledPlain();
    SplitOfFour("s = \"\"\"", "[ [x]", "features = 1", "\"\"\"", "[x");
  }

  lemma SplitOfNothing()
    ensures Split([]) == [Section(None, [])] && forall lines :: AddLines(Split([]), lines) == [Section(None, lines)]
  {
    forall lines: seq<string> ensures AddLines(Split([]), lines) == [Section(None, lines)] {
      assert [] + lines == lines;
    }
  }

  /** The bracketed section stays, right after the prelude. */
  lemma UnsettledWanted(sections: seq<Section>, url: string)
    requires |sections| == 2 && sections[0].header == None && sections[1].header == Some("[x")
    ensures var r := UpsertSections(sections, url);
            |r| >= 2 && r[0].header == None && r[1] == sections[1]
  {
    hide Seen, UpsertFeaturesLines, WithoutConflicts, ServerLines, Rewrite;
    assert "[x"[0] != FEATURES[0] && "[x"[0] != SERVER[0];
    assert sections == [sections[0]] + [sections[1]] && [] + [sections[0]] == [sections[0]];
    NothingRewritten(url);
    RewriteStep([], sections[0], url);
    RewriteStep([sections[0]], sections[1], url);
    assert Rewrite(sections, url) == [Rewritten(sections[0], url)] + [sections[1]];
  }

  /** Whatever the server's URL, configuring Codex again changes this file once more. */
  lemma UnsettledChangesAgain(url: string)
    requires '\n' !in url
    ensures var contents := Unlines(UNSETTLED_LINES);
            Configure(Configure(contents, url), url) != Configure(contents, url)
  {
    var contents, lines := Unlines(UNSETTLED_LINES), UNSETTLED_LINES;
    UnsettledClean();
    FeaturesConflict();
    UnsettledSections();
    assert ["features = 1", "\"\"\""][0] == "features = 1";
    hide Split, Lines, Unlines, Configure, Conflicts, ParseTableHeader, UpsertSections, UNSETTLED_LINES;
    LinesUnlines(lines);
    UnsettledWanted(Split(lines), url);
    ConfigureTwiceExactly(contents, url);
    NotSettled(Wanted(contents, url));
  }

  lemma NotSettled(sections: seq<Section>)
    requires |sections| >= 2 && sections[0].header == None
    requires sections[1].header == Some("[x") && "features = 1" in sections[1].lines
    requires Conflicts("features = 1")
    ensures !Settles(sections)
  {
    hide Conflicts, IsAssignment;
    assert Bracketed(sections[1]) && Host(sections[..1]) == sections[0];
  }
}
