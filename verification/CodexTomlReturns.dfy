/**
 * Carriage returns: reading a file takes one off the end of each line, so a file that stays the same has none there.
 */
module CodexTomlReturns {
  import opened Options
  import opened Texts
  import opened CodexToml
  import opened CodexTomlWritten
  import opened CodexTomlMerge

  /** How many carriage returns end the line. */
  function Returns(line: string): nat {
    if line != "" && line[|line| - 1] == '\r' then 1 + Returns(line[..|line| - 1]) else 0
  }

  function MostReturns(lines: seq<string>): (r: nat)
    ensures forall line :: line in lines ==> Returns(line) <= r
  {
    if lines == [] then 0
    else
      var rest := MostReturns(lines[1..]);
      assert lines == [lines[0]] + lines[1..];
      if Returns(lines[0]) > rest then Returns(lines[0]) else rest
  }

  /** The lines of the sections are among those given, or end in no carriage return. */
  ghost predicate From(sections: seq<Section>, lines: seq<string>) {
    forall k, line :: 0 <= k < |sections| && line in sections[k].lines ==> line in lines || Returns(line) == 0
  }

  lemma FromSnoc(init: seq<Section>, last: Section, lines: seq<string>)
    ensures From(init + [last], lines) <==>
            From(init, lines) && forall line :: line in last.lines ==> line in lines || Returns(line) == 0
  {
    hide Returns;
    var all := init + [last];
    assert all[|init|] == last && forall k :: 0 <= k < |init| ==> all[k] == init[k];
  }

  lemma {:induction false} SplitFrom(lines: seq<string>)
    ensures forall k, line :: 0 <= k < |Split(lines)| && line in Split(lines)[k].lines ==> line in lines
  {
    hide ParseTableHeader;
    if lines != [] {
      var init, last := lines[..|lines| - 1], lines[|lines| - 1];
      SplitFrom(init);
      assert lines == init + [last];
    }
  }

  lemma WantedLinesReturn(url: string)
    ensures Returns(HOOKS_LINE) == 0 && Returns("") == 0
    ensures forall line :: line in ServerLines(url) ==> Returns(line) == 0
  {
    var lines := ServerLines(url);
    assert lines[0][|lines[0]| - 1] == '"' && lines[1][|lines[1]| - 1] == 'e';
    assert HOOKS_LINE[|HOOKS_LINE| - 1] == 'e';
  }

  lemma RewrittenFrom(s: Section, url: string, lines: seq<string>)
    requires forall line :: line in s.lines ==> line in lines || Returns(line) == 0
    ensures forall line :: line in Rewritten(s, url).lines ==> line in lines || Returns(line) == 0
  {
    WantedLinesReturn(url);
    FeaturesSet(s.lines);
    hide Returns, ServerLines, UpsertFeaturesLines, FlagSet, Conflicts;
  }

  lemma {:induction false} RewriteFrom(sections: seq<Section>, url: string, lines: seq<string>)
    requires From(sections, lines)
    ensures From(Rewrite(sections, url), lines)
  {
    hide Returns, Rewritten, Rewrite, From;
    if sections == [] {
      NothingRewritten(url);
    } else {
      var init, last := sections[..|sections| - 1], sections[|sections| - 1];
      assert sections == init + [last];
      FromSnoc(init, last, lines);
      RewriteFrom(init, url, lines);
      RewriteStep(init, last, url);
      RewrittenFrom(last, url, lines);
      FromSnoc(Rewrite(init, url), Rewritten(last, url), lines);
      assert Rewrite(init, url) + [] == Rewrite(init, url);
    }
  }

  lemma WantedFrom(contents: string, url: string)
    ensures From(Wanted(contents, url), Lines(contents))
  {
    var lines := Lines(contents);
    SplitFrom(lines);
    assert From(Split(lines), lines) by { hide Split, Returns, Lines; }
    hide Returns, Split, Lines, Rewritten, Rewrite, From, Seen, ServerLines, UpsertFeaturesLines;
    OwnSections(url);
    RewriteFrom(Split(lines), url, lines);
    var r := Rewrite(Split(lines), url);
    if !Seen(Split(lines), FEATURES) {
      RewrittenFrom(Section(Some(FEATURES), []), url, lines);
      FromSnoc(r, Section(Some(FEATURES), UpsertFeaturesLines([])), lines);
      r := r + [Section(Some(FEATURES), UpsertFeaturesLines([]))];
    }
    if !Seen(Split(lines), SERVER) {
      RewrittenFrom(Section(Some(SERVER), []), url, lines);
      FromSnoc(r, Section(Some(SERVER), ServerLines(url)), lines);
      r := r + [Section(Some(SERVER), ServerLines(url))];
    }
    assert r == Wanted(contents, url);
  }

  lemma WrittenFrom(sections: seq<Section>, lines: seq<string>)
    requires sections != [] && From(sections, lines)
    ensures From(Written(sections), lines)
  {
    hide Returns, NeedsBlank;
    assert Returns("") == 0 by { WantedLinesReturn(""); }
    var w := Written(sections);
    forall k, line | 0 <= k < |w| && line in w[k].lines ensures line in lines || Returns(line) == 0 {
      assert line in sections[k].lines || line == "";
    }
  }

  lemma {:induction false} FlattenFrom(sections: seq<Section>, lines: seq<string>)
    requires From(sections, lines)
    ensures forall line :: line in Flatten(sections) ==> line in lines || Returns(line) == 0
  {
    if sections != [] {
      var init, last := sections[..|sections| - 1], sections[|sections| - 1];
      assert sections == init + [last];
      FromSnoc(init, last, lines);
      FlattenFrom(init, lines);
      if last.header.Some? { assert HeaderLine(last.header.value)[|last.header.value| + 1] == ']'; }
    }
  }

  /** A line that is left after every line has lost a carriage return ends in none: there is no longest row of them. */
  lemma {:induction false} NoReturns(lines: seq<string>, line: string)
    requires line in lines && forall l :: l in lines ==> l in Chomped(lines) || Returns(l) == 0
    ensures Returns(line) == 0
    decreases MostReturns(lines) - Returns(line)
  {
    if Returns(line) > 0 {
      var k :| 0 <= k < |lines| && Chomped(lines)[k] == line;
      assert lines[k] in lines && Returns(lines[k]) == Returns(line) + 1;
      NoReturns(lines, lines[k]);
    }
  }

  /** The lines of a section are lines of the file, blank ones perhaps apart. */
  lemma {:induction false} LinesInFile(sections: seq<Section>)
    ensures forall k, line :: 0 <= k < |sections| && line in sections[k].lines ==> line in Flatten(sections)
  {
    if sections != [] {
      var init, last := sections[..|sections| - 1], sections[|sections| - 1];
      LinesInFile(init);
      forall k, line | 0 <= k < |sections| && line in sections[k].lines ensures line in Flatten(sections) {
        if k < |init| { assert init[k] == sections[k]; }
      }
    }
  }

  /** Clean lines make a file of clean lines. */
  lemma CleanFile(sections: seq<Section>)
    requires |sections| > 1 && Sectioned(sections) && AllClean(sections)
    ensures forall line :: line in Flatten(Written(sections)) ==> Clean(line)
  {
    hide Returns, NeedsBlank, PlainHeader, DropTrailingBlank;
    forall k, line | 0 <= k < |sections| && line in sections[k].lines ensures Returns(line) == 0 {
      CleanReturns(line);
    }
    FileWritten(sections);
    assert From(sections, []);
    WrittenFrom(sections, []);
    FlattenFrom(Written(sections), []);
    forall line | line in Flatten(Written(sections)) ensures Clean(line) { CleanReturns(line); }
  }

  lemma CleanReturns(line: string)
    ensures Clean(line) <==> '\n' !in line && Returns(line) == 0
  {
  }

  /** A file that stays the same when written again holds clean lines only. */
  lemma StableIsClean(contents: string, url: string)
    requires '\n' !in url && Configure(Configure(contents, url), url) == Configure(contents, url)
    ensures AllClean(Wanted(contents, url))
  {
    hide Returns, Configure, Lines, Unlines, Written, Flatten, Clean, From, Sectioned, Produced, Seen;
    var r, file := Wanted(contents, url), Configure(contents, url);
    var r2 := Wanted(file, url);
    ConfigureWrites(contents, url);
    ConfigureWrites(file, url);
    var lines := Flatten(Written(r));
    UnlinesInjective(lines, Flatten(Written(r2)));
    LinesOfUnlines(lines);
    WantedFrom(file, url);
    WrittenFrom(r2, Chomped(lines));
    FlattenFrom(Written(r2), Chomped(lines));
    forall line | line in lines ensures Clean(line) {
      NoReturns(lines, line);
      CleanReturns(line);
    }
    CleanSections(r);
  }

  lemma CleanSections(sections: seq<Section>)
    requires sections != [] && forall line :: line in Flatten(Written(sections)) ==> Clean(line)
    ensures AllClean(sections)
  {
    hide Flatten, NeedsBlank, DropTrailingBlank;
    var w := Written(sections);
    LinesInFile(w);
    forall k, line | 0 <= k < |sections| && line in sections[k].lines ensures Clean(line) {
      if line != "" {
        DroppedAreBlank(sections[k].lines);
        assert line in w[k].lines;
      }
    }
  }
}
