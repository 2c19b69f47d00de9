/**
 * What becomes of the sections when the written file is read again. A line such as `[ [x]`, as a nested array or a
 * string over several lines may hold it, is taken for the header `[x`. It is printed as `[[x]`, which is no header any
 * more: at the second reading the section has become part of the one before it.
 */
module CodexTomlMerge {
  import opened Options
  import opened Texts
  import opened CodexToml
  import opened CodexTomlWritten

  // --- Sections that are not read back ---

  /** The section's header, as printed, is no header. */
  predicate Bracketed(s: Section) { s.header.Some? && "[" <= s.header.value }

  /** The section that takes in the last one when the file is read again. */
  function Host(sections: seq<Section>): Section
    requires sections != []
  {
    var n := |sections| - 1;
    if n == 0 || !Bracketed(sections[n]) then sections[n] else Host(sections[..n])
  }

  /** The section can become part of one with this header without the rewrite minding. */
  predicate Welcome(header: Option<string>, s: Section) {
    && header != Some(SERVER)
    && (header == None ==> forall line :: line in s.lines ==> !Conflicts(line))
    && (header == Some(FEATURES) ==> forall line :: line in s.lines ==> !IsAssignment(line, HOOKS_KEY))
  }

  /** Every section that is not read back is welcome where it ends up. */
  ghost predicate Settles(sections: seq<Section>) {
    forall k :: 0 < k < |sections| && Bracketed(sections[k]) ==> Welcome(Host(sections[..k]).header, sections[k])
  }

  /** No line ends with a carriage return, which reading would take off. */
  ghost predicate AllClean(sections: seq<Section>) {
    forall k, line :: 0 <= k < |sections| && line in sections[k].lines ==> Clean(line)
  }

  /** The sections as they are read again. */
  function Merged(sections: seq<Section>): (r: seq<Section>)
    requires sections != []
    ensures r != []
  {
    var n := |sections| - 1;
    if n == 0 then sections
    else if Bracketed(sections[n]) then AddLines(Merged(sections[..n]), Print(sections[n]))
    else Merged(sections[..n]) + [sections[n]]
  }

  lemma MergedSnoc(init: seq<Section>, last: Section)
    requires init != []
    ensures Merged(init + [last]) ==
            if Bracketed(last) then AddLines(Merged(init), Print(last)) else Merged(init) + [last]
  {
    assert (init + [last])[..|init|] == init;
  }

  lemma HostSnoc(init: seq<Section>, last: Section)
    requires init != []
    ensures Host(init + [last]) == if Bracketed(last) then Host(init) else last
  {
    assert (init + [last])[..|init|] == init;
  }

  /** A bracketed header prints as a line that is none. */
  lemma BracketedPrints(s: Section)
    requires Bracketed(s) && PlainHeader(s.header.value) && forall line :: line in s.lines ==> GoodLine(line)
    ensures forall line :: line in Print(s) ==> GoodLine(line)
  {
    var header := s.header.value;
    var line := HeaderLine(header);
    assert line[0] == '[' && line[1] == '[' && line[|line| - 1] == ']';
    PlainIsTrimmed(line);
    assert "[[" <= line;
    assert GoodLine(line) by { hide Trim; }
    hide GoodLine;
  }

  lemma {:induction false} SplitMerges(sections: seq<Section>)
    requires Sectioned(sections)
    ensures Split(Flatten(sections)) == Merged(sections)
  {
    SectionedParts(sections);
    hide Sectioned, PlainHeader, GoodLine, Split, Print;
    var init, last := sections[..|sections| - 1], sections[|sections| - 1];
    assert sections == init + [last];
    if init == [] {
      SplitPrelude(last.lines);
      PreludePrints(last);
    } else {
      SplitMerges(init);
      MergedSnoc(init, last);
      if Bracketed(last) {
        BracketedPrints(last);
        OnlyLines(Print(last));
        SplitAppend(Flatten(init), Print(last));
      } else {
        SplitSection(Flatten(init), last);
      }
    }
  }

  lemma PreludePrints(s: Section)
    requires s.header.None?
    ensures Flatten([s]) == s.lines && s == Section(None, s.lines)
  {
    assert [s][..0] == [] && Flatten([s][..0]) == [];
    assert [] + ([] + s.lines) == s.lines;
  }

  lemma OnlyLines(lines: seq<string>)
    requires forall line :: line in lines ==> GoodLine(line)
    ensures forall line :: line in lines ==> ParseTableHeader(line).None?
  {
  }

  lemma {:induction false} MergedFormed(sections: seq<Section>)
    requires Sectioned(sections)
    ensures Formed(Merged(sections))
  {
    SectionedParts(sections);
    var init, last := sections[..|sections| - 1], sections[|sections| - 1];
    assert sections == init + [last];
    if init == [] {
      assert sections == [last];
    } else {
      hide Sectioned, PlainHeader, GoodLine;
      MergedFormed(init);
      MergedSnoc(init, last);
      var m := Merged(init);
      if Bracketed(last) {
        BracketedPrints(last);
        SectionedLines(m, Print(last));
        HeadersStay(m, Print(last));
      } else {
        SectionedHeader(m, last.header.value);
        SectionedLines(m + [Section(last.header, [])], last.lines);
        ExtendLast(m, last);
        HeadersGrow(m, last);
      }
    }
  }

  lemma HeadersStay(sections: seq<Section>, lines: seq<string>)
    requires sections != [] && HeadersReadBack(sections)
    ensures HeadersReadBack(AddLines(sections, lines))
  {
    var r := AddLines(sections, lines);
    assert forall k :: 0 <= k < |r| ==> r[k].header == sections[k].header;
  }

  lemma HeadersGrow(sections: seq<Section>, s: Section)
    requires HeadersReadBack(sections) && !Bracketed(s)
    ensures HeadersReadBack(sections + [s])
  {
  }

  lemma {:induction false} FlattenMerged(sections: seq<Section>)
    requires sections != []
    ensures Flatten(Merged(sections)) == Flatten(sections)
  {
    var init, last := sections[..|sections| - 1], sections[|sections| - 1];
    assert sections == init + [last];
    if init != [] {
      FlattenMerged(init);
      MergedSnoc(init, last);
      var m := Merged(init);
      if Bracketed(last) {
        FlattenAdd(m, Print(last));
      } else {
        assert (m + [last])[..|m|] == m;
      }
    }
  }

  lemma FlattenAdd(sections: seq<Section>, lines: seq<string>)
    requires sections != []
    ensures Flatten(AddLines(sections, lines)) == Flatten(sections) + lines
  {
    var n := |sections| - 1;
    var r := AddLines(sections, lines);
    assert r[..n] == sections[..n];
    assert Print(r[n]) == Print(sections[n]) + lines;
  }

  // --- Blank lines are in place ---

  /** A blank line follows where one is due. */
  ghost predicate Spaced(sections: seq<Section>) {
    forall k :: 0 <= k < |sections| ==> !NeedsBlank(sections[k])
  }

  lemma PaddedSpaced(s: Section)
    ensures !NeedsBlank(Padded(s)) && Padded(s).header == s.header
  {
    if NeedsBlank(s) && s.header.None? && |s.lines| == 1 {
      assert (s.lines + [""])[1] == "";
    }
  }

  lemma AddedSpaced(s: Section, t: Section)
    requires !NeedsBlank(t)
    ensures t.header.Some? ==> !NeedsBlank(s.(lines := s.lines + Print(t)))
  {
    var lines := s.lines + Print(t);
    assert t.header.Some? ==> lines[|lines| - 1] == t.lines[|t.lines| - 1] && |lines| >= 2;
  }

  lemma SpacedSnoc(init: seq<Section>, last: Section)
    ensures Spaced(init + [last]) <==> Spaced(init) && !NeedsBlank(last)
  {
    hide NeedsBlank;
    var all := init + [last];
    assert all[|init|] == last && forall k :: 0 <= k < |init| ==> all[k] == init[k];
  }

  lemma {:induction false} MergedSpaced(sections: seq<Section>)
    requires sections != [] && Spaced(sections)
    ensures Spaced(Merged(sections))
  {
    hide NeedsBlank, Print, Spaced, Merged;
    var init, last := sections[..|sections| - 1], sections[|sections| - 1];
    assert sections == init + [last];
    SpacedSnoc(init, last);
    if init == [] {
      MergedOne(sections);
    } else {
      MergedSpaced(init);
      MergedSnoc(init, last);
      var m := Merged(init);
      var n := |m| - 1;
      assert m == m[..n] + [m[n]];
      SpacedSnoc(m[..n], m[n]);
      SpacedSnoc(m, last);
      AddedSpaced(m[n], last);
      SpacedSnoc(m[..n], m[n].(lines := m[n].lines + Print(last)));
      assert AddLines(m, Print(last)) == m[..n] + [m[n].(lines := m[n].lines + Print(last))];
    }
  }

  lemma MergedOne(sections: seq<Section>)
    requires |sections| == 1
    ensures Merged(sections) == sections
  {
  }

  /** In the file as read again, blank lines are where printing would put them. */
  lemma MergedWritten(sections: seq<Section>)
    requires |sections| > 1 && sections[|sections| - 1].header.Some?
    ensures var m := Merged(Written(sections));
            && (forall k :: 0 <= k < |m| - 1 ==> !NeedsBlank(m[k]))
            && Stripped(m[|m| - 1]) == m[|m| - 1]
  {
    hide NeedsBlank, DropTrailingBlank;
    var w := Written(sections);
    var n := |w| - 1;
    assert w == w[..n] + [w[n]];
    forall k | 0 <= k < n ensures !NeedsBlank(w[k]) { PaddedSpaced(sections[k]); }
    MergedSpaced(w[..n]);
    MergedSnoc(w[..n], w[n]);
    StripTwice(sections[n].lines);
    var m := Merged(w[..n]);
    if Bracketed(w[n]) {
      var host := m[|m| - 1];
      StripAdded(host.lines, w[n]);
    }
  }

  lemma {:induction false} StripTwice(lines: seq<string>)
    ensures DropTrailingBlank(DropTrailingBlank(lines)) == DropTrailingBlank(lines)
  {
  }

  lemma StripAdded(front: seq<string>, s: Section)
    requires s.header.Some? && DropTrailingBlank(s.lines) == s.lines
    ensures DropTrailingBlank(front + Print(s)) == front + Print(s)
  {
    var header := HeaderLine(s.header.value);
    assert front + Print(s) == (front + [header]) + s.lines;
    StripTail(front + [header], s.lines);
  }

  // --- One section ---

  /** Rewriting leaves the section alone, up to a blank line at its end. */
  ghost predicate Calm(s: Section, url: string) {
    && (s.header == None ==> forall line :: line in s.lines ==> !Conflicts(line))
    && (s.header == Some(FEATURES) ==> FlagSet(s.lines))
    && (s.header == Some(SERVER) ==> s.lines == ServerLines(url) || s.lines == ServerLines(url) + [""])
  }

  lemma RewrittenIsCalm(s: Section, url: string)
    ensures Calm(Rewritten(s, url), url) && Rewritten(s, url).header == s.header
  {
    FeaturesSet(s.lines);
    hide FlagSet, Conflicts, UpsertFeaturesLines, ServerLines;
  }

  /** Padding and stripping keep a calm section calm, if the server's lines are just the wanted ones. */
  lemma PaddedIsCalm(s: Section, url: string)
    requires Calm(s, url) && (s.header == Some(SERVER) ==> s.lines == ServerLines(url))
    ensures Calm(Padded(s), url) && Calm(Stripped(s), url)
  {
    BlankLine();
    ServerLinesEnd(url);
    FlagSurvivesBlank(s.lines);
    FlagSurvivesStrip(s.lines);
    hide FlagSet, Conflicts, ServerLines, NeedsBlank;
    assert forall line :: line in s.lines + [""] ==> line in s.lines || line == "";
  }

  lemma ServerLinesEnd(url: string)
    ensures DropTrailingBlank(ServerLines(url)) == ServerLines(url)
    ensures DropTrailingBlank(ServerLines(url) + [""]) == ServerLines(url)
    ensures |ServerLines(url)| == 2 && ServerLines(url)[1] != ""
    ensures forall line :: line in ServerLines(url) ==> !("[" <= line)
  {
    var lines := ServerLines(url);
    assert lines[0][0] == 'u' && lines[1][0] == 'e';
    assert (lines + [""])[..2] == lines;
  }

  /** Rewriting, then padding or stripping, gives the section back exactly when it is calm. */
  lemma CalmIsFixed(s: Section, url: string)
    ensures !NeedsBlank(s) ==> (Padded(Rewritten(s, url)) == s <==> Calm(s, url))
    ensures Stripped(s) == s ==> (Stripped(Rewritten(s, url)) == s <==> Calm(s, url))
  {
    RewrittenIsCalm(s, url);
    RewrittenServer(s, url);
    PaddedIsCalm(Rewritten(s, url), url);
    if Calm(s, url) {
      CalmRewrites(s, url);
      ServerLinesEnd(url);
      hide FlagSet, Conflicts, ServerLines, Rewritten, Calm;
    }
  }

  lemma RewrittenServer(s: Section, url: string)
    ensures s.header == Some(SERVER) ==> Rewritten(s, url) == s.(lines := ServerLines(url))
  {
    hide ServerLines, UpsertFeaturesLines, WithoutConflicts;
    assert FEATURES[0] != SERVER[0];
  }

  lemma CalmRewrites(s: Section, url: string)
    requires Calm(s, url)
    ensures s.header != Some(SERVER) ==> Rewritten(s, url) == s
    ensures s.header == Some(SERVER) ==>
              s.lines == ServerLines(url) || s.lines == ServerLines(url) + [""]
  {
    if s.header == None { NothingConflicts(s.lines); }
    if s.header == Some(FEATURES) { FeaturesSet(s.lines); }
    hide FlagSet, Conflicts, UpsertFeaturesLines, ServerLines, WithoutConflicts;
  }

  // --- A section that takes in another ---

  /** What starts with a bracket assigns nothing. */
  lemma BracketAssignsNothing(line: string)
    requires "[" <= line
    ensures !IsAssignment(line, HOOKS_KEY) && !Conflicts(line)
  {
    assert line[0] == '[' && TrimStart(line) == line;
    assert HOOKS_KEY[0] == 'c' && "features"[0] == 'f' && "mcp_servers"[0] == 'm';
    hide TrimStart;
  }

  lemma {:induction false} FlagSetExtends(a: seq<string>, b: seq<string>)
    requires HasAssignment(a)
    ensures HasAssignment(a + b)
    ensures FlagSet(a + b) <==> FlagSet(a) && forall line :: line in b ==> !IsAssignment(line, HOOKS_KEY)
  {
    hide IsAssignment, HasAssignment, FlagTidy;
    if b == [] {
      assert a + b == a;
    } else {
      var init, last := b[..|b| - 1], b[|b| - 1];
      assert b == init + [last] && a + b == (a + init) + [last];
      FlagSetExtends(a, init);
      AssignmentSnoc(a + init, last);
      FlagTidySnoc(a + init, last);
    }
  }

  /** The host as it is read again. */
  function TakingIn(host: Section, s: Section): Section { host.(lines := host.lines + Print(s)) }

  lemma TakingInCalm(host: Section, s: Section, url: string)
    requires Bracketed(s) && (host.header == Some(FEATURES) ==> HasAssignment(host.lines))
    ensures Calm(TakingIn(host, s), url) <==> Calm(host, url) && Welcome(host.header, s)
    ensures host.header == Some(FEATURES) ==> HasAssignment(TakingIn(host, s).lines)
  {
    hide FlagSet, Conflicts, ServerLines, IsAssignment, HasAssignment, HeaderLine;
    var header, lines := HeaderLine(s.header.value), Print(s);
    assert lines == [header] + s.lines;
    PrintedHeader(s);
    BracketAssignsNothing(header);
    if host.header == Some(FEATURES) {
      FlagSetExtends(host.lines, lines);
    }
    if host.header == Some(SERVER) {
      ServerLinesEnd(url);
      assert header in TakingIn(host, s).lines;
    }
  }

  lemma PrintedHeader(s: Section)
    requires s.header.Some?
    ensures "[" <= HeaderLine(s.header.value)
  {
  }

  // --- Calm after reading again ---

  ghost predicate AllCalm(sections: seq<Section>, url: string) {
    forall k :: 0 <= k < |sections| ==> Calm(sections[k], url)
  }

  /** The features sections assign the flag. */
  ghost predicate FlagsIn(sections: seq<Section>) {
    forall k :: 0 <= k < |sections| && sections[k].header == Some(FEATURES) ==> HasAssignment(sections[k].lines)
  }

  lemma SettlesSnoc(init: seq<Section>, last: Section)
    requires init != []
    ensures Settles(init + [last]) <==> Settles(init) && (Bracketed(last) ==> Welcome(Host(init).header, last))
  {
    hide Welcome, Bracketed, Host;
    var all, n := init + [last], |init|;
    assert all[..n] == init && all[n] == last;
    forall k | 0 < k < n ensures all[..k] == init[..k] && all[k] == init[k] {}
    if Settles(init) && (Bracketed(last) ==> Welcome(Host(init).header, last)) {
      forall k | 0 < k < |all| && Bracketed(all[k]) ensures Welcome(Host(all[..k]).header, all[k]) {
        if k < n { assert Bracketed(init[k]); }
      }
    }
    if Settles(all) {
      forall k | 0 < k < n && Bracketed(init[k]) ensures Welcome(Host(init[..k]).header, init[k]) {
        assert Bracketed(all[k]);
      }
      assert Bracketed(all[n]) ==> Welcome(Host(all[..n]).header, all[n]);
    }
  }

  lemma AddedParts(m: seq<Section>, lines: seq<string>, url: string)
    requires m != []
    ensures var n := |m| - 1;
            && AddLines(m, lines) == m[..n] + [m[n].(lines := m[n].lines + lines)]
            && (AllCalm(m, url) <==> AllCalm(m[..n], url) && Calm(m[n], url))
            && (AllCalm(AddLines(m, lines), url) <==>
                  AllCalm(m[..n], url) && Calm(m[n].(lines := m[n].lines + lines), url))
  {
    hide Calm;
    var n := |m| - 1;
    assert m == m[..n] + [m[n]];
    CalmSnoc(m[..n], m[n], url);
    CalmSnoc(m[..n], m[n].(lines := m[n].lines + lines), url);
    assert AddLines(m, lines) == m[..n] + [m[n].(lines := m[n].lines + lines)];
  }

  lemma CalmSnoc(init: seq<Section>, last: Section, url: string)
    ensures AllCalm(init + [last], url) <==> AllCalm(init, url) && Calm(last, url)
  {
    hide Calm;
    var all := init + [last];
    assert all[|init|] == last;
    assert forall k :: 0 <= k < |init| ==> all[k] == init[k];
  }

  lemma FlagsSnoc(init: seq<Section>, last: Section)
    ensures FlagsIn(init + [last]) <==>
            FlagsIn(init) && (last.header == Some(FEATURES) ==> HasAssignment(last.lines))
  {
    hide HasAssignment;
    var all := init + [last];
    assert all[|init|] == last;
    assert forall k :: 0 <= k < |init| ==> all[k] == init[k];
  }

  /** One section more, read as a section of its own or taken in by the one before. */
  lemma MergedStep(init: seq<Section>, last: Section, url: string)
    requires init != [] && Calm(last, url) && FlagsIn(Merged(init))
    requires AllCalm(Merged(init), url) <==> Settles(init)
    requires Merged(init)[|Merged(init)| - 1].header == Host(init).header
    ensures var m := Merged(init + [last]);
            && (AllCalm(m, url) <==> Settles(init + [last]))
            && FlagsIn(m) && m[|m| - 1].header == Host(init + [last]).header
  {
    hide Calm, Welcome, Bracketed, HasAssignment, Print, Merged, Host, Settles, AllCalm, FlagsIn;
    MergedSnoc(init, last);
    HostSnoc(init, last);
    SettlesSnoc(init, last);
    CalmHasFlag(last, url);
    var m := Merged(init);
    var n := |m| - 1;
    assert m == m[..n] + [m[n]];
    FlagsSnoc(m[..n], m[n]);
    if Bracketed(last) {
      AddedParts(m, Print(last), url);
      TakingInCalm(m[n], last, url);
      FlagsSnoc(m[..n], TakingIn(m[n], last));
    } else {
      CalmSnoc(m, last, url);
      FlagsSnoc(m, last);
    }
  }

  lemma MergedAlone(s: Section, url: string)
    requires Calm(s, url)
    ensures Merged([s]) == [s] && AllCalm([s], url) && Settles([s]) && FlagsIn([s]) && Host([s]) == s
  {
    CalmHasFlag(s, url);
    hide Calm, HasAssignment;
  }

  /** Of calm sections, those read again are calm exactly when each that is taken in is welcome. */
  lemma {:induction false} MergedCalm(sections: seq<Section>, url: string)
    requires sections != [] && AllCalm(sections, url)
    ensures AllCalm(Merged(sections), url) <==> Settles(sections)
    ensures FlagsIn(Merged(sections))
    ensures var m := Merged(sections); m[|m| - 1].header == Host(sections).header
  {
    hide Calm, Merged, Host, Settles, AllCalm, FlagsIn;
    var init, last := sections[..|sections| - 1], sections[|sections| - 1];
    assert sections == init + [last];
    CalmSnoc(init, last, url);
    if init == [] {
      assert sections == [last];
      MergedAlone(last, url);
    } else {
      MergedCalm(init, url);
      MergedStep(init, last, url);
    }
  }

  lemma CalmHasFlag(s: Section, url: string)
    requires Calm(s, url)
    ensures s.header == Some(FEATURES) ==> HasAssignment(s.lines)
  {
    hide Conflicts, ServerLines, HasAssignment, FlagTidy;
  }

  // --- Blank lines do not matter to the condition ---

  lemma WelcomePadded(header: Option<string>, s: Section)
    ensures Welcome(header, Padded(s)) <==> Welcome(header, s)
    ensures Welcome(header, Stripped(s)) <==> Welcome(header, s)
  {
    BlankLine();
    DroppedAreBlank(s.lines);
    hide Conflicts, IsAssignment, NeedsBlank;
    assert forall line :: line in s.lines + [""] <==> line in s.lines || line == "";
  }

  lemma {:induction false} DroppedAreBlank(lines: seq<string>)
    ensures forall line :: line in lines && line != "" ==> line in DropTrailingBlank(lines)
  {
    if lines != [] && lines[|lines| - 1] == "" {
      DroppedAreBlank(lines[..|lines| - 1]);
      assert lines == lines[..|lines| - 1] + [lines[|lines| - 1]];
    }
  }

  ghost predicate SameHeaders(a: seq<Section>, b: seq<Section>) {
    |a| == |b| && forall k :: 0 <= k < |a| ==> a[k].header == b[k].header
  }

  lemma {:induction false} HostsAgree(a: seq<Section>, b: seq<Section>)
    requires a != [] && SameHeaders(a, b)
    ensures Host(a).header == Host(b).header
  {
    var n := |a| - 1;
    if n > 0 && Bracketed(a[n]) { HostsAgree(a[..n], b[..n]); }
  }

  lemma SettlesWritten(sections: seq<Section>)
    requires sections != []
    ensures Settles(Written(sections)) <==> Settles(sections)
  {
    hide Welcome, NeedsBlank, DropTrailingBlank;
    var w := Written(sections);
    assert SameHeaders(w, sections);
    forall k | 0 < k < |w|
      ensures Host(w[..k]).header == Host(sections[..k]).header && (Bracketed(w[k]) <==> Bracketed(sections[k]))
      ensures Welcome(Host(w[..k]).header, w[k]) <==> Welcome(Host(sections[..k]).header, sections[k])
    {
      HostsAgree(w[..k], sections[..k]);
      WelcomePadded(Host(w[..k]).header, sections[k]);
    }
    hide Host, Bracketed;
  }

  // --- Reading the file again ---

  /** Taking in keeps the sections with a header of their own. */
  lemma {:induction false} MergedOwn(sections: seq<Section>, header: string)
    requires sections != [] && !("[" <= header)
    ensures Seen(Merged(sections), header) <==> Seen(sections, header)
    ensures Once(sections, header) ==> Once(Merged(sections), header)
  {
    hide Print;
    var init, last := sections[..|sections| - 1], sections[|sections| - 1];
    assert sections == init + [last];
    if init != [] {
      hide Seen, Once, Merged;
      MergedOwn(init, header);
      MergedSnoc(init, last);
      SeenSnoc(init, last, header);
      OnceSnoc(init, last, header);
      var m := Merged(init);
      if Bracketed(last) {
        SameHeadersSame(m, AddLines(m, Print(last)), header);
      } else {
        SeenSnoc(m, last, header);
        OnceSnoc(m, last, header);
      }
    } else {
      assert sections == [last];
    }
  }

  lemma OnceSnoc(init: seq<Section>, last: Section, header: string)
    ensures Once(init + [last], header) <==> Once(init, header) && !(last.header == Some(header) && Seen(init, header))
  {
    var all := init + [last];
    assert all[|init|] == last && forall k :: 0 <= k < |init| ==> all[k] == init[k];
    if Once(all, header) {
      forall j, k | 0 <= j < k < |init| ensures !(init[j].header == Some(header) && init[k].header == Some(header)) {
        assert !(all[j].header == Some(header) && all[k].header == Some(header));
      }
      forall j | 0 <= j < |init| ensures !(init[j].header == Some(header) && last.header == Some(header)) {
        assert !(all[j].header == Some(header) && all[|init|].header == Some(header));
      }
    }
  }

  lemma SameHeadersSame(a: seq<Section>, b: seq<Section>, header: string)
    requires SameHeaders(a, b)
    ensures (Seen(a, header) <==> Seen(b, header)) && (Once(a, header) <==> Once(b, header))
  {
  }

  /** With one section of each kind the rewrite skips none. */
  lemma {:induction false} RewriteEach(sections: seq<Section>, url: string)
    requires Once(sections, FEATURES) && Once(sections, SERVER)
    ensures var r := Rewrite(sections, url);
            |r| == |sections| && forall k :: 0 <= k < |r| ==> r[k] == Rewritten(sections[k], url)
  {
    hide Rewritten, Once, Seen, Rewrite;
    if sections == [] {
      NothingRewritten(url);
    } else {
      var init, last := sections[..|sections| - 1], sections[|sections| - 1];
      assert sections == init + [last];
      OnceSnoc(init, last, FEATURES);
      OnceSnoc(init, last, SERVER);
      RewriteEach(init, url);
      RewriteStep(init, last, url);
    }
  }

  lemma {:induction false} NothingToMerge(sections: seq<Section>)
    requires sections != [] && HeadersReadBack(sections)
    ensures Merged(sections) == sections
  {
    var init, last := sections[..|sections| - 1], sections[|sections| - 1];
    assert sections == init + [last];
    if init != [] {
      NothingToMerge(init);
      MergedSnoc(init, last);
    }
  }

  /** The sections read again, rewritten and written, are the same exactly when they are all calm. */
  lemma WrittenAgain(m: seq<Section>, url: string)
    requires m != [] && Once(m, FEATURES) && Once(m, SERVER)
    requires (forall k :: 0 <= k < |m| - 1 ==> !NeedsBlank(m[k])) && Stripped(m[|m| - 1]) == m[|m| - 1]
    ensures var r := Rewrite(m, url); r != [] && SameHeaders(r, m) && (Written(r) == m <==> AllCalm(m, url))
  {
    hide NeedsBlank, Calm, Rewritten, Once, Rewrite;
    RewriteEach(m, url);
    var r := Rewrite(m, url);
    var w := Written(r);
    forall k | 0 <= k < |m| ensures r[k].header == m[k].header && (w[k] == m[k] <==> Calm(m[k], url)) {
      RewrittenIsCalm(m[k], url);
      CalmIsFixed(m[k], url);
    }
  }
}
