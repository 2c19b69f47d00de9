/**
 * What the rewrite of Codex's `config.toml` writes and keeps, told by the shapes of lines: which section becomes
 * what, with the flag set where it stood, and everything else as it was.
 */
module CodexTomlRest {
  import opened Options
  import opened Texts
  import opened CodexToml
  import opened CodexTomlWritten
  import opened CodexTomlShapes

  // --- The features section ---

  /** The lines that are none of the rewrite's business. */
  function OtherFlags(lines: seq<string>): seq<string> {
    if lines == [] then []
    else
      var rest, last := OtherFlags(lines[..|lines| - 1]), lines[|lines| - 1];
      if IsAssignment(last, HOOKS_KEY) then rest else rest + [last]
  }

  lemma OtherFlagsSnoc(init: seq<string>, last: string)
    ensures OtherFlags(init + [last]) == OtherFlags(init) + (if IsAssignment(last, HOOKS_KEY) then [] else [last])
  {
    hide IsAssignment;
    assert (init + [last])[..|init|] == init;
  }

  lemma {:induction false} OtherFlagsExactly(lines: seq<string>)
    ensures Without(lines, {"codex_hooks"}, OtherFlags(lines))
  {
    hide IsAssignment, Without, Assigns;
    if lines == [] {
      WithoutNothing({"codex_hooks"});
    } else {
      var init, last := lines[..|lines| - 1], lines[|lines| - 1];
      assert lines == init + [last];
      OtherFlagsExactly(init);
      WithoutSnoc(init, last, {"codex_hooks"}, OtherFlags(init));
      HookAssignment(last);
    }
  }

  /** Line `k` is the first assignment of the flag. */
  ghost predicate FirstAssignment(lines: seq<string>, k: nat) {
    k < |lines| && IsAssignment(lines[k], HOOKS_KEY) && !HasAssignment(lines[..k])
  }

  lemma {:induction false} UnassignedStays(lines: seq<string>)
    requires !HasAssignment(lines)
    ensures SetFlag(lines) == lines
  {
    hide IsAssignment;
    if lines != [] {
      var init, last := lines[..|lines| - 1], lines[|lines| - 1];
      assert lines == init + [last];
      AssignmentSnoc(init, last);
      hide HasAssignment;
      UnassignedStays(init);
    }
  }

  lemma {:induction false} SetFlagInPlace(lines: seq<string>, k: nat)
    requires FirstAssignment(lines, k)
    ensures SetFlag(lines) == lines[..k] + [HOOKS_LINE] + OtherFlags(lines[k + 1..]) && HasAssignment(lines)
  {
    hide IsAssignment;
    var n := |lines| - 1;
    var init, last := lines[..n], lines[n];
    assert lines == init + [last];
    AssignmentSnoc(init, last);
    if k == n {
      hide HasAssignment;
      UnassignedStays(init);
      assert lines[k + 1..] == [] && OtherFlags([]) == [];
    } else {
      assert init[..k] == lines[..k] && init[k] == lines[k];
      hide HasAssignment;
      SetFlagInPlace(init, k);
      assert lines[k + 1..] == init[k + 1..] + [last];
      OtherFlagsSnoc(init[k + 1..], last);
    }
  }

  lemma FirstIsInside(lines: seq<string>, k: nat)
    requires FirstAssignment(lines, k)
    ensures k < |lines|
  {
  }

  /** No line assigns to the flag. */
  ghost predicate Flagless(lines: seq<string>) {
    forall line :: line in lines ==> !Assigns(line, "codex_hooks")
  }

  /** Line `k` is the first that assigns to the flag; `rest` is what remains of the lines behind it. */
  ghost predicate SetsFlagAt(lines: seq<string>, r: seq<string>, k: nat, rest: seq<string>) {
    && k < |lines| && Assigns(lines[k], "codex_hooks") && Flagless(lines[..k])
    && Without(lines[k + 1..], {"codex_hooks"}, rest)
    && r == lines[..k] + ["codex_hooks = true"] + rest
  }

  /** The wanted line stands where the first assignment stood, later ones are gone; without one it comes last. */
  ghost predicate SetsFlag(lines: seq<string>, r: seq<string>) {
    (Flagless(lines) && r == lines + ["codex_hooks = true"]) || exists k, rest :: SetsFlagAt(lines, r, k, rest)
  }

  lemma FeaturesExactly(lines: seq<string>)
    ensures SetsFlag(lines, UpsertFeaturesLines(lines)) && FlagSet(UpsertFeaturesLines(lines))
  {
    hide FlagSet, IsAssignment, Without, Assigns, OtherFlags;
    FeaturesSet(lines);
    AssignedSomewhere(lines);
    if HasAssignment(lines) {
      var k := FirstAssigned(lines);
      FirstIsInside(lines, k);
      SetFlagInPlace(lines, k);
      AssignedSomewhere(lines[..k]);
      HookAssignment(lines[k]);
      OtherFlagsExactly(lines[k + 1..]);
      hide HasAssignment;
      assert SetsFlagAt(lines, UpsertFeaturesLines(lines), k, OtherFlags(lines[k + 1..]));
    } else {
      UnassignedStays(lines);
    }
  }

  lemma AssignedSomewhere(lines: seq<string>)
    ensures HasAssignment(lines) <==> !Flagless(lines)
  {
    hide IsAssignment, Assigns;
    forall line ensures IsAssignment(line, HOOKS_KEY) <==> Assigns(line, "codex_hooks") {
      HookAssignment(line);
    }
    if !Flagless(lines) {
      var line :| line in lines && Assigns(line, "codex_hooks");
      var k :| 0 <= k < |lines| && lines[k] == line;
      assert IsAssignment(lines[k], HOOKS_KEY);
    }
  }

  lemma {:induction false} FirstAssigned(lines: seq<string>) returns (k: nat)
    requires HasAssignment(lines)
    ensures FirstAssignment(lines, k)
  {
    hide IsAssignment;
    var n := |lines| - 1;
    var init, last := lines[..n], lines[n];
    assert lines == init + [last];
    AssignmentSnoc(init, last);
    if HasAssignment(init) {
      hide HasAssignment;
      k := FirstAssigned(init);
      assert init[..k] == lines[..k];
    } else {
      k := n;
    }
  }

  // --- Every section ---

  /** What becomes of a section. */
  ghost predicate Edited(a: Section, b: Section, url: string) {
    && b.header == a.header
    && (match a.header
        case None => Without(a.lines, {"features", "mcp_servers"}, b.lines)
        case Some(header) =>
          if header == "features" then SetsFlag(a.lines, b.lines)
          else if header == "mcp_servers.memory-bank" then b.lines == WantedServer(url)
          else b.lines == a.lines)
  }

  function WantedServer(url: string): seq<string> {
    ["url = \"" + url + "/mcp\"", "enabled = true"]
  }

  /** Section `k` is one more features or server section. */
  ghost predicate Repeats(sections: seq<Section>, k: nat) {
    && k < |sections| && sections[k].header in {Some("features"), Some("mcp_servers.memory-bank")}
    && exists j :: 0 <= j < k && sections[j].header == sections[k].header
  }

  /** `wanted` begins with the sections at the given places, edited; those places are all but the repeats, in order. */
  ghost predicate EditsAt(before: seq<Section>, wanted: seq<Section>, url: string, at: seq<nat>) {
    && |at| == |wanted|
    && (forall k :: 0 <= k < |at| ==> at[k] < |before| && Edited(before[at[k]], wanted[k], url))
    && (forall j, k :: 0 <= j < k < |at| ==> at[j] < at[k])
    && (forall i :: 0 <= i < |before| ==> (i in at <==> !Repeats(before, i)))
  }

  ghost predicate Lacks(sections: seq<Section>, header: string) {
    forall k :: 0 <= k < |sections| ==> sections[k].header != Some(header)
  }

  /** The sections to come out, in the order of those that went in; a features or server section missing is added. */
  ghost predicate Edits(before: seq<Section>, wanted: seq<Section>, url: string) {
    exists kept, at ::
      && EditsAt(before, kept, url, at)
      && wanted == kept
                     + (if Lacks(before, "features")
                        then [Section(Some("features"), ["codex_hooks = true"])] else [])
                     + (if Lacks(before, "mcp_servers.memory-bank")
                        then [Section(Some("mcp_servers.memory-bank"), WantedServer(url))] else [])
  }

  lemma LacksUnseen(sections: seq<Section>, header: string)
    ensures Lacks(sections, header) <==> !Seen(sections, header)
  {
  }

  lemma RepeatsSkipped(init: seq<Section>, last: Section)
    ensures Repeats(init + [last], |init|) <==> Skipped(init, last)
    ensures forall k :: 0 <= k < |init| ==> (Repeats(init + [last], k) <==> Repeats(init, k))
  {
    var all := init + [last];
    assert forall j :: 0 <= j < |init| ==> all[j] == init[j];
    if Skipped(init, last) {
      var j :| 0 <= j < |init| && init[j].header == last.header;
      assert all[j].header == all[|init|].header;
    }
    if Repeats(all, |init|) {
      var j :| 0 <= j < |init| && all[j].header == last.header;
      assert init[j].header == last.header;
    }
    forall k | 0 <= k < |init| ensures Repeats(all, k) <==> Repeats(init, k) {
      if Repeats(init, k) {
        var j :| 0 <= j < k && init[j].header == init[k].header;
        assert all[j].header == all[k].header;
      }
      if Repeats(all, k) {
        var j :| 0 <= j < k && all[j].header == all[k].header;
        assert init[j].header == init[k].header;
      }
    }
  }

  lemma RewrittenIsEdited(s: Section, url: string)
    ensures Edited(s, Rewritten(s, url), url)
  {
    hide SetsFlag, Without, WithoutConflicts, UpsertFeaturesLines;
    if s.header == None { WithoutConflictsExactly(s.lines); }
    FeaturesExactly(s.lines);
  }

  lemma {:induction false} RewriteEdits(before: seq<Section>, url: string) returns (at: seq<nat>)
    ensures EditsAt(before, Rewrite(before, url), url, at)
  {
    hide Rewrite, Rewritten, Skipped, Repeats, Edited, EditsAt;
    if before == [] {
      at := [];
      NothingEdited(url);
    } else {
      var init, last := before[..|before| - 1], before[|before| - 1];
      assert before == init + [last];
      at := RewriteEdits(init, url);
      RewriteStep(init, last, url);
      RepeatsSkipped(init, last);
      if Skipped(init, last) {
        assert Rewrite(init, url) + [] == Rewrite(init, url);
        SkippedSnoc(init, last, Rewrite(init, url), url, at);
      } else {
        RewrittenIsEdited(last, url);
        EditedSnoc(init, last, Rewrite(init, url), Rewritten(last, url), url, at);
        at := at + [|init|];
      }
    }
  }

  lemma NothingEdited(url: string)
    ensures EditsAt([], Rewrite([], url), url, [])
  {
  }

  lemma SkippedSnoc(init: seq<Section>, last: Section, wanted: seq<Section>, url: string, at: seq<nat>)
    requires EditsAt(init, wanted, url, at) && Repeats(init + [last], |init|)
    requires forall k :: 0 <= k < |init| ==> (Repeats(init + [last], k) <==> Repeats(init, k))
    ensures EditsAt(init + [last], wanted, url, at)
  {
    hide Repeats, Edited;
    assert |init| !in at;
  }

  lemma EditedSnoc(init: seq<Section>, last: Section, wanted: seq<Section>, s: Section, url: string, at: seq<nat>)
    requires EditsAt(init, wanted, url, at) && !Repeats(init + [last], |init|) && Edited(last, s, url)
    requires forall k :: 0 <= k < |init| ==> (Repeats(init + [last], k) <==> Repeats(init, k))
    ensures EditsAt(init + [last], wanted + [s], url, at + [|init|])
  {
    hide Repeats, Edited;
    assert forall i :: i in at + [|init|] <==> i in at || i == |init|;
  }

  lemma UpsertEdits(before: seq<Section>, url: string)
    ensures Edits(before, UpsertSections(before, url), url)
  {
    var at := RewriteEdits(before, url);
    LacksUnseen(before, "features");
    LacksUnseen(before, "mcp_servers.memory-bank");
    OnlyTheFlag();
    hide Rewrite, EditsAt, Seen, Lacks, UpsertFeaturesLines;
    assert EditsAt(before, Rewrite(before, url), url, at);
  }

  lemma OnlyTheFlag()
    ensures UpsertFeaturesLines([]) == ["codex_hooks = true"]
  {
  }

  function Count(sections: seq<Section>, header: string): nat {
    if sections == [] then 0
    else Count(sections[..|sections| - 1], header) + (if sections[|sections| - 1].header == Some(header) then 1 else 0)
  }

  lemma {:induction false} OnceCounts(sections: seq<Section>, header: string)
    requires Once(sections, header)
    ensures Count(sections, header) == if Seen(sections, header) then 1 else 0
  {
    if sections != [] {
      var init, last := sections[..|sections| - 1], sections[|sections| - 1];
      OnceCounts(init, header);
      SeenSnoc(init, last, header);
      assert sections == init + [last];
    }
  }

  /** The same headers in the same order, over the same lines up to blank ones at the end. */
  ghost predicate SameUpToBlank(a: seq<Section>, b: seq<Section>) {
    && |a| == |b|
    && (forall k :: 0 <= k < |a|
          ==> a[k].header == b[k].header && DropTrailingBlank(a[k].lines) == DropTrailingBlank(b[k].lines))
  }

  lemma {:induction false} StripBlank(lines: seq<string>)
    ensures DropTrailingBlank(lines + [""]) == DropTrailingBlank(lines)
    ensures DropTrailingBlank(DropTrailingBlank(lines)) == DropTrailingBlank(lines)
  {
    assert (lines + [""])[..|lines|] == lines;
  }

  lemma WrittenSame(sections: seq<Section>)
    requires sections != []
    ensures SameUpToBlank(Written(sections), sections)
  {
    var w := Written(sections);
    forall k | 0 <= k < |w|
        ensures w[k].header == sections[k].header
        && DropTrailingBlank(w[k].lines) == DropTrailingBlank(sections[k].lines) {
      StripBlank(sections[k].lines);
    }
  }

  // --- The file ---

  /** A section's header in brackets. */
  predicate HeadedBy(sections: seq<Section>, heads: seq<string>) {
    |heads| == |sections|
    && forall k :: 0 <= k < |sections| && sections[k].header.Some? ==> heads[k] == "[" + sections[k].header.value + "]"
  }

  /**
   * What the file has to do with the text: its lines fall into sections, these are edited, come out the same up to
   * blank lines at their ends, and are printed one after the other under their headers.
   */
  ghost predicate Configured(contents: string, url: string, file: string) {
    exists before, heads, wanted, after, printed ::
      FallsInto(Lines(contents), before, heads) && Leads(before, url, file, wanted, after, printed)
  }

  ghost predicate Leads(before: seq<Section>, url: string, file: string, wanted: seq<Section>, after: seq<Section>,
                        printed: seq<string>) {
    && Edits(before, wanted, url) && SameUpToBlank(after, wanted)
    && Count(after, "features") == 1 && Count(after, "mcp_servers.memory-bank") == 1
    && HeadedBy(after, printed) && file == Unlines(Joined(after, printed))
  }

  lemma {:induction false} FlattenJoins(sections: seq<Section>) returns (printed: seq<string>)
    ensures HeadedBy(sections, printed) && Flatten(sections) == Joined(sections, printed)
  {
    if sections == [] {
      printed := [];
    } else {
      var init, last := sections[..|sections| - 1], sections[|sections| - 1];
      var p := FlattenJoins(init);
      printed := p + [if last.header.Some? then "[" + last.header.value + "]" else ""];
      assert printed[..|init|] == p;
    }
  }

  /** The file is the text with its sections edited, and nothing else. */
  lemma ConfigureKeepsTheRest(contents: string, url: string)
    requires '\n' !in url
    ensures Configured(contents, url, Configure(contents, url))
  {
    hide Split, Lines, UpsertSections, Configure, Produced, Seen, Sectioned, Flatten, Edits, FallsInto, SameUpToBlank,
      HeadedBy, Joined, Count;
    var before := Split(Lines(contents));
    var wanted := Wanted(contents, url);
    ConfigureWrites(contents, url);
    var heads := SplitExactly(Lines(contents));
    UpsertEdits(before, url);
    WrittenSame(wanted);
    OneOfEach(wanted, url);
    var printed := FlattenJoins(Written(wanted));
    assert Leads(before, url, Configure(contents, url), wanted, Written(wanted), printed);
  }

  lemma OneOfEach(wanted: seq<Section>, url: string)
    requires Produced(wanted, url) && Seen(wanted, FEATURES) && Seen(wanted, SERVER) && |wanted| > 1
    ensures Count(Written(wanted), "features") == 1 && Count(Written(wanted), "mcp_servers.memory-bank") == 1
  {
    WrittenTidy(wanted, url);
    OnceCounts(Written(wanted), FEATURES);
    OnceCounts(Written(wanted), SERVER);
  }
}
