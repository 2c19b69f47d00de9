/**
 * The shapes of the lines the rewriter of `config.toml` looks for, told by their parts, and what the editing
 * functions do with lines of such shapes.
 */
module CodexTomlShapes {
  import opened Options
  import opened Texts
  import opened CodexToml
  import opened CodexTomlWritten

  // --- Assignments ---

  predicate AssignsBy(line: string, key: string, before: string, after: string, rest: string) {
    Blank(before) && Blank(after) && line == before + key + after + "=" + rest
  }

  /** The line is blanks, the key, blanks, an equals sign and anything. */
  ghost predicate Assigns(line: string, key: string) {
    exists before, after, rest :: AssignsBy(line, key, before, after, rest)
  }

  lemma AssignmentExactly(line: string, key: string)
    requires key != "" && !IsWhitespace(key[0])
    ensures IsAssignment(line, key) <==> Assigns(line, key)
  {
    if IsAssignment(line, key) {
      AssignmentHasParts(line, key);
    }
    if Assigns(line, key) {
      var before, after, rest :| AssignsBy(line, key, before, after, rest);
      PartsAssign(line, key, before, after, rest);
    }
  }

  lemma AssignmentHasParts(line: string, key: string)
    requires IsAssignment(line, key)
    ensures Assigns(line, key)
  {
    var before := TrimStartDrops(line);
    var trimmed := TrimStart(line);
    var after := TrimStartDrops(trimmed[|key|..]);
    var rest := TrimStart(trimmed[|key|..])[1..];
    assert trimmed == key + trimmed[|key|..];
    assert TrimStart(trimmed[|key|..]) == "=" + rest;
    hide TrimStart;
    assert trimmed == key + (after + ("=" + rest));
    assert line == before + key + after + "=" + rest;
    assert AssignsBy(line, key, before, after, rest);
  }

  lemma PartsAssign(line: string, key: string, before: string, after: string, rest: string)
    requires key != "" && !IsWhitespace(key[0]) && AssignsBy(line, key, before, after, rest)
    ensures IsAssignment(line, key)
  {
    var tail := after + ("=" + rest);
    assert line == before + (key + tail);
    TrimStartIs(before, key + tail);
    assert (key + tail)[0] == key[0];
    assert (key + tail)[|key|..] == tail;
    TrimStartIs(after, "=" + rest);
    assert ("=" + rest)[0] == '=';
  }

  lemma HookAssignment(line: string)
    ensures IsAssignment(line, HOOKS_KEY) <==> Assigns(line, "codex_hooks")
  {
    AssignmentExactly(line, "codex_hooks");
  }

  lemma ConflictExactly(line: string)
    ensures Conflicts(line) <==> Assigns(line, "features") || Assigns(line, "mcp_servers")
  {
    AssignmentExactly(line, "features");
    AssignmentExactly(line, "mcp_servers");
  }

  // --- Headers ---

  predicate HeaderParts(line: string, header: string, a: string, b: string, c: string, d: string, comment: string) {
    && Blank(a) && Blank(b) && Blank(c) && Blank(d)
    && Trimmed(header) && ']' !in header && (b == "" ==> !("[" <= header))
    && (comment == "" || comment[0] == '#')
    && line == a + "[" + b + header + c + "]" + d + comment
  }

  /** The line is the header between brackets, one before and one behind, with blanks around and perhaps a comment. */
  ghost predicate Heads(line: string, header: string) {
    exists a, b, c, d, comment :: HeaderParts(line, header, a, b, c, d, comment)
  }

  lemma HeaderExactly(line: string)
    ensures forall header :: ParseTableHeader(line) == Some(header) <==> Heads(line, header)
  {
    forall header ensures ParseTableHeader(line) == Some(header) <==> Heads(line, header) {
      hide ParseTableHeader, HeaderParts;
      if ParseTableHeader(line) == Some(header) {
        HeaderHasParts(line, header);
      }
      if Heads(line, header) {
        var a, b, c, d, comment :| HeaderParts(line, header, a, b, c, d, comment);
        PartsHead(line, header, a, b, c, d, comment);
      }
    }
  }

  /** The pieces a header line falls into once it is trimmed. */
  predicate Pieces(trimmed: string, header: string, inner: string, behind: string) {
    && trimmed == "[" + inner + "]" + behind && ']' !in inner && !("[" <= inner)
    && header == Trim(inner) && (Trim(behind) == "" || Trim(behind)[0] == '#')
  }

  lemma HeaderHasPieces(line: string, header: string) returns (inner: string, behind: string)
    requires ParseTableHeader(line) == Some(header)
    ensures Pieces(Trim(line), header, inner, behind)
  {
    var trimmed := Trim(line);
    hide Trim, IndexOf;
    var close := IndexOf(trimmed, ']').value;
    inner, behind := trimmed[1..close], trimmed[close + 1..];
    assert forall x :: x in inner ==> x in trimmed[..close];
    assert inner != "" ==> inner[0] == trimmed[1];
  }

  lemma HeaderHasParts(line: string, header: string)
    requires ParseTableHeader(line) == Some(header)
    ensures Heads(line, header)
  {
    hide ParseTableHeader, Heads, Blank, Trim;
    var inner, behind := HeaderHasPieces(line, header);
    var a, z := TrimDrops(line);
    var b, c := TrimDrops(inner);
    var d, e := TrimDrops(behind);
    TrimIsTrimmed(inner);
    assert b == "" ==> inner == header + c;
    PartsFit(line, header, a, b, c, d, Trim(behind), e, z);
  }

  lemma PartsFit(line: string, header: string, a: string, b: string, c: string, d: string, rest: string, e: string,
                 z: string)
    requires Blank(a) && Blank(b) && Blank(c) && Blank(d) && Blank(e) && Blank(z)
    requires Trimmed(header) && ']' !in header && (b == "" ==> !("[" <= header))
    requires rest == "" || rest[0] == '#'
    requires line == a + ("[" + (b + header + c) + "]" + (d + rest + e)) + z
    ensures Heads(line, header)
  {
    if rest == "" {
      assert HeaderParts(line, header, a, b, c, d + e + z, "");
    } else {
      assert HeaderParts(line, header, a, b, c, d, rest + e + z);
    }
  }

  lemma PartsHead(line: string, header: string, a: string, b: string, c: string, d: string, comment: string)
    requires HeaderParts(line, header, a, b, c, d, comment)
    ensures ParseTableHeader(line) == Some(header)
  {
    var inner := b + header + c;
    InnerFits(b, header, c);
    TrimIs(b, header, c);
    Grouped(a, b, header, c, d, comment);
    hide ParseTableHeader, Trim, TrimEnd, HeaderParts, Blank;
    if comment == "" {
      NoneBehind();
      PiecesHead(a, d, header, inner, "");
    } else {
      BehindIs(d, comment);
      var e := TrimEndDrops(comment);
      Regroup(a, "[" + inner + "]", d, TrimEnd(comment), e);
      PiecesHead(a, e, header, inner, d + TrimEnd(comment));
    }
  }

  lemma Grouped(a: string, b: string, header: string, c: string, d: string, comment: string)
    ensures var (line, core) := (a + "[" + b + header + c + "]" + d + comment, "[" + (b + header + c) + "]");
            line == a + core + d + comment && (comment == "" ==> line == a + (core + "") + d)
  {
    var core := "[" + (b + header + c) + "]";
    assert core == "[" + b + header + c + "]" && core + "" == core;
    assert a + core == a + "[" + b + header + c + "]";
  }

  lemma Regroup(a: string, core: string, d: string, rest: string, e: string)
    ensures a + core + d + (rest + e) == a + (core + (d + rest)) + e
  {
  }

  lemma NoneBehind()
    ensures Trim("") == ""
  {
  }

  lemma InnerFits(b: string, header: string, c: string)
    requires Blank(b) && Blank(c) && ']' !in header && (b == "" ==> !("[" <= header))
    ensures var inner := b + header + c; ']' !in inner && !("[" <= inner)
  {
    assert ']' !in b && ']' !in c;
    if b != "" {
      assert b[0] in b && (b + header + c)[0] == b[0];
    } else if header != "" {
      assert (b + header + c)[0] == header[0];
    } else if c != "" {
      assert c[0] in c && (b + header + c)[0] == c[0];
    }
  }

  lemma PiecesHead(a: string, z: string, header: string, inner: string, behind: string)
    requires Blank(a) && Blank(z) && (behind == "" || !IsWhitespace(behind[|behind| - 1]))
    requires Pieces("[" + inner + "]" + behind, header, inner, behind)
    ensures ParseTableHeader(a + ("[" + inner + "]" + behind) + z) == Some(header)
  {
    hide Trim, ParseTableHeader, Pieces, Blank;
    var core := "[" + inner + "]" + behind;
    CoreParses(core, header, inner, behind);
    SameWhenTrimmed(a, core, z);
  }

  lemma SameWhenTrimmed(a: string, core: string, z: string)
    requires Blank(a) && Blank(z) && Trimmed(core)
    ensures ParseTableHeader(a + core + z) == ParseTableHeader(core)
  {
    TrimIs(a, core, z);
    TrimIsTrimmed(core);
    hide Trim, IndexOf;
  }

  lemma CoreParses(core: string, header: string, inner: string, behind: string)
    requires Pieces(core, header, inner, behind) && (behind == "" || !IsWhitespace(behind[|behind| - 1]))
    ensures Trimmed(core) && ParseTableHeader(core) == Some(header)
  {
    TrimIsTrimmed(core);
    hide Trim;
    assert core[..|inner| + 1] == "[" + inner;
    assert core[1] == if inner == "" then ']' else inner[0];
    IndexOfIs(core, ']', |inner| + 1);
    assert core[1..|inner| + 1] == inner && core[|inner| + 2..] == behind;
    hide IndexOf;
  }

  lemma BehindIs(d: string, comment: string)
    requires Blank(d) && comment != "" && comment[0] == '#'
    ensures var behind := d + TrimEnd(comment);
            behind != "" && !IsWhitespace(behind[|behind| - 1]) && Trim(behind) != "" && Trim(behind)[0] == '#'
  {
    TrimEndKeepsFirst(comment);
    var rest := TrimEnd(comment);
    assert d + rest + "" == d + rest;
    TrimIs(d, rest, "");
  }

  // --- Reading ---

  /** The lines one after the other, each section behind the line that heads it. */
  function Joined(sections: seq<Section>, heads: seq<string>): seq<string>
    requires |heads| == |sections|
  {
    if sections == [] then []
    else
      var n := |sections| - 1;
      Joined(sections[..n], heads[..n]) + (if sections[n].header.None? then [] else [heads[n]]) + sections[n].lines
  }

  /** The lines fall into the sections: none is lost, each header line starts a section, and no other line does. */
  ghost predicate FallsInto(lines: seq<string>, sections: seq<Section>, heads: seq<string>) {
    && |heads| == |sections| > 0 && Joined(sections, heads) == lines
    && sections[0].header.None?
    && (forall k :: 0 < k < |sections| ==> sections[k].header.Some? && Heads(heads[k], sections[k].header.value))
    && (forall k, line, header :: 0 <= k < |sections| && line in sections[k].lines ==> !Heads(line, header))
  }

  lemma {:induction false} SplitExactly(lines: seq<string>) returns (heads: seq<string>)
    ensures FallsInto(lines, Split(lines), heads)
  {
    hide ParseTableHeader, Heads, AddLines, FallsInto;
    if lines == [] {
      heads := [""];
      NothingFalls();
    } else {
      var init, line := lines[..|lines| - 1], lines[|lines| - 1];
      assert lines == init + [line];
      heads := SplitExactly(init);
      HeaderExactly(line);
      match ParseTableHeader(line)
      case Some(header) =>
        FallsBehind(init, Split(init), heads, line, header);
        heads := heads + [line];
      case None =>
        FallsBeside(init, Split(init), heads, line);
    }
  }

  lemma NothingFalls()
    ensures FallsInto([], [Section(None, [])], [""])
  {
    assert [Section(None, [])][..0] == [] && [""][..0] == [];
  }

  lemma FallsBehind(init: seq<string>, sections: seq<Section>, heads: seq<string>, line: string, header: string)
    requires FallsInto(init, sections, heads) && Heads(line, header)
    ensures FallsInto(init + [line], sections + [Section(Some(header), [])], heads + [line])
  {
    hide Heads;
    var r, h := sections + [Section(Some(header), [])], heads + [line];
    assert r[..|sections|] == sections && h[..|sections|] == heads;
    assert Joined(r, h) == init + [line];
  }

  lemma FallsBeside(init: seq<string>, sections: seq<Section>, heads: seq<string>, line: string)
    requires FallsInto(init, sections, heads) && forall header :: !Heads(line, header)
    ensures FallsInto(init + [line], AddLines(sections, [line]), heads)
  {
    hide Heads;
    var n := |sections| - 1;
    var r := AddLines(sections, [line]);
    assert r[..n] == sections[..n] && r[n].lines == sections[n].lines + [line];
    assert Joined(r, heads) == Joined(sections, heads) + [line];
    assert forall k :: 0 <= k < |r| ==> r[k].header == sections[k].header;
    forall k, l, header | 0 <= k < |r| && l in r[k].lines ensures !Heads(l, header) {
      assert l in sections[k].lines || l == line;
    }
  }

  // --- Leaving lines out ---

  /** `kept` holds the lines at the given places, which are those that assign to none of the keys, in order. */
  ghost predicate KeptAt(lines: seq<string>, keys: set<string>, kept: seq<string>, at: seq<nat>) {
    && |at| == |kept|
    && (forall k :: 0 <= k < |at| ==> at[k] < |lines| && kept[k] == lines[at[k]])
    && (forall j, k :: 0 <= j < k < |at| ==> at[j] < at[k])
    && (forall i :: 0 <= i < |lines| ==> (i in at <==> forall key :: key in keys ==> !Assigns(lines[i], key)))
  }

  /** Exactly the lines that assign to none of the keys are kept, in order. */
  ghost predicate Without(lines: seq<string>, keys: set<string>, kept: seq<string>) {
    exists at :: KeptAt(lines, keys, kept, at)
  }

  lemma WithoutNothing(keys: set<string>)
    ensures Without([], keys, [])
  {
    assert KeptAt([], keys, [], []);
  }

  lemma WithoutSnoc(init: seq<string>, last: string, keys: set<string>, kept: seq<string>)
    requires Without(init, keys, kept)
    ensures var keep := forall key :: key in keys ==> !Assigns(last, key);
            Without(init + [last], keys, if keep then kept + [last] else kept)
  {
    hide Assigns, KeptAt;
    var at :| KeptAt(init, keys, kept, at);
    if forall key :: key in keys ==> !Assigns(last, key) {
      KeptSnoc(init, last, keys, kept, at);
    } else {
      LeftSnoc(init, last, keys, kept, at);
    }
  }

  lemma KeptSnoc(init: seq<string>, last: string, keys: set<string>, kept: seq<string>, at: seq<nat>)
    requires KeptAt(init, keys, kept, at) && forall key :: key in keys ==> !Assigns(last, key)
    ensures KeptAt(init + [last], keys, kept + [last], at + [|init|])
  {
    hide Assigns;
    assert forall i :: i in at + [|init|] <==> i in at || i == |init|;
  }

  lemma LeftSnoc(init: seq<string>, last: string, keys: set<string>, kept: seq<string>, at: seq<nat>)
    requires KeptAt(init, keys, kept, at) && exists key :: key in keys && Assigns(last, key)
    ensures KeptAt(init + [last], keys, kept, at)
  {
    hide Assigns;
    assert |init| !in at;
  }

  lemma {:induction false} WithoutConflictsExactly(lines: seq<string>)
    ensures Without(lines, {"features", "mcp_servers"}, WithoutConflicts(lines))
  {
    hide Conflicts, Without, Assigns;
    if lines == [] {
      WithoutNothing({"features", "mcp_servers"});
    } else {
      var init, last := lines[..|lines| - 1], lines[|lines| - 1];
      assert lines == init + [last];
      WithoutConflictsExactly(init);
      WithoutSnoc(init, last, {"features", "mcp_servers"}, WithoutConflicts(init));
      ConflictExactly(last);
    }
  }
}
