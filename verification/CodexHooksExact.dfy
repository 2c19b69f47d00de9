/**
 * What the hooks file holds once Codex's hooks are installed: for each of the four events the groups that had a hook of
 * somebody else's, in their order, and then one group of ours.
 */
module CodexHooksExact {
  import opened Options
  import opened Shell
  import opened CodexHooks

  // --- Which commands are ours ---

  ghost predicate Embeds(s: string, part: string) {
    exists a, b :: s == a + part + b
  }

  lemma ContainsExactly(s: string, part: string)
    ensures Contains(s, part) <==> Embeds(s, part)
  {
    if Contains(s, part) {
      var k :| 0 <= k <= |s| && OccursAt(s, part, k);
      assert s == s[..k] + part + s[k + |part|..];
    }
    if Embeds(s, part) {
      var a, b :| s == a + part + b;
      ContainsMiddle(a, part, b);
    }
  }

  lemma {:induction false} NothingToEscape(value: string)
    requires '\'' !in value
    ensures EscapeQuotes(value) == value
  {
    if value != "" {
      NothingToEscape(value[..|value| - 1]);
      assert value[|value| - 1] in value;
    }
  }

  lemma AgentQuoted()
    ensures "--agent " + ShellEscape("codex") == "--agent 'codex'"
  {
    NothingToEscape("codex");
  }

  lemma EventQuoted(event: string)
    requires '\0' !in event && '\'' !in event
    ensures "--event " + ShellEscape(event) == "--event '" + event + "'"
  {
    NothingToEscape(event);
    assert "--event '" == "--event " + "'";
  }

  /** The command names the agent and the event, quoted or bare. */
  ghost predicate Names(command: string, event: string) {
    && (Embeds(command, "--agent 'codex'") || Embeds(command, "--agent codex"))
    && (Embeds(command, "--event '" + event + "'") || Embeds(command, "--event " + event))
  }

  /** A hook is kept when it is an object that does not have a command of ours. */
  lemma ForeignExactly(hook: Json, event: string)
    requires '\0' !in event && '\'' !in event
    ensures IsForeign(hook, event) <==>
            hook.Obj? && forall text ::
                           "command" in hook.fields && hook.fields["command"] == Str(text) ==> !Names(text, event)
  {
    hide IsOwned, Names;
    forall command ensures IsOwned(command, event) <==> Names(command, event) {
      OwnedExactly(command, event);
    }
  }

  lemma OwnedExactly(command: string, event: string)
    requires '\0' !in event && '\'' !in event
    ensures IsOwned(command, event) <==> Names(command, event)
  {
    hide ShellEscape, Contains, Embeds;
    AgentQuoted();
    EventQuoted(event);
    ContainsExactly(command, "--agent 'codex'");
    ContainsExactly(command, "--agent codex");
    ContainsExactly(command, "--event '" + event + "'");
    ContainsExactly(command, "--event " + event);
  }

  // --- The groups that stay ---

  ghost predicate HasForeign(group: Json, event: string)
    requires '\0' !in event
  {
    exists hook :: hook in HooksOf(group) && IsForeign(hook, event)
  }

  /** The group with exactly its foreign hooks, and every other field as it was. */
  ghost predicate RepairsTo(group: Json, repaired: Json, event: string)
    requires '\0' !in event
  {
    && repaired.Obj? && group.Obj? && repaired.fields.Keys == group.fields.Keys + {"hooks"}
    && repaired.fields["hooks"].Arr?
    && (forall key :: key in group.fields && key != "hooks" ==> repaired.fields[key] == group.fields[key])
    && exists at :: Picks(HooksOf(group), event, at, repaired.fields["hooks"].items)
  }

  /** The groups with a foreign hook, in their order, each with its foreign hooks. */
  ghost predicate StaysAt(groups: seq<Json>, kept: seq<Json>, event: string, at: seq<nat>)
    requires '\0' !in event
  {
    && |at| == |kept|
    && (forall k :: 0 <= k < |at| ==> at[k] < |groups| && RepairsTo(groups[at[k]], kept[k], event))
    && (forall j, k :: 0 <= j < k < |at| ==> at[j] < at[k])
    && (forall i :: 0 <= i < |groups| ==> (i in at <==> HasForeign(groups[i], event)))
  }

  lemma {:induction false} ForeignIsNone(hooks: seq<Json>, event: string)
    requires '\0' !in event
    ensures Foreign(hooks, event) != [] <==> exists hook :: hook in hooks && IsForeign(hook, event)
  {
    hide IsForeign;
    if hooks != [] {
      var init, last := hooks[..|hooks| - 1], hooks[|hooks| - 1];
      ForeignIsNone(init, event);
      assert forall hook :: hook in hooks <==> hook in init || hook == last;
    }
  }

  lemma KeptExactly(group: Json, event: string)
    requires '\0' !in event
    ensures Keep(Repair(group, event)) <==> HasForeign(group, event)
    ensures HasForeign(group, event) ==> RepairsTo(group, Repair(group, event), event)
  {
    ForeignIsNone(HooksOf(group), event);
    var at := ForeignPicks(HooksOf(group), event);
    hide Foreign, IsForeign, Picks;
  }

  lemma {:induction false} GroupsStay(groups: seq<Json>, event: string) returns (at: seq<nat>)
    requires '\0' !in event
    ensures StaysAt(groups, RepairedGroups(groups, event), event, at)
  {
    hide Repair, Keep, HasForeign, RepairsTo, StaysAt;
    if groups == [] {
      at := [];
      NothingStays(event);
    } else {
      var init, last := groups[..|groups| - 1], groups[|groups| - 1];
      assert groups == init + [last];
      at := GroupsStay(init, event);
      KeptExactly(last, event);
      StaysSnoc(init, RepairedGroups(init, event), event, at, last, Repair(last, event));
      if HasForeign(last, event) { at := at + [|init|]; }
    }
  }

  lemma NothingStays(event: string)
    requires '\0' !in event
    ensures StaysAt([], [], event, [])
  {
  }

  lemma StaysSnoc(init: seq<Json>, kept: seq<Json>, event: string, at: seq<nat>, last: Json, repaired: Json)
    requires '\0' !in event && StaysAt(init, kept, event, at)
    requires HasForeign(last, event) ==> RepairsTo(last, repaired, event)
    ensures if HasForeign(last, event) then StaysAt(init + [last], kept + [repaired], event, at + [|init|])
            else StaysAt(init + [last], kept, event, at)
  {
    hide HasForeign, RepairsTo;
    if HasForeign(last, event) {
      assert forall i :: i in at + [|init|] <==> i in at || i == |init|;
    } else {
      assert |init| !in at;
    }
  }

  // --- One event ---

  /** The group that is installed. */
  function WantedGroup(matcher: Option<string>, command: string): Json {
    var hooks := Arr([Obj(map["type" := Str("command"), "command" := Str(command), "timeout" := Number(10)])]);
    match matcher
    case None => Obj(map["hooks" := hooks])
    case Some(text) => Obj(map["matcher" := Str(text), "hooks" := hooks])
  }

  /** Afterwards the event has the groups that stay and the wanted one behind them. */
  ghost predicate EndsWithOurs(root: Json, after: Json, h: HookSpec)
    requires WellFormed(h)
  {
    exists kept, at ::
      && StaysAt(GroupsOf(root, h.event), kept, h.event, at)
      && ValueOf(after, h.event) == Arr(kept + [WantedGroup(h.matcher, h.command)])
  }

  lemma UpsertExactly(root: Json, h: HookSpec)
    requires WellFormed(h)
    ensures EndsWithOurs(root, UpsertHook(root, h), h)
  {
    hide StaysAt, RepairedGroups;
    var at := GroupsStay(GroupsOf(root, h.event), h.event);
    assert NewGroup(h) == WantedGroup(h.matcher, h.command);
  }

  /** Everything under other events, and every other key, is as it was. */
  ghost predicate LeavesOthers(root: Json, after: Json, events: set<string>) {
    && (forall event :: event !in events ==> ValueOf(after, event) == ValueOf(root, event))
    && (forall key :: key != "hooks" ==> Child(FieldsOf(after), key) == Child(FieldsOf(root), key))
  }

  function Events(specs: seq<HookSpec>): set<string> {
    set h | h in specs :: h.event
  }

  lemma {:induction false} ConfigureExactly(root: Json, specs: seq<HookSpec>)
    requires forall h :: h in specs ==> WellFormed(h)
    requires forall i, j :: 0 <= i < j < |specs| ==> specs[i].event != specs[j].event
    ensures LeavesOthers(root, Configure(root, specs), Events(specs))
    ensures forall h :: h in specs ==> EndsWithOurs(root, Configure(root, specs), h)
  {
    hide UpsertHook, EndsWithOurs, LeavesOthers, WellFormed;
    if specs == [] {
      LeavesAlone(root);
      assert Events(specs) == {};
    } else {
      var init, last := specs[..|specs| - 1], specs[|specs| - 1];
      assert specs == init + [last] && last in specs && forall h :: h in init ==> h in specs;
      ConfigureExactly(root, init);
      var before := Configure(root, init);
      assert Configure(root, specs) == UpsertHook(before, last);
      hide Configure;
      assert last.event !in Events(init);
      LeavesMore(root, before, last, Events(init));
      assert Events(specs) == Events(init) + {last.event};
      forall h | h in specs ensures EndsWithOurs(root, UpsertHook(before, last), h) {
        if h in init {
          EndsStays(root, before, h, last);
        }
      }
    }
  }

  lemma LeavesAlone(root: Json)
    ensures LeavesOthers(root, root, {})
  {
  }

  lemma LeavesMore(root: Json, before: Json, h: HookSpec, events: set<string>)
    requires WellFormed(h) && LeavesOthers(root, before, events) && h.event !in events
    ensures LeavesOthers(root, UpsertHook(before, h), events + {h.event})
    ensures EndsWithOurs(root, UpsertHook(before, h), h)
  {
    UpsertExactly(before, h);
    hide StaysAt, UpsertHook;
    forall event: string | event != h.event ensures ValueOf(UpsertHook(before, h), event) == ValueOf(before, event) {
      UpsertIsLocal(before, h, event);
    }
    UpsertIsLocal(before, h, "x" + h.event);
    assert GroupsOf(before, h.event) == GroupsOf(root, h.event);
  }

  lemma EndsStays(root: Json, before: Json, h: HookSpec, last: HookSpec)
    requires WellFormed(h) && WellFormed(last) && h.event != last.event && EndsWithOurs(root, before, h)
    ensures EndsWithOurs(root, UpsertHook(before, last), h)
  {
    UpsertIsLocal(before, last, h.event);
    hide StaysAt, UpsertHook;
  }

  /** The whole installation: four events, two of them for `Bash` only, and nothing else touched. */
  lemma InstallExactly(root: Json, binary: string, url: string)
    requires '\0' !in binary && '\0' !in url
    ensures var after := Configure(root, CodexSpecs(binary, url));
            && '\0' !in "UserPromptSubmit" && '\0' !in "PreToolUse" && '\0' !in "PostToolUse" && '\0' !in "Stop"
            && LeavesOthers(root, after, {"UserPromptSubmit", "PreToolUse", "PostToolUse", "Stop"})
            && InstalledFor(root, after, "UserPromptSubmit", None, binary, url)
            && InstalledFor(root, after, "PreToolUse", Some("Bash"), binary, url)
            && InstalledFor(root, after, "PostToolUse", Some("Bash"), binary, url)
            && InstalledFor(root, after, "Stop", None, binary, url)
  {
    EventsDiffer();
    hide EndsWithOurs, LeavesOthers, Configure, BuildHookCommand;
    InstallFour(root, HookSpec("UserPromptSubmit", None, BuildHookCommand(binary, "codex", "UserPromptSubmit", url)),
                HookSpec("PreToolUse", Some("Bash"), BuildHookCommand(binary, "codex", "PreToolUse", url)),
                HookSpec("PostToolUse", Some("Bash"), BuildHookCommand(binary, "codex", "PostToolUse", url)),
                HookSpec("Stop", None, BuildHookCommand(binary, "codex", "Stop", url)));
  }

  lemma InstallFour(root: Json, a: HookSpec, b: HookSpec, c: HookSpec, d: HookSpec)
    requires WellFormed(a) && WellFormed(b) && WellFormed(c) && WellFormed(d)
    requires a.event != b.event && a.event != c.event && a.event != d.event
    requires b.event != c.event && b.event != d.event && c.event != d.event
    ensures var after := Configure(root, [a, b, c, d]);
            && LeavesOthers(root, after, {a.event, b.event, c.event, d.event})
            && EndsWithOurs(root, after, a) && EndsWithOurs(root, after, b)
            && EndsWithOurs(root, after, c) && EndsWithOurs(root, after, d)
  {
    hide EndsWithOurs, LeavesOthers, Configure, WellFormed;
    var specs := [a, b, c, d];
    assert forall h :: h in specs <==> h in {a, b, c, d};
    ConfigureExactly(root, specs);
    assert Events(specs) == {a.event, b.event, c.event, d.event};
    assert a in specs && b in specs && c in specs && d in specs;
  }

  ghost predicate InstalledFor(root: Json, after: Json, event: string, matcher: Option<string>, binary: string,
                               url: string)
    requires '\0' !in binary && '\0' !in url && '\0' !in event
  {
    EndsWithOurs(root, after, HookSpec(event, matcher, BuildHookCommand(binary, "codex", event, url)))
  }
}
