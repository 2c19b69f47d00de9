/**
 * Installing Codex's hooks in `hooks.json`: every run removes the hooks it owns, wherever they are, and adds the
 * wanted one, so running it again changes nothing.
 */
module CodexHooks {
  import opened Options
  import opened Shell

  datatype Json =
    | Null
    | Bool(value: bool)
    | Number(number: int)
    | Str(text: string)
    | Arr(items: seq<Json>)
    | Obj(fields: map<string, Json>)

  const HOOK_TIMEOUT: int := 10

  // --- Which commands are ours ---

  predicate OccursAt(s: string, part: string, k: nat) {
    k + |part| <= |s| && s[k..k + |part|] == part
  }

  /** `str::contains`. */
  predicate Contains(s: string, part: string) {
    exists k :: 0 <= k <= |s| && OccursAt(s, part, k)
  }

  /** `is_owned_codex_command`. */
  predicate IsOwned(command: string, event: string)
    requires '\0' !in event
  {
    && (Contains(command, "--agent " + ShellEscape("codex")) || Contains(command, "--agent codex"))
    && (Contains(command, "--event " + ShellEscape(event)) || Contains(command, "--event " + event))
  }

  lemma ContainsMiddle(a: string, part: string, b: string)
    ensures Contains(a + part + b, part)
  {
    var s := a + part + b;
    assert OccursAt(s, part, |a|);
  }

  /** The command around its agent and its event. */
  lemma CommandShape(binary: string, event: string, url: string)
    requires '\0' !in binary && '\0' !in event && '\0' !in url
    ensures var agent, name := "--agent " + ShellEscape("codex"), "--event " + ShellEscape(event);
            var head, tail := ShellEscape(binary) + " ", " --server-url " + ShellEscape(url);
            && BuildHookCommand(binary, "codex", event, url) == head + agent + (" " + name + tail)
            && BuildHookCommand(binary, "codex", event, url) == (head + agent + " ") + name + tail
  {
    hide ShellEscape;
    assert " --agent " == " " + "--agent " && " --event " == " " + "--event ";
  }

  /** The command the installer writes is recognised as its own. */
  lemma BuiltCommandIsOwned(binary: string, event: string, url: string)
    requires '\0' !in binary && '\0' !in event && '\0' !in url
    ensures IsOwned(BuildHookCommand(binary, "codex", event, url), event)
  {
    CommandShape(binary, event, url);
    hide ShellEscape, Contains, BuildHookCommand;
    var agent, name := "--agent " + ShellEscape("codex"), "--event " + ShellEscape(event);
    var head, tail := ShellEscape(binary) + " ", " --server-url " + ShellEscape(url);
    ContainsMiddle(head, agent, " " + name + tail);
    ContainsMiddle(head + agent + " ", name, tail);
  }

  // --- One event ---

  datatype HookSpec = HookSpec(event: string, matcher: Option<string>, command: string)

  predicate WellFormed(h: HookSpec) { '\0' !in h.event }

  /** A hook entry that is kept: an object whose command, if it has one, is not ours. */
  predicate IsForeign(hook: Json, event: string)
    requires '\0' !in event
  {
    && hook.Obj?
    && !("command" in hook.fields && hook.fields["command"].Str? && IsOwned(hook.fields["command"].text, event))
  }

  /** `Vec::retain`. */
  function Foreign(hooks: seq<Json>, event: string): (r: seq<Json>)
    requires '\0' !in event
    ensures forall hook :: hook in r ==> IsForeign(hook, event)
  {
    if hooks == [] then []
    else
      var rest, last := Foreign(hooks[..|hooks| - 1], event), hooks[|hooks| - 1];
      if IsForeign(last, event) then rest + [last] else rest
  }

  /** The `hooks` array of a group, where anything else counts as empty. */
  function HooksOf(group: Json): seq<Json> {
    if group.Obj? && "hooks" in group.fields && group.fields["hooks"].Arr? then group.fields["hooks"].items else []
  }

  /** `repair_group_hooks`. */
  function Repair(group: Json, event: string): Json
    requires '\0' !in event
  {
    if !group.Obj? then Obj(map["hooks" := Arr([])])
    else Obj(group.fields["hooks" := Arr(Foreign(HooksOf(group), event))])
  }

  /** `should_keep_group_after_upsert`. */
  predicate Keep(group: Json) {
    group.Obj? && "hooks" in group.fields && group.fields["hooks"].Arr? ==> group.fields["hooks"].items != []
  }

  function RepairedGroups(groups: seq<Json>, event: string): seq<Json>
    requires '\0' !in event
  {
    if groups == [] then []
    else
      var rest, last := RepairedGroups(groups[..|groups| - 1], event), Repair(groups[|groups| - 1], event);
      if Keep(last) then rest + [last] else rest
  }

  function WantedHook(command: string): Json {
    Obj(map["type" := Str("command"), "command" := Str(command), "timeout" := Number(HOOK_TIMEOUT)])
  }

  /** `build_group`. */
  function NewGroup(h: HookSpec): Json {
    var hooks := Arr([WantedHook(h.command)]);
    if h.matcher.Some? then Obj(map["matcher" := Str(h.matcher.value), "hooks" := hooks])
        else Obj(map["hooks" := hooks])
  }

  function UpsertGroups(groups: seq<Json>, h: HookSpec): seq<Json>
    requires WellFormed(h)
  {
    RepairedGroups(groups, h.event) + [NewGroup(h)]
  }

  /** The fields of a value that is to be an object; anything else is replaced. */
  function FieldsOf(v: Json): map<string, Json> { if v.Obj? then v.fields else map[] }

  function ItemsOf(v: Json): seq<Json> { if v.Arr? then v.items else [] }

  function Child(fields: map<string, Json>, key: string): Json {
    if key in fields then fields[key] else Null
  }

  /** What stands under an event. */
  function ValueOf(root: Json, event: string): Json {
    Child(FieldsOf(Child(FieldsOf(root), "hooks")), event)
  }

  /** The groups installed for an event. */
  function GroupsOf(root: Json, event: string): seq<Json> {
    ItemsOf(ValueOf(root, event))
  }

  /** `upsert_hook`. */
  function UpsertHook(root: Json, h: HookSpec): Json
    requires WellFormed(h)
  {
    var hooks := FieldsOf(Child(FieldsOf(root), "hooks"));
    Obj(FieldsOf(root)["hooks" := Obj(hooks[h.event := Arr(UpsertGroups(GroupsOf(root, h.event), h))])])
  }

  // --- Why it is stable ---

  lemma {:induction false} ForeignStays(hooks: seq<Json>, event: string)
    requires '\0' !in event && forall hook :: hook in hooks ==> IsForeign(hook, event)
    ensures Foreign(hooks, event) == hooks
  {
    if hooks != [] {
      hide IsForeign;
      ForeignStays(hooks[..|hooks| - 1], event);
      assert hooks[|hooks| - 1] in hooks;
    }
  }

  /** `at` are the positions of the foreign hooks, in order, and `kept` is what stands there. */
  ghost predicate Picks(hooks: seq<Json>, event: string, at: seq<nat>, kept: seq<Json>)
    requires '\0' !in event
  {
    && |at| == |kept|
    && (forall k :: 0 <= k < |at| ==> at[k] < |hooks| && hooks[at[k]] == kept[k])
    && (forall k, l :: 0 <= k < l < |at| ==> at[k] < at[l])
    && (forall i :: 0 <= i < |hooks| ==> (IsForeign(hooks[i], event) <==> i in at))
  }

  lemma {:induction false} ForeignPicks(hooks: seq<Json>, event: string) returns (at: seq<nat>)
    requires '\0' !in event
    ensures Picks(hooks, event, at, Foreign(hooks, event))
  {
    hide IsForeign;
    if hooks == [] {
      at := [];
    } else {
      var n := |hooks| - 1;
      at := ForeignPicks(hooks[..n], event);
      PicksSnoc(hooks[..n], event, at, Foreign(hooks[..n], event), hooks[n]);
      assert hooks == hooks[..n] + [hooks[n]];
      if IsForeign(hooks[n], event) { at := at + [n]; }
    }
  }

  lemma PicksSnoc(hooks: seq<Json>, event: string, at: seq<nat>, kept: seq<Json>, last: Json)
    requires '\0' !in event && Picks(hooks, event, at, kept)
    ensures if IsForeign(last, event) then Picks(hooks + [last], event, at + [|hooks|], kept + [last])
            else Picks(hooks + [last], event, at, kept)
  {
    hide IsForeign;
    assert forall i :: 0 <= i < |hooks| ==> (hooks + [last])[i] == hooks[i];
    if IsForeign(last, event) {
      assert forall i :: i in at + [|hooks|] <==> i in at || i == |hooks|;
    }
  }

  /**
   * A repair keeps exactly the foreign hooks, in their order, and every other field; repairing again changes nothing.
   */
  lemma RepairExactly(group: Json, event: string)
    requires '\0' !in event
    ensures var r := Repair(group, event);
            && (exists at :: Picks(HooksOf(group), event, at, HooksOf(r)))
            && r.Obj? && (forall key :: key != "hooks" ==> Child(r.fields, key) == Child(FieldsOf(group), key))
            && Repair(r, event) == r
  {
    RepairTwice(group, event);
    var at := ForeignPicks(HooksOf(group), event);
    hide Foreign, Picks;
    assert HooksOf(Repair(group, event)) == Foreign(HooksOf(group), event);
  }

  /** A group that a repair leaves alone and that is kept. */
  ghost predicate Repaired(group: Json, event: string)
    requires '\0' !in event
  {
    Repair(group, event) == group && Keep(group)
  }

  lemma RepairTwice(group: Json, event: string)
    requires '\0' !in event
    ensures Repair(Repair(group, event), event) == Repair(group, event)
  {
    ForeignStays(Foreign(HooksOf(group), event), event);
    hide Foreign;
  }

  lemma {:induction false} RepairedGroupsAre(groups: seq<Json>, event: string)
    requires '\0' !in event
    ensures forall group :: group in RepairedGroups(groups, event) ==> Repaired(group, event)
  {
    if groups != [] {
      RepairTwice(groups[|groups| - 1], event);
      hide Repair, Keep;
      RepairedGroupsAre(groups[..|groups| - 1], event);
    }
  }

  lemma {:induction false} RepairedGroupsStay(groups: seq<Json>, event: string)
    requires '\0' !in event && forall group :: group in groups ==> Repaired(group, event)
    ensures RepairedGroups(groups, event) == groups
  {
    if groups != [] {
      hide Repair, Keep;
      RepairedGroupsStay(groups[..|groups| - 1], event);
      assert groups[|groups| - 1] in groups;
    }
  }

  /** Our own group is emptied by a repair, and then dropped. */
  lemma OwnGroupGoes(h: HookSpec)
    requires WellFormed(h) && IsOwned(h.command, h.event)
    ensures !Keep(Repair(NewGroup(h), h.event))
  {
    hide IsOwned;
    var hook := WantedHook(h.command);
    assert !IsForeign(hook, h.event);
    assert HooksOf(NewGroup(h)) == [hook] && [hook][..0] == [];
    assert Foreign([hook], h.event) == [];
  }

  lemma GroupsTwice(groups: seq<Json>, h: HookSpec)
    requires WellFormed(h) && IsOwned(h.command, h.event)
    ensures UpsertGroups(UpsertGroups(groups, h), h) == UpsertGroups(groups, h)
  {
    RepairedGroupsAre(groups, h.event);
    RepairedGroupsStay(RepairedGroups(groups, h.event), h.event);
    OwnGroupGoes(h);
    hide Repair, Keep, IsOwned, NewGroup;
    var once := UpsertGroups(groups, h);
    assert once[..|once| - 1] == RepairedGroups(groups, h.event);
  }

  /** The state after the upsert for `h`: installing it again changes nothing. */
  ghost predicate Installed(root: Json, h: HookSpec)
    requires WellFormed(h)
  {
    UpsertHook(root, h) == root
  }

  lemma UpsertInstalls(root: Json, h: HookSpec)
    requires WellFormed(h) && IsOwned(h.command, h.event)
    ensures Installed(UpsertHook(root, h), h)
  {
    GroupsTwice(GroupsOf(root, h.event), h);
    hide UpsertGroups;
    var once := UpsertHook(root, h);
    assert GroupsOf(once, h.event) == UpsertGroups(GroupsOf(root, h.event), h);
    var fields, hooks := FieldsOf(root), FieldsOf(Child(FieldsOf(root), "hooks"));
    var groups := Arr(UpsertGroups(GroupsOf(root, h.event), h));
    assert hooks[h.event := groups][h.event := groups] == hooks[h.event := groups];
    var value := Obj(hooks[h.event := groups]);
    assert fields["hooks" := value]["hooks" := value] == fields["hooks" := value];
  }

  /** Installing a hook for one event leaves every other event, and everything else, as it was. */
  lemma UpsertIsLocal(root: Json, h: HookSpec, other: string)
    requires WellFormed(h) && other != h.event
    ensures ValueOf(UpsertHook(root, h), other) == ValueOf(root, other)
    ensures GroupsOf(UpsertHook(root, h), other) == GroupsOf(root, other)
    ensures forall key :: key != "hooks" ==> Child(FieldsOf(UpsertHook(root, h)), key) == Child(FieldsOf(root), key)
  {
  }

  lemma OthersStayInstalled(root: Json, h: HookSpec, other: HookSpec)
    requires WellFormed(h) && WellFormed(other) && h.event != other.event && Installed(root, other)
    ensures Installed(UpsertHook(root, h), other)
  {
    hide UpsertGroups;
    UpsertIsLocal(root, h, other.event);
    var after := UpsertHook(root, h);
    var hooks := FieldsOf(Child(FieldsOf(root), "hooks"));
    var groups := Arr(UpsertGroups(GroupsOf(root, other.event), other));
    assert root == UpsertHook(root, other);
    assert root.fields["hooks"] == Obj(hooks[other.event := groups]);
    assert hooks == hooks[other.event := groups];
    assert other.event in hooks && hooks[other.event] == groups;
    var hooks' := FieldsOf(Child(FieldsOf(after), "hooks"));
    assert hooks' == hooks[h.event := Arr(UpsertGroups(GroupsOf(root, h.event), h))];
    assert hooks'[other.event := groups] == hooks';
    assert FieldsOf(after)["hooks" := Obj(hooks')] == FieldsOf(after);
  }

  // --- All events ---

  /** `configure_hooks`: one upsert per event. */
  function Configure(root: Json, specs: seq<HookSpec>): Json
    requires forall h :: h in specs ==> WellFormed(h)
  {
    if specs == [] then root
    else
      assert specs[|specs| - 1] in specs && forall h :: h in specs[..|specs| - 1] ==> h in specs;
      UpsertHook(Configure(root, specs[..|specs| - 1]), specs[|specs| - 1])
  }

  /** Specs for different events, with commands of our own. */
  ghost predicate OwnSpecs(specs: seq<HookSpec>) {
    && (forall h :: h in specs ==> WellFormed(h) && IsOwned(h.command, h.event))
    && (forall i, j :: 0 <= i < j < |specs| ==> specs[i].event != specs[j].event)
  }

  lemma OwnSpecsParts(specs: seq<HookSpec>)
    requires OwnSpecs(specs) && specs != []
    ensures var init, last := specs[..|specs| - 1], specs[|specs| - 1];
            && OwnSpecs(init) && WellFormed(last) && IsOwned(last.command, last.event)
            && (forall h :: h in init ==> WellFormed(h) && h.event != last.event)
            && (forall h :: h in specs ==> WellFormed(h) && (h in init || h == last))
  {
    hide IsOwned;
    var init, last := specs[..|specs| - 1], specs[|specs| - 1];
    assert specs == init + [last] && last in specs;
    assert forall h :: h in init ==> h in specs;
  }

  lemma {:induction false} ConfigureInstalls(root: Json, specs: seq<HookSpec>)
    requires OwnSpecs(specs)
    ensures forall h :: h in specs ==> Installed(Configure(root, specs), h)
  {
    hide IsOwned, UpsertHook, OwnSpecs, Installed;
    if specs != [] {
      OwnSpecsParts(specs);
      var init, last := specs[..|specs| - 1], specs[|specs| - 1];
      ConfigureInstalls(root, init);
      var before := Configure(root, init);
      assert Configure(root, specs) == UpsertHook(before, last);
      hide Configure;
      UpsertInstalls(before, last);
      forall h | h in init ensures Installed(UpsertHook(before, last), h) {
        OthersStayInstalled(before, last, h);
      }
    }
  }

  lemma {:induction false} InstalledStays(root: Json, specs: seq<HookSpec>)
    requires forall h :: h in specs ==> WellFormed(h) && Installed(root, h)
    ensures Configure(root, specs) == root
  {
    if specs != [] {
      var init, last := specs[..|specs| - 1], specs[|specs| - 1];
      assert last in specs && forall h :: h in init ==> h in specs;
      hide UpsertHook;
      InstalledStays(root, init);
    }
  }

  /** Configuring the hooks again changes nothing. */
  lemma ConfigureTwice(root: Json, specs: seq<HookSpec>)
    requires OwnSpecs(specs)
    ensures Configure(Configure(root, specs), specs) == Configure(root, specs)
  {
    hide Configure, IsOwned, Installed;
    ConfigureInstalls(root, specs);
    InstalledStays(Configure(root, specs), specs);
  }

  // --- What it contains ---

  /** The hook objects under an event, group by group. */
  function AllHooks(groups: seq<Json>): seq<Json> {
    if groups == [] then [] else AllHooks(groups[..|groups| - 1]) + HooksOf(groups[|groups| - 1])
  }

  lemma {:induction false} ForeignConcat(a: seq<Json>, b: seq<Json>, event: string)
    requires '\0' !in event
    ensures Foreign(a + b, event) == Foreign(a, event) + Foreign(b, event)
  {
    hide IsForeign;
    if b == [] {
      assert a + b == a;
    } else {
      ForeignConcat(a, b[..|b| - 1], event);
      assert (a + b)[..|a + b| - 1] == a + b[..|b| - 1];
    }
  }

  lemma {:induction false} RepairKeepsForeign(groups: seq<Json>, event: string)
    requires '\0' !in event
    ensures AllHooks(RepairedGroups(groups, event)) == Foreign(AllHooks(groups), event)
  {
    if groups != [] {
      var init, last := groups[..|groups| - 1], groups[|groups| - 1];
      RepairKeepsForeign(init, event);
      ForeignConcat(AllHooks(init), HooksOf(last), event);
      var r := Repair(last, event);
      assert HooksOf(r) == Foreign(HooksOf(last), event);
      assert !Keep(r) ==> HooksOf(r) == [];
      hide Repair, Foreign, Keep, HooksOf;
      var rest := RepairedGroups(init, event);
      assert (rest + [r])[..|rest|] == rest;
      assert AllHooks(rest + [r]) == AllHooks(rest) + HooksOf(r);
    }
  }

  /**
   * Afterwards the event has the foreign hooks it had, in their order, followed by the one wanted hook, which is the
   * only hook of ours.
   */
  lemma UpsertKeepsForeign(root: Json, h: HookSpec)
    requires WellFormed(h) && IsOwned(h.command, h.event)
    ensures AllHooks(GroupsOf(UpsertHook(root, h), h.event))
              == Foreign(AllHooks(GroupsOf(root, h.event)), h.event) + [WantedHook(h.command)]
    ensures !IsForeign(WantedHook(h.command), h.event)
  {
    hide IsOwned, Foreign, RepairedGroups;
    UpsertAdds(root, h);
    WantedIsOurs(h);
    hide UpsertHook, GroupsOf, NewGroup, HooksOf, IsForeign, WantedHook;
    RepairKeepsForeign(GroupsOf(root, h.event), h.event);
    var rest := RepairedGroups(GroupsOf(root, h.event), h.event);
    assert (rest + [NewGroup(h)])[..|rest|] == rest;
  }

  lemma UpsertAdds(root: Json, h: HookSpec)
    requires WellFormed(h)
    ensures GroupsOf(UpsertHook(root, h), h.event) == RepairedGroups(GroupsOf(root, h.event), h.event) + [NewGroup(h)]
  {
    hide RepairedGroups, NewGroup;
  }

  lemma WantedIsOurs(h: HookSpec)
    requires WellFormed(h) && IsOwned(h.command, h.event)
    ensures HooksOf(NewGroup(h)) == [WantedHook(h.command)] && !IsForeign(WantedHook(h.command), h.event)
  {
    hide IsOwned;
  }

  // --- The loops ---

  method RetainForeign(hooks: seq<Json>, event: string) returns (kept: seq<Json>)
    requires '\0' !in event
    ensures kept == Foreign(hooks, event)
  {
    kept := [];
    for k := 0 to |hooks|
      invariant kept == Foreign(hooks[..k], event)
    {
      assert hooks[..k + 1][..k] == hooks[..k];
      if IsForeign(hooks[k], event) {
        kept := kept + [hooks[k]];
      }
    }
    assert hooks[..|hooks|] == hooks;
  }

  method RepairGroup(group: Json, event: string) returns (repaired: Json)
    requires '\0' !in event
    ensures repaired == Repair(group, event)
    ensures exists at :: Picks(HooksOf(group), event, at, HooksOf(repaired))
  {
    RepairExactly(group, event);
    hide Picks;
    if !group.Obj? {
      return Obj(map["hooks" := Arr([])]);
    }
    var kept := RetainForeign(HooksOf(group), event);
    repaired := Obj(group.fields["hooks" := Arr(kept)]);
  }

  /** Repairs every group in place, drops the emptied ones, and appends the wanted group. */
  method UpsertHookInto(root: Json, h: HookSpec) returns (updated: Json)
    requires WellFormed(h)
    ensures updated == UpsertHook(root, h)
    ensures IsOwned(h.command, h.event) ==> UpsertHook(updated, h) == updated
  {
    if IsOwned(h.command, h.event) {
      UpsertInstalls(root, h);
    }
    hide IsOwned, Repair, Keep;
    var fields := if root.Obj? then root.fields else map[];
    var hooks := if "hooks" in fields && fields["hooks"].Obj? then fields["hooks"].fields else map[];
    var groups := if h.event in hooks && hooks[h.event].Arr? then hooks[h.event].items else [];
    var kept: seq<Json> := [];
    for k := 0 to |groups|
      invariant kept == RepairedGroups(groups[..k], h.event)
    {
      assert groups[..k + 1][..k] == groups[..k];
      var repaired := RepairGroup(groups[k], h.event);
      if Keep(repaired) {
        kept := kept + [repaired];
      }
    }
    assert groups[..|groups|] == groups;
    updated := Obj(fields["hooks" := Obj(hooks[h.event := Arr(kept + [NewGroup(h)])])]);
  }

  /** The four events Codex gets a hook for. */
  function CodexSpecs(binary: string, url: string): seq<HookSpec>
    requires '\0' !in binary && '\0' !in url
  {
    [HookSpec("UserPromptSubmit", None, BuildHookCommand(binary, "codex", "UserPromptSubmit", url)),
     HookSpec("PreToolUse", Some("Bash"), BuildHookCommand(binary, "codex", "PreToolUse", url)),
     HookSpec("PostToolUse", Some("Bash"), BuildHookCommand(binary, "codex", "PostToolUse", url)),
     HookSpec("Stop", None, BuildHookCommand(binary, "codex", "Stop", url))]
  }

  lemma EventsDiffer()
    ensures '\0' !in "UserPromptSubmit" && '\0' !in "PreToolUse" && '\0' !in "PostToolUse" && '\0' !in "Stop"
    ensures var events := ["UserPromptSubmit", "PreToolUse", "PostToolUse", "Stop"];
            forall i, j :: 0 <= i < j < 4 ==> events[i] != events[j]
  {
    assert |"UserPromptSubmit"| == 16 && |"PreToolUse"| == 10 && |"PostToolUse"| == 11 && |"Stop"| == 4;
  }

  lemma OwnSpec(h: HookSpec, binary: string, url: string)
    requires '\0' !in binary && '\0' !in url && '\0' !in h.event
    requires h.command == BuildHookCommand(binary, "codex", h.event, url)
    ensures WellFormed(h) && IsOwned(h.command, h.event)
  {
    BuiltCommandIsOwned(binary, h.event, url);
    hide IsOwned, BuildHookCommand;
  }

  lemma CodexSpecsAreOwn(binary: string, url: string)
    requires '\0' !in binary && '\0' !in url
    ensures OwnSpecs(CodexSpecs(binary, url))
  {
    EventsDiffer();
    hide IsOwned, BuildHookCommand, WellFormed;
    var specs := CodexSpecs(binary, url);
    OwnSpec(specs[0], binary, url);
    OwnSpec(specs[1], binary, url);
    OwnSpec(specs[2], binary, url);
    OwnSpec(specs[3], binary, url);
  }

  /** Running the installer twice leaves the file of the first run, for any path and server URL. */
  lemma InstallTwice(root: Json, binary: string, url: string)
    requires '\0' !in binary && '\0' !in url
    ensures OwnSpecs(CodexSpecs(binary, url))
    ensures Configure(Configure(root, CodexSpecs(binary, url)), CodexSpecs(binary, url))
              == Configure(root, CodexSpecs(binary, url))
  {
    CodexSpecsAreOwn(binary, url);
    hide CodexSpecs, Configure;
    ConfigureTwice(root, CodexSpecs(binary, url));
  }
}
