/**
 * What the service promises over whole runs: any events, in any order, from an empty database.
 */
module Guarantees {
  import opened Options
  import opened Tables
  import opened Replay
  import opened Staging
  import opened Dispatch
  import opened Schema
  import opened History
  import opened MemoryGraph
  import opened Service

  // --- How a state relates to the ones after it ---

  ghost predicate Extends(s: System, s': System) {
    && Evolves(s.tables, s'.tables)
    && Grows(s.graph.rows, s'.graph.rows)
    && s.claimed <= s'.claimed && s.origin <= s'.origin && s.jobs <= s'.jobs
  }

  lemma PersistExtends(cfg: Config, s: System, draft: nat)
    requires Inv(cfg, s)
    ensures Extends(s, DoPersist(s, draft))
  {
    hide Valid, IndexAgrees, LinksSound, ClaimsInOrder, JobsFaithful, DraftsFaithful, StoredOnce, HandFaithful,
      WithinBudget, Sound, Grows, Evolves, Remembers, IndexesGrow, Advances, MemoryGraph.Persist, MarkStored;
    if draft < |s.drafts| {
      DraftRemembers(cfg, s, draft);
      PersistKeepsGraph(s.graph, s.drafts[draft].write, cfg.encode);
      var id := s.drafts[draft].turn;
      StatementsAdvance(s.tables.turns, id, "", 0, s.clock);
      AdvanceEvolves(s.tables, MarkStored(s.tables.turns, id, s.clock));
    }
    Reflexive(s);
  }

  /** A dispatcher statement, whatever it does to the dispatcher. */
  lemma AdvanceExtends(s: System, turns: seq<Turn>, claimed: set<nat>, d: Dispatcher)
    requires Advances(s.tables.turns, turns) && s.claimed <= claimed
    ensures Extends(s, WithTurns(s, turns).(claimed := claimed, dispatcher := d))
  {
    AdvanceEvolves(s.tables, turns);
  }

  lemma MarkExtends(s: System, id: nat, turns: seq<Turn>)
    requires Advances(s.tables.turns, turns)
    ensures Extends(s, Mark(s, id, turns))
  {
    AdvanceExtends(s, turns, s.claimed, Idle);
    Reflexive(s.(dispatcher := Broken));
  }

  lemma ClaimExtends(s: System, now: Time)
    ensures Extends(s, DoClaim(s, now))
  {
    hide Extends, Advances;
    StatementsAdvance(s.tables.turns, 0, "", 0, now);
    Reflexive(s);
    DispatcherExtends(s, NothingDue);
    var (turns, claimed) := Claim(s.tables.turns, now);
    if claimed.Some? && claimed.value < |turns| {
      AdvanceExtends(s, turns, s.claimed + {claimed.value}, Holding(claimed.value, turns[claimed.value]));
    }
  }

  lemma DispatcherExtends(s: System, d: Dispatcher)
    ensures Extends(s, s.(dispatcher := d))
  {
  }

  lemma JobExtends(s: System, job: Job, d: Dispatcher)
    ensures Extends(s, s.(jobs := s.jobs + [job], dispatcher := d))
  {
  }

  lemma ProcessExtends(cfg: Config, s: System, fault: Option<string>)
    ensures Extends(s, DoProcess(cfg, s, fault))
  {
    hide Extends, Advances, BuildWindow, Mark, MarkExhausted, MarkFailed;
    Reflexive(s);
    if s.dispatcher.Holding? {
      var id, row, turns := s.dispatcher.id, s.dispatcher.row, s.tables.turns;
      if row.attempts >= cfg.maxAttempts {
        var error := if row.lastError.Some? then row.lastError.value else ExhaustedMessage(cfg.maxAttempts);
        StatementsAdvance(turns, id, error, row.attempts, 0);
        MarkExtends(s, id, MarkExhausted(turns, id, error, row.attempts));
      } else if row.finalizedAt.None? {
        StatementsAdvance(turns, id, "claimed processing turn is missing finalized_at", 0, 0);
        MarkExtends(s, id, MarkFailed(turns, id, "claimed processing turn is missing finalized_at"));
      } else if fault.Some? {
        StatementsAdvance(turns, id, fault.value, 0, 0);
        MarkExtends(s, id, MarkFailed(turns, id, fault.value));
      } else {
        JobExtends(s, Job(id, BuildWindow(turns, row, cfg.windowSize), row.finalizedAt.value), Awaiting(id, row));
      }
    }
  }

  lemma AnswerExtends(cfg: Config, s: System, reply: Reply, delay: nat)
    ensures Extends(s, DoAnswer(cfg, s, reply, delay))
  {
    hide Extends, Advances, Mark, MarkExhausted, MarkFailed, MarkRetryable;
    Reflexive(s);
    DispatcherExtends(s, Idle);
    if s.dispatcher.Awaiting? && !reply.Done? {
      var id, row, turns := s.dispatcher.id, s.dispatcher.row, s.tables.turns;
      StatementsAdvance(turns, id, reply.error, row.attempts + 1, s.clock + delay);
      MarkExtends(s, id, MarkFailed(turns, id, reply.error));
      MarkExtends(s, id, MarkRetryable(turns, id, reply.error, row.attempts + 1, s.clock + delay));
      MarkExtends(s, id, MarkExhausted(turns, id, reply.error, row.attempts + 1));
    }
  }

  lemma RecoverExtends(s: System, d: Dispatcher)
    ensures Extends(s, DoRecover(s).(dispatcher := d))
  {
    StatementsAdvance(s.tables.turns, 0, "", 0, s.clock);
    AdvanceExtends(s, Recover(s.tables.turns, s.clock), s.claimed, d);
  }

  lemma IngestExtends(s: System, e: Envelope)
    requires Valid(s.tables)
    ensures Extends(s, DoIngest(s, e))
  {
    hide Evolves, Valid, Stage;
    StageEvolves(s.tables, e, s.clock);
  }

  /** A step that leaves the tables, the graph and the jobs alone. */
  lemma ControlExtends(s: System, s': System)
    requires s'.tables == s.tables && s'.graph == s.graph && s'.jobs == s.jobs && s'.claimed == s.claimed
              && s'.origin == s.origin
    ensures Extends(s, s')
  {
  }

  lemma ApplyExtends(cfg: Config, s: System, event: Event)
    requires Inv(cfg, s)
    ensures Extends(s, Apply(cfg, s, event))
  {
    assert Valid(s.tables);
    hide Inv, Valid, Extends, DoIngest, DoClaim, DoProcess, DoPersist, DoAnswer, DoRecover, Prepare, Deadline;
    match event
    case Ingest(e) => IngestExtends(s, e);
    case ClaimNext(now) => ClaimExtends(s, now);
    case Process(fault) => ProcessExtends(cfg, s, fault);
    case PersistDraft(draft) => PersistExtends(cfg, s, draft);
    case Answer(reply, delay) => AnswerExtends(cfg, s, reply, delay);
    case Backoff(_) =>
      RecoverExtends(s, Parked(Some(s.clock + ERROR_RETRY_DELAY), true));
      ControlExtends(s, s.(dispatcher := Parked(Some(s.clock + ERROR_RETRY_DELAY), true)));
      ControlExtends(s, s);
    case Restart =>
      RecoverExtends(s, Idle);
      ControlExtends(s, s);
    case _ => ControlExtends(s, Apply(cfg, s, event));
  }

  lemma ExtendsTransitive(a: System, b: System, c: System)
    requires Extends(a, b) && Extends(b, c)
    ensures Extends(a, c)
  {
    EvolvesTransitive(a.tables, b.tables, c.tables);
  }

  lemma {:induction false} RunExtends(cfg: Config, s: System, events: seq<Event>)
    requires Inv(cfg, s)
    ensures Extends(s, Run(cfg, s, events)) && Inv(cfg, Run(cfg, s, events))
  {
    hide Inv, Extends, Apply;
    if events == [] {
      Reflexive(s);
    } else {
      var init, last := events[..|events| - 1], events[|events| - 1];
      RunExtends(cfg, s, init);
      ApplyExtends(cfg, Run(cfg, s, init), last);
      ApplyKeepsInv(cfg, Run(cfg, s, init), last);
      ExtendsTransitive(s, Run(cfg, s, init), Run(cfg, s, events));
    }
  }

  lemma Reflexive(s: System)
    ensures Extends(s, s)
  {
  }

  lemma {:induction false} RunSplits(cfg: Config, s: System, first: seq<Event>, rest: seq<Event>)
    ensures Run(cfg, s, first + rest) == Run(cfg, Run(cfg, s, first), rest)
  {
    hide Apply;
    if rest == [] {
      assert first + rest == first;
    } else {
      RunSplits(cfg, s, first, rest[..|rest| - 1]);
      assert (first + rest)[..|first + rest| - 1] == first + rest[..|rest| - 1];
    }
  }

  /** The state some events into a run, and the state after more of them. */
  lemma TwoPoints(cfg: Config, clock: Time, first: seq<Event>, rest: seq<Event>) returns (s: System, s': System)
    ensures s == Run(cfg, Initial(clock), first) && s' == Run(cfg, Initial(clock), first + rest)
    ensures Inv(cfg, s) && Inv(cfg, s') && Extends(s, s') && s' == Run(cfg, s, rest)
  {
    s, s' := Run(cfg, Initial(clock), first), Run(cfg, Initial(clock), first + rest);
    Reachable(cfg, clock, first);
    RunSplits(cfg, Initial(clock), first, rest);
    RunExtends(cfg, s, rest);
  }

  // --- The guarantees ---

  /** The number of committed memories that came from a turn. */
  function MemoriesOf(origin: seq<nat>, i: nat): nat {
    if origin == [] then 0
    else MemoriesOf(origin[..|origin| - 1], i) + (if origin[|origin| - 1] == i then 1 else 0)
  }

  lemma {:induction false} CountOrigins(origin: seq<nat>, i: nat)
    requires forall k, l :: 0 <= k < l < |origin| ==> origin[k] != origin[l]
    ensures MemoriesOf(origin, i) == if i in origin then 1 else 0
  {
    if origin != [] {
      CountOrigins(origin[..|origin| - 1], i);
      assert origin == origin[..|origin| - 1] + [origin[|origin| - 1]];
    }
  }

  /** Each turn has exactly one committed memory if it is stored and none otherwise, made from its own projection. */
  lemma ExactlyOnce(cfg: Config, clock: Time, events: seq<Event>)
    ensures var s := Run(cfg, Initial(clock), events);
            && |s.origin| == |s.graph.rows|
            && (forall i :: 0 <= i < |s.tables.turns|
                  ==> MemoriesOf(s.origin, i) == if s.tables.turns[i].status.Stored? then 1 else 0)
            && (forall k :: 0 <= k < |s.origin|
                  ==> s.origin[k] < |s.tables.turns| && Remembers(cfg, s.graph.rows[k], s.tables.turns[s.origin[k]]))
  {
    Reachable(cfg, clock, events);
    var s := Run(cfg, Initial(clock), events);
    forall i | 0 <= i < |s.tables.turns|
      ensures MemoriesOf(s.origin, i) == if s.tables.turns[i].status.Stored? then 1 else 0
    {
      CountOrigins(s.origin, i);
    }
  }

  /** Within a conversation memory ids follow the order of the turns. */
  lemma MemoriesInTurnOrder(cfg: Config, clock: Time, events: seq<Event>, k: nat, l: nat)
    requires var s := Run(cfg, Initial(clock), events);
             && k < |s.origin| && l < |s.origin| && s.origin[k] < |s.tables.turns| && s.origin[l] < |s.tables.turns|
             && s.tables.turns[s.origin[k]].conversation == s.tables.turns[s.origin[l]].conversation
    ensures var s := Run(cfg, Initial(clock), events);
            k < l <==> s.tables.turns[s.origin[k]].index < s.tables.turns[s.origin[l]].index
  {
    Reachable(cfg, clock, events);
  }

  /** A stored turn is never rescheduled: its row and its memory's text stay, whatever happens next. */
  lemma StoredForGood(cfg: Config, clock: Time, first: seq<Event>, rest: seq<Event>, i: nat)
    requires var s := Run(cfg, Initial(clock), first); i < |s.tables.turns| && s.tables.turns[i].status.Stored?
    ensures var s, s' := Run(cfg, Initial(clock), first), Run(cfg, Initial(clock), first + rest);
            && i < |s'.tables.turns| && s'.tables.turns[i] == s.tables.turns[i]
            && (exists k :: 0 <= k < |s.origin| && s.origin[k] == i && k < |s'.origin| && s'.origin[k] == i
                            && k < |s.graph.rows| && k < |s'.graph.rows|
                                 && s'.graph.rows[k].content == s.graph.rows[k].content)
  {
    hide Run, Apply, Initial, Valid, IndexAgrees, LinksSound, ClaimsInOrder, JobsFaithful, DraftsFaithful, HandFaithful,
      WithinBudget, Remembers;
    var s, s' := TwoPoints(cfg, clock, first, rest);
    assert RowEvolves(s.tables.turns[i], s'.tables.turns[i]);
    var k :| 0 <= k < |s.origin| && s.origin[k] == i;
    assert s'.origin[..|s.origin|][k] == s.origin[k];
  }

  /** Whoever was claimed, or got past finalized, has only settled turns before it. */
  lemma InOrder(cfg: Config, clock: Time, events: seq<Event>, i: nat)
    requires var s := Run(cfg, Initial(clock), events);
             i < |s.tables.turns|
                 && (i in s.claimed
                 || (CountsAsFinalized(s.tables.turns[i].status) && !s.tables.turns[i].status.Finalized?))
    ensures var turns := Run(cfg, Initial(clock), events).tables.turns;
            forall j :: 0 <= j < |turns| && turns[j].conversation == turns[i].conversation
                && turns[j].index < turns[i].index
              ==> turns[j].status in {Stored, Aborted, Exhausted}
  {
    Reachable(cfg, clock, events);
    var s := Run(cfg, Initial(clock), events);
    assert Unobstructed(s.tables.turns, i);
  }

  lemma OneProcessingPerConversation(cfg: Config, clock: Time, events: seq<Event>, i: nat, j: nat)
    requires var turns := Run(cfg, Initial(clock), events).tables.turns;
             InProcess(turns, i) && InProcess(turns, j) && turns[i].conversation == turns[j].conversation
    ensures i == j
  {
    InOrder(cfg, clock, events, i);
    InOrder(cfg, clock, events, j);
    Reachable(cfg, clock, events);
  }

  /** A failed turn is failed for good and no later turn of its conversation is ever claimed. */
  lemma FailureBlocksForever(cfg: Config, clock: Time, first: seq<Event>, rest: seq<Event>, i: nat)
    requires var s := Run(cfg, Initial(clock), first); i < |s.tables.turns| && s.tables.turns[i].status.Failed?
    ensures var s' := Run(cfg, Initial(clock), first + rest);
            && i < |s'.tables.turns| && s'.tables.turns[i].status.Failed?
            && forall j :: (0 <= j < |s'.tables.turns|
                  && s'.tables.turns[j].conversation == s'.tables.turns[i].conversation
                            && s'.tables.turns[j].index > s'.tables.turns[i].index)
                 ==> j !in s'.claimed && Dispatches(s'.jobs, j) == 0
  {
    hide Run, Apply, Initial, Valid, IndexAgrees, LinksSound, DraftsFaithful, HandFaithful, WithinBudget, StoredOnce,
      BuildWindow;
    var s, s' := TwoPoints(cfg, clock, first, rest);
    assert RowEvolves(s.tables.turns[i], s'.tables.turns[i]);
    forall j | 0 <= j < |s'.tables.turns| && s'.tables.turns[j].conversation == s'.tables.turns[i].conversation
      && s'.tables.turns[j].index > s'.tables.turns[i].index
      ensures j !in s'.claimed && Dispatches(s'.jobs, j) == 0
    {
      assert j in s'.claimed ==> Unobstructed(s'.tables.turns, j);
      NoDispatches(s'.jobs, j);
    }
  }

  /** From its first claim on, a turn's window never changes, on retries and after restarts alike. */
  lemma StableHistory(cfg: Config, clock: Time, first: seq<Event>, rest: seq<Event>, i: nat)
    requires i in Run(cfg, Initial(clock), first).claimed && i < |Run(cfg, Initial(clock), first).tables.turns|
    ensures var turns, turns' := Run(cfg, Initial(clock), first).tables.turns,
              Run(cfg, Initial(clock), first + rest).tables.turns;
            && i < |turns'|
            && BuildWindow(turns', turns'[i], cfg.windowSize) == BuildWindow(turns, turns[i], cfg.windowSize)
            && BuildWindow(turns, turns[i], cfg.windowSize).previous
                 == LastN(StoredBefore(turns, |turns|, turns[i].conversation, turns[i].index), cfg.windowSize)
  {
    var s, s' := TwoPoints(cfg, clock, first, rest);
    assert Unobstructed(s.tables.turns, i) && CountsAsFinalized(s.tables.turns[i].status);
    WindowStays(s.tables, s'.tables, i, cfg.windowSize);
    WindowIsRecentHistory(s.tables.turns, s.tables.turns[i], cfg.windowSize);
  }

  /** Every `store_window` call for a turn, over the whole run, was given the same window and timestamp. */
  lemma SameJobEveryTime(cfg: Config, clock: Time, events: seq<Event>, a: nat, b: nat)
    requires var jobs := Run(cfg, Initial(clock), events).jobs; a < |jobs| && b < |jobs| && jobs[a].turn == jobs[b].turn
    ensures var jobs := Run(cfg, Initial(clock), events).jobs; jobs[a] == jobs[b]
  {
    Reachable(cfg, clock, events);
  }

  /** The cached columns are what a replay of the fragments gives. */
  lemma CachedEqualsReplay(cfg: Config, clock: Time, events: seq<Event>, i: nat)
    requires i < |Run(cfg, Initial(clock), events).tables.turns|
    ensures var t := Run(cfg, Initial(clock), events).tables;
            && (t.turns[i].status.Open? ==>
                  && t.turns[i].terminality == MaxTerminality(t.fragments, i) && !t.turns[i].terminality.Hard?
                  && (forall f :: f in t.fragments && f.turn == i ==>
                        f.terminality.Rank() <= t.turns[i].terminality.Rank())
                  && (t.turns[i].terminality.Soft? ==>
                        exists f :: f in t.fragments && f.turn == i && f.terminality.Soft?))
            && (CountsAsFinalized(t.turns[i].status) ==>
                  t.turns[i].projection == Fold(TurnRows(t.fragments, i)).projection)
            && Sorted(TurnRows(t.fragments, i))
            && (forall f :: f in TurnRows(t.fragments, i) <==> f in t.fragments && f.turn == i)
  {
    Reachable(cfg, clock, events);
    var t := Run(cfg, Initial(clock), events).tables;
    assert RowCached(t.fragments, i, t.turns[i]);
    TurnRowsInOrder(t.fragments, i);
    MaxIsLargest(t.fragments, i);
  }

  /** Once finalized, a turn's projection never changes again. */
  lemma ProjectionIsFinal(cfg: Config, clock: Time, first: seq<Event>, rest: seq<Event>, i: nat)
    requires var s := Run(cfg, Initial(clock), first);
             i < |s.tables.turns| && CountsAsFinalized(s.tables.turns[i].status)
    ensures var s, s' := Run(cfg, Initial(clock), first), Run(cfg, Initial(clock), first + rest);
            && i < |s'.tables.turns| && CountsAsFinalized(s'.tables.turns[i].status)
            && s'.tables.turns[i].projection == s.tables.turns[i].projection
            && s'.tables.turns[i].finalizedAt == s.tables.turns[i].finalizedAt
  {
    var s, s' := TwoPoints(cfg, clock, first, rest);
    assert RowEvolves(s.tables.turns[i], s'.tables.turns[i]);
  }

  /**
   * An accepted fragment may be delivered again at any later point, whatever the rest of the second delivery
   * says: the tables stay as they are and the original turn index is reported as a duplicate.
   */
  lemma RedeliveryIsHarmless(cfg: Config, clock: Time, first: seq<Event>, e: Envelope, rest: seq<Event>,
                             again: Envelope)
    requires var s := Run(cfg, Initial(clock), first); Accepted(s.tables, e, s.clock)
    requires again.fragmentId == e.fragmentId
    ensures var s := Run(cfg, Initial(clock), first);
            var s' := Run(cfg, Initial(clock), first + [Ingest(e)] + rest);
            var (tables, outcome) := Stage(s'.tables, again, s'.clock);
            && tables == s'.tables
            && outcome.Staged? && outcome.duplicate && outcome.turnIndex == Stage(s.tables, e, s.clock).1.turnIndex
  {
    hide Stage, Initial, FindFragment, StoredOnce, IndexAgrees, LinksSound, ClaimsInOrder, JobsFaithful, DraftsFaithful,
      HandFaithful, WithinBudget;
    var s := Run(cfg, Initial(clock), first);
    assert (first + [Ingest(e)])[..|first|] == first;
    assert Run(cfg, Initial(clock), first + [Ingest(e)]).tables == Stage(s.tables, e, s.clock).0;
    hide Run, Apply;
    Reachable(cfg, clock, first);
    var m, s' := TwoPoints(cfg, clock, first + [Ingest(e)], rest);
    var i := StageDelivers(s.tables, e, s.clock);
    DeliveredStays(s.tables, e, s.clock, m.tables, i, s'.tables);
    RedeliveredReports(s'.tables, again, s'.clock, |s.tables.fragments|, i);
  }

  lemma RedeliveredReports(t: Tables, again: Envelope, now: Time, k: nat, i: nat)
    requires FindFragment(t.fragments, again.fragmentId) == Some(k) && t.fragments[k].turn == i && i < |t.turns|
    ensures Stage(t, again, now) == (t, Staged(t.turns[i].index, true, CountsAsFinalized(t.turns[i].status)))
  {
  }

  /** A fragment once delivered is found again, in the same turn, in every later state. */
  lemma DeliveredStays(t: Tables, e: Envelope, now: Time, m: Tables, i: nat, t': Tables)
    requires Delivers(t, e, now, m, i) && Evolves(m, t') && FragmentsKeyed(t')
    ensures var k := |t.fragments|;
            && FindFragment(t'.fragments, e.fragmentId) == Some(k) && t'.fragments[k].turn == i
            && i < |t'.turns| && t'.turns[i].index == m.turns[i].index
  {
    var k := |t.fragments|;
    assert m.fragments[k] == NewFragment(t.fragments, i, e);
    assert t'.fragments[k] == t'.fragments[..|m.fragments|][k] == m.fragments[k];
    assert RowEvolves(m.turns[i], t'.turns[i]);
    FragmentIdsUnique(t', k);
  }

  lemma FragmentIdsUnique(t: Tables, k: nat)
    requires FragmentsKeyed(t) && k < |t.fragments|
    ensures FindFragment(t.fragments, t.fragments[k].fragmentId) == Some(k)
  {
    assert forall j, l :: 0 <= j < l < |t.fragments| ==> t.fragments[j].fragmentId != t.fragments[l].fragmentId;
  }

  /** The delivery repeats a fragment of a turn that is finalized by now. */
  ghost predicate RepeatsFinalized(t: Tables, e: Envelope) {
    exists k :: 0 <= k < |t.fragments| && t.fragments[k].fragmentId == e.fragmentId
                && t.fragments[k].turn < |t.turns| && CountsAsFinalized(t.turns[t.fragments[k].turn].status)
  }

  /**
   * A delivery that is not accepted changes no table, no memory and no job. All it leaves is one more notification to
   * send, exactly when it repeats a fragment of a finalized turn.
   */
  lemma RefusedDeliveryLeavesNoTrace(cfg: Config, clock: Time, events: seq<Event>, e: Envelope)
    requires var s := Run(cfg, Initial(clock), events); !Accepted(s.tables, e, s.clock)
    ensures var s := Run(cfg, Initial(clock), events);
            Run(cfg, Initial(clock), events + [Ingest(e)])
              == s.(notifying := s.notifying + (if RepeatsFinalized(s.tables, e) then 1 else 0))
  {
    var s := Run(cfg, Initial(clock), events);
    assert (events + [Ingest(e)])[..|events|] == events;
    Reachable(cfg, clock, events);
    RefusalAnswer(s.tables, e, s.clock);
    hide Inv, Stage, RepeatsFinalized, Accepted, Initial;
  }

  lemma RefusalAnswer(t: Tables, e: Envelope, now: Time)
    requires Valid(t) && !Accepted(t, e, now)
    ensures var (tables, outcome) := Stage(t, e, now);
            tables == t && (outcome.Staged? && outcome.finalized <==> RepeatsFinalized(t, e))
  {
    RefusalChangesNothing(t, e, now);
    assert FragmentsKeyed(t);
    hide Valid, ResolveTurn, Conclude;
    var found := FindFragment(t.fragments, e.fragmentId);
    if found.Some? {
      FragmentIdsUnique(t, found.value);
      assert forall k :: 0 <= k < |t.fragments| && t.fragments[k].fragmentId == e.fragmentId ==> k == found.value;
    }
  }

  /** However often processing is interrupted, a turn is handed to the actor at most `maxAttempts` times. */
  lemma BoundedDispatch(cfg: Config, clock: Time, events: seq<Event>, i: nat)
    ensures Dispatches(Run(cfg, Initial(clock), events).jobs, i) <= cfg.maxAttempts
  {
    Reachable(cfg, clock, events);
    var s := Run(cfg, Initial(clock), events);
    if i >= |s.tables.turns| {
      NoDispatches(s.jobs, i);
    }
  }

  /** The index and the links are sound in every reachable state. */
  lemma GraphStaysSound(cfg: Config, clock: Time, events: seq<Event>)
    ensures var g := Run(cfg, Initial(clock), events).graph;
            IndexAgrees(g.rows, g.vectors, cfg.encode) && LinksSound(g.links, |g.rows|)
  {
    Reachable(cfg, clock, events);
  }

  /** Persisting either commits the memory together with the stored mark, or changes nothing at all. */
  lemma PersistIsAtomic(cfg: Config, clock: Time, events: seq<Event>, draft: nat)
    requires draft < |Run(cfg, Initial(clock), events).drafts|
    ensures var s := Run(cfg, Initial(clock), events);
            var s' := Apply(cfg, s, PersistDraft(draft));
            var id, write := s.drafts[draft].turn, s.drafts[draft].write;
            if InProcess(s.tables.turns, id) then
              && s'.tables == s.tables.(turns := s.tables.turns[id := StoredTurn(s.tables.turns[id], s.clock)])
              && s'.origin == s.origin + [id]
              && |s'.graph.rows| == |s.graph.rows| + 1 && s'.graph.rows[|s.graph.rows|] == write.memory
              && (forall a, b :: (a, b) in s'.graph.links <==>
                    (a, b) in s.graph.links || (a == |s.graph.rows| && b in write.linkIds)
                        || (b == |s.graph.rows| && a in write.linkIds))
              && (forall k :: 0 <= k < |s.graph.rows| && (forall u :: u in write.updates ==> u.id != k)
                    ==> s'.graph.rows[k] == s.graph.rows[k])
              && LastWins(s.graph.rows, write.updates, s'.graph.rows)
            else
              s' == s
  {
    hide Run, Apply, Initial, Inv, LastWins, DoPersist;
    var s := Run(cfg, Initial(clock), events);
    Reachable(cfg, clock, events);
    ApplyIsPersist(cfg, s, draft);
    PersistEffect(cfg, s, draft);
  }

  lemma ApplyIsPersist(cfg: Config, s: System, draft: nat)
    ensures Apply(cfg, s, PersistDraft(draft)) == DoPersist(s, draft)
  {
    hide DoPersist;
  }

  lemma PersistEffect(cfg: Config, s: System, draft: nat)
    requires Inv(cfg, s) && draft < |s.drafts|
    ensures var s' := DoPersist(s, draft);
            var id, write := s.drafts[draft].turn, s.drafts[draft].write;
            if InProcess(s.tables.turns, id) then
              && s'.tables == s.tables.(turns := s.tables.turns[id := StoredTurn(s.tables.turns[id], s.clock)])
              && s'.origin == s.origin + [id]
              && |s'.graph.rows| == |s.graph.rows| + 1 && s'.graph.rows[|s.graph.rows|] == write.memory
              && (forall a, b :: (a, b) in s'.graph.links <==>
                    (a, b) in s.graph.links || (a == |s.graph.rows| && b in write.linkIds)
                        || (b == |s.graph.rows| && a in write.linkIds))
              && (forall k :: 0 <= k < |s.graph.rows| && (forall u :: u in write.updates ==> u.id != k)
                    ==> s'.graph.rows[k] == s.graph.rows[k])
              && LastWins(s.graph.rows, write.updates, s'.graph.rows)
            else
              s' == s
  {
    hide Valid, IndexAgrees, LinksSound, ClaimsInOrder, JobsFaithful, DraftsFaithful, StoredOnce, HandFaithful,
      WithinBudget, Sound, Grows, MemoryGraph.Persist, LastWins;
    DraftRemembers(cfg, s, draft);
    PersistKeepsGraph(s.graph, s.drafts[draft].write, cfg.encode);
  }

  /** Every reachable pair of tables satisfies the schema and everything it caches. */
  lemma SchemaHolds(cfg: Config, clock: Time, events: seq<Event>)
    ensures Valid(Run(cfg, Initial(clock), events).tables)
  {
    Reachable(cfg, clock, events);
  }
}
