/**
 * Runs that lose a wake-up: one in a conversation that mixes deliveries with and without turn ids, and one with an
 * actor that persists after the dispatcher gave up on it.
 */
module Limits {
  import opened Options
  import opened Tables
  import opened Replay
  import opened Staging
  import opened Dispatch
  import opened History
  import opened Service
  import opened FirstTurns
  import opened Wakeup
  import DrainingRuns
  import Schema

  // --- A lost wake-up ---

  /** A user message that opens a turn of its own. */
  lemma MessageDelivery(t: Tables, e: Envelope, now: Time)
    requires e.turnId.None? && e.hint.None? && e.terminality.Unmarked?
    requires FindFragment(t.fragments, e.fragmentId).None? && FindOpen(t.turns, e.conversation).None?
    ensures var row := NewTurn(t.turns, e.conversation, None);
            Stage(t, e, now) ==
              (Tables(t.turns + [row], t.fragments + [NewFragment(t.fragments, |t.turns|, e)]),
                  Staged(row.index, false, false))
  {
    var row := NewTurn(t.turns, e.conversation, None);
    hide FindFragment, FindOpen, MaxIndex;
    assert (t.turns + [row])[|t.turns| := MarkedTurn(row, Merge(Unmarked, Unmarked))] == t.turns + [row];
  }

  const FIRST_MESSAGE := Envelope("c", None, "1", None, Unmarked, UserMessage("hello"))
  const TOOL_TURN := Envelope("c", Some("t"), "2", None, Hard, Other)
  const SECOND_MESSAGE := Envelope("c", None, "3", None, Unmarked, UserMessage("are you there?"))

  const FIRST_ROW := NewTurn([], "c", None)

  /** An open turn without a turn id, and behind it a finalized one with a turn id. */
  ghost predicate Mixed(t: Tables) {
    && |t.turns| == 2 && t.turns[0] == FIRST_ROW
    && t.turns[1].conversation == "c" && t.turns[1].external == Some("t") && t.turns[1].index == 2
         && t.turns[1].status.Finalized?
    && t.fragments
         == [NewFragment([], 0, FIRST_MESSAGE), NewFragment([NewFragment([], 0, FIRST_MESSAGE)], 1, TOOL_TURN)]
  }

  lemma MixedTables(now: Time)
    ensures var t := Stage(Schema.EMPTY_TABLES, FIRST_MESSAGE, now).0;
            var (t', outcome) := Stage(t, TOOL_TURN, now);
            && Stage(Schema.EMPTY_TABLES, FIRST_MESSAGE, now).1 == Staged(1, false, false)
            && Mixed(t') && outcome == Staged(2, false, true)
  {
    NothingFoundYet(FIRST_MESSAGE);
    hide Stage, Fold, TurnRows, FindFragment, FindOpen, FindExternal, MaxIndex;
    MessageDelivery(Schema.EMPTY_TABLES, FIRST_MESSAGE, now);
    var f := NewFragment([], 0, FIRST_MESSAGE);
    assert [] + [FIRST_ROW] == [FIRST_ROW] && [] + [f] == [f];
    assert Stage(Schema.EMPTY_TABLES, FIRST_MESSAGE, now).0 == Tables([FIRST_ROW], [f]);
    assert "1" != "2";
    OtherNotFound(FIRST_ROW, f, TOOL_TURN);
    NamedDelivery(Tables([FIRST_ROW], [f]), TOOL_TURN, now);
  }

  lemma NothingFoundYet(e: Envelope)
    ensures FindFragment([], e.fragmentId).None? && FindOpen([], e.conversation).None?
    ensures MaxIndex([], e.conversation) == 0
  {
  }

  lemma MixedIsStuck(t: Tables)
    requires Mixed(t)
    ensures FindFragment(t.fragments, SECOND_MESSAGE.fragmentId).None?
    ensures Interrupted(t, SECOND_MESSAGE, 0) && FindOpen(t.turns, "c") == Some(0)
    ensures Blocker(t.turns, 0, 1) && (forall j: nat :: Blocker(t.turns, j, 1) ==> j == 0)
              && forall k: nat :: !Ready(t.turns, k)
  {
    assert "1" != "3" && "2" != "3";
    assert t.fragments[0].turn == 0;
    assert Blocker(t.turns, 0, 1);
  }

  /** Two deliveries to a sleeping dispatcher, which wakes, finds nothing it may claim, and goes back to sleep. */
  lemma FallsAsleep(cfg: Config, clock: Time) returns (events: seq<Event>)
    ensures var s := Run(cfg, Initial(clock), events);
            && Mixed(s.tables) && s.clock == clock
            && s.dispatcher == Parked(None, false) && !s.permit && s.notifying == 0
  {
    var s0 := Initial(clock);
    var e1, e2, e3, e4 := [Restart], [Restart] + [ClaimNext(clock)], [Restart] + [ClaimNext(clock)] + [ReadDeadline],
        [];
    RunSnoc(cfg, s0, [], Restart);
    RunSnoc(cfg, s0, e1, ClaimNext(clock));
    RunSnoc(cfg, s0, e2, ReadDeadline);
    assert [] + [Restart] == e1 && Run(cfg, s0, []) == s0;
    AsleepAtFirst(cfg, clock);
    var s3 := Run(cfg, s0, e3);
    RunSnoc(cfg, s0, e3, Ingest(FIRST_MESSAGE));
    RunSnoc(cfg, s0, e3 + [Ingest(FIRST_MESSAGE)], Ingest(TOOL_TURN));
    var s5 := Run(cfg, s0, e3 + [Ingest(FIRST_MESSAGE)] + [Ingest(TOOL_TURN)]);
    hide Run;
    assert Mixed(s5.tables) && s5 == s3.(tables := s5.tables, notifying := 1) by {
      hide Mixed;
      MixedTables(clock);
    }
    e4 := e3 + [Ingest(FIRST_MESSAGE)] + [Ingest(TOOL_TURN)];
    RunSnoc(cfg, s0, e4, Notify);
    RunSnoc(cfg, s0, e4 + [Notify], Wake(true));
    RunSnoc(cfg, s0, e4 + [Notify] + [Wake(true)], ClaimNext(clock));
    RunSnoc(cfg, s0, e4 + [Notify] + [Wake(true)] + [ClaimNext(clock)], ReadDeadline);
    events := e4 + [Notify] + [Wake(true)] + [ClaimNext(clock)] + [ReadDeadline];
    MixedIsStuck(s5.tables);
    LooksInVain(cfg, s5);
  }

  lemma AsleepAtFirst(cfg: Config, clock: Time)
    ensures var s := Apply(cfg, Apply(cfg, Apply(cfg, Initial(clock), Restart), ClaimNext(clock)), ReadDeadline);
            s == Initial(clock).(dispatcher := Parked(None, false))
  {
    assert Recover([], clock) == [];
  }

  /** Woken by a notification with nothing ready, the dispatcher sleeps again, without a deadline. */
  lemma LooksInVain(cfg: Config, s: System)
    requires s.dispatcher == Parked(None, false) && !s.permit && s.notifying == 1
              && forall k: nat :: !Ready(s.tables.turns, k)
    ensures Apply(cfg, Apply(cfg, Apply(cfg, Apply(cfg, s, Notify), Wake(true)), ClaimNext(s.clock)), ReadDeadline)
              == s.(notifying := 0)
  {
  }

  lemma SecondMessageUnblocks(cfg: Config, s: System)
    requires Inv(cfg, s) && Mixed(s.tables) && s.dispatcher == Parked(None, false) && !s.permit && s.notifying == 0
    ensures var s' := Apply(cfg, s, Ingest(SECOND_MESSAGE)); Overslept(s') && s'.dispatcher == s.dispatcher
  {
    hide Inv, Ready, Mixed, Stage;
    MixedIsStuck(s.tables);
    MixedIsUnblocked(s.tables, s.clock);
    LostWakeupExactly(cfg, s, SECOND_MESSAGE);
  }

  lemma MixedIsUnblocked(t: Tables, clock: Time)
    requires Mixed(t)
    ensures Unblocks(t, SECOND_MESSAGE, None, clock)
  {
    MixedIsStuck(t);
    hide Mixed, Interrupted, Blocker, Ready;
    assert t.turns[1].status.Finalized? by { MixedWaits(t); }
    assert HoldsUrgent(t.turns, 0, 1, None, clock);
  }

  lemma MixedWaits(t: Tables)
    requires Mixed(t)
    ensures |t.turns| == 2 && t.turns[1].status.Finalized?
  {
  }

  /**
   * A conversation that mixes deliveries with and without turn ids can lose a wake-up: after this run a turn is ready,
   * and the dispatcher sleeps without a deadline, a permit or a notification on its way.
   */
  lemma MixedConversationLosesWakeup(cfg: Config, clock: Time)
    ensures exists events ::
              var s := Run(cfg, Initial(clock), events); Overslept(s) && s.dispatcher == Parked(None, false)
  {
    var events := FallsAsleep(cfg, clock);
    hide Run, Ready, Inv, Apply, Initial, Overslept;
    Reachable(cfg, clock, events);
    SecondMessageUnblocks(cfg, Run(cfg, Initial(clock), events));
    RunSnoc(cfg, Initial(clock), events, Ingest(SECOND_MESSAGE));
  }

  // --- A persist after the dispatcher gave up ---

  /** Two deliveries that each make a turn of one conversation. */
  predicate TwoTurns(e: Envelope, next: Envelope) {
    && e.terminality.Hard? && e.hint.None? && e.turnId.Some?
    && next.terminality.Hard? && next.hint.None? && next.turnId.Some?
    && e.conversation == next.conversation && e.turnId != next.turnId && e.fragmentId != next.fragmentId
  }

  /** Two finalized turns of one conversation, both due. */
  ghost predicate Pair(turns: seq<Turn>, now: Time) {
    && |turns| == 2 && turns[0].conversation == turns[1].conversation && turns[0].index < turns[1].index
    && (forall i :: 0 <= i < 2
          ==> turns[i].status.Finalized? && turns[i].attempts == 0 && turns[i].nextAttemptAt == Some(now))
  }

  /** The first of them is in processing. */
  ghost predicate PairBegun(turns: seq<Turn>) {
    && |turns| == 2 && turns[0].conversation == turns[1].conversation && turns[0].index < turns[1].index
    && turns[0].status.Processing? && turns[1].status.Finalized?
  }

  lemma PairStaged(e: Envelope, next: Envelope, now: Time)
    requires TwoTurns(e, next)
    ensures var (t, outcome) := Stage(Schema.EMPTY_TABLES, e, now);
            var (t', outcome') := Stage(t, next, now);
            && outcome.Staged? && outcome.finalized && outcome'.Staged? && outcome'.finalized && Pair(t'.turns, now)
  {
    hide Stage, Fold, TurnRows, FindFragment, FindExternal, MaxIndex;
    NothingFound(e);
    NamedDelivery(Schema.EMPTY_TABLES, e, now);
    var t := Stage(Schema.EMPTY_TABLES, e, now).0;
    assert t.turns == [t.turns[0]] && t.fragments == [t.fragments[0]];
    OtherNotFound(t.turns[0], t.fragments[0], next);
    NamedDelivery(t, next, now);
  }

  lemma NothingFound(e: Envelope)
    requires e.turnId.Some?
    ensures FindFragment([], e.fragmentId).None? && FindExternal([], e.conversation, e.turnId.value).None?
    ensures MaxIndex([], e.conversation) == 0
  {
  }

  lemma OtherNotFound(row: Turn, f: Fragment, e: Envelope)
    requires e.turnId.Some? && row.conversation == e.conversation && row.external != e.turnId
              && f.fragmentId != e.fragmentId
    ensures FindFragment([f], e.fragmentId).None? && FindExternal([row], e.conversation, e.turnId.value).None?
    ensures MaxIndex([row], e.conversation) == row.index
  {
    assert [row][..0] == [] && [f][..0] == [];
  }

  lemma PairDelivered(cfg: Config, clock: Time, e: Envelope, next: Envelope)
    requires TwoTurns(e, next)
    ensures var s := Apply(cfg, Apply(cfg, Initial(clock), Ingest(e)), Ingest(next));
            s == Initial(clock).(tables := s.tables, notifying := 2) && Pair(s.tables.turns, clock)
  {
    hide Pair, Stage;
    PairStaged(e, next, clock);
  }

  lemma FirstIsDue(turns: seq<Turn>, now: Time)
    requires Pair(turns, now)
    ensures SelectDue(turns, 2, now) == Some(0) && PairBegun(turns[0 := ClaimedTurn(turns[0], now)])
  {
    assert Blocker(turns, 0, 1);
    assert Due(turns, 0, now) && !Due(turns, 1, now);
  }

  lemma NothingToRecover(turns: seq<Turn>, now: Time)
    requires Pair(turns, now)
    ensures Recover(turns, now) == turns
  {
  }

  /** Restarted, the dispatcher claims the first turn and hands it to the actor. */
  lemma HandsOver(cfg: Config, s: System)
    requires Inv(cfg, s) && cfg.maxAttempts >= 1 && s.dispatcher.Idle? && Pair(s.tables.turns, s.clock)
    ensures var s' := Apply(cfg, Apply(cfg, s, ClaimNext(s.clock)), Process(None));
            && PairBegun(s'.tables.turns) && s'.dispatcher.Awaiting? && s'.clock == s.clock
            && s'.jobs != [] && s'.jobs[|s'.jobs| - 1].turn == 0
            && s'.permit == s.permit && s'.notifying == s.notifying
  {
    FirstIsDue(s.tables.turns, s.clock);
    DrainingRuns.RoundBegins(cfg, s);
    hide Inv, Apply, Pair, PairBegun, SelectDue, BuildWindow, MarkExhausted;
    assert s.tables.turns[0].attempts == 0 by { PairUntried(s.tables.turns, s.clock); }
  }

  lemma PairUntried(turns: seq<Turn>, now: Time)
    requires Pair(turns, now)
    ensures |turns| == 2 && turns[0].attempts == 0
  {
  }

  /** The actor prepares its write; the dispatcher meets an error, fails to recover, and is woken by a notification. */
  lemma GivesUp(cfg: Config, s: System)
    requires s.dispatcher.Awaiting? && s.notifying == 2 && s.jobs != [] && s.jobs[|s.jobs| - 1].turn == 0
    ensures var prepare := PrepareJob(|s.jobs| - 1, DrainingRuns.NoAnalysis(), [], DrainingRuns.NoEvolution());
            var s1 := Apply(cfg, Apply(cfg, Apply(cfg, s, prepare), DatabaseError), Backoff(false));
            var s' := Apply(cfg, Apply(cfg, Apply(cfg, s1, Notify), Notify), Wake(true));
            && s' == s.(dispatcher := Idle, drafts := s'.drafts, notifying := 0, permit := false)
            && |s'.drafts| == |s.drafts| + 1 && s'.drafts[|s.drafts|].turn == 0
  {
    DrainingRuns.ActorPrepares(cfg, s);
    hide DoPrepare;
  }

  lemma NothingToClaim(turns: seq<Turn>, now: Time)
    requires PairBegun(turns)
    ensures forall k: nat :: !Ready(turns, k)
    ensures InProcess(turns, 0) && OnlyBlocker(turns, 0, 1)
  {
    assert Blocker(turns, 0, 1);
  }

  lemma LooksAgain(cfg: Config, s: System)
    requires s.dispatcher.Idle? && forall k: nat :: !Ready(s.tables.turns, k)
    ensures Apply(cfg, Apply(cfg, s, ClaimNext(s.clock)), ReadDeadline) == s.(dispatcher := Parked(None, false))
  {
  }

  /**
   * A dispatcher that gave up on the actor, failed to recover the turn, and went to sleep is not woken when the actor
   * persists after all, although that makes the next turn ready. The run needs one attempt to be allowed.
   */
  lemma LatePersistLosesWakeup(cfg: Config, clock: Time)
    requires cfg.maxAttempts >= 1
    ensures exists events ::
              var s := Run(cfg, Initial(clock), events); Overslept(s) && s.dispatcher == Parked(None, false)
  {
    hide Inv, Apply, Run, Pair, PairBegun, Ready, Initial, OnlyBlocker, Overslept, InProcess;
    var s0 := Initial(clock);
    var e0 := PairRun(cfg, clock);
    var s1 := Run(cfg, s0, e0);
    Reachable(cfg, clock, e0);
    HandsOver(cfg, s1);
    RunSnoc(cfg, s0, e0, ClaimNext(clock));
    RunSnoc(cfg, s0, e0 + [ClaimNext(clock)], Process(None));
    var e1 := e0 + [ClaimNext(clock)] + [Process(None)];
    var s2 := Run(cfg, s0, e1);
    var e2 := GivingUp(cfg, s0, e1);
    var s3 := Run(cfg, s0, e2);
    NothingToClaim(s3.tables.turns, clock);
    LooksAgain(cfg, s3);
    RunSnoc(cfg, s0, e2, ClaimNext(clock));
    RunSnoc(cfg, s0, e2 + [ClaimNext(clock)], ReadDeadline);
    var e3 := e2 + [ClaimNext(clock)] + [ReadDeadline];
    Reachable(cfg, clock, e3);
    assert HoldsUrgent(s3.tables.turns, 0, 1, None, clock);
    LatePersistExactly(cfg, Run(cfg, s0, e3), |s2.drafts|);
    PersistSignals(cfg, Run(cfg, s0, e3), |s2.drafts|);
    RunSnoc(cfg, s0, e3, PersistDraft(|s2.drafts|));
  }

  lemma PairRun(cfg: Config, clock: Time) returns (events: seq<Event>)
    ensures var s := Run(cfg, Initial(clock), events);
            s.dispatcher.Idle? && s.clock == clock && !s.permit && s.notifying == 2 && Pair(s.tables.turns, clock)
  {
    hide Apply, Run, Pair, Initial;
    var e, next := Envelope("c", Some("t"), "1", None, Hard, Other), Envelope("c", Some("u"), "2", None, Hard, Other);
    assert "t" != "u" && "1" != "2";
    var s := Initial(clock);
    RunNone(cfg, s);
    RunSnoc(cfg, s, [], Ingest(e));
    RunSnoc(cfg, s, [] + [Ingest(e)], Ingest(next));
    RunSnoc(cfg, s, [] + [Ingest(e)] + [Ingest(next)], Restart);
    PairRestarted(cfg, clock, e, next);
    events := [] + [Ingest(e)] + [Ingest(next)] + [Restart];
  }

  lemma RunNone(cfg: Config, s: System)
    ensures Run(cfg, s, []) == s
  {
  }

  lemma PairRestarted(cfg: Config, clock: Time, e: Envelope, next: Envelope)
    requires TwoTurns(e, next)
    ensures var s := Apply(cfg, Apply(cfg, Apply(cfg, Initial(clock), Ingest(e)), Ingest(next)), Restart);
            s.dispatcher.Idle? && s.clock == clock && !s.permit && s.notifying == 2 && Pair(s.tables.turns, clock)
  {
    hide Pair, Stage, Apply, Recover;
    PairDelivered(cfg, clock, e, next);
    var s := Apply(cfg, Apply(cfg, Initial(clock), Ingest(e)), Ingest(next));
    NothingToRecover(s.tables.turns, clock);
    Restarts(cfg, s);
  }

  lemma Restarts(cfg: Config, s: System)
    requires s.dispatcher.Booting?
    ensures Apply(cfg, s, Restart) == WithTurns(s, Recover(s.tables.turns, s.clock)).(dispatcher := Idle)
  {
  }

  lemma GivingUp(cfg: Config, s0: System, events: seq<Event>) returns (all: seq<Event>)
    requires var s := Run(cfg, s0, events);
             s.dispatcher.Awaiting? && s.notifying == 2 && s.jobs != [] && s.jobs[|s.jobs| - 1].turn == 0
    ensures var s, s' := Run(cfg, s0, events), Run(cfg, s0, all);
            && s' == s.(dispatcher := Idle, drafts := s'.drafts, notifying := 0, permit := false)
            && |s'.drafts| == |s.drafts| + 1 && s'.drafts[|s.drafts|].turn == 0
  {
    hide Run, Apply;
    var s := Run(cfg, s0, events);
    GivesUp(cfg, s);
    var prepare := PrepareJob(|s.jobs| - 1, DrainingRuns.NoAnalysis(), [], DrainingRuns.NoEvolution());
    RunSnoc(cfg, s0, events, prepare);
    RunSnoc(cfg, s0, events + [prepare], DatabaseError);
    RunSnoc(cfg, s0, events + [prepare] + [DatabaseError], Backoff(false));
    var tail := events + [prepare] + [DatabaseError] + [Backoff(false)];
    RunSnoc(cfg, s0, tail, Notify);
    RunSnoc(cfg, s0, tail + [Notify], Notify);
    RunSnoc(cfg, s0, tail + [Notify] + [Notify], Wake(true));
    all := tail + [Notify] + [Notify] + [Wake(true)];
  }
}
