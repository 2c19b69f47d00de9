/**
 * Draining as a run of the transition system: each round of the dispatcher, each wait for a deadline, and so the whole
 * drain, is what some sequence of events does.
 */
module DrainingRuns {
  import opened Options
  import opened Tables
  import opened Dispatch
  import opened Schema
  import opened MemoryGraph
  import opened Service
  import opened Draining
  import Guarantees

  // --- A round is a run of events ---

  function NoEvolution(): Evolution { Evolution([], [], []) }

  function NoAnalysis(): Analysis { Analysis("", [], []) }

  /** The events of one round; the persist works on the draft prepared last. */
  function RoundEvents(s: System, cfg: Config, attempts: nat, ending: Ending): seq<Event> {
    [ClaimNext(s.clock), Process(None)] +
    (if attempts >= cfg.maxAttempts then []
     else
       match ending
       case Persisted =>
         [PrepareJob(|s.jobs|, NoAnalysis(), [], NoEvolution()), PersistDraft(|s.drafts|), Answer(Done, 0)]
       case Unrecoverable(error) => [Answer(Abandon(error), 0)]
       case Retryable(error, delay) => [Answer(Retry(error), delay)])
  }

  lemma RunStep(cfg: Config, s: System, e: Event, rest: seq<Event>)
    ensures Run(cfg, s, [e] + rest) == Run(cfg, Apply(cfg, s, e), rest)
  {
    hide Apply;
    Guarantees.RunSplits(cfg, s, [e], rest);
    assert [e][..0] == [];
  }

  lemma RunThree(cfg: Config, s: System, a: Event, b: Event, c: Event)
    ensures Run(cfg, s, [a, b, c]) == Apply(cfg, Apply(cfg, Apply(cfg, s, a), b), c)
  {
    hide Apply;
    RunStep(cfg, s, a, [b, c]);
    RunStep(cfg, Apply(cfg, s, a), b, [c]);
    RunStep(cfg, Apply(cfg, Apply(cfg, s, a), b), c, []);
    assert [a, b, c] == [a] + [b, c] && [b, c] == [b] + [c] && [c] == [c] + [];
  }

  /** The state after the claimed row was looked at: exhausted, or handed to the actor. */
  function Looked(cfg: Config, s: System, i: nat, row: Turn): System
    requires row.finalizedAt.Some?
  {
    var turns := s.tables.turns;
    if row.attempts >= cfg.maxAttempts then
      WithTurns(s, MarkExhausted(turns, i, ExhaustedError(cfg.maxAttempts, row), row.attempts)).(dispatcher := Idle)
    else
      var job := Job(i, History.BuildWindow(turns, row, cfg.windowSize), row.finalizedAt.value);
      s.(dispatcher := Awaiting(i, row), jobs := s.jobs + [job])
  }

  /** Claiming and looking at the claimed row. */
  lemma RoundBegins(cfg: Config, s: System)
    requires Inv(cfg, s) && s.dispatcher.Idle? && SelectDue(s.tables.turns, |s.tables.turns|, s.clock).Some?
    ensures var i := SelectDue(s.tables.turns, |s.tables.turns|, s.clock).value;
            var row := ClaimedTurn(s.tables.turns[i], s.clock);
            var turns := s.tables.turns[i := row];
            var s1 := Apply(cfg, s, ClaimNext(s.clock));
            && s1 == WithTurns(s, turns).(dispatcher := Holding(i, row), claimed := s.claimed + {i})
            && row.finalizedAt.Some?
            && Apply(cfg, s1, Process(None)) == Looked(cfg, s1, i, row)
  {
    var i := SelectDue(s.tables.turns, |s.tables.turns|, s.clock).value;
    assert RowCheck(s.tables.turns[i]);
    hide Inv, Schema.Valid, History.BuildWindow, ExhaustedMessage, SelectDue, RowCheck, Due;
    var s1 := Apply(cfg, s, ClaimNext(s.clock));
    assert s1 == WithTurns(s, s.tables.turns[i := ClaimedTurn(s.tables.turns[i], s.clock)])
      .(dispatcher := Holding(i, ClaimedTurn(s.tables.turns[i], s.clock)), claimed := s.claimed + {i});
    LooksAtClaimed(cfg, s1);
    hide DoClaim, DoProcess;
  }

  /** With a finalized turn in hand, the dispatcher either gives it up or hands it to the actor. */
  lemma LooksAtClaimed(cfg: Config, s: System)
    requires s.dispatcher.Holding? && InProcess(s.tables.turns, s.dispatcher.id) && s.dispatcher.row.finalizedAt.Some?
    ensures Apply(cfg, s, Process(None)) == Looked(cfg, s, s.dispatcher.id, s.dispatcher.row)
  {
    hide History.BuildWindow, ExhaustedMessage, MarkExhausted;
  }

  /** With an answer that changes no neighbour, preparing the last job always succeeds. */
  lemma ActorPrepares(cfg: Config, s: System)
    requires s.jobs != []
    ensures var s1 := Apply(cfg, s, PrepareJob(|s.jobs| - 1, NoAnalysis(), [], NoEvolution()));
            && s1 == s.(drafts := s1.drafts) && |s1.drafts| == |s.drafts| + 1
            && s1.drafts[|s.drafts|].turn == s.jobs[|s.jobs| - 1].turn
  {
  }

  /** Preparing the last job and persisting it stores the turn in hand. */
  lemma ActorStores(cfg: Config, s: System)
    requires Inv(cfg, s) && s.dispatcher.Awaiting? && InProcess(s.tables.turns, s.dispatcher.id)
    requires s.jobs != [] && s.jobs[|s.jobs| - 1].turn == s.dispatcher.id
    ensures var events :=
              [PrepareJob(|s.jobs| - 1, NoAnalysis(), [], NoEvolution()), PersistDraft(|s.drafts|), Answer(Done, 0)];
            var s' := Run(cfg, s, events);
            s'.tables.turns == MarkStored(s.tables.turns, s.dispatcher.id, s.clock) && s'.dispatcher.Idle?
  {
    hide Inv, MemoryGraph.Persist, MemoryGraph.Prepare, Run;
    var prepare, persist := PrepareJob(|s.jobs| - 1, NoAnalysis(), [], NoEvolution()), PersistDraft(|s.drafts|);
    var s1 := Apply(cfg, s, prepare);
    ApplyKeepsInv(cfg, s, prepare);
    ActorPrepares(cfg, s);
    Guarantees.PersistEffect(cfg, s1, |s.drafts|);
    RunThree(cfg, s, prepare, persist, Answer(Done, 0));
  }

  /** A round does what this run of events does: the two descriptions of the dispatcher agree. */
  lemma RoundIsRun(cfg: Config, s: System, ending: Ending)
    requires Inv(cfg, s) && s.dispatcher.Idle? && SelectDue(s.tables.turns, |s.tables.turns|, s.clock).Some?
    ensures var i := SelectDue(s.tables.turns, |s.tables.turns|, s.clock).value;
            var s' := Run(cfg, s, RoundEvents(s, cfg, s.tables.turns[i].attempts, ending));
            s'.tables.turns == RunOnce(cfg.maxAttempts, s.tables.turns, s.clock, ending) && s'.dispatcher.Idle?
  {
    hide Inv, Apply, Run, History.BuildWindow, ExhaustedMessage, MarkStored, MarkFailed, MarkRetryable, MarkExhausted;
    var i := SelectDue(s.tables.turns, |s.tables.turns|, s.clock).value;
    RoundBegins(cfg, s);
    var s1 := Apply(cfg, s, ClaimNext(s.clock));
    ApplyKeepsInv(cfg, s, ClaimNext(s.clock));
    var s2 := Apply(cfg, s1, Process(None));
    ApplyKeepsInv(cfg, s1, Process(None));
    var events := RoundEvents(s, cfg, s.tables.turns[i].attempts, ending);
    var rest := events[2..];
    assert events == [ClaimNext(s.clock)] + ([Process(None)] + rest);
    RunStep(cfg, s, ClaimNext(s.clock), [Process(None)] + rest);
    RunStep(cfg, s1, Process(None), rest);
    assert Run(cfg, s, events) == Run(cfg, s2, rest);
    if s.tables.turns[i].attempts >= cfg.maxAttempts {
      assert rest == [];
      RunNothing(cfg, s2);
    } else {
      RoundFinishes(cfg, s2, ending, rest);
    }
  }

  lemma RunNothing(cfg: Config, s: System)
    ensures Run(cfg, s, []) == s
  {
  }

  lemma RoundFinishes(cfg: Config, s: System, ending: Ending, rest: seq<Event>)
    requires Inv(cfg, s) && s.dispatcher.Awaiting? && InProcess(s.tables.turns, s.dispatcher.id)
    requires s.jobs != [] && s.jobs[|s.jobs| - 1].turn == s.dispatcher.id
    requires s.dispatcher.row == s.tables.turns[s.dispatcher.id] && s.dispatcher.row.attempts < cfg.maxAttempts
    requires rest == match ending
                     case Persisted =>
                       [PrepareJob(|s.jobs| - 1, NoAnalysis(), [], NoEvolution()), PersistDraft(|s.drafts|),
                        Answer(Done, 0)]
                     case Unrecoverable(error) => [Answer(Abandon(error), 0)]
                     case Retryable(error, delay) => [Answer(Retry(error), delay)]
    ensures var s' := Run(cfg, s, rest);
            s'.tables.turns == Finish(cfg.maxAttempts, s.tables.turns, s.dispatcher.id, s.clock, ending)
                && s'.dispatcher.Idle?
  {
    hide Inv, Apply, MarkStored, MarkFailed, MarkRetryable, MarkExhausted;
    match ending
    case Persisted => ActorStores(cfg, s);
    case Unrecoverable(error) =>
      AnswerEnds(cfg, s, Abandon(error), 0);
      assert rest[..0] == [];
    case Retryable(error, delay) =>
      AnswerEnds(cfg, s, Retry(error), delay);
      assert rest[..0] == [];
  }

  lemma AnswerEnds(cfg: Config, s: System, reply: Reply, delay: nat)
    requires s.dispatcher.Awaiting? && InProcess(s.tables.turns, s.dispatcher.id) && !reply.Done?
    ensures var s' := Apply(cfg, s, Answer(reply, delay));
            var id, row, turns := s.dispatcher.id, s.dispatcher.row, s.tables.turns;
            && s'.dispatcher.Idle?
            && s'.tables.turns ==
                 if reply.Abandon? then MarkFailed(turns, id, reply.error)
                 else if row.attempts + 1 < cfg.maxAttempts
                     then MarkRetryable(turns, id, reply.error, row.attempts + 1, s.clock + delay)
                 else MarkExhausted(turns, id, reply.error, row.attempts + 1)
  {
  }

  // --- The clock ---

  lemma ClockStaysOnce(cfg: Config, s: System, e: Event)
    requires !e.Tick?
    ensures Apply(cfg, s, e).clock == s.clock
  {
    hide Claim, Recover, MarkRetryable, MarkFailed, MarkExhausted, MarkStored, Prepare, History.BuildWindow, Deadline,
      MemoryGraph.Persist, ExhaustedMessage, Staging.Stage;
  }

  lemma {:induction false} ClockStays(cfg: Config, s: System, events: seq<Event>)
    requires forall e :: e in events ==> !e.Tick?
    ensures Run(cfg, s, events).clock == s.clock
  {
    hide Apply;
    if events != [] {
      var init, last := events[..|events| - 1], events[|events| - 1];
      assert last in events && forall e :: e in init ==> e in events;
      ClockStays(cfg, s, init);
      ClockStaysOnce(cfg, Run(cfg, s, init), last);
    }
  }

  // --- Waiting for a deadline ---

  /** With the next turn due later, the dispatcher sleeps until then. */
  lemma WaitIsRun(cfg: Config, s: System, at: Time)
    requires s.dispatcher.Idle? && s.clock < at && SelectDue(s.tables.turns, |s.tables.turns|, s.clock).None?
    requires SelectNext(s.tables.turns, |s.tables.turns|).Some?
    requires s.tables.turns[SelectNext(s.tables.turns, |s.tables.turns|).value].nextAttemptAt == Some(at)
    ensures Run(cfg, s, [ClaimNext(s.clock), ReadDeadline, Tick(at - s.clock), Wake(false)]) == s.(clock := at)
  {
    WaitSteps(cfg, s, at);
    hide Apply, SelectDue, SelectNext;
    var claim, read, tick, wake := ClaimNext(s.clock), ReadDeadline, Tick(at - s.clock), Wake(false);
    RunStep(cfg, s, claim, [read, tick, wake]);
    RunThree(cfg, Apply(cfg, s, claim), read, tick, wake);
    assert [claim, read, tick, wake] == [claim] + [read, tick, wake];
  }

  lemma WaitSteps(cfg: Config, s: System, at: Time)
    requires s.dispatcher.Idle? && s.clock < at && SelectDue(s.tables.turns, |s.tables.turns|, s.clock).None?
    requires SelectNext(s.tables.turns, |s.tables.turns|).Some?
    requires s.tables.turns[SelectNext(s.tables.turns, |s.tables.turns|).value].nextAttemptAt == Some(at)
    ensures var s2 := Apply(cfg, Apply(cfg, s, ClaimNext(s.clock)), ReadDeadline);
            Apply(cfg, Apply(cfg, s2, Tick(at - s.clock)), Wake(false)) == s.(clock := at)
  {
    hide SelectDue, SelectNext;
    var s1 := Apply(cfg, s, ClaimNext(s.clock));
    assert s1 == s.(dispatcher := NothingDue);
    assert Apply(cfg, s1, ReadDeadline) == s.(dispatcher := Parked(Some(at), false));
  }

  // --- The whole drain ---

  /** Nothing is delivered and nothing fails. */
  predicate Undisturbed(events: seq<Event>) {
    forall e :: e in events ==> !e.Ingest? && !e.DatabaseError? && !e.Crash? && !e.Restart? && !e.Backoff?
  }

  /** The wait before a round, if there is one. */
  lemma WaitFor(cfg: Config, s: System, i: nat) returns (events: seq<Event>)
    requires RowsFit(s.tables.turns) && s.dispatcher.Idle?
    requires SelectNext(s.tables.turns, |s.tables.turns|) == Some(i) && s.tables.turns[i].nextAttemptAt.Some?
    ensures Run(cfg, s, events) == s.(clock := NextRound(s.tables.turns, i, s.clock)) && Undisturbed(events)
  {
    hide Run, Apply, SelectDue, SelectNext, RowCheck;
    ClaimMatchesDeadline(s.tables.turns, s.clock);
    var at := s.tables.turns[i].nextAttemptAt.value;
    if at <= s.clock {
      events := [];
      RunNothing(cfg, s);
    } else {
      events := [ClaimNext(s.clock), ReadDeadline, Tick(at - s.clock), Wake(false)];
      WaitIsRun(cfg, s, at);
    }
  }

  lemma RoundQuiet(cfg: Config, s: System, attempts: nat, ending: Ending)
    ensures Undisturbed(RoundEvents(s, cfg, attempts, ending))
    ensures forall e :: e in RoundEvents(s, cfg, attempts, ending) ==> !e.Tick?
  {
  }

  lemma RowsFitIn(cfg: Config, s: System)
    requires Inv(cfg, s)
    ensures RowsFit(s.tables.turns)
  {
    hide IndexAgrees, LinksSound, ClaimsInOrder, JobsFaithful, DraftsFaithful, StoredOnce, HandFaithful, WithinBudget;
  }

  /** However the rounds are to end, an undisturbed run of events drains the queue as `DrainAll` does. */
  lemma {:induction false} DrainIsRun(cfg: Config, s: System, endings: nat -> Ending, round: nat)
                                      returns (events: seq<Event>)
    requires Inv(cfg, s) && s.dispatcher.Idle? && RowsFit(s.tables.turns)
    ensures var s' := Run(cfg, s, events);
            s'.tables.turns == DrainAll(cfg.maxAttempts, s.tables.turns, s.clock, endings, round) && s'.dispatcher.Idle?
    ensures Undisturbed(events)
    decreases Work(cfg.maxAttempts, s.tables.turns)
  {
    hide Inv, Run, Apply, SelectDue, SelectNext, RowCheck, Work, RunOnce, RoundEvents;
    var turns := s.tables.turns;
    var next := SelectNext(turns, |turns|);
    if next.None? {
      events := [];
      RunNothing(cfg, s);
    } else {
      ClaimMatchesDeadline(turns, s.clock);
      var due := NextRound(turns, next.value, s.clock);
      ClaimMatchesDeadline(turns, due);
      RoundsUseWork(cfg.maxAttempts, turns, due, endings(round));
      RoundEffect(cfg.maxAttempts, turns, due, endings(round));
      var wait := WaitFor(cfg, s, next.value);
      var s1 := s.(clock := due);
      RunKeepsInv(cfg, s, wait);
      var now := OneRound(cfg, s1, endings(round));
      var s2 := Run(cfg, s1, now);
      RunKeepsInv(cfg, s1, now);
      RowsFitIn(cfg, s2);
      var later := DrainIsRun(cfg, s2, endings, round + 1);
      events := wait + (now + later);
      Guarantees.RunSplits(cfg, s, wait, now + later);
      Guarantees.RunSplits(cfg, s1, now, later);
    }
  }

  lemma OneRound(cfg: Config, s: System, ending: Ending) returns (events: seq<Event>)
    requires Inv(cfg, s) && s.dispatcher.Idle? && SelectDue(s.tables.turns, |s.tables.turns|, s.clock).Some?
    ensures var s' := Run(cfg, s, events);
            && s'.tables.turns == RunOnce(cfg.maxAttempts, s.tables.turns, s.clock, ending)
            && s'.dispatcher.Idle? && s'.clock == s.clock
    ensures Undisturbed(events)
  {
    hide Inv, Run, Apply, RunOnce, RoundEvents;
    var i := SelectDue(s.tables.turns, |s.tables.turns|, s.clock).value;
    events := RoundEvents(s, cfg, s.tables.turns[i].attempts, ending);
    RoundIsRun(cfg, s, ending);
    RoundQuiet(cfg, s, s.tables.turns[i].attempts, ending);
    ClockStays(cfg, s, events);
  }
}
