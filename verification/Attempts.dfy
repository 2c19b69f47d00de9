/**
 * The attempt counter and its cap. The cap is checked when a turn is claimed and when an attempt fails, but recovery
 * counts an attempt without looking: the counter passes the cap exactly when a recovery finds a turn in processing at
 * it.
 */
module Attempts {
  import opened Options
  import opened Tables
  import opened Replay
  import opened Staging
  import opened Dispatch
  import opened History
  import opened MemoryGraph
  import opened Service
  import opened FirstTurns

  // --- When the cap holds ---

  /** A turn is handed to the actor only below the cap. */
  ghost predicate HandUnderCap(cfg: Config, d: Dispatcher) {
    d.Awaiting? ==> d.row.attempts < cfg.maxAttempts
  }

  /** The event recovers the turns left in processing. */
  predicate Recovers(s: System, event: Event) {
    (event.Restart? && s.dispatcher.Booting?) || (event.Backoff? && event.recovered && s.dispatcher.Broken?)
  }

  predicate OverCap(cfg: Config, turns: seq<Turn>, i: nat) {
    i < |turns| && turns[i].attempts > cfg.maxAttempts
  }

  /** A recovery finds the turn in processing with its attempts used up. */
  predicate PassesCap(cfg: Config, s: System, event: Event, i: nat) {
    Recovers(s, event) && InProcess(s.tables.turns, i) && s.tables.turns[i].attempts == cfg.maxAttempts
  }

  /** What an event may do to the attempts of turn `i`: nothing, or count one that failed below the cap, or recover. */
  ghost predicate Counts(cfg: Config, s: System, event: Event, turns: seq<Turn>, i: nat) {
    && |s.tables.turns| <= |turns|
    && (i < |turns| ==>
          if i >= |s.tables.turns| then turns[i].attempts == 0
          else if Recovers(s, event) && InProcess(s.tables.turns, i)
              then turns[i].attempts == s.tables.turns[i].attempts + 1
          else
            || turns[i].attempts == s.tables.turns[i].attempts
            || (s.tables.turns[i].attempts < cfg.maxAttempts && turns[i].attempts == s.tables.turns[i].attempts + 1))
  }

  lemma IngestCounts(cfg: Config, s: System, e: Envelope, i: nat)
    requires SingleOpen(s.tables.turns)
    ensures Counts(cfg, s, Ingest(e), Stage(s.tables, e, s.clock).0.turns, i)
  {
    hide Stage;
    if Accepted(s.tables, e, s.clock) {
      var n := StageDelivers(s.tables, e, s.clock);
      ReceivedAttempts(s.tables, e, n, s.clock);
      hide Received, NewFragment, HasFragments;
    } else {
      RefusalChangesNothing(s.tables, e, s.clock);
    }
  }

  lemma ReceivedAttempts(t: Tables, e: Envelope, i: nat, now: Time)
    ensures Received(t, e, i, now).attempts == if i < |t.turns| then t.turns[i].attempts else 0
  {
    hide Fold, TurnRows;
  }

  lemma ClaimCounts(cfg: Config, s: System, now: Time, i: nat)
    ensures Counts(cfg, s, ClaimNext(now), DoClaim(s, now).tables.turns, i)
  {
    hide SelectDue;
  }

  /** Marking a turn keeps its attempts, or counts one more below the cap. */
  lemma SetCounts(cfg: Config, s: System, event: Event, id: nat, row: Turn, i: nat)
    requires !Recovers(s, event)
    requires id < |s.tables.turns| ==>
               || row.attempts == s.tables.turns[id].attempts
               || (s.tables.turns[id].attempts < cfg.maxAttempts && row.attempts == s.tables.turns[id].attempts + 1)
    ensures Counts(cfg, s, event, SetProcessing(s.tables.turns, id, row), i)
  {
  }

  lemma MarkCounts(cfg: Config, s: System, event: Event, id: nat, turns: seq<Turn>, i: nat)
    requires !Recovers(s, event) && Counts(cfg, s, event, turns, i)
    ensures Counts(cfg, s, event, Mark(s, id, turns).tables.turns, i)
  {
    NothingCounts(cfg, s, event, i);
    hide Counts;
  }

  lemma ProcessCounts(cfg: Config, s: System, fault: Option<string>, i: nat)
    requires Inv(cfg, s)
    ensures Counts(cfg, s, Process(fault), DoProcess(cfg, s, fault).tables.turns, i)
  {
    hide Inv, BuildWindow, ExhaustedMessage, Counts, MarkExhausted, MarkFailed, Mark;
    var event := Process(fault);
    NothingCounts(cfg, s, event, i);
    if s.dispatcher.Holding? {
      HandFacts(cfg, s);
      var id, row := s.dispatcher.id, s.dispatcher.row;
      var used := if row.lastError.Some? then row.lastError.value else ExhaustedMessage(cfg.maxAttempts);
      ExhaustCounts(cfg, s, event, id, used, row.attempts, i);
      FailCounts(cfg, s, event, id, "claimed processing turn is missing finalized_at", i);
      FailCounts(cfg, s, event, id, if fault.Some? then fault.value else "", i);
    }
  }

  lemma ExhaustCounts(cfg: Config, s: System, event: Event, id: nat, error: string, attempts: nat, i: nat)
    requires !Recovers(s, event) && id < |s.tables.turns|
    requires || attempts == s.tables.turns[id].attempts
             || (s.tables.turns[id].attempts < cfg.maxAttempts && attempts == s.tables.turns[id].attempts + 1)
    ensures Counts(cfg, s, event, Mark(s, id, MarkExhausted(s.tables.turns, id, error, attempts)).tables.turns, i)
  {
    hide Counts, Mark, SetProcessing;
    SetCounts(cfg, s, event, id, ExhaustedTurn(s.tables.turns[id], error, attempts), i);
    MarkCounts(cfg, s, event, id, MarkExhausted(s.tables.turns, id, error, attempts), i);
  }

  lemma FailCounts(cfg: Config, s: System, event: Event, id: nat, error: string, i: nat)
    requires !Recovers(s, event) && id < |s.tables.turns|
    ensures Counts(cfg, s, event, Mark(s, id, MarkFailed(s.tables.turns, id, error)).tables.turns, i)
  {
    hide Counts, Mark, SetProcessing;
    SetCounts(cfg, s, event, id, FailedTurn(s.tables.turns[id], error), i);
    MarkCounts(cfg, s, event, id, MarkFailed(s.tables.turns, id, error), i);
  }

  lemma PersistCounts(cfg: Config, s: System, draft: nat, i: nat)
    ensures Counts(cfg, s, PersistDraft(draft), DoPersist(s, draft).tables.turns, i)
  {
    hide MemoryGraph.Persist;
  }

  lemma AnswerCounts(cfg: Config, s: System, reply: Reply, delay: nat, i: nat)
    requires Inv(cfg, s) && HandUnderCap(cfg, s.dispatcher)
    ensures Counts(cfg, s, Answer(reply, delay), DoAnswer(cfg, s, reply, delay).tables.turns, i)
  {
    hide Inv, Counts, SetProcessing, Mark, MarkFailed, MarkExhausted;
    var event := Answer(reply, delay);
    NothingCounts(cfg, s, event, i);
    if s.dispatcher.Awaiting? && !reply.Done? {
      HandFacts(cfg, s);
      var id, row, turns, at := s.dispatcher.id, s.dispatcher.row, s.tables.turns, s.clock + delay;
      FailCounts(cfg, s, event, id, reply.error, i);
      SetCounts(cfg, s, event, id, RetriedTurn(turns[id], reply.error, row.attempts + 1, at), i);
      MarkCounts(cfg, s, event, id, MarkRetryable(turns, id, reply.error, row.attempts + 1, at), i);
      ExhaustCounts(cfg, s, event, id, reply.error, row.attempts + 1, i);
    }
  }

  lemma RecoverCounts(cfg: Config, s: System, event: Event, i: nat)
    requires Recovers(s, event)
    ensures Counts(cfg, s, event, DoRecover(s).tables.turns, i)
  {
  }

  lemma NothingCounts(cfg: Config, s: System, event: Event, i: nat)
    requires !Recovers(s, event)
    ensures Counts(cfg, s, event, s.tables.turns, i)
  {
  }

  /** The events that touch no row. */
  predicate TouchesNothing(s: System, event: Event) {
    match event
    case Notify => true
    case ReadDeadline => true
    case Wake(_) => true
    case PrepareJob(_, _, _, _) => true
    case DatabaseError => true
    case Crash => true
    case Tick(_) => true
    case Backoff(_) => !Recovers(s, event)
    case Restart => !Recovers(s, event)
    case _ => false
  }

  lemma NothingTouched(cfg: Config, s: System, event: Event)
    requires TouchesNothing(s, event)
    ensures Apply(cfg, s, event).tables == s.tables && !Recovers(s, event)
  {
    hide Prepare, Deadline, Recover;
  }

  lemma EventCounts(cfg: Config, s: System, event: Event, i: nat)
    requires Inv(cfg, s) && HandUnderCap(cfg, s.dispatcher)
    ensures Counts(cfg, s, event, Apply(cfg, s, event).tables.turns, i)
  {
    OneOpen(cfg, s);
    hide Inv, Counts, Stage, DoClaim, DoProcess, DoPersist, DoAnswer, DoPrepare, DoReadDeadline, DoWake, SingleOpen,
      Recover;
    if TouchesNothing(s, event) {
      NothingTouched(cfg, s, event);
      NothingCounts(cfg, s, event, i);
    } else {
      match event
      case Ingest(e) => IngestCounts(cfg, s, e, i);
      case ClaimNext(now) => ClaimCounts(cfg, s, now, i);
      case Process(fault) => ProcessCounts(cfg, s, fault, i);
      case PersistDraft(draft) => PersistCounts(cfg, s, draft, i);
      case Answer(reply, delay) => AnswerCounts(cfg, s, reply, delay, i);
      case Backoff(_) => RecoverCounts(cfg, s, event, i);
      case Restart => RecoverCounts(cfg, s, event, i);
    }
  }

  lemma EventKeepsHand(cfg: Config, s: System, event: Event)
    requires HandUnderCap(cfg, s.dispatcher)
    ensures HandUnderCap(cfg, Apply(cfg, s, event).dispatcher)
  {
    hide Stage, Claim, Recover, MarkExhausted, MarkFailed, MarkRetryable, MarkStored, Prepare, Deadline, BuildWindow,
      ExhaustedMessage, MemoryGraph.Persist;
  }

  lemma OneOpen(cfg: Config, s: System)
    requires Inv(cfg, s)
    ensures SingleOpen(s.tables.turns)
  {
    hide IndexAgrees, LinksSound, ClaimsInOrder, JobsFaithful, DraftsFaithful, StoredOnce, HandFaithful, WithinBudget;
  }

  /** One event takes a turn past the cap exactly when it recovers the turn at the cap. */
  lemma CapPassedExactly(cfg: Config, s: System, event: Event, i: nat)
    requires Inv(cfg, s) && HandUnderCap(cfg, s.dispatcher)
    ensures OverCap(cfg, Apply(cfg, s, event).tables.turns, i) <==>
            OverCap(cfg, s.tables.turns, i) || PassesCap(cfg, s, event, i)
  {
    EventCounts(cfg, s, event, i);
    hide Inv, Apply, HandUnderCap;
  }

  lemma {:induction false} RunKeepsHand(cfg: Config, clock: Time, events: seq<Event>)
    ensures HandUnderCap(cfg, Run(cfg, Initial(clock), events).dispatcher)
  {
    hide Apply;
    if events != [] {
      hide Initial, HandUnderCap;
      RunKeepsHand(cfg, clock, events[..|events| - 1]);
      EventKeepsHand(cfg, Run(cfg, Initial(clock), events[..|events| - 1]), events[|events| - 1]);
    }
  }

  /** Somewhere in the run a recovery found the turn in processing with its attempts used up. */
  ghost predicate PassedCap(cfg: Config, clock: Time, events: seq<Event>, i: nat) {
    exists k :: 0 <= k < |events| && PassesCap(cfg, Run(cfg, Initial(clock), events[..k]), events[k], i)
  }

  lemma PassedCapSnoc(cfg: Config, clock: Time, events: seq<Event>, i: nat)
    requires events != []
    ensures var n := |events| - 1;
            PassedCap(cfg, clock, events, i) <==>
            PassedCap(cfg, clock, events[..n], i) || PassesCap(cfg, Run(cfg, Initial(clock), events[..n]), events[n], i)
  {
    hide Run, Initial, PassesCap;
    var n := |events| - 1;
    forall k | 0 <= k < n ensures events[..n][..k] == events[..k] && events[..n][k] == events[k] {}
    if k :| 0 <= k < n && PassesCap(cfg, Run(cfg, Initial(clock), events[..n][..k]), events[..n][k], i) {
      assert PassesCap(cfg, Run(cfg, Initial(clock), events[..k]), events[k], i);
    }
  }

  /**
   * Over a whole run the attempts of a turn exceed the cap exactly when a recovery found it in processing at the cap.
   */
  lemma {:induction false} CapExactly(cfg: Config, clock: Time, events: seq<Event>, i: nat)
    ensures OverCap(cfg, Run(cfg, Initial(clock), events).tables.turns, i) <==> PassedCap(cfg, clock, events, i)
  {
    hide Apply, PassedCap, PassesCap;
    if events == [] {
      NothingPassed(cfg, clock, i);
    } else {
      hide Initial, OverCap;
      var init, last := events[..|events| - 1], events[|events| - 1];
      CapExactly(cfg, clock, init, i);
      Reachable(cfg, clock, init);
      RunKeepsHand(cfg, clock, init);
      hide Inv, HandUnderCap;
      CapPassedExactly(cfg, Run(cfg, Initial(clock), init), last, i);
      PassedCapSnoc(cfg, clock, events, i);
    }
  }

  lemma NothingPassed(cfg: Config, clock: Time, i: nat)
    ensures !PassedCap(cfg, clock, [], i) && !OverCap(cfg, Initial(clock).tables.turns, i)
  {
  }

  // --- No bound without the condition ---

  /** One finalized turn waits for its next attempt; nothing was ever handed to the actor. */
  ghost predicate Waiting(s: System, clock: Time, attempts: nat) {
    && s.dispatcher.Idle? && s.jobs == [] && s.clock == clock
    && |s.tables.turns| == 1 && s.tables.turns[0].status.Finalized? && s.tables.turns[0].attempts == attempts
    && s.tables.turns[0].nextAttemptAt == Some(clock)
  }

  /** A claim, a crash and a restart count as an attempt. */
  lemma InterruptedOnce(cfg: Config, s: System, clock: Time, attempts: nat)
    requires Waiting(s, clock, attempts)
    ensures Waiting(Apply(cfg, Apply(cfg, Apply(cfg, s, ClaimNext(clock)), Crash), Restart), clock, attempts + 1)
  {
    var turns := s.tables.turns;
    assert Due(turns, 0, clock);
    assert SelectDue(turns, 1, clock) == Some(0);
    var s1 := Apply(cfg, s, ClaimNext(clock));
    assert s1.tables.turns == [ClaimedTurn(turns[0], clock)];
  }

  lemma {:induction false} InterruptedOften(cfg: Config, clock: Time, attempts: nat) returns (events: seq<Event>)
    ensures Waiting(Run(cfg, Initial(clock), events), clock, attempts)
  {
    if attempts == 0 {
      events := FirstWait(cfg, clock, Envelope("c", Some("t"), "1", None, Hard, Other));
    } else {
      hide Waiting, Apply, Run, Initial;
      var before := InterruptedOften(cfg, clock, attempts - 1);
      var s := Initial(clock);
      InterruptedOnce(cfg, Run(cfg, s, before), clock, attempts - 1);
      RunSnoc(cfg, s, before, ClaimNext(clock));
      RunSnoc(cfg, s, before + [ClaimNext(clock)], Crash);
      RunSnoc(cfg, s, before + [ClaimNext(clock)] + [Crash], Restart);
      events := before + [ClaimNext(clock)] + [Crash] + [Restart];
    }
  }

  lemma FirstWait(cfg: Config, clock: Time, e: Envelope) returns (events: seq<Event>)
    requires e.terminality.Hard? && e.hint.None? && e.turnId.Some?
    ensures Waiting(Run(cfg, Initial(clock), events), clock, 0)
  {
    events := [] + [Ingest(e)] + [Restart];
    RunSnoc(cfg, Initial(clock), [], Ingest(e));
    RunSnoc(cfg, Initial(clock), [] + [Ingest(e)], Restart);
    FirstSteps(cfg, clock, e);
    assert Run(cfg, Initial(clock), []) == Initial(clock);
    hide Run, Apply, Waiting;
  }

  lemma FirstSteps(cfg: Config, clock: Time, e: Envelope)
    requires e.terminality.Hard? && e.hint.None? && e.turnId.Some?
    ensures Waiting(Apply(cfg, Apply(cfg, Initial(clock), Ingest(e)), Restart), clock, 0)
  {
    FirstDelivery(e, clock);
    hide Stage, Claim, BuildWindow, Mark;
  }

  /** The counter has no bound: interruptions alone take it past any cap, without a single dispatch. */
  lemma AttemptsPassAnyCap(cfg: Config, clock: Time, attempts: nat)
    ensures exists events ::
              var s := Run(cfg, Initial(clock), events);
              |s.tables.turns| == 1 && s.tables.turns[0].attempts == attempts && Dispatches(s.jobs, 0) == 0
  {
    var events := InterruptedOften(cfg, clock, attempts);
    assert Waiting(Run(cfg, Initial(clock), events), clock, attempts);
  }
}
