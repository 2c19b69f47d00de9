/**
 * Progress over every run: while no turn is finalized, the number of claims is bounded by the attempts that are left,
 * and a dispatcher that has gone to sleep for good has left nothing behind that it could have claimed.
 */
module Progress {
  import opened Options
  import opened Tables
  import opened Staging
  import opened Dispatch
  import opened MemoryGraph
  import opened Service
  import opened Attempts
  import opened Wakeup
  import opened Handshake
  import Draining

  // --- What is left to do ---

  /** The claims a row can still take: one per attempt left, and one to see that there is none. */
  function RowLeft(maxAttempts: nat, t: Turn): nat {
    if t.status.Processing? then (if t.attempts < maxAttempts then maxAttempts - t.attempts else 0)
    else Draining.RowWork(maxAttempts, t)
  }

  function Left(maxAttempts: nat, turns: seq<Turn>): nat {
    if turns == [] then 0 else Left(maxAttempts, turns[..|turns| - 1]) + RowLeft(maxAttempts, turns[|turns| - 1])
  }

  /** No row has more left than before, and new rows have nothing. */
  ghost predicate Lessens(maxAttempts: nat, turns: seq<Turn>, turns': seq<Turn>) {
    && |turns| <= |turns'|
    && (forall j :: 0 <= j < |turns| ==> RowLeft(maxAttempts, turns'[j]) <= RowLeft(maxAttempts, turns[j]))
    && (forall j :: |turns| <= j < |turns'| ==> RowLeft(maxAttempts, turns'[j]) == 0)
  }

  lemma {:induction false} LessensLeft(maxAttempts: nat, turns: seq<Turn>, turns': seq<Turn>)
    requires Lessens(maxAttempts, turns, turns')
    ensures Left(maxAttempts, turns') <= Left(maxAttempts, turns)
  {
    hide RowLeft;
    if turns' != [] {
      var n := |turns'| - 1;
      if |turns| > n {
        LessensLeft(maxAttempts, turns[..n], turns'[..n]);
      } else {
        LessensLeft(maxAttempts, turns, turns'[..n]);
      }
    }
  }

  lemma {:induction false} LeftOfUpdate(maxAttempts: nat, turns: seq<Turn>, i: nat, row: Turn)
    requires i < |turns|
    ensures Left(maxAttempts, turns[i := row])
              == Left(maxAttempts, turns) - RowLeft(maxAttempts, turns[i]) + RowLeft(maxAttempts, row)
  {
    hide RowLeft;
    var last := |turns| - 1;
    if i < last {
      LeftOfUpdate(maxAttempts, turns[..last], i, row);
      assert turns[i := row][..last] == turns[..last][i := row];
    } else {
      assert turns[i := row][..last] == turns[..last];
    }
  }

  // --- What the events do to it ---

  /** No turn is finalized by the event, and no recovery finds a turn in processing whose attempts are used up. */
  ghost predicate Quiet(cfg: Config, s: System, event: Event) {
    && (event.Ingest? ==> !event.envelope.terminality.Hard?)
    && (Recovers(s, event) ==>
          forall i: nat :: InProcess(s.tables.turns, i) ==> s.tables.turns[i].attempts < cfg.maxAttempts)
  }

  /** The event claims a turn. */
  predicate Claims(s: System, event: Event) {
    event.ClaimNext? && s.dispatcher.Idle? && event.now <= s.clock
    && SelectDue(s.tables.turns, |s.tables.turns|, event.now).Some?
  }

  lemma SameLessens(maxAttempts: nat, turns: seq<Turn>)
    ensures Lessens(maxAttempts, turns, turns)
  {
  }

  /** One row that has no more left than before. */
  lemma SetLessens(maxAttempts: nat, turns: seq<Turn>, id: nat, row: Turn)
    requires InProcess(turns, id) ==> RowLeft(maxAttempts, row) <= RowLeft(maxAttempts, turns[id])
    ensures Lessens(maxAttempts, turns, SetProcessing(turns, id, row))
  {
    hide RowLeft;
  }

  lemma MarksLessen(maxAttempts: nat, turns: seq<Turn>, id: nat, error: string, attempts: nat, at: Time)
    ensures Lessens(maxAttempts, turns, MarkFailed(turns, id, error))
    ensures Lessens(maxAttempts, turns, MarkExhausted(turns, id, error, attempts))
    ensures Lessens(maxAttempts, turns, MarkStored(turns, id, at))
    ensures id < |turns| && turns[id].attempts < maxAttempts && attempts == turns[id].attempts + 1 ==>
              Lessens(maxAttempts, turns, MarkRetryable(turns, id, error, attempts, at))
  {
    hide Lessens, SetProcessing;
    SameLessens(maxAttempts, turns);
    if id < |turns| {
      SetLessens(maxAttempts, turns, id, FailedTurn(turns[id], error));
      SetLessens(maxAttempts, turns, id, ExhaustedTurn(turns[id], error, attempts));
      SetLessens(maxAttempts, turns, id, StoredTurn(turns[id], at));
      if turns[id].attempts < maxAttempts && attempts == turns[id].attempts + 1 {
        SetLessens(maxAttempts, turns, id, RetriedTurn(turns[id], error, attempts, at));
      }
    }
  }

  lemma MarkLessens(cfg: Config, s: System, id: nat, turns: seq<Turn>)
    requires Lessens(cfg.maxAttempts, s.tables.turns, turns)
    ensures Lessens(cfg.maxAttempts, s.tables.turns, Mark(s, id, turns).tables.turns)
  {
    SameLessens(cfg.maxAttempts, s.tables.turns);
    hide Lessens;
  }

  lemma ProcessLessens(cfg: Config, s: System, fault: Option<string>)
    ensures Lessens(cfg.maxAttempts, s.tables.turns, DoProcess(cfg, s, fault).tables.turns)
  {
    hide Lessens, MarkFailed, MarkExhausted, Mark, History.BuildWindow, ExhaustedMessage;
    SameLessens(cfg.maxAttempts, s.tables.turns);
    if s.dispatcher.Holding? {
      var id, row, turns := s.dispatcher.id, s.dispatcher.row, s.tables.turns;
      var used := if row.lastError.Some? then row.lastError.value else ExhaustedMessage(cfg.maxAttempts);
      var missing := "claimed processing turn is missing finalized_at";
      var error := if fault.Some? then fault.value else "";
      MarksLessen(cfg.maxAttempts, turns, id, used, row.attempts, 0);
      MarksLessen(cfg.maxAttempts, turns, id, missing, 0, 0);
      MarksLessen(cfg.maxAttempts, turns, id, error, 0, 0);
      MarkLessens(cfg, s, id, MarkExhausted(turns, id, used, row.attempts));
      MarkLessens(cfg, s, id, MarkFailed(turns, id, missing));
      MarkLessens(cfg, s, id, MarkFailed(turns, id, error));
    }
  }

  lemma PersistLessens(cfg: Config, s: System, draft: nat)
    ensures Lessens(cfg.maxAttempts, s.tables.turns, DoPersist(s, draft).tables.turns)
  {
    hide Lessens, MarkStored, MemoryGraph.Persist;
    SameLessens(cfg.maxAttempts, s.tables.turns);
    if draft < |s.drafts| {
      MarksLessen(cfg.maxAttempts, s.tables.turns, s.drafts[draft].turn, "", 0, s.clock);
    }
  }

  lemma AnswerLessens(cfg: Config, s: System, reply: Reply, delay: nat)
    requires Inv(cfg, s)
    ensures Lessens(cfg.maxAttempts, s.tables.turns, DoAnswer(cfg, s, reply, delay).tables.turns)
  {
    hide Inv, Lessens, MarkFailed, MarkExhausted, MarkRetryable, Mark;
    SameLessens(cfg.maxAttempts, s.tables.turns);
    if s.dispatcher.Awaiting? && !reply.Done? {
      HandFacts(cfg, s);
      var id, row, turns, at := s.dispatcher.id, s.dispatcher.row, s.tables.turns, s.clock + delay;
      MarksLessen(cfg.maxAttempts, turns, id, reply.error, row.attempts + 1, at);
      MarkLessens(cfg, s, id, MarkFailed(turns, id, reply.error));
      MarkLessens(cfg, s, id, MarkExhausted(turns, id, reply.error, row.attempts + 1));
      if row.attempts + 1 < cfg.maxAttempts {
        MarkLessens(cfg, s, id, MarkRetryable(turns, id, reply.error, row.attempts + 1, at));
      }
    }
  }

  lemma RecoverLessens(cfg: Config, s: System)
    requires forall i: nat :: InProcess(s.tables.turns, i) ==> s.tables.turns[i].attempts < cfg.maxAttempts
    ensures Lessens(cfg.maxAttempts, s.tables.turns, DoRecover(s).tables.turns)
  {
    var turns := s.tables.turns;
    forall j | 0 <= j < |turns|
      ensures RowLeft(cfg.maxAttempts, RecoveredTurn(turns[j], s.clock)) <= RowLeft(cfg.maxAttempts, turns[j])
    {
      assert InProcess(turns, j) ==> turns[j].attempts < cfg.maxAttempts;
    }
    hide RowLeft, RecoveredTurn;
  }

  lemma IngestLessens(cfg: Config, t: Tables, e: Envelope, now: Time)
    requires SingleOpen(t.turns) && !e.terminality.Hard?
    ensures Lessens(cfg.maxAttempts, t.turns, Stage(t, e, now).0.turns)
  {
    hide Stage, SingleOpen;
    if Accepted(t, e, now) {
      var i := StageDelivers(t, e, now);
      ReceivedOpen(t, e, i, now);
      hide Received, NewFragment, HasFragments;
    } else {
      RefusalChangesNothing(t, e, now);
    }
  }

  lemma ReceivedOpen(t: Tables, e: Envelope, i: nat, now: Time)
    requires !e.terminality.Hard? && (i < |t.turns| ==> t.turns[i].status.Open?)
    ensures Received(t, e, i, now).status.Open?
  {
  }

  /** A claim takes one from what is left. */
  lemma ClaimSpends(cfg: Config, s: System, now: Time)
    requires Claims(s, ClaimNext(now))
    ensures Left(cfg.maxAttempts, DoClaim(s, now).tables.turns) == Left(cfg.maxAttempts, s.tables.turns) - 1
  {
    hide Left;
    var i := SelectDue(s.tables.turns, |s.tables.turns|, now).value;
    LeftOfUpdate(cfg.maxAttempts, s.tables.turns, i, ClaimedTurn(s.tables.turns[i], now));
    hide SelectDue;
  }

  lemma NoClaim(cfg: Config, s: System, now: Time)
    requires !Claims(s, ClaimNext(now))
    ensures DoClaim(s, now).tables == s.tables
  {
    hide SelectDue;
  }

  lemma EventLessens(cfg: Config, s: System, event: Event)
    requires Inv(cfg, s) && Quiet(cfg, s, event) && !event.ClaimNext?
    ensures Lessens(cfg.maxAttempts, s.tables.turns, Apply(cfg, s, event).tables.turns)
  {
    OneOpen(cfg, s);
    hide Inv, Lessens, Stage, DoProcess, DoPersist, DoAnswer, DoPrepare, DoReadDeadline, DoWake, SingleOpen, Recover,
      InProcess;
    if TouchesNothing(s, event) {
      NothingTouched(cfg, s, event);
      SameLessens(cfg.maxAttempts, s.tables.turns);
    } else {
      match event
      case Ingest(e) => IngestLessens(cfg, s.tables, e, s.clock);
      case Process(fault) => ProcessLessens(cfg, s, fault);
      case PersistDraft(draft) => PersistLessens(cfg, s, draft);
      case Answer(reply, delay) => AnswerLessens(cfg, s, reply, delay);
      case Backoff(_) => RecoverLessens(cfg, s);
      case Restart => RecoverLessens(cfg, s);
    }
  }

  lemma ApplyClaim(cfg: Config, s: System, now: Time)
    ensures Apply(cfg, s, ClaimNext(now)) == DoClaim(s, now)
  {
    hide DoClaim;
  }

  /** Quiet events leave no more to do than before, and a claim leaves one less. */
  lemma EventSpends(cfg: Config, s: System, event: Event)
    requires Inv(cfg, s) && Quiet(cfg, s, event)
    ensures Left(cfg.maxAttempts, Apply(cfg, s, event).tables.turns) + (if Claims(s, event) then 1 else 0)
              <= Left(cfg.maxAttempts, s.tables.turns)
  {
    hide Inv, Left, Lessens, Apply, DoClaim, Quiet;
    if event.ClaimNext? {
      ApplyClaim(cfg, s, event.now);
      if Claims(s, event) { ClaimSpends(cfg, s, event.now); } else { NoClaim(cfg, s, event.now); }
    } else {
      EventLessens(cfg, s, event);
      LessensLeft(cfg.maxAttempts, s.tables.turns, Apply(cfg, s, event).tables.turns);
    }
  }

  // --- Every run ---

  ghost predicate QuietRun(cfg: Config, s: System, events: seq<Event>) {
    events == [] ||
    (&& QuietRun(cfg, s, events[..|events| - 1])
     && Quiet(cfg, Run(cfg, s, events[..|events| - 1]), events[|events| - 1]))
  }

  /** The number of claims in a run. */
  function ClaimCount(cfg: Config, s: System, events: seq<Event>): nat {
    if events == [] then 0
    else
      var init, last := events[..|events| - 1], events[|events| - 1];
      ClaimCount(cfg, s, init) + (if Claims(Run(cfg, s, init), last) then 1 else 0)
  }

  /** However a quiet run goes, it claims no more often than there was left to do at its start. */
  lemma {:induction false} ClaimsAreBounded(cfg: Config, s: System, events: seq<Event>)
    requires Inv(cfg, s) && QuietRun(cfg, s, events)
    ensures ClaimCount(cfg, s, events) + Left(cfg.maxAttempts, Run(cfg, s, events).tables.turns)
              <= Left(cfg.maxAttempts, s.tables.turns)
  {
    hide Inv, Apply, Left, Quiet, Claims;
    if events != [] {
      var init, last := events[..|events| - 1], events[|events| - 1];
      ClaimsAreBounded(cfg, s, init);
      RunKeepsInv(cfg, s, init);
      EventSpends(cfg, Run(cfg, s, init), last);
    }
  }

  /**
   * When a careful run has put the dispatcher to sleep without a deadline and nothing is about to wake it, every
   * finalized turn that is left has an open or a failed turn of lower index in its conversation.
   */
  lemma SleepLeavesNothing(cfg: Config, mode: Mode, clock: Time, events: seq<Event>, k: nat)
    requires CarefulRun(cfg, mode, Initial(clock), events)
    requires var s := Run(cfg, Initial(clock), events);
             && s.dispatcher == Parked(None, false) && !s.permit && s.notifying == 0
             && k < |s.tables.turns| && s.tables.turns[k].status.Finalized?
    ensures var turns := Run(cfg, Initial(clock), events).tables.turns;
            exists j :: 0 <= j < |turns| && Blocker(turns, j, k) && (turns[j].status.Open? || turns[j].status.Failed?)
  {
    hide Run, Initial, Apply, Ready, CarefulRun, OrderlyRun;
    CarefulRunsAreOrderly(cfg, mode, clock, events);
    NoLostWakeup(cfg, mode, clock, events);
    var turns := Run(cfg, Initial(clock), events).tables.turns;
    forall i | 0 <= i < |turns| ensures !turns[i].status.Processing? {
      assert !InProcess(turns, i);
    }
    Draining.LeftBehind(turns, k);
  }
}
