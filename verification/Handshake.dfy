/**
 * Runs in which the actor may persist late, more than once, or after its reply was lost: when its replies of success
 * are true and no recovery fails over a turn in processing, no wake-up is lost.
 */
module Handshake {
  import opened Options
  import opened Tables
  import opened Staging
  import opened Dispatch
  import opened Schema
  import opened MemoryGraph
  import opened Service
  import opened Wakeup

  ghost predicate NoneInProcess(turns: seq<Turn>) {
    forall i: nat :: !InProcess(turns, i)
  }

  /** A turn in processing is the one in the dispatcher's hands, or a recovery is due. */
  ghost predicate Accounted(turns: seq<Turn>, d: Dispatcher) {
    if d.Booting? || d.Broken? then true
    else if d.Holding? || d.Awaiting? then forall i: nat :: InProcess(turns, i) ==> i == d.id
    else NoneInProcess(turns)
  }

  /**
   * The event respects the conversation's mode; the actor's reply of success comes after its commit; and a recovery
   * does not fail while there is something to recover.
   */
  ghost predicate Careful(mode: Mode, s: System, event: Event) {
    && (event.Ingest? ==> event.envelope.turnId.Some? == mode(event.envelope.conversation))
    && (event.Answer? && event.reply.Done? && s.dispatcher.Awaiting? ==> !InProcess(s.tables.turns, s.dispatcher.id))
    && (event.Backoff? && !event.recovered ==> NoneInProcess(s.tables.turns))
  }

  ghost predicate CarefulRun(cfg: Config, mode: Mode, s: System, events: seq<Event>) {
    events == [] ||
    (&& CarefulRun(cfg, mode, s, events[..|events| - 1])
     && Careful(mode, Run(cfg, s, events[..|events| - 1]), events[|events| - 1]))
  }

  lemma MarkedIsOut(turns: seq<Turn>, id: nat, row: Turn)
    requires (forall i: nat :: InProcess(turns, i) ==> i == id) && id < |turns| && !row.status.Processing?
    ensures NoneInProcess(turns[id := row])
  {
    var turns' := turns[id := row];
    forall i: nat ensures !InProcess(turns', i) {
      if i < |turns| && i != id { assert !InProcess(turns, i); }
    }
  }

  lemma MarkAccounts(s: System, id: nat, turns: seq<Turn>)
    requires (forall i: nat :: InProcess(s.tables.turns, i) ==> i == id)
    requires InProcess(s.tables.turns, id) ==> NoneInProcess(turns)
    ensures Accounted(Mark(s, id, turns).tables.turns, Mark(s, id, turns).dispatcher)
  {
  }

  lemma ProcessAccounts(cfg: Config, s: System, fault: Option<string>)
    requires Accounted(s.tables.turns, s.dispatcher)
    ensures var s' := DoProcess(cfg, s, fault); Accounted(s'.tables.turns, s'.dispatcher)
  {
    hide Accounted, History.BuildWindow, ExhaustedMessage;
    if s.dispatcher.Holding? {
      HandIsAccounted(s);
      var id, row, turns := s.dispatcher.id, s.dispatcher.row, s.tables.turns;
      var error := if row.lastError.Some? then row.lastError.value else ExhaustedMessage(cfg.maxAttempts);
      MarksTakeOut(turns, id, error, row.attempts, 0);
      MarksTakeOut(turns, id, "claimed processing turn is missing finalized_at", 0, 0);
      MarksTakeOut(turns, id, if fault.Some? then fault.value else "", 0, 0);
      MarkAccounts(s, id, MarkExhausted(turns, id, error, row.attempts));
      MarkAccounts(s, id, MarkFailed(turns, id, "claimed processing turn is missing finalized_at"));
      MarkAccounts(s, id, MarkFailed(turns, id, if fault.Some? then fault.value else ""));
      HandStaysAccounted(s, row);
      hide Mark, MarkExhausted, MarkFailed;
    }
  }

  lemma HandIsAccounted(s: System)
    requires Accounted(s.tables.turns, s.dispatcher) && (s.dispatcher.Holding? || s.dispatcher.Awaiting?)
    ensures forall i: nat :: InProcess(s.tables.turns, i) ==> i == s.dispatcher.id
  {
  }

  lemma HandStaysAccounted(s: System, row: Turn)
    requires Accounted(s.tables.turns, s.dispatcher) && s.dispatcher.Holding?
    ensures Accounted(s.tables.turns, Awaiting(s.dispatcher.id, row))
  {
  }

  lemma MarksTakeOut(turns: seq<Turn>, id: nat, error: string, attempts: nat, at: Time)
    requires forall i: nat :: InProcess(turns, i) ==> i == id
    ensures InProcess(turns, id) ==>
              && NoneInProcess(MarkRetryable(turns, id, error, attempts, at))
                   && NoneInProcess(MarkFailed(turns, id, error))
              && NoneInProcess(MarkExhausted(turns, id, error, attempts))
  {
    if InProcess(turns, id) {
      MarkedIsOut(turns, id, RetriedTurn(turns[id], error, attempts, at));
      MarkedIsOut(turns, id, FailedTurn(turns[id], error));
      MarkedIsOut(turns, id, ExhaustedTurn(turns[id], error, attempts));
    }
  }

  lemma AnswerAccounts(cfg: Config, mode: Mode, s: System, reply: Reply, delay: nat)
    requires Accounted(s.tables.turns, s.dispatcher) && Careful(mode, s, Answer(reply, delay))
    ensures var s' := DoAnswer(cfg, s, reply, delay); Accounted(s'.tables.turns, s'.dispatcher)
  {
    if s.dispatcher.Awaiting? {
      hide Accounted;
      HandIsAccounted(s);
      var id, row, turns := s.dispatcher.id, s.dispatcher.row, s.tables.turns;
      if reply.Done? {
        IdleIsAccounted(turns);
      } else {
        var at := s.clock + delay;
        MarksTakeOut(turns, id, reply.error, row.attempts + 1, at);
        MarkAccounts(s, id, MarkRetryable(turns, id, reply.error, row.attempts + 1, at));
        MarkAccounts(s, id, MarkExhausted(turns, id, reply.error, row.attempts + 1));
        MarkAccounts(s, id, MarkFailed(turns, id, reply.error));
        hide Mark, MarkRetryable, MarkExhausted, MarkFailed;
      }
    }
  }

  lemma IdleIsAccounted(turns: seq<Turn>)
    requires NoneInProcess(turns)
    ensures Accounted(turns, Idle)
  {
  }

  lemma RecoverTakesOut(turns: seq<Turn>, now: Time)
    ensures NoneInProcess(Recover(turns, now))
  {
  }

  lemma PersistAccounts(s: System, draft: nat)
    requires Accounted(s.tables.turns, s.dispatcher)
    ensures Accounted(DoPersist(s, draft).tables.turns, s.dispatcher)
  {
    hide MemoryGraph.Persist;
    if draft < |s.drafts| && InProcess(s.tables.turns, s.drafts[draft].turn) {
      forall i: nat | InProcess(DoPersist(s, draft).tables.turns, i) ensures InProcess(s.tables.turns, i) {}
    }
  }

  lemma ClaimAccounts(s: System, now: Time)
    requires Accounted(s.tables.turns, s.dispatcher)
    ensures var s' := DoClaim(s, now); Accounted(s'.tables.turns, s'.dispatcher)
  {
    hide SelectDue;
    var candidate := SelectDue(s.tables.turns, |s.tables.turns|, now);
    if candidate.Some? && s.dispatcher.Idle? {
      forall i: nat | i != candidate.value ensures InProcess(DoClaim(s, now).tables.turns, i)
          ==> InProcess(s.tables.turns, i) {}
    }
  }

  lemma IngestAccounts(t: Tables, e: Envelope, now: Time, d: Dispatcher)
    requires Accounted(t.turns, d) && SingleOpen(t.turns)
    ensures Accounted(Stage(t, e, now).0.turns, d)
  {
    hide Stage;
    var t' := Stage(t, e, now).0;
    if Accepted(t, e, now) {
      var i := StageDelivers(t, e, now);
      ReceivedStatus(t, e, i, now);
      hide Received, SingleOpen;
      forall j: nat | InProcess(t'.turns, j) ensures InProcess(t.turns, j) {}
    } else {
      RefusalChangesNothing(t, e, now);
    }
  }

  lemma EventKeepsAccounted(cfg: Config, mode: Mode, s: System, event: Event)
    requires Inv(cfg, s) && Accounted(s.tables.turns, s.dispatcher) && Careful(mode, s, event)
    ensures var s' := Apply(cfg, s, event); Accounted(s'.tables.turns, s'.dispatcher)
  {
    ValidKeys(s.tables) by { assert Valid(s.tables); }
    hide Inv, Stage, DoClaim, DoProcess, DoAnswer, DoPersist, Deadline, Prepare, Recover, IndexesGrow, SingleOpen;
    match event
    case Ingest(e) => IngestAccounts(s.tables, e, s.clock, s.dispatcher);
    case ClaimNext(now) => ClaimAccounts(s, now);
    case Process(fault) => ProcessAccounts(cfg, s, fault);
    case PersistDraft(draft) => PersistAccounts(s, draft);
    case Answer(reply, delay) => AnswerAccounts(cfg, mode, s, reply, delay);
    case Backoff(_) => RecoverTakesOut(s.tables.turns, s.clock);
    case Restart => RecoverTakesOut(s.tables.turns, s.clock);
    case _ =>
  }

  /** With no turn in processing there is nothing to store behind the dispatcher's back. */
  lemma CarefulIsOrderly(mode: Mode, s: System, event: Event)
    requires Accounted(s.tables.turns, s.dispatcher) && Careful(mode, s, event)
    ensures Orderly(mode, s, event)
  {
    hide InProcess;
  }

  /** Every careful run is orderly, so that no wake-up is lost however late the actor persists. */
  lemma {:induction false} CarefulRunsAreOrderly(cfg: Config, mode: Mode, clock: Time, events: seq<Event>)
    requires CarefulRun(cfg, mode, Initial(clock), events)
    ensures OrderlyRun(cfg, mode, Initial(clock), events)
    ensures var s := Run(cfg, Initial(clock), events); Accounted(s.tables.turns, s.dispatcher)
  {
    hide Apply, Orderly, Careful, Accounted;
    if events == [] {
      AccountedAtFirst(clock);
    } else {
      hide Initial;
      var init, last := events[..|events| - 1], events[|events| - 1];
      CarefulRunsAreOrderly(cfg, mode, clock, init);
      var s := Run(cfg, Initial(clock), init);
      Reachable(cfg, clock, init);
      hide Inv;
      CarefulIsOrderly(mode, s, last);
      EventKeepsAccounted(cfg, mode, s, last);
    }
  }

  lemma AccountedAtFirst(clock: Time)
    ensures Accounted(Initial(clock).tables.turns, Initial(clock).dispatcher)
  {
  }
}
