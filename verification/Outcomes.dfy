/**
 * How a round of the dispatcher ends for the turn in its hands, column by column, and that a retry waits
 * out its delay.
 */
module Outcomes {
  import opened Options
  import opened Tables
  import opened Staging
  import opened Dispatch
  import opened Schema
  import opened History
  import opened MemoryGraph
  import opened Service
  import opened Guarantees
  import opened Draining

  // --- The ways a round ends ---

  /** The dispatcher is free again, and one turn's row is rewritten; nothing else changes. */
  predicate Ends(s: System, s': System, id: nat, status: Status, attempts: nat, error: string,
                 nextAttemptAt: Option<Time>) {
    && s' == s.(tables := Tables(s'.tables.turns, s.tables.fragments), dispatcher := Idle)
    && Rewrites(s.tables.turns, s'.tables.turns, id, status, attempts, Some(error), nextAttemptAt, None, None)
  }

  /** What the actor's answer does to the turn it was asked about, if that turn is still in processing. */
  lemma AnswerExactly(cfg: Config, s: System, reply: Reply, delay: nat)
    requires s.dispatcher.Awaiting?
    ensures var (id, made, turns) := (s.dispatcher.id, s.dispatcher.row.attempts + 1, s.tables.turns);
            var s' := Apply(cfg, s, Answer(reply, delay));
            if reply.Done? then s' == s.(dispatcher := Idle)
            else if !InProcess(turns, id) then s' == s.(dispatcher := Broken)
            else if reply.Abandon? then Ends(s, s', id, Failed, turns[id].attempts, reply.error, None)
            else if made < cfg.maxAttempts then Ends(s, s', id, Finalized, made, reply.error, Some(s.clock + delay))
            else Ends(s, s', id, Exhausted, made, reply.error, None)
  {
  }

  /** A claimed turn is given up when its attempts are used up, failed when it cannot be dispatched, or dispatched. */
  lemma ProcessExactly(cfg: Config, s: System, fault: Option<string>)
    requires s.dispatcher.Holding?
    ensures var (id, row, turns) := (s.dispatcher.id, s.dispatcher.row, s.tables.turns);
            var s' := Apply(cfg, s, Process(fault));
            if row.attempts < cfg.maxAttempts && row.finalizedAt.Some? && fault.None? then Dispatched(s, s', id, row)
            else if !InProcess(turns, id) then s' == s.(dispatcher := Broken)
            else if cfg.maxAttempts <= row.attempts then
              Ends(s, s', id, Exhausted, row.attempts, LastWord(cfg.maxAttempts, row), None)
            else if row.finalizedAt.None? then
              Ends(s, s', id, Failed, turns[id].attempts, "claimed processing turn is missing finalized_at", None)
            else Ends(s, s', id, Failed, turns[id].attempts, fault.value, None)
  {
    hide BuildWindow, ExhaustedMessage, LastWord, Ends;
    var id, row, s' := s.dispatcher.id, s.dispatcher.row, Apply(cfg, s, Process(fault));
    if InProcess(s.tables.turns, id) {
      if cfg.maxAttempts <= row.attempts {
        UsedUp(cfg, s, fault);
      } else if row.finalizedAt.None? {
        MarkedFailed(s, id, "claimed processing turn is missing finalized_at");
      } else if fault.Some? {
        MarkedFailed(s, id, fault.value);
      } else {
        JobIsTurns(cfg, s);
      }
    } else if row.attempts < cfg.maxAttempts && row.finalizedAt.Some? && fault.None? {
      JobIsTurns(cfg, s);
    }
  }

  /** The last error, or the message that says how many attempts there were. */
  function LastWord(maxAttempts: nat, row: Turn): string {
    if row.lastError.Some? then row.lastError.value
    else "processing retries exhausted after " + Decimal(maxAttempts) + " attempts"
  }

  /** A job for the turn is handed to the actor, with the turn as it was claimed. */
  predicate Dispatched(s: System, s': System, id: nat, row: Turn) {
    && s' == s.(jobs := s'.jobs, dispatcher := Awaiting(id, row))
    && |s'.jobs| == |s.jobs| + 1 && s.jobs <= s'.jobs
    && s'.jobs[|s.jobs|].turn == id && s'.jobs[|s.jobs|].window.current == row.projection
    && Some(s'.jobs[|s.jobs|].timestamp) == row.finalizedAt
  }

  lemma JobIsTurns(cfg: Config, s: System)
    requires s.dispatcher.Holding? && s.dispatcher.row.attempts < cfg.maxAttempts
    requires s.dispatcher.row.finalizedAt.Some?
    ensures Dispatched(s, DoProcess(cfg, s, None), s.dispatcher.id, s.dispatcher.row)
  {
  }

  lemma MarkedFailed(s: System, id: nat, error: string)
    requires InProcess(s.tables.turns, id)
    ensures Ends(s, Mark(s, id, MarkFailed(s.tables.turns, id, error)), id, Failed, s.tables.turns[id].attempts, error,
                 None)
  {
  }

  lemma UsedUp(cfg: Config, s: System, fault: Option<string>)
    requires s.dispatcher.Holding? && InProcess(s.tables.turns, s.dispatcher.id)
    requires cfg.maxAttempts <= s.dispatcher.row.attempts
    ensures var (id, row) := (s.dispatcher.id, s.dispatcher.row);
            Ends(s, DoProcess(cfg, s, fault), id, Exhausted, row.attempts, LastWord(cfg.maxAttempts, row), None)
  {
    hide BuildWindow, Decimal;
  }

  /** The draft of what was prepared for a job joins the others, unless preparing failed. */
  predicate Drafted(s: System, s': System, job: nat, r: Result<TurnWrite, PrepareError>)
    requires job < |s.jobs|
  {
    s' == (if r.Failure? then s else s.(drafts := s.drafts + [Draft(s.jobs[job].turn, r.value)]))
  }

  /** The actor's preparation of a job, with the answers it got, becomes a draft for the job's turn, unless it fails. */
  lemma PrepareExactly(cfg: Config, s: System, job: nat, analysis: Analysis, nearest: seq<nat>, evolution: Evolution)
    requires job < |s.jobs|
    ensures exists r, at ::
              && Prepared(s.graph.rows, cfg.encode, cfg.render(s.jobs[job].window.current), s.jobs[job].timestamp,
                          analysis, nearest, evolution, r, at)
              && Drafted(s, Apply(cfg, s, PrepareJob(job, analysis, nearest, evolution)), job, r)
  {
    hide Prepared, Prepare;
    var content, time := cfg.render(s.jobs[job].window.current), s.jobs[job].timestamp;
    var r := Prepare(s.graph.rows, cfg.encode, content, time, analysis, nearest, evolution);
    var at := MemoryGraph.PrepareExactly(s.graph.rows, cfg.encode, content, time, analysis, nearest, evolution);
    assert Drafted(s, Apply(cfg, s, PrepareJob(job, analysis, nearest, evolution)), job, r);
  }

  /** After a restart every interrupted turn is due, with one more attempt and its last error or a note. */
  lemma RestartExactly(cfg: Config, s: System)
    requires s.dispatcher.Booting?
    ensures var (turns, s') := (s.tables.turns, Apply(cfg, s, Restart));
            && s' == s.(tables := Tables(s'.tables.turns, s.tables.fragments), dispatcher := Idle)
            && Recovered(turns, s'.tables.turns, s.clock)
  {
  }

  /** So it is after an error, when the recovery works; the dispatcher then waits five seconds. */
  lemma BackoffExactly(cfg: Config, s: System, recovered: bool)
    requires s.dispatcher.Broken?
    ensures var (turns, s') := (s.tables.turns, Apply(cfg, s, Backoff(recovered)));
            && s' == s.(tables := Tables(s'.tables.turns, s.tables.fragments),
                        dispatcher := Parked(Some(s.clock + 5_000), true))
            && (if recovered then Recovered(turns, s'.tables.turns, s.clock) else s'.tables.turns == turns)
  {
  }

  predicate Recovered(turns: seq<Turn>, turns': seq<Turn>, now: Time) {
    && |turns'| == |turns|
    && forall i :: 0 <= i < |turns| ==>
         if turns[i].status.Processing? then Requeued(turns[i], turns'[i], now) else turns'[i] == turns[i]
  }

  /** How a round ends for the turn it claimed, when no statement fails. */
  predicate Finishes(maxAttempts: nat, turns: seq<Turn>, turns': seq<Turn>, i: nat, now: Time, ending: Ending)
    requires i < |turns|
  {
    var made := turns[i].attempts;
    if maxAttempts <= made then
      Rewrites(turns, turns', i, Exhausted, made, Some(LastWord(maxAttempts, turns[i])), None, None, None)
    else
      match ending
      case Persisted => Rewrites(turns, turns', i, Stored, made, None, None, None, Some(now))
      case Unrecoverable(error) => Rewrites(turns, turns', i, Failed, made, Some(error), None, None, None)
      case Retryable(error, delay) =>
        if made + 1 < maxAttempts then
          Rewrites(turns, turns', i, Finalized, made + 1, Some(error), Some(now + delay), None, None)
        else Rewrites(turns, turns', i, Exhausted, made + 1, Some(error), None, None, None)
  }

  lemma FinishExactly(maxAttempts: nat, turns: seq<Turn>, i: nat, now: Time, ending: Ending)
    requires InProcess(turns, i)
    ensures Finishes(maxAttempts, turns, Finish(maxAttempts, turns, i, now, ending), i, now, ending)
  {
    hide Decimal;
  }

  // --- Retries wait ---

  /** A finalized turn keeps its row until somebody claims it at or after its next attempt. */
  lemma ScheduledStays(cfg: Config, s: System, event: Event, i: nat)
    requires Inv(cfg, s) && i < |s.tables.turns| && s.tables.turns[i].status.Finalized?
    requires s.tables.turns[i].nextAttemptAt.Some? && Apply(cfg, s, event).clock < s.tables.turns[i].nextAttemptAt.value
    ensures var s' := Apply(cfg, s, event);
            i < |s'.tables.turns| && s'.tables.turns[i] == s.tables.turns[i] && s.clock <= s'.clock
  {
    assert Valid(s.tables);
    hide Inv, Valid, DoIngest, DoClaim, DoProcess, DoPrepare, DoPersist, DoAnswer, DoReadDeadline, DoWake, DoBackoff,
      DoRecover;
    match event
    case Ingest(e) =>
      IngestLeavesFinalized(s.tables, e, s.clock, i);
      IngestKeepsClock(s, e);
    case ClaimNext(now) => ClaimWaits(s, now, i);
    case Process(fault) => ProcessLeavesFinalized(cfg, s, fault, i);
    case PrepareJob(_, _, _, _) => PrepareKeepsTables(cfg, s, event);
    case PersistDraft(draft) => PersistLeavesFinalized(s, draft, i);
    case Answer(reply, delay) => AnswerLeavesFinalized(cfg, s, reply, delay, i);
    case ReadDeadline => SleepKeepsTables(s, false);
    case Wake(byPermit) => SleepKeepsTables(s, byPermit);
    case Backoff(recovered) => RecoverLeavesFinalized(s, recovered, i);
    case Restart => RecoverLeavesFinalized(s, true, i);
    case _ =>
  }

  lemma SleepKeepsTables(s: System, byPermit: bool)
    ensures DoReadDeadline(s).tables == DoWake(s, byPermit).tables == s.tables
    ensures DoReadDeadline(s).clock == DoWake(s, byPermit).clock == s.clock
  {
    hide Deadline;
  }

  lemma RecoverLeavesFinalized(s: System, recovered: bool, i: nat)
    requires i < |s.tables.turns| && s.tables.turns[i].status.Finalized?
    ensures forall s' :: s' in {DoRecover(s), DoBackoff(s, recovered)} ==>
              i < |s'.tables.turns| && s'.tables.turns[i] == s.tables.turns[i] && s.clock == s'.clock
  {
  }

  lemma IngestKeepsClock(s: System, e: Envelope)
    ensures DoIngest(s, e).clock == s.clock && DoIngest(s, e).tables == Stage(s.tables, e, s.clock).0
  {
    hide Stage;
  }

  lemma ClaimWaits(s: System, now: Time, i: nat)
    requires i < |s.tables.turns| && s.tables.turns[i].status.Finalized?
    requires s.tables.turns[i].nextAttemptAt.Some? && s.clock < s.tables.turns[i].nextAttemptAt.value
    ensures var s' := DoClaim(s, now);
            i < |s'.tables.turns| && s'.tables.turns[i] == s.tables.turns[i] && s.clock == s'.clock
  {
    ClaimExactly(s.tables.turns, now);
    assert now <= s.clock ==> !Due(s.tables.turns, i, now);
    hide Due, Claim;
  }

  lemma ProcessLeavesFinalized(cfg: Config, s: System, fault: Option<string>, i: nat)
    requires i < |s.tables.turns| && s.tables.turns[i].status.Finalized?
    ensures var s' := DoProcess(cfg, s, fault);
            i < |s'.tables.turns| && s'.tables.turns[i] == s.tables.turns[i] && s.clock == s'.clock
  {
    hide BuildWindow, ExhaustedMessage, ExhaustedTurn, FailedTurn;
  }

  lemma AnswerLeavesFinalized(cfg: Config, s: System, reply: Reply, delay: nat, i: nat)
    requires i < |s.tables.turns| && s.tables.turns[i].status.Finalized?
    ensures var s' := DoAnswer(cfg, s, reply, delay);
            i < |s'.tables.turns| && s'.tables.turns[i] == s.tables.turns[i] && s.clock == s'.clock
  {
    hide ExhaustedTurn, FailedTurn, RetriedTurn;
  }

  lemma PersistLeavesFinalized(s: System, draft: nat, i: nat)
    requires i < |s.tables.turns| && s.tables.turns[i].status.Finalized?
    ensures var s' := DoPersist(s, draft);
            i < |s'.tables.turns| && s'.tables.turns[i] == s.tables.turns[i] && s.clock == s'.clock
  {
    hide MemoryGraph.Persist, StoredTurn;
  }

  lemma PrepareKeepsTables(cfg: Config, s: System, event: Event)
    requires event.PrepareJob?
    ensures Apply(cfg, s, event).tables == s.tables && Apply(cfg, s, event).clock == s.clock
  {
    hide Prepare;
  }

  lemma IngestLeavesFinalized(t: Tables, e: Envelope, now: Time, i: nat)
    requires Valid(t) && i < |t.turns| && t.turns[i].status.Finalized?
    ensures var t' := Stage(t, e, now).0; i < |t'.turns| && t'.turns[i] == t.turns[i]
  {
    hide Received, NewFragment, HasFragments, Stage;
    if Accepted(t, e, now) {
      var _ := StageDelivers(t, e, now);
    } else {
      RefusalChangesNothing(t, e, now);
    }
  }

  lemma {:induction false} ScheduledRunStays(cfg: Config, s: System, rest: seq<Event>, i: nat)
    requires Inv(cfg, s) && i < |s.tables.turns| && s.tables.turns[i].status.Finalized?
    requires s.tables.turns[i].nextAttemptAt.Some?
    requires Run(cfg, s, rest).clock < s.tables.turns[i].nextAttemptAt.value
    ensures var s' := Run(cfg, s, rest);
            i < |s'.tables.turns| && s'.tables.turns[i] == s.tables.turns[i] && s.clock <= s'.clock
  {
    hide Inv, Apply;
    if rest != [] {
      var init, last := rest[..|rest| - 1], rest[|rest| - 1];
      ClockGrows(cfg, Run(cfg, s, init), last);
      ScheduledRunStays(cfg, s, init, i);
      RunKeepsInv(cfg, s, init);
      ScheduledStays(cfg, Run(cfg, s, init), last, i);
    }
  }

  lemma ClockGrows(cfg: Config, s: System, event: Event)
    ensures s.clock <= Apply(cfg, s, event).clock
  {
    hide Stage, Prepare, Deadline, MemoryGraph.Persist, BuildWindow, Claim, Recover, MarkRetryable, MarkFailed,
      MarkExhausted, MarkStored;
  }

  /** The row of a turn put back into the queue: one attempt more, the error, and when to try again. */
  predicate Rescheduled(a: Turn, b: Turn, error: string, at: Time) {
    b == Turn(a.conversation, a.external, a.index, Finalized, a.projection, a.terminality, a.finalizedAt,
              a.attempts + 1, Some(error), Some(at), None, None)
  }

  predicate Held(turns: seq<Turn>, i: nat) {
    exists j :: 0 <= j < |turns| && Blocker(turns, j, i)
  }

  lemma DueExactly(turns: seq<Turn>, i: nat)
    requires i < |turns| && turns[i].status.Finalized? && turns[i].nextAttemptAt.Some?
    ensures forall now: Time :: Due(turns, i, now) <==> turns[i].nextAttemptAt.value <= now && !Held(turns, i)
  {
  }

  /** The answer that sends a turn back, with attempts left. */
  ghost predicate SendsBack(cfg: Config, s: System) {
    && s.dispatcher.Awaiting? && InProcess(s.tables.turns, s.dispatcher.id)
    && s.tables.turns[s.dispatcher.id].attempts + 1 < cfg.maxAttempts
  }

  lemma SentBack(cfg: Config, s: System, error: string, delay: nat)
    requires Inv(cfg, s) && SendsBack(cfg, s)
    ensures var (i, s') := (s.dispatcher.id, Apply(cfg, s, Answer(Retry(error), delay)));
            && i < |s'.tables.turns| && Rescheduled(s.tables.turns[i], s'.tables.turns[i], error, s.clock + delay)
            && Inv(cfg, s')
  {
    HandFacts(cfg, s);
    AnswerExactly(cfg, s, Retry(error), delay);
    hide Inv, Apply;
    ApplyKeepsInv(cfg, s, Answer(Retry(error), delay));
  }

  /**
   * A turn the actor sends back, with attempts left, keeps the row it then has through any events until the
   * delay is over; until then it is not due, and from then on, when no turn is in its way, it is.
   */
  lemma RetryWaits(cfg: Config, clock: Time, first: seq<Event>, error: string, delay: nat, rest: seq<Event>)
    requires var s := Run(cfg, Initial(clock), first);
             && SendsBack(cfg, s)
             && Run(cfg, Apply(cfg, s, Answer(Retry(error), delay)), rest).clock < s.clock + delay
    ensures var s := Run(cfg, Initial(clock), first);
            var (i, s') := (s.dispatcher.id, Run(cfg, Apply(cfg, s, Answer(Retry(error), delay)), rest));
            && i < |s'.tables.turns|
            && Rescheduled(s.tables.turns[i], s'.tables.turns[i], error, s.clock + delay)
            && forall now: Time :: Due(s'.tables.turns, i, now) <==> s.clock + delay <= now && !Held(s'.tables.turns, i)
  {
    hide Inv, Apply, Run, InProcess, Due, Held;
    var s := Run(cfg, Initial(clock), first);
    Reachable(cfg, clock, first);
    SentBack(cfg, s, error, delay);
    var next := Apply(cfg, s, Answer(Retry(error), delay));
    ScheduledRunStays(cfg, next, rest, s.dispatcher.id);
    DueExactly(Run(cfg, next, rest).tables.turns, s.dispatcher.id);
  }

  // --- The message of a turn that is given up ---

  /** The number a text of decimal digits spells. */
  function Spelled(digits: string): nat
    requires forall k :: 0 <= k < |digits| ==> '0' <= digits[k] <= '9'
  {
    if digits == [] then 0
    else 10 * Spelled(digits[..|digits| - 1]) + (digits[|digits| - 1] as int - '0' as int)
  }

  /** The number in the message is spelled in decimal digits, with no zero in front. */
  lemma {:induction false} DecimalSpells(n: nat)
    ensures var d := Decimal(n);
            && d != [] && (forall k :: 0 <= k < |d| ==> '0' <= d[k] <= '9') && Spelled(d) == n
            && (1 < |d| ==> d[0] != '0')
  {
    var d := Decimal(n);
    DigitSpells(n % 10);
    if n >= 10 {
      DecimalSpells(n / 10);
      assert d[..|d| - 1] == Decimal(n / 10);
      if |Decimal(n / 10)| == 1 {
        assert n / 10 < 10;
      }
    }
  }

  lemma DigitSpells(n: nat)
    requires n < 10
    ensures "0123456789"[n] as int == '0' as int + n
  {
  }
}
