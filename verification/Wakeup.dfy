/**
 * No lost wake-up: the dispatcher never sleeps without a deadline while a turn could be claimed, unless a
 * notification is on its way. It holds as long as no conversation mixes deliveries with and without turn
 * ids, and no turn is stored while the dispatcher is asleep with nothing to wake it.
 */
module Wakeup {
  import opened Options
  import opened Tables
  import opened Staging
  import opened Dispatch
  import opened Schema
  import opened MemoryGraph
  import opened Service
  import Guarantees

  /** Whether a conversation's deliveries name their turns. */
  type Mode = string -> bool

  ghost predicate Unmixed(mode: Mode, turns: seq<Turn>) {
    forall i :: 0 <= i < |turns| ==> turns[i].external.Some? == mode(turns[i].conversation)
  }

  /** In a conversation without turn ids an open turn is the last one. */
  ghost predicate OpenIsLast(mode: Mode, turns: seq<Turn>) {
    forall i, j :: 0 <= i < j < |turns| && turns[i].conversation == turns[j].conversation && turns[i].status.Open?
        ==> mode(turns[i].conversation)
  }

  function Latest(a: Time, b: Time): Time { if a < b then b else a }

  /** A sleep until `deadline` does not miss the turn's next attempt. */
  ghost predicate InTime(turns: seq<Turn>, i: nat, deadline: Option<Time>, clock: Time) {
    && i < |turns| && deadline.Some? && turns[i].nextAttemptAt.Some?
    && deadline.value <= Latest(turns[i].nextAttemptAt.value, clock)
  }

  /** The dispatcher will look again no later than the first ready turn is due. */
  ghost predicate Attentive(turns: seq<Turn>, d: Dispatcher, clock: Time) {
    d.Parked? ==>
      if d.backoff then d.deadline.Some?
      else forall i: nat :: Ready(turns, i) ==> InTime(turns, i, d.deadline, clock)
  }

  ghost predicate Awake(s: System) {
    s.permit || s.notifying > 0 || Attentive(s.tables.turns, s.dispatcher, s.clock)
  }

  ghost predicate WakeInv(cfg: Config, mode: Mode, s: System) {
    Inv(cfg, s) && Unmixed(mode, s.tables.turns) && OpenIsLast(mode, s.tables.turns) && Awake(s)
  }

  /** An ordinary sleep with no wake-up on its way. */
  predicate Asleep(s: System) {
    s.dispatcher.Parked? && !s.dispatcher.backoff && !s.permit && s.notifying == 0
  }

  /** The persist would store its turn: the draft exists and its turn is in processing. */
  predicate Stores(s: System, draft: nat) {
    draft < |s.drafts| && InProcess(s.tables.turns, s.drafts[draft].turn)
  }

  /**
   * The event respects the conversation's mode, and does not store a turn behind the back of a sleeping dispatcher. The
   * actor replies after its commit and the dispatcher waits for the reply, so such a persist has been given up on
   * before.
   */
  ghost predicate Orderly(mode: Mode, s: System, event: Event) {
    && (event.Ingest? ==> event.envelope.turnId.Some? == mode(event.envelope.conversation))
    && (event.PersistDraft? && Asleep(s) ==> !Stores(s, event.draft))
  }

  ghost predicate OrderlyRun(cfg: Config, mode: Mode, s: System, events: seq<Event>) {
    events == [] ||
    (OrderlyRun(cfg, mode, s, events[..|events| - 1])
        && Orderly(mode, Run(cfg, s, events[..|events| - 1]), events[|events| - 1]))
  }

  // --- Deliveries ---

  lemma DeliveryKeepsMode(mode: Mode, t: Tables, e: Envelope, now: Time)
    requires Valid(t) && Unmixed(mode, t.turns) && OpenIsLast(mode, t.turns)
    requires e.turnId.Some? == mode(e.conversation)
    ensures Unmixed(mode, Stage(t, e, now).0.turns) && OpenIsLast(mode, Stage(t, e, now).0.turns)
  {
    if Accepted(t, e, now) {
      var i := StageDelivers(t, e, now);
      ModeStays(mode, t, e, now, Stage(t, e, now).0, i);
    } else {
      RefusalChangesNothing(t, e, now);
    }
  }

  lemma ModeStays(mode: Mode, t: Tables, e: Envelope, now: Time, t': Tables, i: nat)
    requires Delivers(t, e, now, t', i) && Unmixed(mode, t.turns) && OpenIsLast(mode, t.turns)
    requires e.turnId.Some? == mode(e.conversation)
    ensures Unmixed(mode, t'.turns) && OpenIsLast(mode, t'.turns)
  {
    forall j | 0 <= j < |t.turns|
      ensures SameTurn(t.turns[j], t'.turns[j]) && (t'.turns[j].status.Open? ==> t.turns[j].status.Open?)
    {
    }
    if i == |t.turns| && e.turnId.None? {
      forall j | 0 <= j < i && t'.turns[j].conversation == e.conversation ensures !t'.turns[j].status.Open? {
        assert !OpenInternal(t'.turns[j], e.conversation);
      }
    }
  }

  /** A delivery that does not end its turn makes a turn ready only by aborting what blocked it. */
  lemma ReadyBecause(t: Tables, e: Envelope, now: Time, t': Tables, i: nat, k: nat)
    requires Delivers(t, e, now, t', i) && !e.terminality.Hard? && Ready(t'.turns, k)
    ensures k < |t.turns| && t'.turns[k] == t.turns[k] && t.turns[k].status.Finalized?
    ensures Ready(t.turns, k) || exists a: nat :: Interrupted(t, e, a) && Blocker(t.turns, a, k)
  {
    if !Ready(t.turns, k) {
      var j :| 0 <= j < |t.turns| && Blocker(t.turns, j, k);
      assert !Blocker(t'.turns, j, k);
      assert Interrupted(t, e, j);
    }
  }

  /** In an unmixed conversation the aborted turn was the last one, so nothing becomes ready. */
  lemma NothingNewReady(mode: Mode, t: Tables, e: Envelope, now: Time, t': Tables, i: nat, k: nat)
    requires Delivers(t, e, now, t', i) && !e.terminality.Hard? && Ready(t'.turns, k)
    requires IndexesGrow(t.turns) && OpenIsLast(mode, t.turns) && e.turnId.Some? == mode(e.conversation)
    ensures k < |t.turns| && Ready(t.turns, k) && t'.turns[k] == t.turns[k]
  {
    ReadyBecause(t, e, now, t', i, k);
    assert forall a: nat :: Interrupted(t, e, a) ==> !Blocker(t.turns, a, k);
  }

  lemma DeliveryKeepsAttentive(mode: Mode, t: Tables, e: Envelope, now: Time, t': Tables, i: nat, d: Dispatcher,
                               clock: Time)
    requires Delivers(t, e, now, t', i) && !e.terminality.Hard? && Attentive(t.turns, d, clock)
    requires IndexesGrow(t.turns) && OpenIsLast(mode, t.turns) && e.turnId.Some? == mode(e.conversation)
    ensures Attentive(t'.turns, d, clock)
  {
    hide Delivers, IndexesGrow, OpenIsLast, Ready;
    forall k: nat | Ready(t'.turns, k)
        ensures k < |t.turns| && k < |t'.turns| && Ready(t.turns, k) && t'.turns[k] == t.turns[k] {
      NothingNewReady(mode, t, e, now, t', i, k);
      ReadyExists(t'.turns, k);
    }
  }

  lemma ReadyExists(turns: seq<Turn>, k: nat)
    requires Ready(turns, k)
    ensures k < |turns|
  {
  }

  lemma IngestKeepsAwake(cfg: Config, mode: Mode, s: System, e: Envelope)
    requires WakeInv(cfg, mode, s) && e.turnId.Some? == mode(e.conversation)
    ensures Awake(DoIngest(s, e))
  {
    var t, t' := s.tables, Stage(s.tables, e, s.clock).0;
    assert Valid(t);
    hide Inv, Valid, Stage, Attentive, Delivers, IndexesGrow, SingleOpen, OpenIsLast, Unmixed;
    if Accepted(t, e, s.clock) {
      ValidKeys(t);
      var i := StageDelivers(t, e, s.clock);
      if !e.terminality.Hard? && Attentive(t.turns, s.dispatcher, s.clock) {
        DeliveryKeepsAttentive(mode, t, e, s.clock, t', i, s.dispatcher, s.clock);
      }
    } else {
      RefusalChangesNothing(t, e, s.clock);
    }
  }

  lemma ValidKeys(t: Tables)
    requires Valid(t)
    ensures IndexesGrow(t.turns) && SingleOpen(t.turns)
  {
  }

  // --- Everything else ---

  /** Falling asleep: the deadline read is the first of all ready turns'. */
  lemma DeadlineIsFirst(turns: seq<Turn>, clock: Time)
    requires forall i :: 0 <= i < |turns| ==> RowCheck(turns[i])
    ensures Attentive(turns, Parked(Deadline(turns, clock), false), clock)
    ensures Deadline(turns, clock).Some? <==> exists i: nat :: Ready(turns, i)
    ensures Deadline(turns, clock).Some? ==>
              exists i: nat :: Ready(turns, i) && turns[i].nextAttemptAt.Some?
                               && Deadline(turns, clock).value == Latest(turns[i].nextAttemptAt.value, clock)
  {
    forall i: nat | Ready(turns, i) ensures InTime(turns, i, Deadline(turns, clock), clock)
    {
      assert RowCheck(turns[i]);
      var next := SelectNext(turns, |turns|);
      assert RowCheck(turns[next.value]);
    }
  }

  /** A sleeping dispatcher wakes when its deadline has passed, or on a permit, which is then used up. */
  lemma WakesExactly(cfg: Config, s: System, byPermit: bool)
    requires s.dispatcher.Parked?
    ensures var (s', deadline) := (Apply(cfg, s, Wake(byPermit)), s.dispatcher.deadline);
            if byPermit then s' == if s.permit then s.(dispatcher := Idle, permit := false) else s
            else s' == if deadline.Some? && deadline.value <= s.clock then s.(dispatcher := Idle) else s
  {
  }

  lemma AdvanceKeepsMode(mode: Mode, turns: seq<Turn>, turns': seq<Turn>)
    requires Advances(turns, turns') && Unmixed(mode, turns) && OpenIsLast(mode, turns)
    ensures Unmixed(mode, turns') && OpenIsLast(mode, turns')
  {
    forall i | 0 <= i < |turns|
        ensures SameTurn(turns[i], turns'[i]) && (turns'[i].status.Open? ==> turns[i].status.Open?) {
      assert Moves(turns[i], turns'[i]);
    }
  }

  lemma ProcessAdvances(cfg: Config, s: System, fault: Option<string>)
    ensures Advances(s.tables.turns, DoProcess(cfg, s, fault).tables.turns)
  {
    hide Advances, MarkFailed, MarkExhausted, History.BuildWindow, ExhaustedMessage;
    var turns := s.tables.turns;
    StayingAdvances(turns);
    if s.dispatcher.Holding? {
      var id, row := s.dispatcher.id, s.dispatcher.row;
      var error := if row.lastError.Some? then row.lastError.value else ExhaustedMessage(cfg.maxAttempts);
      StatementsAdvance(turns, id, error, row.attempts, 0);
      StatementsAdvance(turns, id, "claimed processing turn is missing finalized_at", 0, 0);
      StatementsAdvance(turns, id, if fault.Some? then fault.value else "", 0, 0);
    }
  }

  lemma PersistAdvances(s: System, draft: nat)
    ensures Advances(s.tables.turns, DoPersist(s, draft).tables.turns)
  {
    hide Advances, MarkStored, MemoryGraph.Persist;
    StayingAdvances(s.tables.turns);
    if draft < |s.drafts| {
      StatementsAdvance(s.tables.turns, s.drafts[draft].turn, "", 0, s.clock);
    }
  }

  lemma AnswerAdvances(cfg: Config, s: System, reply: Reply, delay: nat)
    ensures Advances(s.tables.turns, DoAnswer(cfg, s, reply, delay).tables.turns)
  {
    hide Advances, MarkRetryable, MarkFailed, MarkExhausted;
    StayingAdvances(s.tables.turns);
    if s.dispatcher.Awaiting? && !reply.Done? {
      StatementsAdvance(s.tables.turns, s.dispatcher.id, reply.error, s.dispatcher.row.attempts + 1, s.clock + delay);
    }
  }

  /** Apart from ingest calls, every event leaves the turns alone or advances them. */
  lemma EventAdvances(cfg: Config, s: System, event: Event)
    requires !event.Ingest?
    ensures Advances(s.tables.turns, Apply(cfg, s, event).tables.turns)
  {
    hide Advances, Claim, Recover, Prepare, Deadline, DoProcess, DoPersist, DoAnswer;
    var turns := s.tables.turns;
    StayingAdvances(turns);
    match event
    case ClaimNext(now) => StatementsAdvance(turns, 0, "", 0, now);
    case Process(fault) => ProcessAdvances(cfg, s, fault);
    case PersistDraft(draft) => PersistAdvances(s, draft);
    case Answer(reply, delay) => AnswerAdvances(cfg, s, reply, delay);
    case Backoff(_) => StatementsAdvance(turns, 0, "", 0, s.clock);
    case Restart => StatementsAdvance(turns, 0, "", 0, s.clock);
    case _ =>
  }

  lemma StayingAdvances(turns: seq<Turn>)
    ensures Advances(turns, turns)
  {
  }

  /** While the dispatcher sleeps only ingest calls and the actor write. */
  lemma AsleepNothingMoves(cfg: Config, s: System, event: Event)
    requires s.dispatcher.Parked? && !event.Ingest? && !event.PersistDraft?
    ensures var s' := Apply(cfg, s, event);
            && s'.tables == s.tables && s'.clock >= s.clock
            && (s'.dispatcher.Parked? ==>
                  && s'.dispatcher == s.dispatcher
                  && (s'.permit || s'.notifying > 0 || !(s.permit || s.notifying > 0)))
  {
  }

  lemma PersistKeepsAwake(s: System, draft: nat)
    requires Awake(s) && (Asleep(s) ==> !Stores(s, draft))
    ensures s.dispatcher.Parked? ==> Awake(DoPersist(s, draft))
  {
    hide MemoryGraph.Persist, MarkStored;
  }

  /** Only reading the next deadline or backing off puts the dispatcher to sleep. */
  lemma FallingAsleep(cfg: Config, s: System, event: Event)
    requires !s.dispatcher.Parked? && Apply(cfg, s, event).dispatcher.Parked?
    ensures (event.ReadDeadline?
              && Apply(cfg, s, event) == s.(dispatcher := Parked(Deadline(s.tables.turns, s.clock), false)))
            || (event.Backoff? && Apply(cfg, s, event).dispatcher.backoff
                 && Apply(cfg, s, event).dispatcher.deadline.Some?)
  {
    hide Deadline, Stage, Claim, Recover, MarkRetryable, MarkFailed, MarkExhausted, MarkStored, Prepare,
      History.BuildWindow, MemoryGraph.Persist, ExhaustedMessage;
  }

  lemma PersistIsPersist(cfg: Config, s: System, draft: nat)
    ensures Apply(cfg, s, PersistDraft(draft)) == DoPersist(s, draft)
    ensures DoPersist(s, draft).dispatcher == s.dispatcher
  {
    hide MemoryGraph.Persist, MarkStored;
  }

  lemma EventKeepsAwake(cfg: Config, mode: Mode, s: System, event: Event)
    requires Inv(cfg, s) && Awake(s) && Orderly(mode, s, event) && !event.Ingest?
    ensures Awake(Apply(cfg, s, event))
  {
    assert forall i :: 0 <= i < |s.tables.turns| ==> RowCheck(s.tables.turns[i]);
    hide Inv, Apply, Deadline;
    var s' := Apply(cfg, s, event);
    if event.PersistDraft? {
      PersistKeepsAwake(s, event.draft);
      PersistIsPersist(cfg, s, event.draft);
    } else if s.dispatcher.Parked? {
      AsleepNothingMoves(cfg, s, event);
    } else if s'.dispatcher.Parked? {
      FallingAsleep(cfg, s, event);
      DeadlineIsFirst(s.tables.turns, s.clock);
    }
  }

  lemma ApplyKeepsWake(cfg: Config, mode: Mode, s: System, event: Event)
    requires WakeInv(cfg, mode, s) && Orderly(mode, s, event)
    ensures WakeInv(cfg, mode, Apply(cfg, s, event))
  {
    ApplyKeepsInv(cfg, s, event);
    if event.Ingest? {
      assert Valid(s.tables);
      DeliveryKeepsMode(mode, s.tables, event.envelope, s.clock);
      IngestKeepsAwake(cfg, mode, s, event.envelope);
    } else {
      hide Inv, Apply;
      EventAdvances(cfg, s, event);
      AdvanceKeepsMode(mode, s.tables.turns, Apply(cfg, s, event).tables.turns);
      EventKeepsAwake(cfg, mode, s, event);
    }
  }

  lemma WakesAtFirst(cfg: Config, mode: Mode, clock: Time)
    ensures WakeInv(cfg, mode, Initial(clock))
  {
  }

  lemma {:induction false} RunKeepsWake(cfg: Config, mode: Mode, clock: Time, events: seq<Event>)
    requires OrderlyRun(cfg, mode, Initial(clock), events)
    ensures WakeInv(cfg, mode, Run(cfg, Initial(clock), events))
  {
    hide Apply;
    if events == [] {
      WakesAtFirst(cfg, mode, clock);
    } else {
      hide WakeInv, Initial, Orderly;
      RunKeepsWake(cfg, mode, clock, events[..|events| - 1]);
      ApplyKeepsWake(cfg, mode, Run(cfg, Initial(clock), events[..|events| - 1]), events[|events| - 1]);
    }
  }

  /**
   * In every state of an orderly run: a dispatcher that sleeps without a deadline has a permit or a pending
   * notification, or there is no ready turn; and an ordinary sleep ends no later than the first ready turn is due.
   */
  lemma NoLostWakeup(cfg: Config, mode: Mode, clock: Time, events: seq<Event>)
    requires OrderlyRun(cfg, mode, Initial(clock), events)
    ensures var s := Run(cfg, Initial(clock), events);
            s.dispatcher.Parked? && !s.permit && s.notifying == 0 ==>
              && (s.dispatcher.deadline.None? ==> forall i: nat :: !Ready(s.tables.turns, i))
              && (!s.dispatcher.backoff ==>
                    forall i: nat :: Ready(s.tables.turns, i)
                        ==> InTime(s.tables.turns, i, s.dispatcher.deadline, s.clock))
  {
    RunKeepsWake(cfg, mode, clock, events);
  }

  // --- What loses a wake-up ---

  /** Row `a` alone holds the finalized row `k` back. */
  ghost predicate OnlyBlocker(turns: seq<Turn>, a: nat, k: nat) {
    && k < |turns| && turns[k].status.Finalized? && Blocker(turns, a, k)
    && (forall j: nat :: Blocker(turns, j, k) ==> j == a)
  }

  /** An ordinary sleep, nobody about to end it, that ends in time for every ready turn. */
  ghost predicate Restful(s: System) {
    Asleep(s) && forall k: nat :: Ready(s.tables.turns, k) ==> InTime(s.tables.turns, k, s.dispatcher.deadline, s.clock)
  }

  /** A ready turn is due before the sleep ends, or the sleep has no end, and nobody is about to end it. */
  ghost predicate Overslept(s: System) {
    && Asleep(s)
    && exists k: nat :: Ready(s.tables.turns, k) && !InTime(s.tables.turns, k, s.dispatcher.deadline, s.clock)
  }

  /** Row `a` alone holds row `k` back, which is due before the deadline. */
  ghost predicate HoldsUrgent(turns: seq<Turn>, a: nat, k: nat, deadline: Option<Time>, clock: Time) {
    OnlyBlocker(turns, a, k) && !InTime(turns, k, deadline, clock)
  }

  /** The delivery is new and aborts the one turn that holds back a turn due too early, without ending its own. */
  ghost predicate Unblocks(t: Tables, e: Envelope, deadline: Option<Time>, clock: Time) {
    && !Known(t, e) && HintFits(e) && !e.terminality.Hard?
    && exists a: nat, k: nat :: Interrupted(t, e, a) && HoldsUrgent(t.turns, a, k, deadline, clock)
  }

  /**
   * Without the restriction on turn ids: a delivery during a restful sleep leaves a turn the sleep is too long for, and
   * nobody notified, exactly when it aborts the only turn that held such a turn back.
   */
  lemma LostWakeupExactly(cfg: Config, s: System, e: Envelope)
    requires Inv(cfg, s) && Restful(s)
    ensures Overslept(Apply(cfg, s, Ingest(e))) <==> Unblocks(s.tables, e, s.dispatcher.deadline, s.clock)
  {
    hide Inv, Valid, Stage, Known, HintFits, NamesClosedTurn, HoldsUrgent, Interrupted, InTime, Ready, Accepted;
    var t, t' := s.tables, Stage(s.tables, e, s.clock).0;
    ValidIn(cfg, s);
    AnsweredExactly(t, e, s.clock);
    InterruptedNamesNothing(t, e);
    if Accepted(t, e, s.clock) {
      ValidKeys(t);
      var i := StageDelivers(t, e, s.clock);
      if !e.terminality.Hard? {
        UnblocksExactly(t, e, s.clock, t', i, s.dispatcher.deadline);
      }
    } else {
      RefusalChangesNothing(t, e, s.clock);
    }
  }

  lemma ValidIn(cfg: Config, s: System)
    requires Inv(cfg, s)
    ensures Valid(s.tables)
  {
    hide Valid;
  }

  lemma InterruptedNamesNothing(t: Tables, e: Envelope)
    ensures (exists a: nat :: Interrupted(t, e, a)) ==> !NamesClosedTurn(t, e)
  {
  }

  lemma UnblocksExactly(t: Tables, e: Envelope, now: Time, t': Tables, i: nat, deadline: Option<Time>)
    requires SingleOpen(t.turns) && IndexesGrow(t.turns)
    requires Accepted(t, e, now) && Delivers(t, e, now, t', i) && t' == Stage(t, e, now).0 && !e.terminality.Hard?
    requires forall k: nat :: Ready(t.turns, k) ==> InTime(t.turns, k, deadline, now)
    ensures (exists k: nat :: Ready(t'.turns, k) && !InTime(t'.turns, k, deadline, now)) <==>
            exists a: nat, k: nat :: Interrupted(t, e, a) && HoldsUrgent(t.turns, a, k, deadline, now)
  {
    hide Stage, Ready, Delivers, Interrupted, OnlyBlocker, SingleOpen, IndexesGrow, InTime;
    if k: nat :| Ready(t'.turns, k) && !InTime(t'.turns, k, deadline, now) {
      ReadyBecause(t, e, now, t', i, k);
      ReadyExists(t'.turns, k);
      SameInTime(t'.turns, t.turns, k, deadline, now);
      ReadyMeansUnblocked(t, e, now, t', i, k);
      var a: nat :| Interrupted(t, e, a) && OnlyBlocker(t.turns, a, k);
      assert HoldsUrgent(t.turns, a, k, deadline, now);
    }
    if a: nat, k: nat :| Interrupted(t, e, a) && HoldsUrgent(t.turns, a, k, deadline, now) {
      InterruptedIsAborted(t, e, now, a);
      UnblockedMeansReady(t, e, now, t', i, a, k);
      ReadyBecause(t, e, now, t', i, k);
      ReadyExists(t'.turns, k);
      SameInTime(t'.turns, t.turns, k, deadline, now);
    }
  }

  lemma SameInTime(a: seq<Turn>, b: seq<Turn>, k: nat, deadline: Option<Time>, clock: Time)
    requires k < |a| && k < |b| && a[k] == b[k]
    ensures InTime(a, k, deadline, clock) <==> InTime(b, k, deadline, clock)
  {
  }

  lemma ReadyMeansUnblocked(t: Tables, e: Envelope, now: Time, t': Tables, i: nat, k: nat)
    requires SingleOpen(t.turns) && Delivers(t, e, now, t', i) && !e.terminality.Hard?
    requires Ready(t'.turns, k) && !Ready(t.turns, k)
    ensures exists a: nat :: Interrupted(t, e, a) && OnlyBlocker(t.turns, a, k)
  {
    ReadyBecause(t, e, now, t', i, k);
    var a: nat :| Interrupted(t, e, a) && Blocker(t.turns, a, k);
    forall j: nat | Blocker(t.turns, j, k) ensures j == a {
      assert !Blocker(t'.turns, j, k);
    }
  }

  lemma UnblockedMeansReady(t: Tables, e: Envelope, now: Time, t': Tables, i: nat, a: nat, k: nat)
    requires Delivers(t, e, now, t', i) && !e.terminality.Hard? && Interrupted(t, e, a)
    requires |t'.turns| == |t.turns| + 1 && t'.turns[a].status.Aborted?
    requires OnlyBlocker(t.turns, a, k)
    ensures Ready(t'.turns, k)
  {
    forall j | 0 <= j < |t'.turns| ensures !Blocker(t'.turns, j, k) {
      if j < |t.turns| && j != a {
        assert !Blocker(t.turns, j, k);
      } else if j == |t.turns| {
        assert t'.turns[j].index == MaxIndex(t.turns, e.conversation) + 1;
      }
    }
  }

  lemma InterruptedIsAborted(t: Tables, e: Envelope, now: Time, a: nat)
    requires SingleOpen(t.turns) && Accepted(t, e, now) && Interrupted(t, e, a)
    ensures var t' := Stage(t, e, now).0; |t'.turns| == |t.turns| + 1 && t'.turns[a].status.Aborted?
  {
    var found := FindOpen(t.turns, e.conversation);
    assert found == Some(a);
  }

  /**
   * A persist during a restful sleep leaves a turn the sleep is too long for exactly when it stores the only turn that
   * held such a turn back. Only an actor that persists after its caller gave up can do this.
   */
  lemma LatePersistExactly(cfg: Config, s: System, draft: nat)
    requires Inv(cfg, s) && Restful(s)
    ensures Overslept(Apply(cfg, s, PersistDraft(draft))) <==>
            && Stores(s, draft)
            && exists k: nat ::
                 HoldsUrgent(s.tables.turns, s.drafts[draft].turn, k, s.dispatcher.deadline, s.clock)
  {
    hide Inv, Ready, HoldsUrgent, InTime;
    PersistSignals(cfg, s, draft);
    if draft < |s.drafts| {
      Guarantees.PersistEffect(cfg, s, draft);
      if Stores(s, draft) {
        StoredUnblocksExactly(s.tables.turns, s.drafts[draft].turn, s.clock, s.dispatcher.deadline);
      }
    } else {
      NoDraftNoChange(s, draft);
    }
  }

  lemma NoDraftNoChange(s: System, draft: nat)
    requires draft >= |s.drafts|
    ensures DoPersist(s, draft) == s
  {
  }

  lemma PersistSignals(cfg: Config, s: System, draft: nat)
    ensures var s' := Apply(cfg, s, PersistDraft(draft));
            && s' == DoPersist(s, draft)
            && s'.dispatcher == s.dispatcher && s'.permit == s.permit && s'.notifying == s.notifying
  {
    hide MemoryGraph.Persist, MarkStored;
  }

  lemma StoredUnblocksExactly(turns: seq<Turn>, id: nat, now: Time, deadline: Option<Time>)
    requires InProcess(turns, id) && forall k: nat :: Ready(turns, k) ==> InTime(turns, k, deadline, now)
    ensures var turns' := turns[id := StoredTurn(turns[id], now)];
            (exists k: nat :: Ready(turns', k) && !InTime(turns', k, deadline, now)) <==>
            exists k: nat :: HoldsUrgent(turns, id, k, deadline, now)
  {
    hide InTime;
    var turns' := turns[id := StoredTurn(turns[id], now)];
    forall k: nat
      ensures Ready(turns', k) && !InTime(turns', k, deadline, now) <==> HoldsUrgent(turns, id, k, deadline, now)
    {
      StoredReady(turns, id, now, k);
      if k < |turns| && k != id { SameInTime(turns', turns, k, deadline, now); }
      assert Ready(turns', k) || OnlyBlocker(turns, id, k) ==> k < |turns| && k != id;
      hide Ready, OnlyBlocker;
    }
    hide HoldsUrgent;
  }

  lemma StoredReady(turns: seq<Turn>, id: nat, now: Time, k: nat)
    requires InProcess(turns, id)
    ensures var turns' := turns[id := StoredTurn(turns[id], now)];
            Ready(turns', k) <==> Ready(turns, k) || OnlyBlocker(turns, id, k)
  {
    var turns' := turns[id := StoredTurn(turns[id], now)];
    forall j: nat ensures Blocker(turns', j, k) <==> Blocker(turns, j, k) && j != id {}
    hide Blocker;
  }
}
