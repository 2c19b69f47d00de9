/**
 * The running service as one transition system: ingest calls, the dispatcher, the memory actor, crashes
 * and restarts. Every event is one transaction, one statement under the write permit, or one step that
 * touches no table; an event that is not enabled leaves the system as it is.
 *
 * The environment is adversarial: a job handed to the actor may be prepared and persisted at any later
 * time, more than once, also after a crash, and the dispatcher may be given any answer.
 */
module Service {
  import opened Options
  import opened Tables
  import opened Staging
  import opened Dispatch
  import opened Schema
  import opened History
  import opened MemoryGraph

  datatype Config = Config(maxAttempts: nat, windowSize: nat, encode: Encoder, render: Projection -> string)

  /** `MemoryTask::Add`: one call of `store_window`. Jobs are never forgotten. */
  datatype Job = Job(turn: nat, window: Window, timestamp: Time)

  /** A prepared write that waits for its transaction. */
  datatype Draft = Draft(turn: nat, write: TurnWrite)

  datatype Dispatcher =
    | Booting
    | Idle
    | NothingDue
    | Parked(deadline: Option<Time>, backoff: bool)
    | Holding(id: nat, row: Turn)
    | Awaiting(id: nat, row: Turn)
    | Broken

  /** `claimed` and `origin` are history: the turns ever claimed, and the turn each memory came from. */
  datatype System = System(
    tables: Tables,
    graph: Graph,
    dispatcher: Dispatcher,
    jobs: seq<Job>,
    drafts: seq<Draft>,
    permit: bool,
    notifying: nat,
    clock: Time,
    claimed: set<nat>,
    origin: seq<nat>)

  datatype Reply = Done | Retry(error: string) | Abandon(error: string)

  datatype Event =
    | Ingest(envelope: Envelope)
    | Notify
    | ClaimNext(now: Time)
    | ReadDeadline
    | Wake(byPermit: bool)
    | Process(fault: Option<string>)
    | PrepareJob(job: nat, analysis: Analysis, nearest: seq<nat>, evolution: Evolution)
    | PersistDraft(draft: nat)
    | Answer(reply: Reply, delay: nat)
    | DatabaseError
    | Backoff(recovered: bool)
    | Crash
    | Restart
    | Tick(elapsed: nat)

  /** `DISPATCHER_ERROR_RETRY_DELAY`, in milliseconds. */
  const ERROR_RETRY_DELAY: nat := 5_000

  function Decimal(n: nat): string {
    var digit := ["0123456789"[n % 10]];
    if n < 10 then digit else Decimal(n / 10) + digit
  }

  function ExhaustedMessage(maxAttempts: nat): string {
    "processing retries exhausted after " + Decimal(maxAttempts) + " attempts"
  }

  // --- The events ---

  function WithTurns(s: System, turns: seq<Turn>): System {
    s.(tables := s.tables.(turns := turns))
  }

  /** A staged fragment that finds its turn finalized leaves a notification to be sent. */
  function DoIngest(s: System, e: Envelope): System {
    var (tables, outcome) := Stage(s.tables, e, s.clock);
    s.(tables := tables, notifying := if outcome.Staged? && outcome.finalized then s.notifying + 1 else s.notifying)
  }

  function DoClaim(s: System, now: Time): System {
    if s.dispatcher.Idle? && now <= s.clock then
      var (turns, claimed) := Claim(s.tables.turns, now);
      match claimed
      case None => s.(dispatcher := NothingDue)
      case Some(i) =>
        if i < |turns| then WithTurns(s, turns).(dispatcher := Holding(i, turns[i]), claimed := s.claimed + {i}) else s
    else s
  }

  /** `next_due_deadline`: the wait is never shorter than zero. */
  function Deadline(turns: seq<Turn>, clock: Time): Option<Time> {
    match SelectNext(turns, |turns|)
    case None => None
    case Some(i) =>
      match turns[i].nextAttemptAt
      case None => None
      case Some(at) => Some(if at < clock then clock else at)
  }

  function DoReadDeadline(s: System): System {
    if s.dispatcher.NothingDue? then s.(dispatcher := Parked(Deadline(s.tables.turns, s.clock), false)) else s
  }

  function DoWake(s: System, byPermit: bool): System {
    if !s.dispatcher.Parked? then s
    else if byPermit then (if s.permit then s.(dispatcher := Idle, permit := false) else s)
    else if s.dispatcher.deadline.Some? && s.dispatcher.deadline.value <= s.clock then s.(dispatcher := Idle)
    else s
  }

  /** A `mark_*` call: an error when the turn is no longer processing. */
  function Mark(s: System, id: nat, turns: seq<Turn>): System {
    if InProcess(s.tables.turns, id) then WithTurns(s, turns).(dispatcher := Idle) else s.(dispatcher := Broken)
  }

  function DoProcess(cfg: Config, s: System, fault: Option<string>): System {
    if !s.dispatcher.Holding? then s
    else
      var id, row, turns := s.dispatcher.id, s.dispatcher.row, s.tables.turns;
      if row.attempts >= cfg.maxAttempts then
        var error := if row.lastError.Some? then row.lastError.value else ExhaustedMessage(cfg.maxAttempts);
        Mark(s, id, MarkExhausted(turns, id, error, row.attempts))
      else if row.finalizedAt.None? then
        Mark(s, id, MarkFailed(turns, id, "claimed processing turn is missing finalized_at"))
      else if fault.Some? then
        Mark(s, id, MarkFailed(turns, id, fault.value))
      else
        var job := Job(id, BuildWindow(turns, row, cfg.windowSize), row.finalizedAt.value);
        s.(jobs := s.jobs + [job], dispatcher := Awaiting(id, row))
  }

  function DoPrepare(cfg: Config, s: System, job: nat, analysis: Analysis, nearest: seq<nat>,
                     evolution: Evolution): System {
    if job >= |s.jobs| then s
    else
      var content := cfg.render(s.jobs[job].window.current);
      match Prepare(s.graph.rows, cfg.encode, content, s.jobs[job].timestamp, analysis, nearest, evolution)
      case Failure(_) => s
      case Success(write) => s.(drafts := s.drafts + [Draft(s.jobs[job].turn, write)])
  }

  /** `persist_prepared_turn`: the graph writes and the stored mark commit together or not at all. */
  function DoPersist(s: System, draft: nat): System {
    if draft >= |s.drafts| then s
    else
      var turn := s.drafts[draft].turn;
      match MemoryGraph.Persist(s.graph, s.drafts[draft].write)
      case None => s
      case Some(graph) =>
        if InProcess(s.tables.turns, turn) then
          WithTurns(s, MarkStored(s.tables.turns, turn, s.clock)).(graph := graph, origin := s.origin + [turn])
        else s
  }

  function DoAnswer(cfg: Config, s: System, reply: Reply, delay: nat): System {
    if !s.dispatcher.Awaiting? then s
    else
      var id, row, turns := s.dispatcher.id, s.dispatcher.row, s.tables.turns;
      match reply
      case Done => s.(dispatcher := Idle)
      case Abandon(error) => Mark(s, id, MarkFailed(turns, id, error))
      case Retry(error) =>
        if row.attempts + 1 < cfg.maxAttempts then
          Mark(s, id, MarkRetryable(turns, id, error, row.attempts + 1, s.clock + delay))
        else
          Mark(s, id, MarkExhausted(turns, id, error, row.attempts + 1))
  }

  function DoRecover(s: System): System {
    WithTurns(s, Recover(s.tables.turns, s.clock))
  }

  /** After an error the dispatcher recovers, or fails to, and waits. */
  function DoBackoff(s: System, recovered: bool): System {
    if !s.dispatcher.Broken? then s
    else (if recovered then DoRecover(s) else s).(dispatcher := Parked(Some(s.clock + ERROR_RETRY_DELAY), true))
  }

  function Apply(cfg: Config, s: System, event: Event): System {
    match event
    case Ingest(e) => DoIngest(s, e)
    case Notify => if s.notifying > 0 then s.(notifying := s.notifying - 1, permit := true) else s
    case ClaimNext(now) => DoClaim(s, now)
    case ReadDeadline => DoReadDeadline(s)
    case Wake(byPermit) => DoWake(s, byPermit)
    case Process(fault) => DoProcess(cfg, s, fault)
    case PrepareJob(job, analysis, nearest, evolution) => DoPrepare(cfg, s, job, analysis, nearest, evolution)
    case PersistDraft(draft) => DoPersist(s, draft)
    case Answer(reply, delay) => DoAnswer(cfg, s, reply, delay)
    case DatabaseError =>
      if s.dispatcher.Idle? || s.dispatcher.NothingDue? || s.dispatcher.Holding? || s.dispatcher.Awaiting? then
        s.(dispatcher := Broken)
      else s
    case Backoff(recovered) => DoBackoff(s, recovered)
    case Crash => s.(dispatcher := Booting, permit := false, notifying := 0)
    case Restart => if s.dispatcher.Booting? then DoRecover(s).(dispatcher := Idle) else s
    case Tick(elapsed) => s.(clock := s.clock + elapsed)
  }

  function Initial(clock: Time): System {
    System(EMPTY_TABLES, EMPTY_GRAPH, Booting, [], [], false, 0, clock, {}, [])
  }

  function Run(cfg: Config, s: System, events: seq<Event>): System {
    if events == [] then s
    else Apply(cfg, Run(cfg, s, events[..|events| - 1]), events[|events| - 1])
  }

  // --- The invariant ---

  /** A turn that was ever claimed has nothing in its way, and only claimed turns get past finalized. */
  ghost predicate ClaimsInOrder(turns: seq<Turn>, claimed: set<nat>) {
    && (forall i :: i in claimed ==> Unobstructed(turns, i) && CountsAsFinalized(turns[i].status))
    && (forall i :: 0 <= i < |turns| && CountsAsFinalized(turns[i].status) && !turns[i].status.Finalized?
          ==> i in claimed)
  }

  ghost predicate JobsFaithful(cfg: Config, turns: seq<Turn>, claimed: set<nat>, jobs: seq<Job>) {
    forall j :: 0 <= j < |jobs| ==>
      && jobs[j].turn in claimed && jobs[j].turn < |turns|
      && jobs[j].window == BuildWindow(turns, turns[jobs[j].turn], cfg.windowSize)
      && turns[jobs[j].turn].finalizedAt == Some(jobs[j].timestamp)
  }

  /** The memory a turn deserves. */
  ghost predicate Remembers(cfg: Config, m: Memory, t: Turn) {
    m.content == cfg.render(t.projection) && t.finalizedAt == Some(m.timestamp)
  }

  ghost predicate DraftsFaithful(cfg: Config, turns: seq<Turn>, claimed: set<nat>, rows: seq<Memory>,
                                 drafts: seq<Draft>) {
    forall d :: 0 <= d < |drafts| ==>
      && drafts[d].turn in claimed && drafts[d].turn < |turns|
      && Sound(rows, drafts[d].write, cfg.encode)
      && Remembers(cfg, drafts[d].write.memory, turns[drafts[d].turn])
  }

  /** Every memory comes from one stored turn, every stored turn has one memory, and memories follow turn order. */
  ghost predicate StoredOnce(cfg: Config, turns: seq<Turn>, rows: seq<Memory>, origin: seq<nat>) {
    && |origin| == |rows|
    && (forall k :: 0 <= k < |origin|
          ==> origin[k] < |turns| && turns[origin[k]].status.Stored? && Remembers(cfg, rows[k], turns[origin[k]]))
    && (forall i :: 0 <= i < |turns| && turns[i].status.Stored? ==> i in origin)
    && (forall k, l :: 0 <= k < l < |origin| ==> origin[k] != origin[l])
    && (forall k, l :: 0 <= k < l < |origin| && turns[origin[k]].conversation == turns[origin[l]].conversation
          ==> turns[origin[k]].index < turns[origin[l]].index)
  }

  /** What the dispatcher remembers of the turn in its hands. */
  ghost predicate HandFaithful(turns: seq<Turn>, claimed: set<nat>, d: Dispatcher) {
    d.Holding? || d.Awaiting? ==>
      && d.id in claimed && d.id < |turns| && SameTurn(d.row, turns[d.id])
      && d.row.projection == turns[d.id].projection && d.row.finalizedAt == turns[d.id].finalizedAt
      && d.row.attempts == turns[d.id].attempts
      && (turns[d.id].status.Processing? || turns[d.id].status.Stored?)
  }

  /** The number of `store_window` calls for a turn. */
  function Dispatches(jobs: seq<Job>, i: nat): nat {
    if jobs == [] then 0
    else Dispatches(jobs[..|jobs| - 1], i) + (if jobs[|jobs| - 1].turn == i then 1 else 0)
  }

  /** Dispatches are covered by the attempts counted so far, plus the one under way. */
  ghost predicate WithinBudget(cfg: Config, turns: seq<Turn>, jobs: seq<Job>, d: Dispatcher) {
    && (forall i :: 0 <= i < |turns| ==>
          && Dispatches(jobs, i) <= cfg.maxAttempts
          && (turns[i].status.Open? || turns[i].status.Finalized? ==> Dispatches(jobs, i) <= turns[i].attempts)
          && (turns[i].status.Processing? ==> Dispatches(jobs, i) <= turns[i].attempts + 1))
    && (d.Holding? ==> Dispatches(jobs, d.id) <= d.row.attempts)
  }

  ghost predicate Inv(cfg: Config, s: System) {
    && Valid(s.tables)
    && IndexAgrees(s.graph.rows, s.graph.vectors, cfg.encode)
    && LinksSound(s.graph.links, |s.graph.rows|)
    && ClaimsInOrder(s.tables.turns, s.claimed)
    && JobsFaithful(cfg, s.tables.turns, s.claimed, s.jobs)
    && DraftsFaithful(cfg, s.tables.turns, s.claimed, s.graph.rows, s.drafts)
    && StoredOnce(cfg, s.tables.turns, s.graph.rows, s.origin)
    && HandFaithful(s.tables.turns, s.claimed, s.dispatcher)
    && WithinBudget(cfg, s.tables.turns, s.jobs, s.dispatcher)
  }

  // --- Steps of the tables keep each part ---

  lemma ClaimsStay(t: Tables, t': Tables, claimed: set<nat>)
    requires ClaimsInOrder(t.turns, claimed) && Evolves(t, t') && IndexesGrow(t'.turns)
    ensures forall i :: i in claimed ==> Unobstructed(t'.turns, i) && CountsAsFinalized(t'.turns[i].status)
  {
    forall i | i in claimed ensures Unobstructed(t'.turns, i) && CountsAsFinalized(t'.turns[i].status) {
      UnobstructedStays(t, t', i);
      assert RowEvolves(t.turns[i], t'.turns[i]);
    }
  }

  lemma JobsStay(cfg: Config, t: Tables, t': Tables, claimed: set<nat>, claimed': set<nat>, jobs: seq<Job>)
    requires ClaimsInOrder(t.turns, claimed) && Evolves(t, t') && IndexesGrow(t'.turns) && claimed <= claimed'
    requires JobsFaithful(cfg, t.turns, claimed, jobs)
    ensures JobsFaithful(cfg, t'.turns, claimed', jobs)
  {
    forall j | 0 <= j < |jobs|
      ensures jobs[j].window == BuildWindow(t'.turns, t'.turns[jobs[j].turn], cfg.windowSize)
      ensures t'.turns[jobs[j].turn].finalizedAt == Some(jobs[j].timestamp)
    {
      WindowStays(t, t', jobs[j].turn, cfg.windowSize);
      assert RowEvolves(t.turns[jobs[j].turn], t'.turns[jobs[j].turn]);
    }
  }

  lemma DraftsStay(cfg: Config, t: Tables, t': Tables, claimed: set<nat>, claimed': set<nat>,
                   rows: seq<Memory>, rows': seq<Memory>, drafts: seq<Draft>)
    requires ClaimsInOrder(t.turns, claimed) && Evolves(t, t') && claimed <= claimed' && Grows(rows, rows')
    requires DraftsFaithful(cfg, t.turns, claimed, rows, drafts)
    ensures DraftsFaithful(cfg, t'.turns, claimed', rows', drafts)
  {
    forall d | 0 <= d < |drafts|
      ensures Sound(rows', drafts[d].write, cfg.encode)
                && Remembers(cfg, drafts[d].write.memory, t'.turns[drafts[d].turn])
    {
      SoundStays(rows, rows', drafts[d].write, cfg.encode);
      assert RowEvolves(t.turns[drafts[d].turn], t'.turns[drafts[d].turn]);
    }
  }

  lemma StoredStay(cfg: Config, t: Tables, t': Tables, rows: seq<Memory>, origin: seq<nat>)
    requires StoredOnce(cfg, t.turns, rows, origin) && Evolves(t, t')
    requires forall i :: 0 <= i < |t'.turns| && t'.turns[i].status.Stored?
              ==> i < |t.turns| && t.turns[i].status.Stored?
    ensures StoredOnce(cfg, t'.turns, rows, origin)
  {
    forall k | 0 <= k < |origin| ensures t'.turns[origin[k]] == t.turns[origin[k]] {
      assert RowEvolves(t.turns[origin[k]], t'.turns[origin[k]]);
    }
  }

  // --- Steps of the system keep the invariant ---

  /** A delivery never takes its turn past finalized. */
  lemma ReceivedStatus(t: Tables, e: Envelope, i: nat, now: Time)
    requires i < |t.turns| ==> t.turns[i].status.Open?
    ensures var status := Received(t, e, i, now).status; status.Open? || status.Finalized?
  {
  }

  lemma IngestKeepsClaims(t: Tables, e: Envelope, now: Time, claimed: set<nat>)
    requires Valid(t) && ClaimsInOrder(t.turns, claimed)
    ensures var t' := Stage(t, e, now).0;
            && Valid(t') && Evolves(t, t') && IndexesGrow(t'.turns)
            && ClaimsInOrder(t'.turns, claimed)
            && (forall i :: 0 <= i < |t'.turns| && t'.turns[i].status.Stored?
                  ==> i < |t.turns| && t.turns[i].status.Stored?)
  {
    hide Stage, Unobstructed, RowEvolves, Received, RowsChecked, ExternalsUnique, FragmentsKeyed, Cached, MessagesFirst,
      AbortsInternal;
    var t' := Stage(t, e, now).0;
    StageKeepsValid(t, e, now);
    StageEvolves(t, e, now);
    ClaimsStay(t, t', claimed);
    if Accepted(t, e, now) {
      var i := StageDelivers(t, e, now);
      ReceivedStatus(t, e, i, now);
    } else {
      RefusalChangesNothing(t, e, now);
    }
  }

  lemma {:induction false} NoDispatches(jobs: seq<Job>, i: nat)
    requires forall j :: 0 <= j < |jobs| ==> jobs[j].turn != i
    ensures Dispatches(jobs, i) == 0
  {
    if jobs != [] {
      NoDispatches(jobs[..|jobs| - 1], i);
    }
  }

  /** An ingest call only touches turns that were never dispatched. */
  lemma IngestKeepsBudget(cfg: Config, t: Tables, e: Envelope, now: Time, claimed: set<nat>, jobs: seq<Job>,
                          d: Dispatcher)
    requires SingleOpen(t.turns) && ClaimsInOrder(t.turns, claimed) && JobsFaithful(cfg, t.turns, claimed, jobs)
    requires HandFaithful(t.turns, claimed, d) && WithinBudget(cfg, t.turns, jobs, d)
    ensures HandFaithful(Stage(t, e, now).0.turns, claimed, d) && WithinBudget(cfg, Stage(t, e, now).0.turns, jobs, d)
  {
    var t' := Stage(t, e, now).0;
    hide Stage, SingleOpen, BuildWindow, Unobstructed;
    if Accepted(t, e, now) {
      var i := StageDelivers(t, e, now);
      forall j | 0 <= j < |t'.turns| && (j >= |t.turns| || t'.turns[j] != t.turns[j])
        ensures j !in claimed && Dispatches(jobs, j) == 0
      {
        TouchedUnclaimed(t, e, now, t', i, claimed, j);
        NoDispatches(jobs, j);
      }
      DeliveredLength(t, e, now, t', i);
      hide Delivers, ClaimsInOrder, JobsFaithful;
      BudgetStays(cfg, t.turns, t'.turns, claimed, jobs, d);
    } else {
      RefusalChangesNothing(t, e, now);
    }
  }

  lemma DeliveredLength(t: Tables, e: Envelope, now: Time, t': Tables, i: nat)
    requires Delivers(t, e, now, t', i)
    ensures |t.turns| <= |t'.turns|
  {
  }

  /** A row that a delivery touches was never claimed. */
  lemma TouchedUnclaimed(t: Tables, e: Envelope, now: Time, t': Tables, i: nat, claimed: set<nat>, j: nat)
    requires Delivers(t, e, now, t', i) && ClaimsInOrder(t.turns, claimed)
    requires j < |t'.turns| && (j >= |t.turns| || t'.turns[j] != t.turns[j])
    ensures j !in claimed
  {
    hide Received, NewFragment, HasFragments;
    assert j in claimed ==> Unobstructed(t.turns, j);
  }

  /** Rows that change were never claimed and never dispatched, so nothing is charged to them. */
  lemma BudgetStays(cfg: Config, turns: seq<Turn>, turns': seq<Turn>, claimed: set<nat>, jobs: seq<Job>, d: Dispatcher)
    requires HandFaithful(turns, claimed, d) && WithinBudget(cfg, turns, jobs, d) && |turns| <= |turns'|
    requires forall j :: 0 <= j < |turns'| && (j >= |turns| || turns'[j] != turns[j])
              ==> j !in claimed && Dispatches(jobs, j) == 0
    ensures HandFaithful(turns', claimed, d) && WithinBudget(cfg, turns', jobs, d)
  {
    hide Dispatches;
  }

  lemma IngestKeepsInv(cfg: Config, s: System, e: Envelope)
    requires Inv(cfg, s)
    ensures Inv(cfg, DoIngest(s, e))
  {
    assert SingleOpen(s.tables.turns);
    hide Valid, IndexAgrees, LinksSound, ClaimsInOrder, JobsFaithful, DraftsFaithful, StoredOnce, HandFaithful,
      WithinBudget, Stage;
    var t, t' := s.tables, Stage(s.tables, e, s.clock).0;
    IngestKeepsClaims(t, e, s.clock, s.claimed);
    JobsStay(cfg, t, t', s.claimed, s.claimed, s.jobs);
    DraftsStay(cfg, t, t', s.claimed, s.claimed, s.graph.rows, s.graph.rows, s.drafts);
    StoredStay(cfg, t, t', s.graph.rows, s.origin);
    IngestKeepsBudget(cfg, t, e, s.clock, s.claimed, s.jobs, s.dispatcher);
  }

  /** A dispatcher statement that claims only unobstructed turns and stores nothing. */
  ghost predicate Legal(turns: seq<Turn>, claimed: set<nat>, turns': seq<Turn>, claimed': set<nat>) {
    && Advances(turns, turns') && claimed <= claimed'
    && (forall i :: i in claimed' && i !in claimed ==> Unobstructed(turns', i) && CountsAsFinalized(turns'[i].status))
    && (forall i :: 0 <= i < |turns'| && turns'[i].status.Processing? ==> i in claimed')
    && (forall i :: 0 <= i < |turns'| && turns'[i].status.Stored? ==> turns[i].status.Stored?)
  }

  lemma LegalKeepsClaims(t: Tables, claimed: set<nat>, turns: seq<Turn>, claimed': set<nat>)
    requires Valid(t) && ClaimsInOrder(t.turns, claimed) && Legal(t.turns, claimed, turns, claimed')
    ensures var t' := t.(turns := turns);
            && Valid(t') && Evolves(t, t') && IndexesGrow(turns) && claimed <= claimed'
            && ClaimsInOrder(turns, claimed')
            && (forall i :: 0 <= i < |turns| && turns[i].status.Stored? ==> i < |t.turns| && t.turns[i].status.Stored?)
  {
    var t' := t.(turns := turns);
    AdvanceKeepsValid(t, turns);
    AdvanceEvolves(t, turns);
    ClaimsStay(t, t', claimed);
    forall i | 0 <= i < |turns| && CountsAsFinalized(turns[i].status) && !turns[i].status.Finalized?
        ensures i in claimed' {
      assert Moves(t.turns[i], turns[i]);
    }
  }

  lemma LegalKeepsInv(cfg: Config, s: System, turns: seq<Turn>, claimed: set<nat>, d: Dispatcher)
    requires Inv(cfg, s) && Legal(s.tables.turns, s.claimed, turns, claimed)
    requires HandFaithful(turns, claimed, d) && WithinBudget(cfg, turns, s.jobs, d)
    ensures Inv(cfg, WithTurns(s, turns).(claimed := claimed, dispatcher := d))
  {
    hide Valid, IndexAgrees, LinksSound, ClaimsInOrder, JobsFaithful, DraftsFaithful, StoredOnce, HandFaithful,
      WithinBudget, Legal;
    var t' := s.tables.(turns := turns);
    LegalKeepsClaims(s.tables, s.claimed, turns, claimed);
    JobsStay(cfg, s.tables, t', s.claimed, claimed, s.jobs);
    DraftsStay(cfg, s.tables, t', s.claimed, claimed, s.graph.rows, s.graph.rows, s.drafts);
    StoredStay(cfg, s.tables, t', s.graph.rows, s.origin);
  }

  /** Nothing holds back a ready turn: what comes before it is settled. */
  lemma ReadyIsUnobstructed(turns: seq<Turn>, i: nat)
    requires Ready(turns, i)
    ensures forall j :: 0 <= j < |turns| && turns[j].conversation == turns[i].conversation
              && turns[j].index < turns[i].index
              ==> Settled(turns[j].status)
  {
    forall j | 0 <= j < |turns| && turns[j].conversation == turns[i].conversation && turns[j].index < turns[i].index
      ensures Settled(turns[j].status)
    {
      assert !Blocker(turns, j, i);
    }
  }

  lemma ClaimIsLegal(cfg: Config, turns: seq<Turn>, claimed: set<nat>, jobs: seq<Job>, i: nat, now: Time)
    requires Ready(turns, i) && ClaimsInOrder(turns, claimed) && WithinBudget(cfg, turns, jobs, Idle)
    requires RowCheck(turns[i])
    ensures var row := ClaimedTurn(turns[i], now);
            && Legal(turns, claimed, turns[i := row], claimed + {i})
            && HandFaithful(turns[i := row], claimed + {i}, Holding(i, row))
            && WithinBudget(cfg, turns[i := row], jobs, Holding(i, row))
  {
    ReadyIsUnobstructed(turns, i);
    assert Unobstructed(turns[i := ClaimedTurn(turns[i], now)], i);
  }

  lemma ClaimKeepsInv(cfg: Config, s: System, now: Time)
    requires Inv(cfg, s)
    ensures Inv(cfg, DoClaim(s, now))
  {
    var due := SelectDue(s.tables.turns, |s.tables.turns|, now);
    assert due.Some? ==> RowCheck(s.tables.turns[due.value]);
    hide Valid, IndexAgrees, LinksSound, ClaimsInOrder, JobsFaithful, DraftsFaithful, StoredOnce, HandFaithful,
      WithinBudget, Legal;
    if s.dispatcher.Idle? && now <= s.clock && due.Some? {
      var row := ClaimedTurn(s.tables.turns[due.value], now);
      ClaimIsLegal(cfg, s.tables.turns, s.claimed, s.jobs, due.value, now);
      LegalKeepsInv(cfg, s, s.tables.turns[due.value := row], s.claimed + {due.value}, Holding(due.value, row));
    } else {
      IdlingKeepsInv(cfg, s, NothingDue);
    }
  }

  /** Letting go of the turn in hand, with no turn in hand afterwards. */
  lemma IdlingKeepsInv(cfg: Config, s: System, d: Dispatcher)
    requires Inv(cfg, s) && !d.Holding? && !d.Awaiting?
    ensures Inv(cfg, s.(dispatcher := d))
  {
    hide Valid, IndexAgrees, LinksSound, ClaimsInOrder, JobsFaithful, DraftsFaithful, StoredOnce;
  }

  lemma SetIsLegal(cfg: Config, turns: seq<Turn>, claimed: set<nat>, jobs: seq<Job>, d: Dispatcher, id: nat, row: Turn)
    requires InProcess(turns, id) && ClaimsInOrder(turns, claimed) && WithinBudget(cfg, turns, jobs, d)
    requires Moves(turns[id], row) && !row.status.Stored? && !row.status.Processing?
    requires row.status.Finalized? ==> row.attempts == turns[id].attempts + 1
    ensures Legal(turns, claimed, turns[id := row], claimed)
    ensures HandFaithful(turns[id := row], claimed, Idle) && WithinBudget(cfg, turns[id := row], jobs, Idle)
  {
  }

  /** Taking the turn in hand out of processing, with its attempts covering its dispatches. */
  lemma MarkKeepsInv(cfg: Config, s: System, id: nat, row: Turn)
    requires Inv(cfg, s)
    requires InProcess(s.tables.turns, id) ==>
               && Moves(s.tables.turns[id], row) && !row.status.Stored? && !row.status.Processing?
               && (row.status.Finalized? ==> row.attempts == s.tables.turns[id].attempts + 1)
    ensures Inv(cfg, Mark(s, id, SetProcessing(s.tables.turns, id, row)))
  {
    hide Valid, IndexAgrees, LinksSound, ClaimsInOrder, JobsFaithful, DraftsFaithful, StoredOnce, HandFaithful,
      WithinBudget, Legal;
    if InProcess(s.tables.turns, id) {
      SetIsLegal(cfg, s.tables.turns, s.claimed, s.jobs, s.dispatcher, id, row);
      LegalKeepsInv(cfg, s, s.tables.turns[id := row], s.claimed, Idle);
    } else {
      IdlingKeepsInv(cfg, s, Broken);
    }
  }

  lemma DispatchKeepsInv(cfg: Config, s: System, job: Job)
    requires Inv(cfg, s) && s.dispatcher.Holding? && s.dispatcher.row.attempts < cfg.maxAttempts
    requires s.dispatcher.row.finalizedAt == Some(job.timestamp) && job.turn == s.dispatcher.id
    requires job.window == BuildWindow(s.tables.turns, s.dispatcher.row, cfg.windowSize)
    ensures Inv(cfg, s.(jobs := s.jobs + [job], dispatcher := Awaiting(s.dispatcher.id, s.dispatcher.row)))
  {
    hide Valid, IndexAgrees, LinksSound, ClaimsInOrder, DraftsFaithful, StoredOnce;
    var jobs := s.jobs + [job];
    assert jobs[..|s.jobs|] == s.jobs;
    forall i | 0 <= i < |s.tables.turns|
        ensures Dispatches(jobs, i) == Dispatches(s.jobs, i) + (if i == job.turn then 1 else 0) {}
  }

  /** The row in the dispatcher's hands can be marked, and the columns it was read with still hold. */
  lemma HandFacts(cfg: Config, s: System)
    requires Inv(cfg, s) && (s.dispatcher.Holding? || s.dispatcher.Awaiting?)
    ensures var id, row := s.dispatcher.id, s.dispatcher.row;
            && id < |s.tables.turns| && row.attempts == s.tables.turns[id].attempts
            && (InProcess(s.tables.turns, id) ==> s.tables.turns[id].finalizedAt.Some?)
  {
    assert RowCheck(s.tables.turns[s.dispatcher.id]);
  }

  lemma ProcessKeepsInv(cfg: Config, s: System, fault: Option<string>)
    requires Inv(cfg, s)
    ensures Inv(cfg, DoProcess(cfg, s, fault))
  {
    hide Inv, BuildWindow;
    if s.dispatcher.Holding? {
      HandFacts(cfg, s);
      var id, row, t := s.dispatcher.id, s.dispatcher.row, s.tables.turns[s.dispatcher.id];
      if row.attempts >= cfg.maxAttempts {
        var error := if row.lastError.Some? then row.lastError.value else ExhaustedMessage(cfg.maxAttempts);
        MarkKeepsInv(cfg, s, id, ExhaustedTurn(t, error, row.attempts));
      } else if row.finalizedAt.None? {
        MarkKeepsInv(cfg, s, id, FailedTurn(t, "claimed processing turn is missing finalized_at"));
      } else if fault.Some? {
        MarkKeepsInv(cfg, s, id, FailedTurn(t, fault.value));
      } else {
        DispatchKeepsInv(cfg, s, Job(id, BuildWindow(s.tables.turns, row, cfg.windowSize), row.finalizedAt.value));
      }
    }
  }

  lemma PrepareKeepsInv(cfg: Config, s: System, job: nat, analysis: Analysis, nearest: seq<nat>, evolution: Evolution)
    requires Inv(cfg, s)
    ensures Inv(cfg, DoPrepare(cfg, s, job, analysis, nearest, evolution))
  {
    hide Valid, IndexAgrees, LinksSound, ClaimsInOrder, StoredOnce, HandFaithful, WithinBudget, Prepare;
    if job < |s.jobs| {
      var content := cfg.render(s.jobs[job].window.current);
      PrepareIsSound(s.graph.rows, cfg.encode, content, s.jobs[job].timestamp, analysis, nearest, evolution);
    }
  }

  /** A turn still in processing is later than every stored turn of its conversation. */
  lemma StoredComeFirst(turns: seq<Turn>, claimed: set<nat>, i: nat, id: nat)
    requires IndexesGrow(turns) && ClaimsInOrder(turns, claimed)
    requires InProcess(turns, id) && i < |turns| && turns[i].status.Stored?
              && turns[i].conversation == turns[id].conversation
    ensures turns[i].index < turns[id].index
  {
    assert Unobstructed(turns, i);
    assert !Settled(turns[id].status);
  }

  lemma PersistStoresOnce(cfg: Config, turns: seq<Turn>, claimed: set<nat>, rows: seq<Memory>, origin: seq<nat>,
                          id: nat, rows': seq<Memory>, now: Time)
    requires IndexesGrow(turns) && ClaimsInOrder(turns, claimed) && StoredOnce(cfg, turns, rows, origin)
              && InProcess(turns, id)
    requires |rows'| == |rows| + 1 && Grows(rows, rows') && Remembers(cfg, rows'[|rows|], turns[id])
    ensures StoredOnce(cfg, turns[id := StoredTurn(turns[id], now)], rows', origin + [id])
  {
    assert id !in origin;
    forall k | 0 <= k < |origin| && turns[origin[k]].conversation == turns[id].conversation
      ensures turns[origin[k]].index < turns[id].index
    {
      StoredComeFirst(turns, claimed, origin[k], id);
    }
    var origin' := origin + [id];
    assert origin'[|origin|] == id;
    var turns' := turns[id := StoredTurn(turns[id], now)];
    forall k | 0 <= k < |origin'|
      ensures origin'[k] < |turns'| && turns'[origin'[k]].status.Stored? && Remembers(cfg, rows'[k], turns'[origin'[k]])
    {
      if k < |origin| {
        assert origin[k] != id && Remembers(cfg, rows[k], turns[origin[k]]);
      }
    }
    forall i | 0 <= i < |turns'| && turns'[i].status.Stored? ensures i in origin' {
      if i != id {
        assert i in origin;
      }
    }
  }

  lemma StoreKeepsClaims(t: Tables, claimed: set<nat>, id: nat, now: Time)
    requires Valid(t) && ClaimsInOrder(t.turns, claimed) && InProcess(t.turns, id)
    ensures var t' := t.(turns := t.turns[id := StoredTurn(t.turns[id], now)]);
            Valid(t') && Evolves(t, t') && IndexesGrow(t'.turns) && ClaimsInOrder(t'.turns, claimed)
  {
    var t' := t.(turns := t.turns[id := StoredTurn(t.turns[id], now)]);
    assert Advances(t.turns, t'.turns);
    AdvanceKeepsValid(t, t'.turns);
    AdvanceEvolves(t, t'.turns);
    ClaimsStay(t, t', claimed);
  }

  lemma StoreKeepsBudget(cfg: Config, turns: seq<Turn>, claimed: set<nat>, jobs: seq<Job>, d: Dispatcher, id: nat,
                         now: Time)
    requires InProcess(turns, id) && HandFaithful(turns, claimed, d) && WithinBudget(cfg, turns, jobs, d)
    ensures var turns' := turns[id := StoredTurn(turns[id], now)];
            HandFaithful(turns', claimed, d) && WithinBudget(cfg, turns', jobs, d)
  {
  }

  lemma DraftRemembers(cfg: Config, s: System, draft: nat)
    requires Inv(cfg, s) && draft < |s.drafts|
    ensures var d := s.drafts[draft];
            && d.turn < |s.tables.turns| && Sound(s.graph.rows, d.write, cfg.encode)
            && Remembers(cfg, d.write.memory, s.tables.turns[d.turn]) && IndexesGrow(s.tables.turns)
  {
  }

  lemma PersistKeepsInv(cfg: Config, s: System, draft: nat)
    requires Inv(cfg, s)
    ensures Inv(cfg, DoPersist(s, draft))
  {
    if draft < |s.drafts| {
      DraftRemembers(cfg, s, draft);
      hide Valid, IndexAgrees, LinksSound, ClaimsInOrder, JobsFaithful, DraftsFaithful, StoredOnce, HandFaithful,
        WithinBudget, Sound, Grows, Remembers, IndexesGrow, MemoryGraph.Persist;
      var id, write := s.drafts[draft].turn, s.drafts[draft].write;
      PersistKeepsGraph(s.graph, write, cfg.encode);
      if InProcess(s.tables.turns, id) {
        var graph, turns := MemoryGraph.Persist(s.graph, write).value, s.tables.turns;
        var t' := s.tables.(turns := turns[id := StoredTurn(turns[id], s.clock)]);
        StoreKeepsClaims(s.tables, s.claimed, id, s.clock);
        JobsStay(cfg, s.tables, t', s.claimed, s.claimed, s.jobs);
        DraftsStay(cfg, s.tables, t', s.claimed, s.claimed, s.graph.rows, graph.rows, s.drafts);
        PersistStoresOnce(cfg, turns, s.claimed, s.graph.rows, s.origin, id, graph.rows, s.clock);
        StoreKeepsBudget(cfg, turns, s.claimed, s.jobs, s.dispatcher, id, s.clock);
      }
    }
  }

  lemma AnswerKeepsInv(cfg: Config, s: System, reply: Reply, delay: nat)
    requires Inv(cfg, s)
    ensures Inv(cfg, DoAnswer(cfg, s, reply, delay))
  {
    hide Inv;
    if s.dispatcher.Awaiting? {
      HandFacts(cfg, s);
      var id, row, t := s.dispatcher.id, s.dispatcher.row, s.tables.turns[s.dispatcher.id];
      match reply
      case Done => IdlingKeepsInv(cfg, s, Idle);
      case Abandon(error) => MarkKeepsInv(cfg, s, id, FailedTurn(t, error));
      case Retry(error) =>
        if row.attempts + 1 < cfg.maxAttempts {
          MarkKeepsInv(cfg, s, id, RetriedTurn(t, error, row.attempts + 1, s.clock + delay));
        } else {
          MarkKeepsInv(cfg, s, id, ExhaustedTurn(t, error, row.attempts + 1));
        }
    }
  }

  lemma RecoverIsLegal(cfg: Config, turns: seq<Turn>, claimed: set<nat>, jobs: seq<Job>, d: Dispatcher,
                       next: Dispatcher, now: Time)
    requires ClaimsInOrder(turns, claimed) && WithinBudget(cfg, turns, jobs, d) && !next.Holding? && !next.Awaiting?
    ensures Legal(turns, claimed, Recover(turns, now), claimed)
    ensures HandFaithful(Recover(turns, now), claimed, next) && WithinBudget(cfg, Recover(turns, now), jobs, next)
  {
    StatementsAdvance(turns, 0, "", 0, now);
  }

  /** Recovery runs while the dispatcher holds no turn, and charges each interrupted turn an attempt. */
  lemma RecoverKeepsInv(cfg: Config, s: System, next: Dispatcher)
    requires Inv(cfg, s) && !next.Holding? && !next.Awaiting?
    ensures Inv(cfg, DoRecover(s).(dispatcher := next))
  {
    hide Valid, IndexAgrees, LinksSound, ClaimsInOrder, JobsFaithful, DraftsFaithful, StoredOnce, HandFaithful,
      WithinBudget, Legal;
    RecoverIsLegal(cfg, s.tables.turns, s.claimed, s.jobs, s.dispatcher, next, s.clock);
    LegalKeepsInv(cfg, s, Recover(s.tables.turns, s.clock), s.claimed, next);
  }

  /** The invariant does not speak of the permit, of notifications under way or of the clock. */
  lemma SignalsKeepInv(cfg: Config, s: System, permit: bool, notifying: nat, clock: Time)
    requires Inv(cfg, s)
    ensures Inv(cfg, s.(permit := permit, notifying := notifying, clock := clock))
  {
    hide Valid, IndexAgrees, LinksSound, ClaimsInOrder, JobsFaithful, DraftsFaithful, StoredOnce, HandFaithful,
      WithinBudget;
  }

  lemma ApplyKeepsInv(cfg: Config, s: System, event: Event)
    requires Inv(cfg, s)
    ensures Inv(cfg, Apply(cfg, s, event))
  {
    hide Inv;
    match event
    case Ingest(e) => IngestKeepsInv(cfg, s, e);
    case Notify => SignalsKeepInv(cfg, s, true, s.notifying - (if s.notifying > 0 then 1 else 0), s.clock);
    case ClaimNext(now) => ClaimKeepsInv(cfg, s, now);
    case ReadDeadline => IdlingKeepsInv(cfg, s, Parked(Deadline(s.tables.turns, s.clock), false));
    case Wake(byPermit) =>
      IdlingKeepsInv(cfg, s, Idle);
      SignalsKeepInv(cfg, s.(dispatcher := Idle), false, s.notifying, s.clock);
    case Process(fault) => ProcessKeepsInv(cfg, s, fault);
    case PrepareJob(job, analysis, nearest, evolution) => PrepareKeepsInv(cfg, s, job, analysis, nearest, evolution);
    case PersistDraft(draft) => PersistKeepsInv(cfg, s, draft);
    case Answer(reply, delay) => AnswerKeepsInv(cfg, s, reply, delay);
    case DatabaseError => IdlingKeepsInv(cfg, s, Broken);
    case Backoff(recovered) =>
      IdlingKeepsInv(cfg, s, Parked(Some(s.clock + ERROR_RETRY_DELAY), true));
      RecoverKeepsInv(cfg, s, Parked(Some(s.clock + ERROR_RETRY_DELAY), true));
    case Crash =>
      IdlingKeepsInv(cfg, s, Booting);
      SignalsKeepInv(cfg, s.(dispatcher := Booting), false, 0, s.clock);
    case Restart => RecoverKeepsInv(cfg, s, Idle);
    case Tick(elapsed) => SignalsKeepInv(cfg, s, s.permit, s.notifying, s.clock + elapsed);
  }

  lemma {:induction false} RunKeepsInv(cfg: Config, s: System, events: seq<Event>)
    requires Inv(cfg, s)
    ensures Inv(cfg, Run(cfg, s, events))
  {
    if events != [] {
      RunKeepsInv(cfg, s, events[..|events| - 1]);
      ApplyKeepsInv(cfg, Run(cfg, s, events[..|events| - 1]), events[|events| - 1]);
    }
  }

  lemma Reachable(cfg: Config, clock: Time, events: seq<Event>)
    ensures Inv(cfg, Run(cfg, Initial(clock), events))
  {
    RunKeepsInv(cfg, Initial(clock), events);
  }
}
