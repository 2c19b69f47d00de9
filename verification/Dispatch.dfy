/**
 * The statements that move a finalized turn through processing: claim, retry, fail, exhaust, store and
 * recover, and the two queries that choose the next turn.
 */
module Dispatch {
  import opened Options
  import opened Tables

  // --- Choosing a turn ---

  /** A turn in one of these statuses holds back every later turn of its conversation. */
  predicate Blocks(s: Status) {
    s.Open? || s.Finalized? || s.Processing? || s.Failed?
  }

  /** A turn in one of these statuses is out of the way for good. */
  predicate Settled(s: Status) {
    s.Stored? || s.Aborted? || s.Exhausted?
  }

  predicate Blocker(turns: seq<Turn>, j: nat, i: nat) {
    j < |turns| && i < |turns| && turns[j].conversation == turns[i].conversation
    && turns[j].index < turns[i].index && Blocks(turns[j].status)
  }

  predicate Ready(turns: seq<Turn>, i: nat) {
    i < |turns| && turns[i].status.Finalized? && !exists j :: 0 <= j < |turns| && Blocker(turns, j, i)
  }

  predicate Due(turns: seq<Turn>, i: nat, now: Time) {
    Ready(turns, i) && turns[i].nextAttemptAt.Some? && turns[i].nextAttemptAt.value <= now
  }

  /** `ORDER BY next_attempt_at ASC, id ASC`, where NULL sorts first. */
  predicate Sooner(turns: seq<Turn>, i: nat, j: nat)
    requires i < |turns| && j < |turns|
  {
    var a, b := turns[i].nextAttemptAt, turns[j].nextAttemptAt;
    (b.Some? && (a.None? || a.value < b.value)) || (a == b && i < j)
  }

  /** The candidate `CLAIM_NEXT_DUE_TURN_SQL` picks among the first `n` rows. */
  function SelectDue(turns: seq<Turn>, n: nat, now: Time): (r: Option<nat>)
    requires n <= |turns|
    ensures r.Some? ==> r.value < n && Due(turns, r.value, now)
                        && forall i :: 0 <= i < n && Due(turns, i, now) && i != r.value ==> Sooner(turns, r.value, i)
    ensures r.None? ==> forall i :: 0 <= i < n ==> !Due(turns, i, now)
  {
    if n == 0 then None
    else
      var best := SelectDue(turns, n - 1, now);
      if Due(turns, n - 1, now) && (best.None? || Sooner(turns, n - 1, best.value)) then Some(n - 1) else best
  }

  /** The row `SELECT_NEXT_DUE_TURN_AT_SQL` reads the next deadline from. */
  function SelectNext(turns: seq<Turn>, n: nat): (r: Option<nat>)
    requires n <= |turns|
    ensures r.Some? ==> r.value < n && Ready(turns, r.value)
                        && forall i :: 0 <= i < n && Ready(turns, i) && i != r.value ==> Sooner(turns, r.value, i)
    ensures r.None? ==> forall i :: 0 <= i < n ==> !Ready(turns, i)
  {
    if n == 0 then None
    else
      var best := SelectNext(turns, n - 1);
      if Ready(turns, n - 1) && (best.None? || Sooner(turns, n - 1, best.value)) then Some(n - 1) else best
  }

  /** Both queries look at the same minimum: a turn is claimable now exactly when the next deadline has passed. */
  lemma ClaimMatchesDeadline(turns: seq<Turn>, now: Time)
    requires forall i :: 0 <= i < |turns| ==> RowCheck(turns[i])
    ensures var due, next := SelectDue(turns, |turns|, now), SelectNext(turns, |turns|);
            && (next.Some? ==> turns[next.value].nextAttemptAt.Some?)
            && (due.Some? <==> next.Some? && turns[next.value].nextAttemptAt.value <= now)
            && (due.Some? ==> due == next)
  {
    var next := SelectNext(turns, |turns|);
    var due := SelectDue(turns, |turns|, now);
    if due.Some? {
      assert Ready(turns, due.value);
    }
    assert next.Some? ==> RowCheck(turns[next.value]);
    if next.Some? && turns[next.value].nextAttemptAt.value <= now {
      assert Due(turns, next.value, now);
    }
  }

  // --- Row updates ---

  function ClaimedTurn(t: Turn, now: Time): Turn {
    t.(status := Processing, processingStartedAt := Some(now))
  }

  function RetriedTurn(t: Turn, error: string, attempts: nat, nextAttemptAt: Time): Turn {
    t.(status := Finalized, attempts := attempts, lastError := Some(error), nextAttemptAt := Some(nextAttemptAt),
       processingStartedAt := None, storedAt := None)
  }

  function FailedTurn(t: Turn, error: string): Turn {
    t.(status := Failed, lastError := Some(error), nextAttemptAt := None, processingStartedAt := None, storedAt := None)
  }

  function ExhaustedTurn(t: Turn, error: string, attempts: nat): Turn {
    t.(status := Exhausted, attempts := attempts, lastError := Some(error), nextAttemptAt := None,
       processingStartedAt := None, storedAt := None)
  }

  function StoredTurn(t: Turn, storedAt: Time): Turn {
    t.(status := Stored, lastError := None, nextAttemptAt := None, processingStartedAt := None,
        storedAt := Some(storedAt))
  }

  const INTERRUPTED := "processing interrupted before completion"

  function RecoveredTurn(t: Turn, now: Time): Turn {
    if t.status.Processing? then
      t.(status := Finalized,
         attempts := t.attempts + 1,
         lastError := if t.lastError.None? then Some(INTERRUPTED) else t.lastError,
         nextAttemptAt := Some(now), processingStartedAt := None, storedAt := None)
    else t
  }

  // --- Statements ---

  function Claim(turns: seq<Turn>, now: Time): (r: (seq<Turn>, Option<nat>))
    ensures |r.0| == |turns|
  {
    match SelectDue(turns, |turns|, now)
    case None => (turns, None)
    case Some(i) => (turns[i := ClaimedTurn(turns[i], now)], Some(i))
  }

  /** Row `i` is there for an `UPDATE ... WHERE id = ? AND status = 'processing'`. */
  predicate InProcess(turns: seq<Turn>, i: nat) {
    i < |turns| && turns[i].status.Processing?
  }

  /** `UPDATE ... WHERE id = ? AND status = 'processing'`, for a row that would become `row`. */
  function SetProcessing(turns: seq<Turn>, i: nat, row: Turn): (r: seq<Turn>)
    ensures |r| == |turns|
  {
    if InProcess(turns, i) then turns[i := row] else turns
  }

  function MarkRetryable(turns: seq<Turn>, i: nat, error: string, attempts: nat, nextAttemptAt: Time): seq<Turn> {
    if i < |turns| then SetProcessing(turns, i, RetriedTurn(turns[i], error, attempts, nextAttemptAt)) else turns
  }

  function MarkFailed(turns: seq<Turn>, i: nat, error: string): seq<Turn> {
    if i < |turns| then SetProcessing(turns, i, FailedTurn(turns[i], error)) else turns
  }

  function MarkExhausted(turns: seq<Turn>, i: nat, error: string, attempts: nat): seq<Turn> {
    if i < |turns| then SetProcessing(turns, i, ExhaustedTurn(turns[i], error, attempts)) else turns
  }

  function MarkStored(turns: seq<Turn>, i: nat, storedAt: Time): seq<Turn> {
    if i < |turns| then SetProcessing(turns, i, StoredTurn(turns[i], storedAt)) else turns
  }

  function Recover(turns: seq<Turn>, now: Time): (r: seq<Turn>)
    ensures |r| == |turns| && forall i :: 0 <= i < |r| ==> r[i] == RecoveredTurn(turns[i], now)
  {
    seq(|turns|, i requires 0 <= i < |turns| => RecoveredTurn(turns[i], now))
  }

  /** One row gets these values in the columns the dispatcher writes; nothing else changes. */
  predicate Rewrites(turns: seq<Turn>, turns': seq<Turn>, i: nat, status: Status, attempts: nat,
                     lastError: Option<string>, nextAttemptAt: Option<Time>, processingStartedAt: Option<Time>,
                     storedAt: Option<Time>) {
    && i < |turns| && |turns| == |turns'|
    && (forall j :: 0 <= j < |turns| && j != i ==> turns'[j] == turns[j])
    && turns'[i] == Turn(turns[i].conversation, turns[i].external, turns[i].index, status, turns[i].projection,
                         turns[i].terminality, turns[i].finalizedAt, attempts, lastError, nextAttemptAt,
                         processingStartedAt, storedAt)
  }

  /** An interrupted turn is due at once, with one more attempt, and its last error or a note of the interruption. */
  predicate Requeued(a: Turn, b: Turn, now: Time) {
    && b == Turn(a.conversation, a.external, a.index, Finalized, a.projection, a.terminality, a.finalizedAt,
                 a.attempts + 1, b.lastError, Some(now), None, None)
    && (if a.lastError.Some? then b.lastError == a.lastError
        else b.lastError == Some("processing interrupted before completion"))
  }

  /** The claimed turn is the due one with the earliest next attempt, and of several such the one with the lowest id. */
  lemma ClaimExactly(turns: seq<Turn>, now: Time)
    ensures var (turns', claimed) := Claim(turns, now);
            && (claimed.None? <==> forall j :: 0 <= j < |turns| ==> !Due(turns, j, now))
            && (claimed.None? ==> turns' == turns)
            && (claimed.Some? ==>
                  && Due(turns, claimed.value, now)
                  && (var t := turns[claimed.value];
                      && Rewrites(turns, turns', claimed.value, Processing, t.attempts, t.lastError, t.nextAttemptAt,
                                  Some(now), t.storedAt)
                      && forall j :: 0 <= j < |turns| && Due(turns, j, now) && j != claimed.value ==>
                           var next := turns[j].nextAttemptAt.value;
                           t.nextAttemptAt.value < next || (t.nextAttemptAt.value == next && claimed.value < j)))
  {
    var due := SelectDue(turns, |turns|, now);
    if due.Some? {
      forall j | 0 <= j < |turns| && Due(turns, j, now) && j != due.value ensures Sooner(turns, due.value, j) {
      }
    }
  }

  // --- What all of them have in common ---

  predicate SameTurn(a: Turn, b: Turn) {
    a.conversation == b.conversation && a.external == b.external && a.index == b.index
  }

  /** A dispatcher statement leaves a row alone, claims it, or takes it out of processing. */
  predicate Moves(a: Turn, b: Turn) {
    b == a ||
    (&& SameTurn(a, b)
     && b.projection == a.projection && b.terminality == a.terminality && b.finalizedAt == a.finalizedAt
     && (RowCheck(a) ==> RowCheck(b))
     && ((a.status.Finalized? && b.status.Processing? && b.attempts == a.attempts)
         || (a.status.Processing?
              && (b.status.Finalized? || b.status.Stored? || b.status.Failed? || b.status.Exhausted?))))
  }

  ghost predicate Advances(turns: seq<Turn>, turns': seq<Turn>) {
    |turns| == |turns'| && forall i :: 0 <= i < |turns| ==> Moves(turns[i], turns'[i])
  }

  lemma SetAdvances(turns: seq<Turn>, i: nat, row: Turn)
    requires InProcess(turns, i) ==> Moves(turns[i], row)
    ensures Advances(turns, SetProcessing(turns, i, row))
  {
  }

  lemma ClaimAdvances(turns: seq<Turn>, time: Time)
    ensures Advances(turns, Claim(turns, time).0)
  {
    var candidate := SelectDue(turns, |turns|, time);
    if candidate.Some? {
      var i := candidate.value;
      assert Moves(turns[i], ClaimedTurn(turns[i], time));
      hide Moves, ClaimedTurn, SelectDue, Due;
      assert forall t: Turn :: Moves(t, t) by { MovesItself(); }
    }
  }

  lemma MovesItself()
    ensures forall t: Turn :: Moves(t, t)
  {
  }

  lemma RecoverAdvances(turns: seq<Turn>, time: Time)
    ensures Advances(turns, Recover(turns, time))
  {
  }

  /** Every statement of the dispatcher moves rows only along these edges. */
  lemma StatementsAdvance(turns: seq<Turn>, i: nat, error: string, attempts: nat, time: Time)
    ensures Advances(turns, Claim(turns, time).0)
    ensures Advances(turns, MarkRetryable(turns, i, error, attempts, time))
    ensures Advances(turns, MarkFailed(turns, i, error))
    ensures Advances(turns, MarkExhausted(turns, i, error, attempts))
    ensures Advances(turns, MarkStored(turns, i, time))
    ensures Advances(turns, Recover(turns, time))
  {
    hide Advances, Claim, SetProcessing, Recover;
    ClaimAdvances(turns, time);
    RecoverAdvances(turns, time);
    if i < |turns| {
      SetAdvances(turns, i, RetriedTurn(turns[i], error, attempts, time));
      SetAdvances(turns, i, FailedTurn(turns[i], error));
      SetAdvances(turns, i, ExhaustedTurn(turns[i], error, attempts));
      SetAdvances(turns, i, StoredTurn(turns[i], time));
    } else {
      NothingAdvances(turns);
    }
  }

  lemma NothingAdvances(turns: seq<Turn>)
    ensures Advances(turns, turns)
  {
  }
}
