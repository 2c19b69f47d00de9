/**
 * Draining the queue: with nothing delivered and nothing failing, every round of the dispatcher that claims a
 * turn uses up work, and what is left when no turn can be claimed sits behind an open or a failed turn.
 */
module Draining {
  import opened Options
  import opened Tables
  import opened Dispatch
  import opened Service

  /** How one handed-over turn ends: persisted, or with an error from the actor. */
  datatype Ending = Persisted | Retryable(error: string, delay: nat) | Unrecoverable(error: string)

  /** The error an exhausted turn keeps: its last one, if it has one. */
  function ExhaustedError(maxAttempts: nat, row: Turn): string {
    if row.lastError.Some? then row.lastError.value else ExhaustedMessage(maxAttempts)
  }

  /** What `process_claimed_turn` and the actor do to the claimed row `i`. */
  function Finish(maxAttempts: nat, turns: seq<Turn>, i: nat, now: Time, ending: Ending): (r: seq<Turn>)
    requires i < |turns|
    ensures |r| == |turns|
  {
    var row := turns[i];
    if row.attempts >= maxAttempts then
      MarkExhausted(turns, i, ExhaustedError(maxAttempts, row), row.attempts)
    else
      match ending
      case Persisted => MarkStored(turns, i, now)
      case Unrecoverable(error) => MarkFailed(turns, i, error)
      case Retryable(error, delay) =>
        if row.attempts + 1 < maxAttempts then MarkRetryable(turns, i, error, row.attempts + 1, now + delay)
        else MarkExhausted(turns, i, error, row.attempts + 1)
  }

  /** `run_once`, in a world where no statement fails. */
  function RunOnce(maxAttempts: nat, turns: seq<Turn>, now: Time, ending: Ending): (r: seq<Turn>)
    ensures |r| == |turns|
  {
    var (claimed, i) := Claim(turns, now);
    if i.Some? && i.value < |claimed| then Finish(maxAttempts, claimed, i.value, now, ending) else turns
  }

  // --- The measure ---

  function RowWork(maxAttempts: nat, t: Turn): nat {
    if t.status.Finalized? then (if t.attempts < maxAttempts then maxAttempts - t.attempts else 0) + 1 else 0
  }

  /** Attempts left over all finalized turns, and one more step for each. */
  function Work(maxAttempts: nat, turns: seq<Turn>): nat {
    if turns == [] then 0 else Work(maxAttempts, turns[..|turns| - 1]) + RowWork(maxAttempts, turns[|turns| - 1])
  }

  lemma {:induction false} WorkOfUpdate(maxAttempts: nat, turns: seq<Turn>, i: nat, row: Turn)
    requires i < |turns|
    ensures Work(maxAttempts, turns[i := row])
              == Work(maxAttempts, turns) - RowWork(maxAttempts, turns[i]) + RowWork(maxAttempts, row)
  {
    var last := |turns| - 1;
    if i < last {
      WorkOfUpdate(maxAttempts, turns[..last], i, row);
      assert turns[i := row][..last] == turns[..last][i := row];
    } else {
      assert turns[i := row][..last] == turns[..last];
    }
  }

  /** The row a round leaves behind: out of processing, and with less work on it. */
  lemma RoundEffect(maxAttempts: nat, turns: seq<Turn>, now: Time, ending: Ending)
    requires SelectDue(turns, |turns|, now).Some?
    ensures var i := SelectDue(turns, |turns|, now).value;
            var r := RunOnce(maxAttempts, turns, now, ending);
            && r == turns[i := r[i]] && !r[i].status.Processing?
            && RowWork(maxAttempts, r[i]) < RowWork(maxAttempts, turns[i])
            && SameTurn(turns[i], r[i]) && (RowCheck(turns[i]) ==> RowCheck(r[i]))
  {
  }

  /** Every round that claims a turn strictly decreases the work left. */
  lemma RoundsUseWork(maxAttempts: nat, turns: seq<Turn>, now: Time, ending: Ending)
    requires SelectDue(turns, |turns|, now).Some?
    ensures Work(maxAttempts, RunOnce(maxAttempts, turns, now, ending)) < Work(maxAttempts, turns)
  {
    var i := SelectDue(turns, |turns|, now).value;
    RoundEffect(maxAttempts, turns, now, ending);
    WorkOfUpdate(maxAttempts, turns, i, RunOnce(maxAttempts, turns, now, ending)[i]);
  }

  // --- What is left ---

  /** With nothing ready and nothing in processing, a finalized turn waits behind an open or a failed one. */
  lemma {:induction false} LeftBehind(turns: seq<Turn>, k: nat)
    requires k < |turns| && turns[k].status.Finalized?
    requires forall i: nat :: !Ready(turns, i)
    requires forall i :: 0 <= i < |turns| ==> !turns[i].status.Processing?
    ensures exists j :: 0 <= j < |turns| && Blocker(turns, j, k) && (turns[j].status.Open? || turns[j].status.Failed?)
    decreases turns[k].index
  {
    assert !Ready(turns, k);
    var j :| 0 <= j < |turns| && Blocker(turns, j, k);
    if turns[j].status.Finalized? {
      LeftBehind(turns, j);
    }
  }

  ghost predicate RowsFit(turns: seq<Turn>) {
    forall i :: 0 <= i < |turns| ==> RowCheck(turns[i])
  }

  /** The clock of the next round: the deadline, or now when that has passed. */
  function NextRound(turns: seq<Turn>, i: nat, now: Time): Time
    requires i < |turns| && turns[i].nextAttemptAt.Some?
  {
    if turns[i].nextAttemptAt.value < now then now else turns[i].nextAttemptAt.value
  }

  /** Rounds until nothing is scheduled, each at the deadline read before it; `endings` says how each one ends. */
  function DrainAll(maxAttempts: nat, turns: seq<Turn>, now: Time, endings: nat -> Ending, round: nat): (r: seq<Turn>)
    requires RowsFit(turns)
    ensures |r| == |turns|
    decreases Work(maxAttempts, turns)
  {
    match SelectNext(turns, |turns|)
    case None => turns
    case Some(i) =>
      ClaimMatchesDeadline(turns, now);
      var due := NextRound(turns, i, now);
      ClaimMatchesDeadline(turns, due);
      RoundsUseWork(maxAttempts, turns, due, endings(round));
      RoundEffect(maxAttempts, turns, due, endings(round));
      DrainAll(maxAttempts, RunOnce(maxAttempts, turns, due, endings(round)), due, endings, round + 1)
  }

  lemma {:induction false} DrainedHasNothingReady(maxAttempts: nat, turns: seq<Turn>, now: Time, endings: nat -> Ending,
                                                  round: nat)
    requires RowsFit(turns) && forall i :: 0 <= i < |turns| ==> !turns[i].status.Processing?
    ensures var r := DrainAll(maxAttempts, turns, now, endings, round);
            SelectNext(r, |r|).None? && forall i :: 0 <= i < |r| ==> !r[i].status.Processing?
    decreases Work(maxAttempts, turns)
  {
    hide Ready, RunOnce, Work, RowWork, RowCheck;
    var next := SelectNext(turns, |turns|);
    if next.Some? {
      ClaimMatchesDeadline(turns, now);
      var due := NextRound(turns, next.value, now);
      ClaimMatchesDeadline(turns, due);
      RoundsUseWork(maxAttempts, turns, due, endings(round));
      RoundEffect(maxAttempts, turns, due, endings(round));
      DrainedHasNothingReady(maxAttempts, RunOnce(maxAttempts, turns, due, endings(round)), due, endings, round + 1);
    }
  }

  /**
   * However the rounds end, draining stops with no turn ready, and every finalized turn that is left has an open or
   * a failed turn of lower index in its conversation.
   */
  lemma DrainedWaitsBehind(maxAttempts: nat, turns: seq<Turn>, now: Time, endings: nat -> Ending, round: nat)
    requires RowsFit(turns) && forall i :: 0 <= i < |turns| ==> !turns[i].status.Processing?
    ensures var r := DrainAll(maxAttempts, turns, now, endings, round);
            && (forall i: nat :: !Ready(r, i))
            && (forall k :: 0 <= k < |r| && r[k].status.Finalized? ==>
                  exists j :: 0 <= j < |r| && Blocker(r, j, k) && (r[j].status.Open? || r[j].status.Failed?))
  {
    DrainedHasNothingReady(maxAttempts, turns, now, endings, round);
    var r := DrainAll(maxAttempts, turns, now, endings, round);
    hide DrainAll;
    forall k | 0 <= k < |r| && r[k].status.Finalized?
      ensures exists j :: 0 <= j < |r| && Blocker(r, j, k) && (r[j].status.Open? || r[j].status.Failed?)
    {
      LeftBehind(r, k);
    }
  }
}
