/**
 * The dispatcher's loop over the store, in a world where no statement fails: `process_claimed_turn`,
 * `run_once`, and rounds until nothing is scheduled. How the actor ends a round is given.
 */
module IngestDispatchers {
  import opened Options
  import opened Tables
  import opened Dispatch
  import opened Schema
  import opened Draining
  import Service
  import opened Outcomes
  import opened IngestStores

  class IngestDispatcher {
    const store: IngestStore
    const maxProcessingAttempts: nat

    constructor (store: IngestStore, maxProcessingAttempts: nat)
      ensures this.store == store && this.maxProcessingAttempts == maxProcessingAttempts
    {
      this.store := store;
      this.maxProcessingAttempts := maxProcessingAttempts;
    }

    method ProcessClaimedTurn(id: nat, row: Turn, now: Time, ending: Ending)
      requires store.Valid() && InProcess(store.turns, id) && store.turns[id] == row
      modifies store`turns
      ensures store.Valid()
      ensures store.turns == Finish(maxProcessingAttempts, old(store.turns), id, now, ending)
      ensures Finishes(maxProcessingAttempts, old(store.turns), store.turns, id, now, ending)
    {
      hide Schema.Valid, Finishes, Rewrites;
      FinishExactly(maxProcessingAttempts, store.turns, id, now, ending);
      if row.attempts >= maxProcessingAttempts {
        var error := if row.lastError.Some? then row.lastError.value
            else Service.ExhaustedMessage(maxProcessingAttempts);
        var _ := store.MarkExhausted(id, error, row.attempts);
        return;
      }
      match ending
      case Persisted => var _ := store.MarkStored(id, now);
      case Unrecoverable(error) => var _ := store.MarkFailed(id, error);
      case Retryable(error, delay) =>
        var attempts := row.attempts + 1;
        if attempts < maxProcessingAttempts {
          var _ := store.MarkRetryableFailure(id, error, attempts, now + delay);
        } else {
          var _ := store.MarkExhausted(id, error, attempts);
        }
    }

    method RunOnce(now: Time, ending: Ending) returns (claimed: bool)
      requires store.Valid()
      modifies store`turns
      ensures store.Valid()
      ensures store.turns == Draining.RunOnce(maxProcessingAttempts, old(store.turns), now, ending)
      ensures claimed <==> SelectDue(old(store.turns), |old(store.turns)|, now).Some?
      ensures claimed ==> Work(maxProcessingAttempts, store.turns) < Work(maxProcessingAttempts, old(store.turns))
    {
      if SelectDue(store.turns, |store.turns|, now).Some? {
        RoundsUseWork(maxProcessingAttempts, store.turns, now, ending);
      }
      hide Schema.Valid, Work, Finish;
      var id := store.ClaimNextDueTurn(now);
      claimed := id.Some?;
      if claimed {
        ProcessClaimedTurn(id.value, store.turns[id.value], now, ending);
      }
    }

    /** Rounds until no turn has a deadline left; the last statement says what is left then. */
    method Drain(start: Time, endings: nat -> Ending)
      requires store.Valid()
      requires forall i :: 0 <= i < |store.turns| ==> !store.turns[i].status.Processing?
      modifies store`turns
      ensures store.Valid()
      ensures RowsFit(old(store.turns))
                && store.turns == DrainAll(maxProcessingAttempts, old(store.turns), start, endings, 0)
      ensures forall k :: 0 <= k < |store.turns| && store.turns[k].status.Finalized? ==>
                exists j :: 0 <= j < |store.turns| && Blocker(store.turns, j, k)
                            && (store.turns[j].status.Open? || store.turns[j].status.Failed?)
    {
      assert RowsFit(store.turns);
      DrainedWaitsBehind(maxProcessingAttempts, store.turns, start, endings, 0);
      var now, round := start, 0;
      var next := SelectNext(store.turns, |store.turns|);
      while next.Some?
        invariant store.Valid() && RowsFit(store.turns)
        invariant next == SelectNext(store.turns, |store.turns|)
        invariant DrainAll(maxProcessingAttempts, store.turns, now, endings, round)
                  == DrainAll(maxProcessingAttempts, old(store.turns), start, endings, 0)
        decreases Work(maxProcessingAttempts, store.turns)
      {
        hide Schema.Valid, Work, Ready, Draining.RunOnce;
        ClaimMatchesDeadline(store.turns, now);
        now := NextRound(store.turns, next.value, now);
        ClaimMatchesDeadline(store.turns, now);
        RoundFits(store.turns, now, endings(round));
        var _ := RunOnce(now, endings(round));
        round := round + 1;
        next := SelectNext(store.turns, |store.turns|);
      }
    }

    lemma RoundFits(turns: seq<Turn>, now: Time, ending: Ending)
      requires RowsFit(turns)
      ensures RowsFit(Draining.RunOnce(maxProcessingAttempts, turns, now, ending))
    {
      if SelectDue(turns, |turns|, now).Some? {
        RoundEffect(maxProcessingAttempts, turns, now, ending);
      }
    }
  }
}
