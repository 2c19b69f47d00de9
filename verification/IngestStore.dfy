/**
 * The ingest store: the two tables and the transactions on them, one method per statement or transaction of
 * the source. Each method is the function of the same step in `Staging`, `Dispatch` or `History`, and keeps
 * the store valid.
 */
module IngestStores {
  import opened Options
  import opened Tables
  import opened Replay
  import opened Staging
  import opened Deliveries
  import opened Dispatch
  import opened Schema
  import opened History

  class IngestStore {
    var turns: seq<Turn>
    var fragments: seq<Fragment>
    const historyWindowSize: nat

    function Contents(): Tables
      reads this
    {
      Tables(turns, fragments)
    }

    ghost predicate Valid()
      reads this
    {
      Schema.Valid(Contents())
    }

    constructor (historyWindowSize: nat)
      ensures Valid() && Contents() == EMPTY_TABLES && this.historyWindowSize == historyWindowSize
    {
      turns, fragments := [], [];
      this.historyWindowSize := historyWindowSize;
    }

    // --- Staging ---

    method CreateTurn(conversation: string, external: Option<string>) returns (turn: nat)
      modifies this`turns
      ensures Staging.CreateTurn(old(turns), conversation, external) == Resolved(turns, turn)
    {
      turn := |turns|;
      turns := turns + [NewTurn(turns, conversation, external)];
    }

    method AbortTurn(turn: nat)
      requires turn < |turns|
      modifies this`turns
      ensures turns == old(turns)[turn := AbortedTurn(old(turns[turn]))]
    {
      var aborted :=
        turns[turn].(status := Aborted, nextAttemptAt := None, processingStartedAt := None, storedAt := None);
      turns := turns[turn := aborted];
    }

    /** The turn a fragment goes to, or none when it names a closed turn. */
    method ResolveTurn(e: Envelope) returns (turn: Option<nat>)
      modifies this`turns
      ensures match Staging.ResolveTurn(old(Contents()), e)
              case Refused => turn == None && turns == old(turns)
              case Resolved(resolved, i) => turn == Some(i) && turns == resolved
    {
      if e.turnId.Some? {
        var known := FindExternal(turns, e.conversation, e.turnId.value);
        if known.Some? {
          return if turns[known.value].status.Open? then Some(known.value) else None;
        }
        var created := CreateTurn(e.conversation, e.turnId);
        return Some(created);
      }
      var open := FindOpen(turns, e.conversation);
      if open.Some? {
        if e.body.UserMessage? && HasFragments(fragments, open.value) {
          AbortTurn(open.value);
          var created := CreateTurn(e.conversation, None);
          return Some(created);
        }
        return open;
      }
      var created := CreateTurn(e.conversation, None);
      return Some(created);
    }

    /** Folds the turn's fragments, in query order, into a projection. */
    method RebuildProjection(turn: nat) returns (r: Reduced)
      ensures r == Fold(TurnRows(fragments, turn))
    {
      var rows := TurnRows(fragments, turn);
      var projection, terminality := EMPTY_PROJECTION, Unmarked;
      for k := 0 to |rows|
        invariant Reduced(projection, terminality) == Fold(rows[..k])
      {
        assert rows[..k + 1][..k] == rows[..k];
        terminality := if rows[k].terminality.Rank() > terminality.Rank() then rows[k].terminality else terminality;
        match rows[k].body
        case UserMessage(text) => projection := projection.(userMessage := AppendMessage(projection.userMessage, text));
        case AssistantMessage(text) =>
          projection := projection.(assistantReply := AppendMessage(projection.assistantReply, text));
        case ToolCall(name, input) => projection := projection.(steps := projection.steps + [CallStep(name, input)]);
        case ToolResult(name, output) =>
          projection := projection.(steps := projection.steps + [ResultStep(name, output)]);
        case Thinking(text) => projection := projection.(steps := projection.steps + [ThinkingStep(text)]);
        case Other =>
      }
      assert rows[..|rows|] == rows;
      r := Reduced(projection, terminality);
    }

    method UpdateOpenTurnAfterInsert(turn: nat, terminality: Terminality) returns (found: bool)
      requires turn < |turns|
      modifies this`turns
      ensures (turns, if found then 1 else 0) == UpdateOpenTurn(old(turns), turn, terminality)
      ensures Reaches(old(turns), turn, turns, if found then 1 else 0)
      ensures found ==> turns[turn].terminality == terminality && turns[turn].projection == old(turns)[turn].projection
    {
      found := turns[turn].status.Open?;
      if found {
        turns := turns[turn := turns[turn].(terminality := terminality)];
      }
    }

    method UpdateTurnAfterReduce(turn: nat, reduced: Reduced, now: Time) returns (found: bool, finalized: bool)
      requires turn < |turns|
      modifies this`turns
      ensures (turns, if found then 1 else 0) == UpdateReducedTurn(old(turns), turn, reduced, now)
      ensures Reaches(old(turns), turn, turns, if found then 1 else 0)
      ensures finalized == reduced.terminality.Hard?
      ensures found ==>
                && turns[turn].projection == reduced.projection
                && (finalized <==> CountsAsFinalized(turns[turn].status))
    {
      finalized := reduced.terminality.Hard?;
      var stamp := if finalized then Some(now) else None;
      found := turns[turn].status.Open?;
      if found {
        turns := turns[turn := turns[turn].(
          projection := reduced.projection, terminality := reduced.terminality,
          status := if finalized then Finalized else Open, finalizedAt := stamp, nextAttemptAt := stamp,
          lastError := None, processingStartedAt := None, storedAt := None)];
      }
    }

    /** The rest of the transaction once the turn is known; false when it has to be rolled back. */
    method Write(e: Envelope, turn: nat, now: Time) returns (committed: bool, outcome: Outcome)
      requires turn < |turns|
      modifies this
      ensures var before := Tables(old(turns), old(fragments));
              var (inserted, affected) := InsertFragment(old(fragments), NewFragment(old(fragments), turn, e));
              if affected == 0 then !committed && outcome == ReportExisting(Tables(turns, old(fragments)), e.fragmentId)
              else
                var (after, concluded) := Conclude(before, old(turns), turn, inserted, e, now);
                outcome == concluded && committed == outcome.Staged? && (committed ==> Contents() == after)
    {
      if FindFragment(fragments, e.fragmentId).Some? {
        return false, ReportExisting(Contents(), e.fragmentId);
      }
      fragments := fragments + [NewFragment(fragments, turn, e)];
      var index := turns[turn].index;
      if e.terminality.Hard? {
        var reduced := RebuildProjection(turn);
        var found, finalized := UpdateTurnAfterReduce(turn, reduced, now);
        return found, if found then Staged(index, false, finalized) else Rejected(RowNotFound);
      } else {
        var terminality := Merge(turns[turn].terminality, e.terminality);
        var found := UpdateOpenTurnAfterInsert(turn, terminality);
        return found, if found then Staged(index, false, false) else Rejected(RowNotFound);
      }
    }

    /** The whole transaction. On every path but the commit the tables go back to what they were. */
    method StageFragmentOnce(e: Envelope, now: Time) returns (outcome: Outcome)
      requires Valid()
      modifies this
      ensures Valid()
      ensures (Contents(), outcome) == Stage(old(Contents()), e, now)
      ensures LandsIfAccepted(old(Contents()), e, now, Contents(), outcome)
    {
      hide Schema.Valid, LandsIfAccepted, Staging.ResolveTurn, FindFragment, ReportExisting, Fold, TurnRows;
      StageLands(Contents(), e, now);
      StageKeepsValid(Contents(), e, now);
      if FindFragment(fragments, e.fragmentId).Some? {
        return ReportExisting(Contents(), e.fragmentId);
      }
      var savedTurns, savedFragments := turns, fragments;
      var turn := ResolveTurn(e);
      if turn.None? {
        return Rejected(ClosedTurn);
      }
      if e.hint.Some? && e.hint.value > MAX_HINT {
        turns := savedTurns;
        return Rejected(HintOutOfRange);
      }
      var committed;
      committed, outcome := Write(e, turn.value, now);
      if !committed {
        turns, fragments := savedTurns, savedFragments;
      }
    }

    // --- Dispatch ---

    /** Scans the rows for the due candidate with the earliest next attempt, and claims it. */
    method ClaimNextDueTurn(now: Time) returns (claimed: Option<nat>)
      requires Valid()
      modifies this`turns
      ensures Valid()
      ensures (turns, claimed) == Claim(old(turns), now)
      ensures claimed.None? ==> turns == old(turns) && forall j :: 0 <= j < |turns| ==> !Due(turns, j, now)
      ensures claimed.Some? ==> Due(old(turns), claimed.value, now)
      ensures claimed.Some? ==>
                var t := old(turns)[claimed.value];
                Rewrites(old(turns), turns, claimed.value, Processing, t.attempts, t.lastError, t.nextAttemptAt,
                         Some(now), t.storedAt)
      ensures claimed.Some? ==> forall j :: 0 <= j < |old(turns)| && Due(old(turns), j, now) && j != claimed.value ==>
                var first, other := old(turns)[claimed.value].nextAttemptAt.value, old(turns)[j].nextAttemptAt.value;
                first < other || (first == other && claimed.value < j)
    {
      ClaimExactly(turns, now);
      hide Schema.Valid, Advances, Due, Sooner, Rewrites;
      StatementsAdvance(turns, 0, "", 0, now);
      AdvanceKeepsValid(Contents(), Claim(turns, now).0);
      claimed := None;
      for n := 0 to |turns|
        invariant claimed == SelectDue(turns, n, now)
      {
        if Due(turns, n, now) && (claimed.None? || Sooner(turns, n, claimed.value)) {
          claimed := Some(n);
        }
      }
      if claimed.Some? {
        turns := turns[claimed.value := turns[claimed.value].(status := Processing, processingStartedAt := Some(now))];
      }
    }

    /** When the next candidate is due, if there is one. */
    method NextDueAt() returns (at: Option<Time>)
      requires Valid()
      ensures at.None? <==> forall i: nat :: !Ready(turns, i)
      ensures at.Some? ==> forall now: Time :: at.value <= now <==> Claim(turns, now).1.Some?
    {
      assert forall i :: 0 <= i < |turns| ==> RowCheck(turns[i]);
      assert forall i: nat :: Ready(turns, i) ==> i < |turns|;
      hide Schema.Valid, Ready, Sooner, Due, RowCheck;
      var next: Option<nat> := None;
      for n := 0 to |turns|
        invariant next == SelectNext(turns, n)
      {
        if Ready(turns, n) && (next.None? || Sooner(turns, n, next.value)) {
          next := Some(n);
        }
      }
      forall now: Time ensures next.Some?
          ==> turns[next.value].nextAttemptAt.Some?
                && (turns[next.value].nextAttemptAt.value <= now <==> Claim(turns, now).1.Some?) {
        ClaimMatchesDeadline(turns, now);
      }
      at := if next.Some? then turns[next.value].nextAttemptAt else None;
    }

    /** `previous_turns.reverse()`. */
    static method Reversed(rows: seq<Projection>) returns (r: seq<Projection>)
      ensures r == Reverse(rows)
    {
      r := [];
      for k := 0 to |rows|
        invariant |r| == k && forall i :: 0 <= i < k ==> r[i] == rows[k - 1 - i]
      {
        r := [rows[k]] + r;
      }
    }

    /** The history query: walks back from the turn's index and keeps stored projections up to the limit. */
    method SelectPreviousTurns(conversation: string, index: nat) returns (rows: seq<Projection>)
      ensures rows == Limit(PreviousDesc(turns, conversation, index), historyWindowSize)
    {
      hide FindIndex, PreviousDesc;
      PreviousOfNone(turns, conversation);
      rows := [];
      var below: nat := index;
      ghost var all := PreviousDesc(turns, conversation, index);
      while below > 0 && (historyWindowSize == 0 || |rows| < historyWindowSize)
        invariant below <= index
        invariant rows + PreviousDesc(turns, conversation, below) == all
        invariant historyWindowSize == 0 || |rows| <= historyWindowSize
      {
        below := below - 1;
        ghost var rest := PreviousDesc(turns, conversation, below);
        PreviousStep(turns, conversation, below);
        var found := FindIndex(turns, conversation, below);
        if found.Some? && turns[found.value].status.Stored? {
          assert rows + ([turns[found.value].projection] + rest) == (rows + [turns[found.value].projection]) + rest;
          rows := rows + [turns[found.value].projection];
        }
      }
      assert all[..|rows|] == rows;
    }

    method BuildWindow(row: Turn) returns (window: Window)
      requires Valid()
      ensures window == History.BuildWindow(turns, row, historyWindowSize)
      ensures window.previous == LastN(StoredBefore(turns, |turns|, row.conversation, row.index), historyWindowSize)
    {
      WindowIsRecentHistory(turns, row, historyWindowSize);
      var newestFirst := SelectPreviousTurns(row.conversation, row.index);
      var previous := Reversed(newestFirst);
      window := Window(previous, row.projection);
    }

    method MarkRetryableFailure(turn: nat, error: string, attempts: nat, nextAttemptAt: Time) returns (updated: bool)
      requires Valid()
      modifies this`turns
      ensures Valid() && updated == InProcess(old(turns), turn)
      ensures turns == MarkRetryable(old(turns), turn, error, attempts, nextAttemptAt)
      ensures !updated ==> turns == old(turns)
      ensures updated ==>
                Rewrites(old(turns), turns, turn, Finalized, attempts, Some(error), Some(nextAttemptAt), None, None)
    {
      hide Schema.Valid, Advances;
      StatementsAdvance(turns, turn, error, attempts, nextAttemptAt);
      AdvanceKeepsValid(Contents(), MarkRetryable(turns, turn, error, attempts, nextAttemptAt));
      updated := turn < |turns| && turns[turn].status.Processing?;
      if updated {
        turns := turns[turn := turns[turn].(status := Finalized, attempts := attempts, lastError := Some(error),
                                            nextAttemptAt := Some(nextAttemptAt), processingStartedAt := None,
                                                storedAt := None)];
      }
    }

    method MarkFailed(turn: nat, error: string) returns (updated: bool)
      requires Valid()
      modifies this`turns
      ensures Valid() && updated == InProcess(old(turns), turn)
      ensures turns == Dispatch.MarkFailed(old(turns), turn, error)
      ensures !updated ==> turns == old(turns)
      ensures updated ==>
                Rewrites(old(turns), turns, turn, Failed, old(turns)[turn].attempts, Some(error), None, None, None)
    {
      hide Schema.Valid, Advances;
      StatementsAdvance(turns, turn, error, 0, 0);
      AdvanceKeepsValid(Contents(), Dispatch.MarkFailed(turns, turn, error));
      updated := turn < |turns| && turns[turn].status.Processing?;
      if updated {
        turns := turns[turn := turns[turn].(status := Failed, lastError := Some(error), nextAttemptAt := None,
                                            processingStartedAt := None, storedAt := None)];
      }
    }

    method MarkExhausted(turn: nat, error: string, attempts: nat) returns (updated: bool)
      requires Valid()
      modifies this`turns
      ensures Valid() && updated == InProcess(old(turns), turn)
      ensures turns == Dispatch.MarkExhausted(old(turns), turn, error, attempts)
      ensures !updated ==> turns == old(turns)
      ensures updated ==> Rewrites(old(turns), turns, turn, Exhausted, attempts, Some(error), None, None, None)
    {
      hide Schema.Valid, Advances;
      StatementsAdvance(turns, turn, error, attempts, 0);
      AdvanceKeepsValid(Contents(), Dispatch.MarkExhausted(turns, turn, error, attempts));
      updated := turn < |turns| && turns[turn].status.Processing?;
      if updated {
        turns := turns[turn := turns[turn].(status := Exhausted, attempts := attempts, lastError := Some(error),
                                            nextAttemptAt := None, processingStartedAt := None, storedAt := None)];
      }
    }

    method MarkStored(turn: nat, storedAt: Time) returns (updated: bool)
      requires Valid()
      modifies this`turns
      ensures Valid() && updated == InProcess(old(turns), turn)
      ensures turns == Dispatch.MarkStored(old(turns), turn, storedAt)
      ensures !updated ==> turns == old(turns)
      ensures updated ==>
                Rewrites(old(turns), turns, turn, Stored, old(turns)[turn].attempts, None, None, None, Some(storedAt))
    {
      hide Schema.Valid, Advances;
      StatementsAdvance(turns, turn, "", 0, storedAt);
      AdvanceKeepsValid(Contents(), Dispatch.MarkStored(turns, turn, storedAt));
      updated := turn < |turns| && turns[turn].status.Processing?;
      if updated {
        turns := turns[turn := turns[turn].(status := Stored, lastError := None, nextAttemptAt := None,
                                            processingStartedAt := None, storedAt := Some(storedAt))];
      }
    }

    /** Every interrupted turn goes back to the queue with one more attempt on its account. */
    method RecoverProcessingTurns(now: Time) returns (recovered: nat)
      requires Valid()
      modifies this`turns
      ensures Valid()
      ensures turns == Recover(old(turns), now) && |turns| == |old(turns)|
      ensures forall i :: 0 <= i < |turns| ==>
                if old(turns)[i].status.Processing? then Requeued(old(turns)[i], turns[i], now)
                else turns[i] == old(turns)[i]
      ensures recovered > 0 <==> exists i :: 0 <= i < |old(turns)| && InProcess(old(turns), i)
    {
      hide Schema.Valid, Advances;
      ghost var before := turns;
      StatementsAdvance(turns, 0, "", 0, now);
      AdvanceKeepsValid(Contents(), Recover(turns, now));
      recovered := 0;
      for i := 0 to |turns|
        invariant |turns| == |before| && fragments == old(fragments)
        invariant forall j :: 0 <= j < i ==> turns[j] == RecoveredTurn(before[j], now)
        invariant forall j :: i <= j < |turns| ==> turns[j] == before[j]
        invariant recovered > 0 <==> exists j :: 0 <= j < i && InProcess(before, j)
      {
        if turns[i].status.Processing? {
          var t := turns[i];
          turns := turns[i := t.(status := Finalized, attempts := t.attempts + 1,
                                 lastError := if t.lastError.Some? then t.lastError else Some(INTERRUPTED),
                                 nextAttemptAt := Some(now), processingStartedAt := None, storedAt := None)];
          recovered := recovered + 1;
          assert InProcess(before, i);
        }
      }
      assert turns == Recover(before, now);
    }
  }
}
