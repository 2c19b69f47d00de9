/**
 * What every committed state of the two ingest tables satisfies: the row CHECK, the unique indexes, and
 * the cached columns being what a replay of the fragments would give.
 */
module Schema {
  import opened Options
  import opened Tables
  import opened Replay
  import opened Staging
  import opened Dispatch

  ghost predicate RowsChecked(t: Tables) {
    forall i :: 0 <= i < |t.turns| ==> RowCheck(t.turns[i]) && t.turns[i].index > 0
  }

  /** `UNIQUE (conversation_id, turn_index)`, and more: later rows carry larger indexes. */
  ghost predicate IndexesGrow(turns: seq<Turn>) {
    forall i, j :: 0 <= i < j < |turns| && turns[i].conversation == turns[j].conversation
        ==> turns[i].index < turns[j].index
  }

  /** `UNIQUE (conversation_id, external_turn_id) WHERE external_turn_id IS NOT NULL`. */
  ghost predicate ExternalsUnique(turns: seq<Turn>) {
    forall i, j :: 0 <= i < j < |turns| && turns[i].conversation == turns[j].conversation && turns[i].external.Some?
      ==> turns[i].external != turns[j].external
  }

  ghost predicate FragmentsKeyed(t: Tables) {
    && Numbered(t.fragments)
    && (forall k, l :: 0 <= k < l < |t.fragments| ==> t.fragments[k].fragmentId != t.fragments[l].fragmentId)
    && (forall k :: 0 <= k < |t.fragments| ==>
          t.fragments[k].turn < |t.turns| && t.fragments[k].conversation == t.turns[t.fragments[k].turn].conversation)
    && (forall i :: 0 <= i < |t.turns| ==> HasFragments(t.fragments, i))
  }

  /** The cached columns of a turn agree with its fragments. */
  predicate RowCached(fragments: seq<Fragment>, i: nat, row: Turn) {
    if CountsAsFinalized(row.status) then
      row.terminality.Hard? && Reduced(row.projection, row.terminality) == Fold(TurnRows(fragments, i))
    else
      !row.terminality.Hard? && row.terminality == MaxTerminality(fragments, i) && row.projection == EMPTY_PROJECTION
  }

  ghost predicate Cached(t: Tables) {
    forall i :: 0 <= i < |t.turns| ==> RowCached(t.fragments, i, t.turns[i])
  }

  /** A user message in an internally resolved turn is that turn's first arrival. */
  ghost predicate MessagesFirst(t: Tables) {
    forall k, l :: (0 <= l < k < |t.fragments| && t.fragments[k].turn == t.fragments[l].turn
        && t.fragments[k].body.UserMessage?
      && t.fragments[k].turn < |t.turns|) ==> t.turns[t.fragments[k].turn].external.Some?
  }

  /** Only internally resolved turns are ever aborted. */
  ghost predicate AbortsInternal(turns: seq<Turn>) {
    forall i :: 0 <= i < |turns| && turns[i].status.Aborted? ==> turns[i].external.None?
  }

  ghost predicate Valid(t: Tables) {
    && RowsChecked(t)
    && IndexesGrow(t.turns) && ExternalsUnique(t.turns) && SingleOpen(t.turns)
    && FragmentsKeyed(t)
    && Cached(t)
    && MessagesFirst(t)
    && AbortsInternal(t.turns)
  }

  const EMPTY_TABLES := Tables([], [])

  /** The dispatcher's statements cannot reach the columns the invariants speak of. */
  lemma AdvanceKeepsValid(t: Tables, turns: seq<Turn>)
    requires Valid(t) && Advances(t.turns, turns)
    ensures Valid(Tables(turns, t.fragments))
  {
    var t' := Tables(turns, t.fragments);
    forall i | 0 <= i < |turns|
      ensures SameTurn(t.turns[i], turns[i]) && RowCheck(turns[i]) && RowCached(t.fragments, i, turns[i])
      ensures turns[i].status.Open? <==> t.turns[i].status.Open?
      ensures turns[i].status.Aborted? <==> t.turns[i].status.Aborted?
    {
      assert Moves(t.turns[i], turns[i]);
      assert RowCached(t.fragments, i, t.turns[i]);
    }
    assert SingleOpen(turns);
  }

  // --- One accepted delivery, invariant by invariant ---

  lemma ReceivedChecked(t: Tables, e: Envelope, now: Time, i: nat)
    requires i < |t.turns| ==> RowCheck(t.turns[i]) && t.turns[i].index > 0 && t.turns[i].status.Open?
    ensures RowCheck(Received(t, e, i, now)) && Received(t, e, i, now).index > 0
  {
    hide Fold, TurnRows, NewFragment;
  }

  lemma AbortedChecked(row: Turn)
    requires RowCheck(row) && row.status.Open?
    ensures RowCheck(AbortedTurn(row)) && AbortedTurn(row).index == row.index
  {
  }

  lemma DeliverKeepsRows(t: Tables, e: Envelope, now: Time, t': Tables, i: nat)
    requires RowsChecked(t) && Delivers(t, e, now, t', i)
    ensures RowsChecked(t')
  {
    hide RowCheck, Received, AbortedTurn, NewFragment, HasFragments;
    ReceivedChecked(t, e, now, i);
    forall j | 0 <= j < |t'.turns| && j != i ensures RowCheck(t'.turns[j]) && t'.turns[j].index > 0 {
      if t'.turns[j] != t.turns[j] { AbortedChecked(t.turns[j]); }
    }
  }

  lemma DeliverKeepsIdentity(t: Tables, e: Envelope, now: Time, t': Tables, i: nat)
    requires Delivers(t, e, now, t', i)
    ensures forall j :: 0 <= j < |t.turns| ==> SameTurn(t.turns[j], t'.turns[j])
  {
  }

  lemma DeliverKeepsKeys(t: Tables, e: Envelope, now: Time, t': Tables, i: nat)
    requires IndexesGrow(t.turns) && ExternalsUnique(t.turns) && SingleOpen(t.turns) && Delivers(t, e, now, t', i)
    ensures IndexesGrow(t'.turns) && ExternalsUnique(t'.turns) && SingleOpen(t'.turns)
  {
    DeliverKeepsIdentity(t, e, now, t', i);
    if i == |t.turns| {
      assert t'.turns[i].index == MaxIndex(t.turns, e.conversation) + 1;
    }
  }

  lemma DeliverKeepsFragments(t: Tables, e: Envelope, now: Time, t': Tables, i: nat)
    requires FragmentsKeyed(t) && Delivers(t, e, now, t', i)
    ensures FragmentsKeyed(t')
  {
    forall j | 0 <= j < |t'.turns| ensures HasFragments(t'.fragments, j) {
      if j == i {
        assert t'.fragments[|t.fragments|].turn == i;
      } else {
        assert HasFragments(t.fragments, j);
        var k :| 0 <= k < |t.fragments| && t.fragments[k].turn == j;
        assert t'.fragments[k].turn == j;
      }
    }
    assert t'.fragments[|t.fragments|] == NewFragment(t.fragments, i, e);
  }

  /** A turn without fragments has nothing to replay. */
  lemma {:induction false} NothingToReplay(fragments: seq<Fragment>, i: nat)
    requires !HasFragments(fragments, i)
    ensures MaxTerminality(fragments, i) == Unmarked && TurnRows(fragments, i) == []
  {
    if fragments != [] {
      var last := |fragments| - 1;
      assert fragments[last].turn != i;
      forall k | 0 <= k < last ensures fragments[..last][k].turn != i {
        assert fragments[..last][k] == fragments[k];
      }
      NothingToReplay(fragments[..last], i);
    }
  }

  lemma ReceivedIsCached(t: Tables, e: Envelope, now: Time, t': Tables, i: nat)
    requires Cached(t) && FragmentsKeyed(t) && Delivers(t, e, now, t', i)
    ensures RowCached(t'.fragments, i, t'.turns[i])
  {
    var f := NewFragment(t.fragments, i, e);
    var fragments := t.fragments + [f];
    assert fragments[..|t.fragments|] == t.fragments && fragments[|t.fragments|] == f;
    FoldTerminality(fragments, i);
    if i < |t.turns| {
      assert RowCached(t.fragments, i, t.turns[i]);
    } else {
      assert !HasFragments(t.fragments, i);
      NothingToReplay(t.fragments, i);
    }
  }

  lemma DeliverKeepsCached(t: Tables, e: Envelope, now: Time, t': Tables, i: nat)
    requires Cached(t) && FragmentsKeyed(t) && Delivers(t, e, now, t', i)
    ensures Cached(t')
  {
    var f := NewFragment(t.fragments, i, e);
    assert t'.fragments[..|t.fragments|] == t.fragments;
    forall j | 0 <= j < |t'.turns| ensures RowCached(t'.fragments, j, t'.turns[j]) {
      if j == i {
        ReceivedIsCached(t, e, now, t', i);
      } else {
        assert RowCached(t.fragments, j, t.turns[j]);
        assert TurnRows(t'.fragments, j) == TurnRows(t.fragments, j);
        assert MaxTerminality(t'.fragments, j) == MaxTerminality(t.fragments, j);
      }
    }
  }

  lemma DeliverKeepsMessages(t: Tables, e: Envelope, now: Time, t': Tables, i: nat)
    requires MessagesFirst(t) && AbortsInternal(t.turns) && FragmentsKeyed(t) && Delivers(t, e, now, t', i)
    ensures MessagesFirst(t') && AbortsInternal(t'.turns)
  {
    DeliverKeepsIdentity(t, e, now, t', i);
    DeliverKeepsAborts(t, e, now, t', i);
    hide Received, RowCheck, Numbered, AbortsInternal, AbortedTurn;
    forall k, l | 0 <= l < k < |t'.fragments| && t'.fragments[k].turn == t'.fragments[l].turn
      && t'.fragments[k].body.UserMessage? && t'.fragments[k].turn < |t'.turns|
      ensures t'.turns[t'.fragments[k].turn].external.Some?
    {
      assert l < |t.fragments| && t'.fragments[l] == t.fragments[l];
      assert t.fragments[l].turn < |t.turns|;
      if k == |t.fragments| {
        assert HasFragments(t.fragments, i);
      } else {
        assert t'.fragments[k] == t.fragments[k];
      }
    }
  }

  lemma DeliverKeepsAborts(t: Tables, e: Envelope, now: Time, t': Tables, i: nat)
    requires AbortsInternal(t.turns) && Delivers(t, e, now, t', i)
    ensures AbortsInternal(t'.turns)
  {
    hide Fold, TurnRows, HasFragments;
  }

  /** Staging keeps every invariant, whatever is delivered. */
  lemma StageKeepsValid(t: Tables, e: Envelope, now: Time)
    requires Valid(t)
    ensures Valid(Stage(t, e, now).0)
  {
    if Accepted(t, e, now) {
      var i := StageDelivers(t, e, now);
      var t' := Stage(t, e, now).0;
      DeliverKeepsRows(t, e, now, t', i);
      DeliverKeepsKeys(t, e, now, t', i);
      DeliverKeepsFragments(t, e, now, t', i);
      DeliverKeepsCached(t, e, now, t', i);
      DeliverKeepsMessages(t, e, now, t', i);
    } else {
      RefusalChangesNothing(t, e, now);
    }
  }

  /** The turn the delivery names, if it names one, takes no more fragments. */
  ghost predicate NamesClosedTurn(t: Tables, e: Envelope) {
    e.turnId.Some?
        && exists j :: 0 <= j < |t.turns| && t.turns[j].conversation == e.conversation
             && t.turns[j].external == e.turnId
                                  && !t.turns[j].status.Open?
  }

  /** The fragment was delivered before. */
  ghost predicate Known(t: Tables, e: Envelope) {
    exists k :: 0 <= k < |t.fragments| && t.fragments[k].fragmentId == e.fragmentId
  }

  predicate HintFits(e: Envelope) { e.hint.None? || e.hint.value < 0x8000_0000_0000_0000 }

  /** What a delivery is answered, in terms of what was there before. */
  lemma AnsweredExactly(t: Tables, e: Envelope, now: Time)
    requires Valid(t)
    ensures var outcome := Stage(t, e, now).1;
            && (outcome.Staged? && outcome.duplicate <==> Known(t, e))
            && (outcome == Rejected(ClosedTurn) <==> !Known(t, e) && NamesClosedTurn(t, e))
            && (outcome == Rejected(HintOutOfRange) <==> !Known(t, e) && !NamesClosedTurn(t, e) && !HintFits(e))
            && (outcome.Staged? && !outcome.duplicate <==> !Known(t, e) && !NamesClosedTurn(t, e) && HintFits(e))
            && (Accepted(t, e, now) <==> !Known(t, e) && !NamesClosedTurn(t, e) && HintFits(e))
  {
    ResolvedUnlessClosed(t, e);
    if FindFragment(t.fragments, e.fragmentId).Some? {
      assert t.fragments[FindFragment(t.fragments, e.fragmentId).value].turn < |t.turns|;
    } else {
      AnsweredNew(t, e, now);
    }
    hide Valid, NamesClosedTurn, ResolveTurn, Conclude;
  }

  lemma AnsweredNew(t: Tables, e: Envelope, now: Time)
    requires FindFragment(t.fragments, e.fragmentId).None?
    ensures var outcome := Stage(t, e, now).1;
            && (outcome == Rejected(ClosedTurn) <==> ResolveTurn(t, e).Refused?)
            && (outcome == Rejected(HintOutOfRange) <==> ResolveTurn(t, e).Resolved? && !HintFits(e))
            && (outcome.Staged? && !outcome.duplicate <==> ResolveTurn(t, e).Resolved? && HintFits(e))
            && !(outcome.Staged? && outcome.duplicate)
  {
    StageBranches(t, e, now);
    hide ResolveTurn, Fold, TurnRows, ReducedTurn, MarkedTurn, FindFragment;
  }

  lemma ResolvedUnlessClosed(t: Tables, e: Envelope)
    requires Valid(t)
    ensures ResolveTurn(t, e).Refused? <==> NamesClosedTurn(t, e)
  {
    assert ExternalsUnique(t.turns);
    hide Valid, OpenInternal, HasFragments, MaxIndex, FindOpen;
    if e.turnId.Some? && FindExternal(t.turns, e.conversation, e.turnId.value).Some? {
      var i := FindExternal(t.turns, e.conversation, e.turnId.value).value;
      forall j | 0 <= j < |t.turns| && t.turns[j].conversation == e.conversation && t.turns[j].external == e.turnId
        ensures j == i
      {
      }
    }
  }

  // --- The two updates of a staged turn ---

  /** An update of the turns that reaches only row `i`, only while it is open, and leaves its identity alone. */
  ghost predicate Reaches(turns: seq<Turn>, i: nat, turns': seq<Turn>, affected: nat) {
    && i < |turns| && |turns'| == |turns|
    && affected == (if turns[i].status.Open? then 1 else 0) && (affected == 0 ==> turns' == turns)
    && (forall j :: 0 <= j < |turns| && j != i ==> turns'[j] == turns[j])
    && SameTurn(turns[i], turns'[i]) && turns'[i].attempts == turns[i].attempts
    && (RowCheck(turns[i]) ==> RowCheck(turns'[i]))
  }

  /** Storing a projection that ends its turn closes the turn for good: neither update can reach it again. */
  lemma ReduceFinalizesOnce(turns: seq<Turn>, i: nat, fragments: seq<Fragment>, now: Time)
    requires i < |turns| && Fold(TurnRows(fragments, i)).terminality.Hard?
    ensures var (turns', affected) := UpdateReducedTurn(turns, i, Fold(TurnRows(fragments, i)), now);
            && Reaches(turns, i, turns', affected)
            && (affected == 1 ==>
                  && RowCached(fragments, i, turns'[i]) && turns'[i].finalizedAt == Some(now) == turns'[i].nextAttemptAt
                  && (forall r, later :: UpdateReducedTurn(turns', i, r, later) == (turns', 0))
                  && (forall terminality :: UpdateOpenTurn(turns', i, terminality) == (turns', 0)))
  {
    hide Fold, TurnRows, RowCached;
    ReducedIsCached(turns[i], fragments, i, now);
  }

  lemma ReducedIsCached(row: Turn, fragments: seq<Fragment>, i: nat, now: Time)
    requires Fold(TurnRows(fragments, i)).terminality.Hard?
    ensures RowCached(fragments, i, ReducedTurn(row, Fold(TurnRows(fragments, i)), now))
  {
    hide Fold, TurnRows;
  }

  /** Merging a fragment's terminality into an open row keeps the row's cache in step with the fragments. */
  lemma MergeKeepsCache(turns: seq<Turn>, i: nat, fragments: seq<Fragment>, f: Fragment)
    requires i < |turns| && turns[i].status.Open? && RowCached(fragments, i, turns[i])
    requires f.turn == i && !f.terminality.Hard?
    ensures var (turns', affected) := UpdateOpenTurn(turns, i, Merge(turns[i].terminality, f.terminality));
            Reaches(turns, i, turns', affected) && affected == 1 && RowCached(fragments + [f], i, turns'[i])
  {
    assert (fragments + [f])[..|fragments|] == fragments;
  }

  // --- How one committed state leads to the next ---

  /** What no later step undoes. */
  predicate RowEvolves(a: Turn, b: Turn) {
    && SameTurn(a, b)
    && (Settled(a.status) || a.status.Failed? ==> b == a)
    && (CountsAsFinalized(a.status) ==>
          b.projection == a.projection && b.terminality == a.terminality && b.finalizedAt == a.finalizedAt
              && CountsAsFinalized(b.status))
  }

  ghost predicate Evolves(t: Tables, t': Tables) {
    && |t.turns| <= |t'.turns|
    && t.fragments <= t'.fragments
    && (forall i :: 0 <= i < |t.turns| ==> RowEvolves(t.turns[i], t'.turns[i]))
  }

  lemma AdvanceEvolves(t: Tables, turns: seq<Turn>)
    requires Advances(t.turns, turns)
    ensures Evolves(t, Tables(turns, t.fragments))
  {
    forall i | 0 <= i < |turns| ensures RowEvolves(t.turns[i], turns[i]) {
      assert Moves(t.turns[i], turns[i]);
    }
  }

  lemma DeliverEvolves(t: Tables, e: Envelope, now: Time, t': Tables, i: nat)
    requires Delivers(t, e, now, t', i)
    ensures Evolves(t, t')
  {
    forall j | 0 <= j < |t.turns| ensures RowEvolves(t.turns[j], t'.turns[j]) {
    }
  }

  lemma StageEvolves(t: Tables, e: Envelope, now: Time)
    requires Valid(t)
    ensures Evolves(t, Stage(t, e, now).0)
  {
    if Accepted(t, e, now) {
      var i := StageDelivers(t, e, now);
      DeliverEvolves(t, e, now, Stage(t, e, now).0, i);
    } else {
      RefusalChangesNothing(t, e, now);
    }
  }

  lemma EvolvesTransitive(a: Tables, b: Tables, c: Tables)
    requires Evolves(a, b) && Evolves(b, c)
    ensures Evolves(a, c)
  {
    forall i | 0 <= i < |a.turns| ensures RowEvolves(a.turns[i], c.turns[i]) {
      assert RowEvolves(a.turns[i], b.turns[i]) && RowEvolves(b.turns[i], c.turns[i]);
    }
  }
}
