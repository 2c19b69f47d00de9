/**
 * What an accepted delivery does to the two tables, told without the functions that do it: where the fragment goes,
 * what its turn's row is afterwards, and which turn is given up.
 */
module Deliveries {
  import opened Options
  import opened Tables
  import opened Replay
  import opened Staging
  import opened Schema
  import opened Envelopes

  ghost predicate HasArrivals(t: Tables, i: nat) {
    exists k :: 0 <= k < |t.fragments| && t.fragments[k].turn == i
  }

  /** An open turn without an id of its own, in the delivery's conversation. */
  predicate OpenFor(t: Turn, e: Envelope) {
    t.conversation == e.conversation && t.external == None && t.status == Open
  }

  /**
   * A delivery with a turn id goes to the open turn of that id, or to a new one if the id is new. Without one it goes
   * to the open turn, but a user message only to a turn without arrivals; and else to a new one.
   */
  ghost predicate GoesTo(t: Tables, e: Envelope, i: nat) {
    if e.turnId.Some? then
      || (i < |t.turns| && t.turns[i].conversation == e.conversation && t.turns[i].external == e.turnId
          && t.turns[i].status == Open)
      || (i == |t.turns|
          && forall j :: 0 <= j < |t.turns| && t.turns[j].conversation == e.conversation
               ==> t.turns[j].external != e.turnId)
    else
      || (i < |t.turns| && OpenFor(t.turns[i], e) && !(e.body.UserMessage? && HasArrivals(t, i)))
      || (i == |t.turns|
          && forall j :: 0 <= j < |t.turns| && OpenFor(t.turns[j], e) ==> e.body.UserMessage? && HasArrivals(t, j))
  }

  /** The row before the fragment arrives; a new one has the next index and is otherwise blank. */
  ghost predicate Before(t: Tables, e: Envelope, i: nat, row: Turn) {
    if i < |t.turns| then row == t.turns[i]
    else
      && row == Turn(e.conversation, e.turnId, row.index, Open, Projection("", "", []), Unmarked, None, 0, None, None,
                     None, None)
      && (forall j :: 0 <= j < |t.turns| && t.turns[j].conversation == e.conversation ==> t.turns[j].index < row.index)
      && (row.index == 1
          || exists j :: 0 <= j < |t.turns| && t.turns[j].conversation == e.conversation
                         && t.turns[j].index + 1 == row.index)
  }

  /** The row afterwards: finalized with its projection by a hard fragment, and else open, marked as strongly as any. */
  predicate After(t': Tables, e: Envelope, now: Time, i: nat, a: Turn, b: Turn) {
    if e.terminality == Hard then
      b == Turn(e.conversation, e.turnId, a.index, Finalized, Fold(TurnRows(t'.fragments, i)).projection, Hard,
                Some(now), a.attempts, None, Some(now), None, None)
    else
      && b == Turn(e.conversation, e.turnId, a.index, Open, a.projection, b.terminality, None, a.attempts, a.lastError,
                   None, None, None)
      && b.terminality == (if e.terminality == Soft then Soft else a.terminality)
  }

  /** A new turn without an id takes the place of the open one, which is given up. */
  predicate GivenUp(e: Envelope, a: Turn, b: Turn) {
    if e.turnId.None? && OpenFor(a, e) then
      b == Turn(a.conversation, None, a.index, Aborted, a.projection, a.terminality, a.finalizedAt, a.attempts,
                a.lastError, None, None, None)
    else b == a
  }

  ghost predicate Delivered(t: Tables, e: Envelope, now: Time, t': Tables, i: nat) {
    && GoesTo(t, e, i) && Stores(t, e, t', i)
    && |t'.turns| == (if i < |t.turns| then |t.turns| else |t.turns| + 1)
    && (exists row :: Before(t, e, i, row) && After(t', e, now, i, row, t'.turns[i]))
    && forall j :: 0 <= j < |t.turns| && j != i ==> GivenUp(e, t.turns[j], t'.turns[j])
  }

  /** The place is the only one. */
  lemma GoesToOne(t: Tables, e: Envelope, i: nat, j: nat)
    requires Valid(t) && GoesTo(t, e, i) && GoesTo(t, e, j)
    ensures i == j
  {
    var turns := t.turns;
    assert ExternalsUnique(turns) && SingleOpen(turns);
    hide Valid, HasArrivals;
    assert i < |turns| && j < |turns| && e.turnId.None? ==> OpenInternal(turns[i], e.conversation);
    assert i < |turns| && j < |turns| && e.turnId.None? ==> OpenInternal(turns[j], e.conversation);
  }

  /** The fragment is delivered, and the answer says to which turn and whether that turn is finalized. */
  ghost predicate Lands(t: Tables, e: Envelope, now: Time, t': Tables, outcome: Outcome) {
    exists i: nat ::
      && i < |t'.turns| && Delivered(t, e, now, t', i)
      && outcome == Staged(t'.turns[i].index, false, e.terminality == Hard)
  }

  /** An accepted delivery does this and nothing else. */
  lemma DeliveryExactly(t: Tables, e: Envelope, now: Time)
    requires Valid(t) && Accepted(t, e, now)
    ensures Lands(t, e, now, Stage(t, e, now).0, Stage(t, e, now).1)
  {
    assert SingleOpen(t.turns);
    var i := StageDelivers(t, e, now);
    var t' := Stage(t, e, now).0;
    hide Stage, Delivers, Valid, GoesTo, GivenUp, Before, After;
    EnvelopeStored(t, e, now, t', i);
    DeliveredGoes(t, e, now, t', i);
    OthersGivenUp(t, e, now, t', i);
    RowAfter(t, e, now, t', i);
  }

  lemma ArrivalsAreFragments(t: Tables)
    ensures forall i: nat :: HasArrivals(t, i) <==> HasFragments(t.fragments, i)
  {
  }

  lemma DeliveredGoes(t: Tables, e: Envelope, now: Time, t': Tables, i: nat)
    requires Delivers(t, e, now, t', i)
    ensures GoesTo(t, e, i)
  {
    ArrivalsAreFragments(t);
    hide HasArrivals, HasFragments, Received, NewFragment, FindFragment;
    if i == |t.turns| && e.turnId.None? {
      forall j | 0 <= j < |t.turns| && OpenFor(t.turns[j], e) ensures e.body.UserMessage? && HasArrivals(t, j) {
        assert !OpenInternal(t'.turns[j], e.conversation);
      }
    }
  }

  lemma OthersGivenUp(t: Tables, e: Envelope, now: Time, t': Tables, i: nat)
    requires Valid(t) && Delivers(t, e, now, t', i)
    ensures forall j :: 0 <= j < |t.turns| && j != i ==> GivenUp(e, t.turns[j], t'.turns[j])
  {
    assert SingleOpen(t.turns);
    hide Valid, HasFragments, Received, NewFragment, FindFragment;
    forall j | 0 <= j < |t.turns| && j != i ensures GivenUp(e, t.turns[j], t'.turns[j]) {
      if e.turnId.None? && OpenFor(t.turns[j], e) {
        assert OpenInternal(t.turns[j], e.conversation);
        assert i < |t.turns| ==> OpenInternal(t.turns[i], e.conversation);
        assert i == |t.turns| ==> !OpenInternal(t'.turns[j], e.conversation);
      }
    }
  }

  lemma RowAfter(t: Tables, e: Envelope, now: Time, t': Tables, i: nat)
    requires Valid(t) && Delivers(t, e, now, t', i)
    ensures i < |t'.turns| && exists row :: Before(t, e, i, row) && After(t', e, now, i, row, t'.turns[i])
  {
    var row := Receiver(t, e, i);
    if i < |t.turns| {
      assert RowCheck(t.turns[i]) && RowCached(t.fragments, i, t.turns[i]);
    }
    hide Valid;
    HardEnds(t.fragments, NewFragment(t.fragments, i, e));
    NewRow(t, e);
    hide Fold, TurnRows, MaxIndex, HasFragments, FindFragment;
    assert Before(t, e, i, row);
    assert After(t', e, now, i, row, t'.turns[i]);
  }

  lemma NewRow(t: Tables, e: Envelope)
    ensures Before(t, e, |t.turns|, NewTurn(t.turns, e.conversation, e.turnId))
  {
  }

  /** An accepted delivery lands, any other leaves the tables alone. */
  ghost predicate LandsIfAccepted(t: Tables, e: Envelope, now: Time, t': Tables, outcome: Outcome) {
    if Accepted(t, e, now) then Lands(t, e, now, t', outcome) else t' == t
  }

  lemma StageLands(t: Tables, e: Envelope, now: Time)
    requires Valid(t)
    ensures LandsIfAccepted(t, e, now, Stage(t, e, now).0, Stage(t, e, now).1)
  {
    RefusalChangesNothing(t, e, now);
    if Accepted(t, e, now) {
      DeliveryExactly(t, e, now);
    }
    hide Lands, Accepted, Stage, Valid;
  }
}
