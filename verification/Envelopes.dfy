/**
 * From envelopes to projections: what a named turn holds after its fragments were delivered, in whatever order they
 * came, told in terms of the envelopes alone.
 */
module Envelopes {
  import opened Options
  import opened Tables
  import opened Replay
  import opened Staging
  import opened Dispatch
  import opened Schema

  /** An accepted delivery adds one fragment with the envelope's own contents, in the turn the outcome names. */
  lemma AcceptedIsStored(t: Tables, e: Envelope, now: Time) returns (i: nat)
    requires Accepted(t, e, now) && SingleOpen(t.turns)
    ensures var (t', outcome) := Stage(t, e, now);
            && Stores(t, e, t', i)
            && outcome == Staged(t'.turns[i].index, false, e.terminality.Hard?)
  {
    i := StageDelivers(t, e, now);
    EnvelopeStored(t, e, now, Stage(t, e, now).0, i);
    hide Stage;
  }

  // --- Deliveries to one named turn ---

  /** The tables after some deliveries; `now` is the clock of each. */
  function DeliverAll(t: Tables, es: seq<Envelope>, now: nat -> Time): Tables {
    if es == [] then t
    else Stage(DeliverAll(t, es[..|es| - 1], now), es[|es| - 1], now(|es| - 1)).0
  }

  /** New fragments, told apart by their ids and hints, for a turn with an id that is not in use yet. */
  ghost predicate ForNewTurn(t: Tables, es: seq<Envelope>, conversation: string, id: string) {
    && (forall j :: 0 <= j < |t.turns| && t.turns[j].conversation == conversation ==> t.turns[j].external != Some(id))
    && (forall k :: 0 <= k < |es| ==>
          && es[k].conversation == conversation && es[k].turnId == Some(id)
          && (es[k].hint.None? || es[k].hint.value <= MAX_HINT)
          && (forall j :: 0 <= j < |t.fragments| ==> t.fragments[j].fragmentId != es[k].fragmentId))
    && (forall j, k :: 0 <= j < k < |es| ==> es[j].fragmentId != es[k].fragmentId && es[j].hint != es[k].hint)
  }

  /** Only the last delivery ends the turn. */
  predicate EndsLast(es: seq<Envelope>) {
    es != [] && es[|es| - 1].terminality.Hard? && forall k :: 0 <= k < |es| - 1 ==> !es[k].terminality.Hard?
  }

  /** The tables hold the fragments of the envelopes, in one turn behind those that were there. */
  ghost predicate Holds(t: Tables, es: seq<Envelope>, t': Tables, conversation: string, id: string) {
    && |t'.turns| == |t.turns| + 1 && t'.turns[..|t.turns|] == t.turns
    && t'.turns[|t.turns|].conversation == conversation && t'.turns[|t.turns|].external == Some(id)
    && |t'.fragments| == |t.fragments| + |es| && t'.fragments[..|t.fragments|] == t.fragments
    && (forall k :: 0 <= k < |es| ==> Carries(t'.fragments[|t.fragments| + k], es[k], |t.turns|, |t.fragments| + k))
  }

  /** The row is the envelope's fragment. */
  predicate Carries(f: Fragment, e: Envelope, turn: nat, id: nat) {
    && f.turn == turn && f.id == id && f.fragmentId == e.fragmentId
    && f.hint == e.hint && f.body == e.body && f.terminality == e.terminality
  }

  lemma ForFewer(t: Tables, es: seq<Envelope>, conversation: string, id: string)
    requires es != [] && ForNewTurn(t, es, conversation, id)
    ensures ForNewTurn(t, es[..|es| - 1], conversation, id)
  {
  }

  /** The named turn is found, open, by the next of its fragments. */
  lemma FoundOpen(t: Tables, es: seq<Envelope>, t': Tables, conversation: string, id: string, e: Envelope)
    requires Valid(t') && Holds(t, es, t', conversation, id) && t'.turns[|t.turns|].status.Open?
    requires e.conversation == conversation && e.turnId == Some(id)
    ensures !NamesClosedTurn(t', e)
  {
    assert ExternalsUnique(t'.turns);
    hide Valid;
  }

  lemma NewIsUnknown(t: Tables, es: seq<Envelope>, t': Tables, conversation: string, id: string)
    requires es != [] && ForNewTurn(t, es, conversation, id)
    requires Holds(t, es[..|es| - 1], t', conversation, id) || (t' == t && |es| == 1)
    ensures !Known(t', es[|es| - 1])
  {
    var e := es[|es| - 1];
    forall k | 0 <= k < |t'.fragments| ensures t'.fragments[k].fragmentId != e.fragmentId {
      if k < |t.fragments| {
        assert t'.fragments[..|t.fragments|][k] == t.fragments[k] || t' == t;
        assert t'.fragments[k] == t.fragments[k];
      } else {
        var j := k - |t.fragments|;
        assert t'.fragments[|t.fragments| + j].fragmentId == es[j].fragmentId;
      }
    }
  }

  /** The receiving row of a delivery that names its turn is the one with that name. */
  lemma ReceivesInNamed(t: Tables, es: seq<Envelope>, t': Tables, conversation: string, id: string, e: Envelope,
                        now: Time, t'': Tables, i: nat)
    requires Valid(t'') && Holds(t, es, t', conversation, id)
    requires e.conversation == conversation && e.turnId == Some(id) && Delivers(t', e, now, t'', i)
    ensures i == |t.turns| && t''.turns == t'.turns[i := t''.turns[i]]
  {
    hide Received, NewFragment, HasFragments, FindFragment;
    assert ExternalsUnique(t''.turns);
    hide Valid;
    var n := |t.turns|;
    assert forall j :: 0 <= j < |t'.turns| && j != i ==> t''.turns[j] == t'.turns[j];
    assert t''.turns[i].conversation == conversation && t''.turns[i].external == Some(id) by {
      EnvelopeIdentity(t', e, now, t'', i);
    }
  }

  lemma EnvelopeIdentity(t: Tables, e: Envelope, now: Time, t': Tables, i: nat)
    requires Delivers(t, e, now, t', i)
    ensures t'.turns[i].conversation == e.conversation && t'.turns[i].external == e.turnId
  {
    EnvelopeStored(t, e, now, t', i);
    hide Delivers;
  }

  lemma AddsFragment(t: Tables, es: seq<Envelope>, t': Tables, conversation: string, id: string, e: Envelope,
                     now: Time, t'': Tables, i: nat)
    requires Holds(t, es, t', conversation, id) && Delivers(t', e, now, t'', i)
    requires i == |t.turns| && t''.turns == t'.turns[i := t''.turns[i]]
    requires e.conversation == conversation && e.turnId == Some(id)
    ensures Holds(t, es + [e], t'', conversation, id)
  {
    EnvelopeStored(t', e, now, t'', i);
    hide Delivers;
    var all := es + [e];
    forall k | 0 <= k < |all|
      ensures Carries(t''.fragments[|t.fragments| + k], all[k], |t.turns|, |t.fragments| + k)
    {
      if k < |es| {
        assert Carries(t'.fragments[|t.fragments| + k], es[k], |t.turns|, |t.fragments| + k);
        assert t''.fragments[..|t'.fragments|][|t.fragments| + k] == t'.fragments[|t.fragments| + k];
      } else {
        assert |t.fragments| + k == |t'.fragments|;
      }
    }
    assert t''.fragments[..|t.fragments|] == t'.fragments[..|t.fragments|];
    assert t''.turns[..|t.turns|] == t'.turns[..|t.turns|];
  }

  /** The first delivery opens the turn. */
  lemma OpensTurn(t: Tables, e: Envelope, conversation: string, id: string, now: Time, t': Tables, i: nat)
    requires ForNewTurn(t, [e], conversation, id) && Delivers(t, e, now, t', i)
    ensures Holds(t, [e], t', conversation, id) && i == |t.turns|
  {
    EnvelopeStored(t, e, now, t', i);
    assert [e][0] == e;
    hide Received, NewFragment, HasFragments, FindFragment;
    assert i == |t.turns|;
    assert t'.turns[..|t.turns|] == t.turns;
  }

  /** All of them are accepted, and go where they belong. */
  lemma {:induction false} AllArrive(t: Tables, es: seq<Envelope>, conversation: string, id: string, now: nat -> Time)
    requires Valid(t) && es != [] && ForNewTurn(t, es, conversation, id)
    requires forall k :: 0 <= k < |es| - 1 ==> !es[k].terminality.Hard?
    ensures var t', n := DeliverAll(t, es, now), |t.turns|;
            && Valid(t') && Holds(t, es, t', conversation, id)
            && t'.turns[n].status == (if es[|es| - 1].terminality.Hard? then Finalized else Open)
  {
    hide Valid, ForNewTurn, Holds, Stage, Delivers, Known, HintFits, NamesClosedTurn, Accepted, SingleOpen, IndexesGrow;
    var n := |es| - 1;
    var init, e := es[..n], es[n];
    assert es == init + [e];
    ForThis(t, es, conversation, id);
    if init == [] {
      assert es == [e];
      NothingDelivered(t, now);
      NotNamedYet(t, e, conversation, id);
      NewIsUnknown(t, es, t, conversation, id);
      LastArrives(t, e, now(n));
      var i := StageDelivers(t, e, now(n));
      OpensTurn(t, e, conversation, id, now(n), Stage(t, e, now(n)).0, i);
      StatusAfter(t, e, now(n), Stage(t, e, now(n)).0, i);
    } else {
      ForFewer(t, es, conversation, id);
      AllArrive(t, init, conversation, id, now);
      var t' := DeliverAll(t, init, now);
      assert !es[n - 1].terminality.Hard? && init[|init| - 1] == es[n - 1];
      FoundOpen(t, init, t', conversation, id, e);
      NewIsUnknown(t, es, t', conversation, id);
      LastArrives(t', e, now(n));
      var i := StageDelivers(t', e, now(n));
      var t'' := Stage(t', e, now(n)).0;
      ReceivesInNamed(t, init, t', conversation, id, e, now(n), t'', i);
      AddsFragment(t, init, t', conversation, id, e, now(n), t'', i);
      StatusAfter(t', e, now(n), t'', i);
    }
  }

  lemma ForThis(t: Tables, es: seq<Envelope>, conversation: string, id: string)
    requires es != [] && ForNewTurn(t, es, conversation, id)
    ensures var e := es[|es| - 1]; e.conversation == conversation && e.turnId == Some(id) && HintFits(e)
  {
  }

  lemma NothingDelivered(t: Tables, now: nat -> Time)
    ensures DeliverAll(t, [], now) == t
  {
  }

  lemma NotNamedYet(t: Tables, e: Envelope, conversation: string, id: string)
    requires ForNewTurn(t, [e], conversation, id)
    ensures !NamesClosedTurn(t, e)
  {
    assert [e][0] == e;
  }

  /** A delivery of something new is accepted, and leaves valid tables. */
  lemma LastArrives(t: Tables, e: Envelope, now: Time)
    requires Valid(t) && !Known(t, e) && !NamesClosedTurn(t, e) && HintFits(e)
    ensures Accepted(t, e, now) && Valid(Stage(t, e, now).0) && SingleOpen(t.turns)
  {
    AnsweredExactly(t, e, now);
    StageKeepsValid(t, e, now);
    assert SingleOpen(t.turns);
  }

  lemma StatusAfter(t: Tables, e: Envelope, now: Time, t': Tables, i: nat)
    requires Delivers(t, e, now, t', i)
    ensures t'.turns[i].status == if e.terminality.Hard? then Finalized else Open
  {
    EnvelopeStored(t, e, now, t', i);
    hide Delivers;
  }

  // --- What the turn then holds ---

  /** Some envelope says this, at this place. */
  ghost predicate Says(es: seq<Envelope>, hint: Option<nat>, body: Body) {
    exists k :: 0 <= k < |es| && es[k].hint == hint && es[k].body == body
  }

  /** The rows of the turn are those of the envelopes. */
  ghost predicate RowsAre(fragments: seq<Fragment>, m: nat, n: nat, es: seq<Envelope>) {
    && |fragments| == m + |es|
    && (forall i :: 0 <= i < m ==> fragments[i].turn != n)
    && (forall i :: m <= i < |fragments| ==> Carries(fragments[i], es[i - m], n, i))
  }

  lemma LaterRows(t: Tables, es: seq<Envelope>, t': Tables, conversation: string, id: string)
    requires Valid(t) && Holds(t, es, t', conversation, id)
    ensures RowsAre(t'.fragments, |t.fragments|, |t.turns|, es)
  {
    EarlierTurns(t, t', |t.fragments|);
    hide Valid, Carries;
    var m := |t.fragments|;
    forall i | m <= i < |t'.fragments| ensures Carries(t'.fragments[i], es[i - m], |t.turns|, i) {
      assert Carries(t'.fragments[m + (i - m)], es[i - m], |t.turns|, m + (i - m));
    }
  }

  lemma TurnCarries(t: Tables, es: seq<Envelope>, t': Tables, conversation: string, id: string)
    requires Valid(t) && Holds(t, es, t', conversation, id) && ForNewTurn(t, es, conversation, id)
    ensures DistinctHints(t'.fragments, |t.turns|)
    ensures forall p :: Carried(t'.fragments, |t.turns|, p) <==> Says(es, p.hint, p.body)
  {
    hide Valid, Holds, Says, Carried, DistinctHints, RowsAre;
    LaterRows(t, es, t', conversation, id);
    RowsDiffer(t'.fragments, |t.fragments|, |t.turns|, t, es, conversation, id);
    forall p ensures Carried(t'.fragments, |t.turns|, p) <==> Says(es, p.hint, p.body) {
      RowsSay(t'.fragments, |t.fragments|, |t.turns|, es, p);
    }
  }

  lemma RowsDiffer(fragments: seq<Fragment>, m: nat, n: nat, t: Tables, es: seq<Envelope>, conversation: string,
                   id: string)
    requires RowsAre(fragments, m, n, es) && ForNewTurn(t, es, conversation, id)
    ensures DistinctHints(fragments, n)
  {
    forall i, j | 0 <= i < j < |fragments| && fragments[i].turn == n && fragments[j].turn == n
      ensures fragments[i].hint != fragments[j].hint
    {
      assert Carries(fragments[i], es[i - m], n, i) && Carries(fragments[j], es[j - m], n, j);
    }
  }

  lemma RowsSay(fragments: seq<Fragment>, m: nat, n: nat, es: seq<Envelope>, p: Payload)
    requires RowsAre(fragments, m, n, es)
    ensures Carried(fragments, n, p) <==> Says(es, p.hint, p.body)
  {
    if Carried(fragments, n, p) {
      var f :| f in fragments && f.turn == n && PayloadOf(f) == p;
      var i :| 0 <= i < |fragments| && fragments[i] == f;
      assert Carries(fragments[i], es[i - m], n, i);
    }
    if Says(es, p.hint, p.body) {
      var k :| 0 <= k < |es| && es[k].hint == p.hint && es[k].body == p.body;
      assert Carries(fragments[m + k], es[m + k - m], n, m + k);
      assert PayloadOf(fragments[m + k]) == p && fragments[m + k] in fragments;
    }
  }

  lemma EarlierTurns(t: Tables, t': Tables, m: nat)
    requires Valid(t) && m == |t.fragments| <= |t'.fragments| && t'.fragments[..m] == t.fragments
    ensures forall k :: 0 <= k < m ==> t'.fragments[k].turn < |t.turns|
  {
    assert FragmentsKeyed(t);
    hide Valid;
    forall k | 0 <= k < m ensures t'.fragments[k].turn < |t.turns| {
      assert t'.fragments[..m][k] == t'.fragments[k];
    }
  }

  lemma EndedTurn(t: Tables, es: seq<Envelope>, conversation: string, id: string, now: nat -> Time)
    requires Valid(t) && ForNewTurn(t, es, conversation, id) && EndsLast(es)
    ensures var t', n := DeliverAll(t, es, now), |t.turns|;
            && Valid(t') && Holds(t, es, t', conversation, id) && Numbered(t'.fragments)
            && t'.turns[n].status.Finalized?
            && t'.turns[n].projection == Fold(TurnRows(t'.fragments, n)).projection
  {
    AllArrive(t, es, conversation, id, now);
    var t', n := DeliverAll(t, es, now), |t.turns|;
    assert RowCached(t'.fragments, n, t'.turns[n]) && Numbered(t'.fragments);
    hide DeliverAll, Fold, TurnRows, Holds, ForNewTurn, Valid;
  }

  /**
   * Deliveries to a new turn that say the same things at the same places leave the same projection, in whatever order
   * they arrive, and whichever of them comes last and ends the turn.
   */
  lemma DeliveryOrderIrrelevant(t: Tables, es: seq<Envelope>, conversation: string, id: string, now: nat -> Time,
                                u: Tables, fs: seq<Envelope>, conversation': string, id': string, now': nat -> Time)
    requires Valid(t) && ForNewTurn(t, es, conversation, id) && EndsLast(es)
    requires Valid(u) && ForNewTurn(u, fs, conversation', id') && EndsLast(fs)
    requires forall hint, body :: Says(es, hint, body) <==> Says(fs, hint, body)
    ensures var t', u' := DeliverAll(t, es, now), DeliverAll(u, fs, now');
            && |t'.turns| == |t.turns| + 1 && |u'.turns| == |u.turns| + 1
            && t'.turns[|t.turns|].status.Finalized? && u'.turns[|u.turns|].status.Finalized?
            && t'.turns[|t.turns|].projection == u'.turns[|u.turns|].projection
  {
    EndedTurn(t, es, conversation, id, now);
    EndedTurn(u, fs, conversation', id', now');
    var t', u' := DeliverAll(t, es, now), DeliverAll(u, fs, now');
    TurnCarries(t, es, t', conversation, id);
    TurnCarries(u, fs, u', conversation', id');
    hide Valid, ForNewTurn, DeliverAll, Fold, TurnRows, Carried, DistinctHints, Says, Numbered;
    ArrivalOrderIrrelevant(t'.fragments, |t.turns|, u'.fragments, |u.turns|);
  }

  // --- And what that is ---

  /** Places in increasing order, the one without a place last. */
  ghost predicate InPlace(es: seq<Envelope>) {
    forall j, k :: 0 <= j < k < |es| ==>
      es[j].hint.Some? && (es[k].hint.None? || es[j].hint.value < es[k].hint.value)
  }

  /** The non-empty messages of one side. */
  function Messages(es: seq<Envelope>, user: bool): seq<string> {
    if es == [] then []
    else
      var rest, body := Messages(es[..|es| - 1], user), es[|es| - 1].body;
      if user && body.UserMessage? && body.text != "" then rest + [body.text]
      else if !user && body.AssistantMessage? && body.text != "" then rest + [body.text]
      else rest
  }

  function Steps(es: seq<Envelope>): seq<Step> {
    if es == [] then []
    else
      var rest := Steps(es[..|es| - 1]);
      match es[|es| - 1].body
      case ToolCall(name, input) => rest + [CallStep(name, input)]
      case ToolResult(name, output) => rest + [ResultStep(name, output)]
      case Thinking(text) => rest + [ThinkingStep(text)]
      case _ => rest
  }

  ghost predicate SameBodies(rows: seq<Fragment>, es: seq<Envelope>) {
    |rows| == |es| && forall k :: 0 <= k < |es| ==> rows[k].body == es[k].body
  }

  lemma {:induction false} CollectsMessages(rows: seq<Fragment>, es: seq<Envelope>, user: bool)
    requires SameBodies(rows, es)
    ensures TextsOf(rows, user) == Messages(es, user)
  {
    if es != [] { CollectsMessages(rows[..|es| - 1], es[..|es| - 1], user); }
  }

  lemma {:induction false} CollectsSteps(rows: seq<Fragment>, es: seq<Envelope>)
    requires SameBodies(rows, es)
    ensures |StepRows(rows)| == |Steps(es)|
    ensures forall k :: 0 <= k < |Steps(es)| ==> IsStep(StepRows(rows)[k].body, Steps(es)[k])
  {
    if es != [] { CollectsSteps(rows[..|es| - 1], es[..|es| - 1]); }
  }

  lemma StepsAgree(body: Body, a: Step, b: Step)
    requires IsStep(body, a) && IsStep(body, b)
    ensures a == b
  {
  }

  /** Delivered in the order of their places, the rows are read back in the order of delivery. */
  lemma RowsInPlace(t: Tables, es: seq<Envelope>, t': Tables, conversation: string, id: string)
    requires Valid(t) && Holds(t, es, t', conversation, id) && InPlace(es) && Numbered(t'.fragments)
    ensures TurnRows(t'.fragments, |t.turns|) == t'.fragments[|t.fragments|..]
  {
    hide Valid, Holds, RowsAre, TurnRows;
    LaterRows(t, es, t', conversation, id);
    TurnRowsInOrder(t'.fragments, |t.turns|);
    SuffixInOrder(t'.fragments, |t.fragments|, |t.turns|, es);
    SuffixLength(t'.fragments, |t.fragments|, |t.turns|, es);
    SortedUnique(TurnRows(t'.fragments, |t.turns|), t'.fragments[|t.fragments|..]);
  }

  lemma SuffixLength(fragments: seq<Fragment>, m: nat, n: nat, es: seq<Envelope>)
    requires RowsAre(fragments, m, n, es)
    ensures m <= |fragments|
  {
  }

  lemma SuffixInOrder(fragments: seq<Fragment>, m: nat, n: nat, es: seq<Envelope>)
    requires RowsAre(fragments, m, n, es) && InPlace(es)
    ensures Sorted(fragments[m..])
    ensures forall f :: f in fragments[m..] <==> f in fragments && f.turn == n
  {
    var rows := fragments[m..];
    forall i, j | 0 <= i < j < |rows| ensures Precedes(rows[i], rows[j]) {
      assert Carries(fragments[m + i], es[m + i - m], n, m + i) && Carries(fragments[m + j], es[m + j - m], n, m + j);
    }
    forall f ensures f in rows <==> f in fragments && f.turn == n {
      if f in rows {
        var i :| 0 <= i < |rows| && rows[i] == f;
        assert Carries(fragments[m + i], es[m + i - m], n, m + i);
      }
      if f in fragments && f.turn == n {
        var i :| 0 <= i < |fragments| && fragments[i] == f;
        assert i >= m && rows[i - m] == f;
      }
    }
  }

  lemma DeliveredInPlace(t: Tables, es: seq<Envelope>, conversation: string, id: string, now: nat -> Time)
    requires Valid(t) && ForNewTurn(t, es, conversation, id) && EndsLast(es) && InPlace(es)
    ensures var t' := DeliverAll(t, es, now);
            && |t'.turns| == |t.turns| + 1
            && t'.turns[|t.turns|].projection
                 == Projection(Paragraphs(Messages(es, true)), Paragraphs(Messages(es, false)), Steps(es))
  {
    EndedTurn(t, es, conversation, id, now);
    var t' := DeliverAll(t, es, now);
    RowsInPlace(t, es, t', conversation, id);
    SuffixBodies(t, es, t', conversation, id);
    hide Valid, ForNewTurn, DeliverAll, Fold, TurnRows, Holds, Paragraphs, Messages, Steps, SameBodies;
    FoldOfBodies(t'.fragments[|t.fragments|..], es);
  }

  lemma SuffixBodies(t: Tables, es: seq<Envelope>, t': Tables, conversation: string, id: string)
    requires Holds(t, es, t', conversation, id)
    ensures SameBodies(t'.fragments[|t.fragments|..], es)
  {
    var rows := t'.fragments[|t.fragments|..];
    forall k | 0 <= k < |es| ensures rows[k].body == es[k].body {
      assert Carries(t'.fragments[|t.fragments| + k], es[k], |t.turns|, |t.fragments| + k);
    }
  }

  lemma FoldOfBodies(rows: seq<Fragment>, es: seq<Envelope>)
    requires SameBodies(rows, es)
    ensures Fold(rows).projection
              == Projection(Paragraphs(Messages(es, true)), Paragraphs(Messages(es, false)), Steps(es))
  {
    hide Fold, IsStep, Paragraphs, StepRows, Steps, SameBodies, Messages, TextsOf;
    CollectsMessages(rows, es, true);
    CollectsMessages(rows, es, false);
    CollectsSteps(rows, es);
    FoldCollects(rows);
    var steps := Fold(rows).projection.steps;
    forall k | 0 <= k < |steps| ensures steps[k] == Steps(es)[k] {
      StepsAgree(StepRows(rows)[k].body, steps[k], Steps(es)[k]);
    }
    assert steps == Steps(es);
  }

  /**
   * A turn's projection is what its envelopes say, read in the order of their places: the messages of each side as
   * paragraphs and the steps one by one, whatever the order of delivery was.
   */
  lemma ProjectionFromEnvelopes(t: Tables, es: seq<Envelope>, conversation: string, id: string, now: nat -> Time,
                                fs: seq<Envelope>)
    requires Valid(t) && ForNewTurn(t, es, conversation, id) && EndsLast(es)
    requires ForNewTurn(t, fs, conversation, id) && EndsLast(fs) && InPlace(fs)
    requires forall hint, body :: Says(es, hint, body) <==> Says(fs, hint, body)
    ensures var t' := DeliverAll(t, es, now);
            && |t'.turns| == |t.turns| + 1 && t'.turns[|t.turns|].status.Finalized?
            && t'.turns[|t.turns|].projection
                 == Projection(Paragraphs(Messages(fs, true)), Paragraphs(Messages(fs, false)), Steps(fs))
  {
    hide Valid, ForNewTurn, EndsLast, InPlace, DeliverAll, Says;
    DeliveryOrderIrrelevant(t, es, conversation, id, now, t, fs, conversation, id, now);
    DeliveredInPlace(t, fs, conversation, id, now);
  }
}
