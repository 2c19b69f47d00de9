/**
 * `stage_fragment_once`: one `BEGIN IMMEDIATE` transaction that stores a delivered fragment, opening,
 * aborting or finalizing turns on the way. A rejected or repeated delivery rolls the transaction back.
 */
module Staging {
  import opened Options
  import opened Tables
  import opened Replay

  datatype Envelope = Envelope(
    conversation: string,
    turnId: Option<string>,
    fragmentId: string,
    hint: Option<nat>,
    terminality: Terminality,
    body: Body)

  datatype Rejection = ClosedTurn | HintOutOfRange | RowNotFound

  datatype Outcome =
    | Staged(turnIndex: nat, duplicate: bool, finalized: bool)
    | Rejected(reason: Rejection)

  /** Hints arrive as unsigned 64-bit integers and are stored as signed ones. */
  const MAX_HINT: nat := 0x7FFF_FFFF_FFFF_FFFF

  /** The statuses a repeated delivery reports as finalized. */
  predicate CountsAsFinalized(s: Status): (r: bool)
    ensures r <==> s != Open && s != Aborted
  {
    s.Finalized? || s.Processing? || s.Stored? || s.Failed? || s.Exhausted?
  }

  // --- Statements: each returns the new table and the number of rows it affected ---

  function NewTurn(turns: seq<Turn>, conversation: string, external: Option<string>): Turn {
    Turn(conversation, external, MaxIndex(turns, conversation) + 1, Open, EMPTY_PROJECTION, Unmarked,
         None, 0, None, None, None, None)
  }

  function AbortedTurn(t: Turn): Turn {
    t.(status := Aborted, nextAttemptAt := None, processingStartedAt := None, storedAt := None)
  }

  function NewFragment(fragments: seq<Fragment>, turn: nat, e: Envelope): Fragment {
    Fragment(|fragments|, e.fragmentId, e.conversation, turn, e.hint, e.terminality, e.body)
  }

  /** `INSERT ... ON CONFLICT(fragment_id) DO NOTHING`. */
  function InsertFragment(fragments: seq<Fragment>, f: Fragment): (seq<Fragment>, nat) {
    if FindFragment(fragments, f.fragmentId).Some? then (fragments, 0) else (fragments + [f], 1)
  }

  function MarkedTurn(t: Turn, terminality: Terminality): Turn {
    t.(terminality := terminality)
  }

  function UpdateOpenTurn(turns: seq<Turn>, i: nat, terminality: Terminality): (seq<Turn>, nat)
    requires i < |turns|
  {
    if turns[i].status.Open? then (turns[i := MarkedTurn(turns[i], terminality)], 1) else (turns, 0)
  }

  function ReducedTurn(t: Turn, r: Reduced, now: Time): Turn {
    var finalized := r.terminality.Hard?;
    t.(projection := r.projection,
       terminality := r.terminality,
       status := if finalized then Finalized else Open,
       finalizedAt := if finalized then Some(now) else None,
       nextAttemptAt := if finalized then Some(now) else None,
       lastError := None,
       processingStartedAt := None,
       storedAt := None)
  }

  function UpdateReducedTurn(turns: seq<Turn>, i: nat, r: Reduced, now: Time): (seq<Turn>, nat)
    requires i < |turns|
  {
    if turns[i].status.Open? then (turns[i := ReducedTurn(turns[i], r, now)], 1) else (turns, 0)
  }

  // --- The transaction ---

  datatype Resolution = Resolved(turns: seq<Turn>, turn: nat) | Refused

  function CreateTurn(turns: seq<Turn>, conversation: string, external: Option<string>): Resolution {
    Resolved(turns + [NewTurn(turns, conversation, external)], |turns|)
  }

  function ResolveTurn(t: Tables, e: Envelope): (r: Resolution)
    ensures r.Resolved? ==> r.turn < |r.turns|
  {
    match e.turnId
    case Some(external) =>
      (match FindExternal(t.turns, e.conversation, external)
       case Some(i) => if t.turns[i].status.Open? then Resolved(t.turns, i) else Refused
       case None => CreateTurn(t.turns, e.conversation, Some(external)))
    case None =>
      match FindOpen(t.turns, e.conversation)
      case Some(i) =>
        if e.body.UserMessage? && HasFragments(t.fragments, i) then
          CreateTurn(t.turns[i := AbortedTurn(t.turns[i])], e.conversation, None)
        else
          Resolved(t.turns, i)
      case None => CreateTurn(t.turns, e.conversation, None)
  }

  /** `staged_fragment_from_existing`, after the lookup by fragment id. */
  function ReportExisting(t: Tables, fragmentId: string): Outcome {
    match FindFragment(t.fragments, fragmentId)
    case None => Rejected(RowNotFound)
    case Some(k) =>
      var i := t.fragments[k].turn;
      if i < |t.turns| then Staged(t.turns[i].index, true, CountsAsFinalized(t.turns[i].status))
          else Rejected(RowNotFound)
  }

  /** The commit of an inserted fragment: the projection is rebuilt only when the fragment ends the turn. */
  function Conclude(t: Tables, turns: seq<Turn>, i: nat, fragments: seq<Fragment>, e: Envelope, now: Time)
    : (Tables, Outcome)
    requires i < |turns|
  {
    if e.terminality.Hard? then
      var reduced := Fold(TurnRows(fragments, i));
      var (turns', affected) := UpdateReducedTurn(turns, i, reduced, now);
      if affected != 1 then (t, Rejected(RowNotFound))
      else (Tables(turns', fragments), Staged(turns[i].index, false, reduced.terminality.Hard?))
    else
      var (turns', affected) := UpdateOpenTurn(turns, i, Merge(turns[i].terminality, e.terminality));
      if affected != 1 then (t, Rejected(RowNotFound))
      else (Tables(turns', fragments), Staged(turns[i].index, false, false))
  }

  function Stage(t: Tables, e: Envelope, now: Time): (Tables, Outcome) {
    if FindFragment(t.fragments, e.fragmentId).Some? then (t, ReportExisting(t, e.fragmentId))
    else
      match ResolveTurn(t, e)
      case Refused => (t, Rejected(ClosedTurn))
      case Resolved(turns, i) =>
        if e.hint.Some? && e.hint.value > MAX_HINT then (t, Rejected(HintOutOfRange))
        else
          var (fragments, affected) := InsertFragment(t.fragments, NewFragment(t.fragments, i, e));
          if affected == 0 then (t, ReportExisting(t, e.fragmentId))
          else Conclude(t, turns, i, fragments, e, now)
  }

  // --- What an accepted delivery does ---

  predicate Accepted(t: Tables, e: Envelope, now: Time) {
    FindFragment(t.fragments, e.fragmentId).None? && Stage(t, e, now).1.Staged?
  }

  /** The row that receives the fragment, as it is just before. */
  function Receiver(t: Tables, e: Envelope, i: nat): Turn {
    if i < |t.turns| then t.turns[i] else NewTurn(t.turns, e.conversation, e.turnId)
  }

  function Received(t: Tables, e: Envelope, i: nat, now: Time): Turn {
    if e.terminality.Hard? then
      ReducedTurn(Receiver(t, e, i), Fold(TurnRows(t.fragments + [NewFragment(t.fragments, i, e)], i)), now)
    else
      MarkedTurn(Receiver(t, e, i), Merge(Receiver(t, e, i).terminality, e.terminality))
  }

  /** Row `a` is the open turn that a new user message cuts short. */
  predicate Interrupted(t: Tables, e: Envelope, a: nat) {
    a < |t.turns| && e.turnId.None? && e.body.UserMessage? && OpenInternal(t.turns[a], e.conversation)
    && HasFragments(t.fragments, a)
  }

  ghost predicate Delivers(t: Tables, e: Envelope, now: Time, t': Tables, i: nat) {
    && i < |t'.turns|
    && |t'.turns| == (if i < |t.turns| then |t.turns| else |t.turns| + 1)
    && i <= |t.turns|
    && t'.fragments == t.fragments + [NewFragment(t.fragments, i, e)]
    && FindFragment(t.fragments, e.fragmentId).None?
    && t'.turns[i] == Received(t, e, i, now)
    && (i < |t.turns| ==>
          && t.turns[i].status.Open? && t.turns[i].conversation == e.conversation && t.turns[i].external == e.turnId
          && (e.turnId.None? && e.body.UserMessage? ==> !HasFragments(t.fragments, i)))
    && (i == |t.turns| ==>
          && (e.turnId.Some? ==>
               forall j :: 0 <= j < |t.turns| && t.turns[j].conversation == e.conversation
                 ==> t.turns[j].external != e.turnId)
          && (e.turnId.None? ==> forall j :: 0 <= j < |t.turns| ==> !OpenInternal(t'.turns[j], e.conversation)))
    && (forall j :: 0 <= j < |t.turns| && j != i ==>
          t'.turns[j] == t.turns[j]
              || (i == |t.turns| && Interrupted(t, e, j) && t'.turns[j] == AbortedTurn(t.turns[j])))
  }

  /** An abort leaves the largest index of a conversation alone. */
  lemma {:induction false} MaxIndexStable(turns: seq<Turn>, turns': seq<Turn>, conversation: string)
    requires |turns| == |turns'|
    requires forall j :: 0 <= j < |turns|
              ==> turns[j].conversation == turns'[j].conversation && turns[j].index == turns'[j].index
    ensures MaxIndex(turns, conversation) == MaxIndex(turns', conversation)
  {
    if turns != [] {
      MaxIndexStable(turns[..|turns| - 1], turns'[..|turns| - 1], conversation);
    }
  }

  /** At most one open turn without an external id per conversation. */
  ghost predicate SingleOpen(turns: seq<Turn>) {
    forall i, j :: 0 <= i < j < |turns| && turns[i].conversation == turns[j].conversation
      ==> !(OpenInternal(turns[i], turns[i].conversation) && OpenInternal(turns[j], turns[i].conversation))
  }

  /** What resolving a turn leaves for the insert: an open row of the right identity. */
  lemma ResolveReaches(t: Tables, e: Envelope)
    requires ResolveTurn(t, e).Resolved? && SingleOpen(t.turns)
    ensures
      var turns, i := ResolveTurn(t, e).turns, ResolveTurn(t, e).turn;
      && i <= |t.turns| && |turns| == (if i < |t.turns| then |t.turns| else |t.turns| + 1)
      && turns[i] == Receiver(t, e, i) && turns[i].status.Open?
      && (i < |t.turns| ==>
            && turns == t.turns && turns[i].conversation == e.conversation && turns[i].external == e.turnId
            && (e.turnId.None? && e.body.UserMessage? ==> !HasFragments(t.fragments, i)))
      && (i == |t.turns| ==>
            && (e.turnId.Some? ==>
                 forall j :: 0 <= j < |t.turns| && t.turns[j].conversation == e.conversation
                   ==> t.turns[j].external != e.turnId)
            && (e.turnId.None? ==> forall j :: 0 <= j < |t.turns| ==> !OpenInternal(turns[j], e.conversation)))
      && (forall j :: 0 <= j < |t.turns| && j != i ==>
            turns[j] == t.turns[j] || (i == |t.turns| && Interrupted(t, e, j) && turns[j] == AbortedTurn(t.turns[j])))
  {
    hide HasFragments, MaxIndex;
    if e.turnId.None? && FindOpen(t.turns, e.conversation).Some? {
      var a := FindOpen(t.turns, e.conversation).value;
      MaxIndexStable(t.turns, t.turns[a := AbortedTurn(t.turns[a])], e.conversation);
    }
  }

  /** An accepted fragment reaches exactly one row, and neither update misses its row. */
  lemma StageDelivers(t: Tables, e: Envelope, now: Time) returns (i: nat)
    requires Accepted(t, e, now) && SingleOpen(t.turns)
    ensures Delivers(t, e, now, Stage(t, e, now).0, i)
    ensures Stage(t, e, now).1 == Staged(Stage(t, e, now).0.turns[i].index, false, e.terminality.Hard?)
  {
    hide Fold, TurnRows, FindFragment, HasFragments, MaxIndex, SingleOpen;
    i := ResolveTurn(t, e).turn;
    ResolveReaches(t, e);
    var f := NewFragment(t.fragments, i, e);
    HardEnds(t.fragments, f);
    hide ResolveTurn, Interrupted, AbortedTurn, NewFragment;
    StageConcludes(t, e, now);
  }

  /** The tables have one fragment more, with everything the envelope says, in turn `i`. */
  predicate Stores(t: Tables, e: Envelope, t': Tables, i: nat) {
    && |t'.fragments| == |t.fragments| + 1 && t'.fragments[..|t.fragments|] == t.fragments
    && (var f := t'.fragments[|t.fragments|];
        && f.fragmentId == e.fragmentId && f.conversation == e.conversation && f.turn == i && f.id == |t.fragments|
        && f.hint == e.hint && f.terminality == e.terminality && f.body == e.body)
    && i < |t'.turns| && t'.turns[i].conversation == e.conversation && t'.turns[i].external == e.turnId
  }

  /** What an accepted delivery stores of its envelope, and what the receiving row is afterwards. */
  lemma EnvelopeStored(t: Tables, e: Envelope, now: Time, t': Tables, i: nat)
    requires Delivers(t, e, now, t', i)
    ensures Stores(t, e, t', i)
    ensures var row := t'.turns[i];
            && row.status == (if e.terminality.Hard? then Finalized else Open)
            && (e.terminality.Hard? && (i < |t.turns| ==> t.turns[i].status.Open?) ==>
                  && row.finalizedAt == Some(now) && row.nextAttemptAt == Some(now) && row.lastError == None
                  && row.projection == Fold(TurnRows(t'.fragments, i)).projection)
            && row.attempts == (if i < |t.turns| then t.turns[i].attempts else 0)
  {
    hide Fold, TurnRows, MaxIndex, HasFragments, FindFragment;
    HardEnds(t.fragments, NewFragment(t.fragments, i, e));
  }

  /** A new turn gets the next index of its conversation: one more than the largest, and one if there is none. */
  lemma NextIndex(t: Tables, e: Envelope, now: Time, t': Tables)
    requires Delivers(t, e, now, t', |t.turns|)
    ensures var row := t'.turns[|t.turns|];
            && (forall j :: 0 <= j < |t.turns| && t.turns[j].conversation == e.conversation
                  ==> t.turns[j].index < row.index)
            && (row.index == 1
                || exists j :: 0 <= j < |t.turns| && t.turns[j].conversation == e.conversation
                               && t.turns[j].index + 1 == row.index)
  {
    hide Fold, TurnRows, HasFragments, FindFragment;
  }

  /** A hard fragment ends its turn. */
  lemma HardEnds(fragments: seq<Fragment>, f: Fragment)
    ensures f.terminality.Hard? ==> Fold(TurnRows(fragments + [f], f.turn)).terminality.Hard?
  {
    FoldTerminality(fragments + [f], f.turn);
    hide Fold, TurnRows;
    assert (fragments + [f])[..|fragments|] == fragments;
  }

  /** An accepted delivery is concluded on the turn it was resolved to. */
  lemma StageConcludes(t: Tables, e: Envelope, now: Time)
    requires Accepted(t, e, now)
    ensures var r := ResolveTurn(t, e);
            && r.Resolved? && FindFragment(t.fragments, e.fragmentId).None?
            && Stage(t, e, now)
                 == Conclude(t, r.turns, r.turn, t.fragments + [NewFragment(t.fragments, r.turn, e)], e, now)
  {
    hide ResolveTurn, Conclude, FindFragment;
  }

  /** Neither the conflict branch of the insert nor the missed-row branch of an update is ever taken. */
  lemma StageBranches(t: Tables, e: Envelope, now: Time)
    requires FindFragment(t.fragments, e.fragmentId).None?
    ensures ResolveTurn(t, e).Resolved? ==>
              InsertFragment(t.fragments, NewFragment(t.fragments, ResolveTurn(t, e).turn, e)).1 == 1
    ensures Stage(t, e, now).1 != Rejected(RowNotFound)
    ensures Stage(t, e, now).1.Staged? ==> !Stage(t, e, now).1.duplicate
  {
    hide FindFragment, Fold, TurnRows, MaxIndex, HasFragments, ReducedTurn, MarkedTurn;
  }

  /** A rejected or repeated delivery changes nothing. */
  lemma RefusalChangesNothing(t: Tables, e: Envelope, now: Time)
    ensures !Accepted(t, e, now) ==> Stage(t, e, now).0 == t
  {
  }
}
