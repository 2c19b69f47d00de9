/**
 * `build_window`: the stored earlier turns of a conversation, read newest first, cut to the history
 * window size, and reversed.
 */
module History {
  import opened Options
  import opened Tables
  import opened Dispatch
  import Staging
  import opened Schema

  datatype Window = Window(previous: seq<Projection>, current: Projection)

  /** `WHERE conversation_id = ? AND status = 'stored' AND turn_index < ? ORDER BY turn_index DESC`. */
  function PreviousDesc(turns: seq<Turn>, conversation: string, below: nat): seq<Projection> {
    if below == 0 then []
    else
      var rest := PreviousDesc(turns, conversation, below - 1);
      match FindIndex(turns, conversation, below - 1)
      case Some(i) => if turns[i].status.Stored? then [turns[i].projection] + rest else rest
      case None => rest
  }

  lemma PreviousOfNone(turns: seq<Turn>, conversation: string)
    ensures PreviousDesc(turns, conversation, 0) == []
  {
  }

  lemma PreviousStep(turns: seq<Turn>, conversation: string, below: nat)
    ensures var found, rest := FindIndex(turns, conversation, below), PreviousDesc(turns, conversation, below);
            PreviousDesc(turns, conversation, below + 1) ==
            if found.Some? && turns[found.value].status.Stored? then [turns[found.value].projection] + rest else rest
  {
  }

  /** A window size of zero means no LIMIT. */
  function Limit<T>(rows: seq<T>, size: nat): seq<T> {
    if size == 0 || |rows| <= size then rows else rows[..size]
  }

  function Reverse<T>(s: seq<T>): (r: seq<T>)
    ensures |r| == |s| && forall i :: 0 <= i < |s| ==> r[i] == s[|s| - 1 - i]
  {
    if s == [] then [] else Reverse(s[1..]) + [s[0]]
  }

  function BuildWindow(turns: seq<Turn>, row: Turn, size: nat): Window {
    Window(Reverse(Limit(PreviousDesc(turns, row.conversation, row.index), size)), row.projection)
  }

  // --- The window is the end of the conversation's history ---

  /** The projections stored below an index among the first `n` rows, in order of arrival. */
  function StoredBefore(turns: seq<Turn>, n: nat, conversation: string, below: nat): seq<Projection>
    requires n <= |turns|
  {
    if n == 0 then []
    else
      var row, rest := turns[n - 1], StoredBefore(turns, n - 1, conversation, below);
      if row.conversation == conversation && row.status.Stored? && row.index < below then rest + [row.projection]
          else rest
  }

  function LastN<T>(s: seq<T>, size: nat): seq<T> {
    if size == 0 || |s| <= size then s else s[|s| - size..]
  }

  lemma {:induction false} StoredBeforeStep(turns: seq<Turn>, n: nat, conversation: string, index: nat)
    requires n <= |turns| && IndexesGrow(turns)
    ensures var found := FindIndex(turns[..n], conversation, index);
            StoredBefore(turns, n, conversation, index + 1) ==
            StoredBefore(turns, n, conversation, index)
              + (if found.Some? && turns[found.value].status.Stored? then [turns[found.value].projection] else [])
  {
    if n > 0 {
      assert turns[..n][..n - 1] == turns[..n - 1];
      StoredBeforeStep(turns, n - 1, conversation, index);
      var found := FindIndex(turns[..n - 1], conversation, index);
      if found.Some? && turns[n - 1].conversation == conversation {
        assert turns[found.value].index < turns[n - 1].index;
      }
    }
  }

  lemma {:induction false} StoredBeforeNothing(turns: seq<Turn>, n: nat, conversation: string)
    requires n <= |turns|
    ensures StoredBefore(turns, n, conversation, 0) == []
  {
    if n > 0 {
      StoredBeforeNothing(turns, n - 1, conversation);
    }
  }

  lemma {:induction false} DescendingIsChronological(turns: seq<Turn>, conversation: string, below: nat)
    requires IndexesGrow(turns)
    ensures Reverse(PreviousDesc(turns, conversation, below)) == StoredBefore(turns, |turns|, conversation, below)
  {
    if below == 0 {
      StoredBeforeNothing(turns, |turns|, conversation);
    } else {
      DescendingIsChronological(turns, conversation, below - 1);
      StoredBeforeStep(turns, |turns|, conversation, below - 1);
      assert turns[..|turns|] == turns;
      var rest := PreviousDesc(turns, conversation, below - 1);
      var found := FindIndex(turns, conversation, below - 1);
      if found.Some? && turns[found.value].status.Stored? {
        assert ([turns[found.value].projection] + rest)[1..] == rest;
      }
    }
  }

  /** The window holds the stored earlier turns in chronological order, or the last `size` of them. */
  lemma WindowIsRecentHistory(turns: seq<Turn>, row: Turn, size: nat)
    requires IndexesGrow(turns)
    ensures BuildWindow(turns, row, size).previous
              == LastN(StoredBefore(turns, |turns|, row.conversation, row.index), size)
    ensures BuildWindow(turns, row, size).current == row.projection
  {
    DescendingIsChronological(turns, row.conversation, row.index);
    LimitReversed(PreviousDesc(turns, row.conversation, row.index), size);
  }

  /** The newest rows in reverse are the last of the rows in reverse. */
  lemma LimitReversed<T>(desc: seq<T>, size: nat)
    ensures Reverse(Limit(desc, size)) == LastN(Reverse(desc), size)
  {
    if size != 0 && |desc| > size {
      assert |Reverse(desc[..size])| == size && |LastN(Reverse(desc), size)| == size;
      forall k | 0 <= k < size ensures Reverse(desc[..size])[k] == LastN(Reverse(desc), size)[k] {
        assert Reverse(desc)[|desc| - size + k] == desc[size - 1 - k];
      }
    }
  }

  // --- Stability ---

  /** Every lower-index turn of row `i`'s conversation is out of the way. */
  ghost predicate Unobstructed(turns: seq<Turn>, i: nat) {
    && i < |turns|
    && (forall j :: 0 <= j < |turns| && turns[j].conversation == turns[i].conversation
          && turns[j].index < turns[i].index
          ==> Settled(turns[j].status))
  }

  lemma UnobstructedStays(t: Tables, t': Tables, i: nat)
    requires IndexesGrow(t'.turns) && Evolves(t, t') && Unobstructed(t.turns, i)
    ensures Unobstructed(t'.turns, i)
  {
    assert RowEvolves(t.turns[i], t'.turns[i]);
    forall j | 0 <= j < |t'.turns| && t'.turns[j].conversation == t'.turns[i].conversation
        && t'.turns[j].index < t'.turns[i].index
      ensures Settled(t'.turns[j].status)
    {
      assert j < |t.turns|;
      assert RowEvolves(t.turns[j], t'.turns[j]);
    }
  }

  /** Below an unobstructed turn the index lookup keeps answering with the same, unchanged row. */
  lemma LookupStays(t: Tables, t': Tables, i: nat, index: nat)
    requires IndexesGrow(t'.turns) && Evolves(t, t') && Unobstructed(t.turns, i) && index < t.turns[i].index
    ensures var conversation := t.turns[i].conversation;
            && FindIndex(t'.turns, conversation, index) == FindIndex(t.turns, conversation, index)
            && var found := FindIndex(t.turns, conversation, index);
               found.Some? ==> t'.turns[found.value] == t.turns[found.value]
  {
    var conversation := t.turns[i].conversation;
    var before, after := FindIndex(t.turns, conversation, index), FindIndex(t'.turns, conversation, index);
    assert RowEvolves(t.turns[i], t'.turns[i]);
    if before.Some? {
      assert RowEvolves(t.turns[before.value], t'.turns[before.value]);
    }
    if after.Some? && after.value < |t.turns| {
      assert RowEvolves(t.turns[after.value], t'.turns[after.value]);
    }
  }

  lemma {:induction false} PreviousStays(t: Tables, t': Tables, i: nat, below: nat)
    requires IndexesGrow(t'.turns) && Evolves(t, t') && Unobstructed(t.turns, i) && below <= t.turns[i].index
    ensures PreviousDesc(t'.turns, t.turns[i].conversation, below)
              == PreviousDesc(t.turns, t.turns[i].conversation, below)
  {
    hide IndexesGrow, Evolves, Unobstructed, FindIndex;
    if below > 0 {
      PreviousStays(t, t', i, below - 1);
      LookupStays(t, t', i, below - 1);
    }
  }

  /** Once nothing obstructs a finalized turn, its window is the same after any further steps. */
  lemma WindowStays(t: Tables, t': Tables, i: nat, size: nat)
    requires IndexesGrow(t'.turns) && Evolves(t, t') && Unobstructed(t.turns, i)
              && Staging.CountsAsFinalized(t.turns[i].status)
    ensures BuildWindow(t'.turns, t'.turns[i], size) == BuildWindow(t.turns, t.turns[i], size)
  {
    assert RowEvolves(t.turns[i], t'.turns[i]);
    PreviousStays(t, t', i, t.turns[i].index);
  }
}
