/**
 * Deliveries that open a turn, worked out in full: the material of the runs in `Attempts` and `Limits`.
 */
module FirstTurns {
  import opened Options
  import opened Tables
  import opened Replay
  import opened Staging
  import opened Service
  import Schema

  lemma RunSnoc(cfg: Config, s: System, events: seq<Event>, e: Event)
    ensures Run(cfg, s, events + [e]) == Apply(cfg, Run(cfg, s, events), e)
  {
    hide Apply;
    assert (events + [e])[..|events|] == events;
  }

  /** A first delivery that ends its turn leaves it finalized and due. */
  lemma FirstDelivery(e: Envelope, now: Time)
    requires e.terminality.Hard? && e.hint.None? && e.turnId.Some?
    ensures var t := Stage(Schema.EMPTY_TABLES, e, now).0;
            && |t.turns| == 1 && t.turns[0].status.Finalized? && t.turns[0].attempts == 0
                 && t.turns[0].nextAttemptAt == Some(now)
  {
    NamedDelivery(Schema.EMPTY_TABLES, e, now);
    hide Stage;
  }

  /** A delivery with a turn id not seen before that ends its turn at once. */
  lemma NamedDelivery(t: Tables, e: Envelope, now: Time)
    requires e.terminality.Hard? && e.hint.None? && e.turnId.Some?
    requires FindFragment(t.fragments, e.fragmentId).None?
              && FindExternal(t.turns, e.conversation, e.turnId.value).None?
    ensures var row := NewTurn(t.turns, e.conversation, e.turnId);
            var f := NewFragment(t.fragments, |t.turns|, e);
            Stage(t, e, now) ==
              (Tables(t.turns + [ReducedTurn(row, Fold(TurnRows(t.fragments + [f], |t.turns|)), now)],
                  t.fragments + [f]),
               Staged(row.index, false, true))
            && ReducedTurn(row, Fold(TurnRows(t.fragments + [f], |t.turns|)), now).status.Finalized?
  {
    hide Fold, TurnRows, FindFragment, FindExternal, MaxIndex, Conclude;
    var n, row := |t.turns|, NewTurn(t.turns, e.conversation, e.turnId);
    var f := NewFragment(t.fragments, n, e);
    assert ResolveTurn(t, e) == Resolved(t.turns + [row], n);
    assert Stage(t, e, now) == Conclude(t, t.turns + [row], n, t.fragments + [f], e, now);
    HardEnds(t.fragments, f);
    HardConcludes(t, row, t.fragments + [f], e, now);
  }

  /** Concluding a delivery that ends the newest turn. */
  lemma HardConcludes(t: Tables, row: Turn, fragments: seq<Fragment>, e: Envelope, now: Time)
    requires e.terminality.Hard? && row.status.Open? && Fold(TurnRows(fragments, |t.turns|)).terminality.Hard?
    ensures var reduced := ReducedTurn(row, Fold(TurnRows(fragments, |t.turns|)), now);
            && Conclude(t, t.turns + [row], |t.turns|, fragments, e, now)
                 == (Tables(t.turns + [reduced], fragments), Staged(row.index, false, true))
            && reduced.status.Finalized?
  {
    hide Fold, TurnRows;
    var reduced := ReducedTurn(row, Fold(TurnRows(fragments, |t.turns|)), now);
    assert (t.turns + [row])[|t.turns| := reduced] == t.turns + [reduced];
  }
}
