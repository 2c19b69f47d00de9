/**
 * Rebuilding a turn's projection from its fragment rows: the ORDER BY of `SELECT_TURN_FRAGMENTS_SQL`
 * and the fold of `rebuild_projection`.
 */
module Replay {
  import opened Options
  import opened Tables

  datatype Reduced = Reduced(projection: Projection, terminality: Terminality)

  function Merge(current: Terminality, next: Terminality): Terminality {
    if next.Rank() > current.Rank() then next else current
  }

  function AppendMessage(target: string, fragment: string): string {
    if fragment == "" then target
    else if target == "" then fragment
    else target + "\n\n" + fragment
  }

  function ApplyBody(p: Projection, body: Body): Projection {
    match body
    case UserMessage(text) => p.(userMessage := AppendMessage(p.userMessage, text))
    case AssistantMessage(text) => p.(assistantReply := AppendMessage(p.assistantReply, text))
    case ToolCall(name, input) => p.(steps := p.steps + [CallStep(name, input)])
    case ToolResult(name, output) => p.(steps := p.steps + [ResultStep(name, output)])
    case Thinking(text) => p.(steps := p.steps + [ThinkingStep(text)])
    case Other => p
  }

  function ApplyFragment(r: Reduced, f: Fragment): Reduced {
    Reduced(ApplyBody(r.projection, f.body), Merge(r.terminality, f.terminality))
  }

  function Fold(rows: seq<Fragment>): Reduced {
    if rows == [] then Reduced(EMPTY_PROJECTION, Unmarked)
    else ApplyFragment(Fold(rows[..|rows| - 1]), rows[|rows| - 1])
  }

  // --- The order of the rows ---

  /** A hint sorts before another, and every hint before none. */
  predicate HintLess(a: Option<nat>, b: Option<nat>) {
    a.Some? && (b.None? || a.value < b.value)
  }

  /** `ORDER BY CASE WHEN sequence_hint IS NULL THEN 1 ELSE 0 END, sequence_hint, id`. */
  predicate Precedes(a: Fragment, b: Fragment) {
    HintLess(a.hint, b.hint) || (a.hint == b.hint && a.id < b.id)
  }

  ghost predicate Sorted(rows: seq<Fragment>) {
    forall i, j :: 0 <= i < j < |rows| ==> Precedes(rows[i], rows[j])
  }

  ghost predicate Numbered(fragments: seq<Fragment>) {
    forall i :: 0 <= i < |fragments| ==> fragments[i].id == i
  }

  /** Places a row, newer than all of `rows`, among them. */
  function Insert(rows: seq<Fragment>, f: Fragment): (r: seq<Fragment>)
    ensures |r| == |rows| + 1
    ensures multiset(r) == multiset(rows) + multiset{f}
  {
    if rows == [] then [f]
    else
      var last := rows[|rows| - 1];
      assert rows == rows[..|rows| - 1] + [last];
      if HintLess(f.hint, last.hint) then Insert(rows[..|rows| - 1], f) + [last]
      else rows + [f]
  }

  /** The rows of one turn, in the order the query returns them. */
  function TurnRows(fragments: seq<Fragment>, turn: nat): seq<Fragment> {
    if fragments == [] then []
    else
      var last := fragments[|fragments| - 1];
      var rows := TurnRows(fragments[..|fragments| - 1], turn);
      if last.turn == turn then Insert(rows, last) else rows
  }

  /** The largest terminality among a turn's fragments. */
  function MaxTerminality(fragments: seq<Fragment>, turn: nat): Terminality {
    if fragments == [] then Unmarked
    else
      var last := fragments[|fragments| - 1];
      var rest := MaxTerminality(fragments[..|fragments| - 1], turn);
      if last.turn == turn then Merge(rest, last.terminality) else rest
  }

  /** The largest terminality: no fragment of the turn ranks higher, and one of them has it, if there is any. */
  lemma {:induction false} MaxIsLargest(fragments: seq<Fragment>, turn: nat)
    ensures var most := MaxTerminality(fragments, turn);
            && (forall f :: f in fragments && f.turn == turn ==> f.terminality.Rank() <= most.Rank())
            && (most.Unmarked? || exists f :: f in fragments && f.turn == turn && f.terminality == most)
  {
    if fragments != [] {
      var init, last := fragments[..|fragments| - 1], fragments[|fragments| - 1];
      assert fragments == init + [last] && last in fragments;
      MaxIsLargest(init, turn);
      assert forall f :: f in init ==> f in fragments;
    }
  }

  /** The ranks: a soft mark is more than none, a hard one more than a soft one. */
  lemma Ranks()
    ensures Unmarked.Rank() < Soft.Rank() < Hard.Rank()
  {
  }

  lemma {:induction false} InsertSorted(rows: seq<Fragment>, f: Fragment)
    requires Sorted(rows) && forall g <- rows :: g.id < f.id
    ensures Sorted(Insert(rows, f))
  {
    if rows != [] && HintLess(f.hint, rows[|rows| - 1].hint) {
      var init, last := rows[..|rows| - 1], rows[|rows| - 1];
      InsertSorted(init, f);
      var r := Insert(init, f);
      forall i | 0 <= i < |r| ensures Precedes(r[i], last) {
        assert r[i] in multiset(r);
        assert r[i] in multiset(init) + multiset{f};
        if r[i] != f {
          assert r[i] in init;
        }
      }
    }
  }

  /** The rows of a turn are exactly its fragments, in strictly increasing query order. */
  lemma {:induction false} TurnRowsInOrder(fragments: seq<Fragment>, turn: nat)
    requires Numbered(fragments)
    ensures Sorted(TurnRows(fragments, turn))
    ensures forall f :: f in TurnRows(fragments, turn) <==> f in fragments && f.turn == turn
  {
    if fragments != [] {
      var init, last := fragments[..|fragments| - 1], fragments[|fragments| - 1];
      TurnRowsInOrder(init, turn);
      var rows := TurnRows(init, turn);
      assert fragments == init + [last];
      if last.turn == turn {
        forall g | g in rows ensures g.id < last.id {
          assert g in init;
        }
        InsertSorted(rows, last);
        forall f ensures f in Insert(rows, last) <==> f in rows || f == last {
          assert f in Insert(rows, last) <==> f in multiset(Insert(rows, last));
        }
      }
    }
  }

  /** The order of the query, spelled out: rows with hints first, by hint, and rows with the same hint by key. */
  lemma QueryOrder(fragments: seq<Fragment>, turn: nat, i: nat, j: nat)
    requires Numbered(fragments) && i < j < |TurnRows(fragments, turn)|
    ensures var a, b := TurnRows(fragments, turn)[i], TurnRows(fragments, turn)[j];
            && (b.hint.Some? ==> a.hint.Some? && a.hint.value <= b.hint.value)
            && (a.hint == b.hint ==> a.id < b.id)
  {
    TurnRowsInOrder(fragments, turn);
  }

  /** Two rows in query order with the same content are the same row, so the order admits one answer. */
  lemma {:induction false} SortedUnique(a: seq<Fragment>, b: seq<Fragment>)
    requires Sorted(a) && Sorted(b) && (forall f :: f in a <==> f in b)
    ensures a == b
  {
    assert b != [] ==> b[0] in a;
    if a != [] {
      assert a[0] in b;
      assert a[0] == b[0];
      forall f ensures f in a[1..] <==> f in b[1..] {
        if f in a[1..] {
          assert Precedes(a[0], f);
          assert f in b;
        }
        if f in b[1..] {
          assert Precedes(b[0], f);
          assert f in a;
        }
      }
      SortedUnique(a[1..], b[1..]);
      assert a == [a[0]] + a[1..] && b == [b[0]] + b[1..];
    }
  }

  lemma {:induction false} FoldInsert(rows: seq<Fragment>, f: Fragment)
    ensures Fold(Insert(rows, f)).terminality == Merge(Fold(rows).terminality, f.terminality)
  {
    if rows == [] {
      assert Insert(rows, f)[..0] == [];
    } else {
      var init, last := rows[..|rows| - 1], rows[|rows| - 1];
      if HintLess(f.hint, last.hint) {
        FoldInsert(init, f);
        assert Insert(rows, f)[..|rows|] == Insert(init, f);
      } else {
        assert Insert(rows, f)[..|rows|] == rows;
      }
    }
  }

  /** However the rows are ordered, the fold ends with the largest terminality of the turn. */
  lemma {:induction false} FoldTerminality(fragments: seq<Fragment>, turn: nat)
    ensures Fold(TurnRows(fragments, turn)).terminality == MaxTerminality(fragments, turn)
  {
    if fragments != [] {
      var init, last := fragments[..|fragments| - 1], fragments[|fragments| - 1];
      FoldTerminality(init, turn);
      if last.turn == turn {
        FoldInsert(TurnRows(init, turn), last);
      }
    }
  }

  // --- What the fold collects ---

  /** The texts of a kind, without empty ones, in row order. */
  function TextsOf(rows: seq<Fragment>, user: bool): seq<string> {
    if rows == [] then []
    else
      var rest, body := TextsOf(rows[..|rows| - 1], user), rows[|rows| - 1].body;
      if ((user && body.UserMessage?) || (!user && body.AssistantMessage?)) && body.text != "" then rest + [body.text]
          else rest
  }

  /** Texts with a blank line between them. */
  function Paragraphs(texts: seq<string>): string {
    if texts == [] then "" else texts[0] + (if |texts| == 1 then "" else "\n\n") + Paragraphs(texts[1..])
  }

  predicate IsStep(body: Body, step: Step) {
    match body
    case ToolCall(name, input) => step == CallStep(name, input)
    case ToolResult(name, output) => step == ResultStep(name, output)
    case Thinking(text) => step == ThinkingStep(text)
    case _ => false
  }

  /** The rows that are steps. */
  function StepRows(rows: seq<Fragment>): seq<Fragment> {
    if rows == [] then []
    else
      var rest, last := StepRows(rows[..|rows| - 1]), rows[|rows| - 1];
      if last.body.ToolCall? || last.body.ToolResult? || last.body.Thinking? then rest + [last] else rest
  }

  lemma {:induction false} ParagraphsSnoc(texts: seq<string>, last: string)
    requires last != "" && forall text :: text in texts ==> text != ""
    ensures Paragraphs(texts + [last]) == AppendMessage(Paragraphs(texts), last)
    ensures Paragraphs(texts) == "" <==> texts == []
  {
    if texts == [] {
      assert [] + [last] == [last] && [last][1..] == [];
    } else {
      assert texts[0] in texts && forall text :: text in texts[1..] ==> text in texts;
      ParagraphsSnoc(texts[1..], last);
      var first, rest := texts[0], texts[1..];
      assert (texts + [last])[1..] == rest + [last];
      if rest == [] {
        assert rest + [last] == [last] && [last][1..] == [];
        assert first + "" + "" == first && Paragraphs(texts + [last]) == first + "\n\n" + last;
      } else {
        assert first + "\n\n" + (Paragraphs(rest) + "\n\n" + last)
            == (first + "\n\n" + Paragraphs(rest)) + "\n\n" + last;
      }
    }
  }

  lemma {:induction false} TextsNotEmpty(rows: seq<Fragment>, user: bool)
    ensures forall text :: text in TextsOf(rows, user) ==> text != ""
  {
    if rows != [] { TextsNotEmpty(rows[..|rows| - 1], user); }
  }

  /** The projection holds the messages as paragraphs and the steps one by one, all in row order. */
  lemma {:induction false} FoldCollects(rows: seq<Fragment>)
    ensures var p := Fold(rows).projection;
            && p.userMessage == Paragraphs(TextsOf(rows, true)) && p.assistantReply == Paragraphs(TextsOf(rows, false))
            && |p.steps| == |StepRows(rows)|
                 && forall k :: 0 <= k < |p.steps| ==> IsStep(StepRows(rows)[k].body, p.steps[k])
  {
    if rows != [] {
      var init, body := rows[..|rows| - 1], rows[|rows| - 1].body;
      FoldCollects(init);
      TextsNotEmpty(init, true);
      TextsNotEmpty(init, false);
      if (body.UserMessage? || body.AssistantMessage?) && body.text != "" {
        ParagraphsSnoc(TextsOf(init, body.UserMessage?), body.text);
      }
    }
  }

  // --- Arrival order ---

  /** What a fragment says, and where in the turn. */
  datatype Payload = Payload(hint: Option<nat>, body: Body)

  function PayloadOf(f: Fragment): Payload { Payload(f.hint, f.body) }

  function Payloads(rows: seq<Fragment>): (r: seq<Payload>)
    ensures |r| == |rows| && forall i :: 0 <= i < |r| ==> r[i] == PayloadOf(rows[i])
  {
    seq(|rows|, i requires 0 <= i < |rows| => PayloadOf(rows[i]))
  }

  /** No two fragments of the turn carry the same hint; at most one carries none. */
  ghost predicate DistinctHints(fragments: seq<Fragment>, turn: nat) {
    forall i, j :: 0 <= i < j < |fragments| && fragments[i].turn == turn && fragments[j].turn == turn
      ==> fragments[i].hint != fragments[j].hint
  }

  ghost predicate StrictHints(s: seq<Payload>) {
    forall i, j :: 0 <= i < j < |s| ==> HintLess(s[i].hint, s[j].hint)
  }

  lemma {:induction false} FoldPayloads(a: seq<Fragment>, b: seq<Fragment>)
    requires Payloads(a) == Payloads(b)
    ensures Fold(a).projection == Fold(b).projection
  {
    assert |Payloads(a)| == |a| && |Payloads(b)| == |b|;
    if a != [] {
      var n := |a| - 1;
      assert Payloads(a)[n] == PayloadOf(a[n]) && Payloads(b)[n] == PayloadOf(b[n]);
      assert Payloads(a[..n]) == Payloads(a)[..n] == Payloads(b)[..n] == Payloads(b[..n]);
      FoldPayloads(a[..n], b[..n]);
    }
  }

  lemma {:induction false} StrictUnique(a: seq<Payload>, b: seq<Payload>)
    requires StrictHints(a) && StrictHints(b) && (forall p :: p in a <==> p in b)
    ensures a == b
  {
    assert b != [] ==> b[0] in a;
    if a != [] {
      assert a[0] in b;
      assert a[0] == b[0];
      forall p ensures p in a[1..] <==> p in b[1..] {
        if p in a[1..] {
          assert HintLess(a[0].hint, p.hint);
          assert p in b;
        }
        if p in b[1..] {
          assert HintLess(b[0].hint, p.hint);
          assert p in a;
        }
      }
      StrictUnique(a[1..], b[1..]);
      assert a == [a[0]] + a[1..] && b == [b[0]] + b[1..];
    }
  }

  lemma DistinctIsStrict(fragments: seq<Fragment>, turn: nat)
    requires Numbered(fragments) && DistinctHints(fragments, turn)
    ensures StrictHints(Payloads(TurnRows(fragments, turn)))
  {
    TurnRowsInOrder(fragments, turn);
    var rows := TurnRows(fragments, turn);
    forall i, j | 0 <= i < j < |rows| ensures HintLess(rows[i].hint, rows[j].hint) {
      assert Precedes(rows[i], rows[j]);
      assert rows[i] in rows && rows[j] in rows;
      assert rows[i] in fragments && rows[j] in fragments;
    }
  }

  /** `p` was carried by some fragment of the turn. */
  ghost predicate Carried(fragments: seq<Fragment>, turn: nat, p: Payload) {
    exists f :: f in fragments && f.turn == turn && PayloadOf(f) == p
  }

  lemma PayloadsCarried(fragments: seq<Fragment>, turn: nat, p: Payload)
    requires Numbered(fragments)
    ensures p in Payloads(TurnRows(fragments, turn)) <==> Carried(fragments, turn, p)
  {
    TurnRowsInOrder(fragments, turn);
    var rows := TurnRows(fragments, turn);
    if p in Payloads(rows) {
      var i :| 0 <= i < |rows| && Payloads(rows)[i] == p;
      assert rows[i] in rows;
    }
    if Carried(fragments, turn, p) {
      var f :| f in fragments && f.turn == turn && PayloadOf(f) == p;
      assert f in rows;
      var i :| 0 <= i < |rows| && rows[i] == f;
      assert Payloads(rows)[i] == p;
    }
  }

  /** With pairwise distinct hints the projection depends on what was said, not on the order of arrival. */
  lemma ArrivalOrderIrrelevant(a: seq<Fragment>, i: nat, b: seq<Fragment>, j: nat)
    requires Numbered(a) && Numbered(b) && DistinctHints(a, i) && DistinctHints(b, j)
    requires forall p :: Carried(a, i, p) <==> Carried(b, j, p)
    ensures Fold(TurnRows(a, i)).projection == Fold(TurnRows(b, j)).projection
    ensures MaxTerminality(a, i) == MaxTerminality(b, j) ==> Fold(TurnRows(a, i)) == Fold(TurnRows(b, j))
  {
    FoldTerminality(a, i);
    FoldTerminality(b, j);
    DistinctIsStrict(a, i);
    DistinctIsStrict(b, j);
    var pa, pb := Payloads(TurnRows(a, i)), Payloads(TurnRows(b, j));
    forall p ensures p in pa <==> p in pb {
      PayloadsCarried(a, i, p);
      PayloadsCarried(b, j, p);
    }
    StrictUnique(pa, pb);
    FoldPayloads(TurnRows(a, i), TurnRows(b, j));
  }
}
