/**
 * What `retrieve_memory` returns, and in which order: the nearest neighbours, then the memories they link to.
 */
module Retrieval {
  import opened MemoryGraph

  type LinkRow = (nat, nat)

  /** The first occurrence of each id. */
  function Dedup(ids: seq<nat>): (r: seq<nat>)
    ensures forall id :: id in r <==> id in ids
  {
    if ids == [] then []
    else
      var rest, id := Dedup(ids[..|ids| - 1]), ids[|ids| - 1];
      assert ids == ids[..|ids| - 1] + [id];
      if id in rest then rest else rest + [id]
  }

  /** The targets a source is linked to, in row order. */
  function TargetsOf(links: seq<LinkRow>, source: nat): (r: seq<nat>)
    ensures forall id :: id in r <==> (source, id) in links
  {
    if links == [] then []
    else
      var rest, last := TargetsOf(links[..|links| - 1], source), links[|links| - 1];
      assert links == links[..|links| - 1] + [last];
      if last.0 == source then rest + [last.1] else rest
  }

  /** The targets of each source in turn. */
  function Expansion(sources: seq<nat>, links: seq<LinkRow>): (r: seq<nat>)
    ensures forall id :: id in r <==> exists source :: source in sources && (source, id) in links
  {
    if sources == [] then []
    else
      var init, last := sources[..|sources| - 1], sources[|sources| - 1];
      assert sources == init + [last];
      Expansion(init, links) + TargetsOf(links, last)
  }

  function OrderedIds(top: seq<nat>, links: seq<LinkRow>): seq<nat> {
    Dedup(top + Expansion(top, links))
  }

  ghost predicate Distinct(ids: seq<nat>) {
    forall i, j :: 0 <= i < j < |ids| ==> ids[i] != ids[j]
  }

  lemma {:induction false} DedupDistinct(ids: seq<nat>)
    ensures Distinct(Dedup(ids))
  {
    if ids != [] {
      DedupDistinct(ids[..|ids| - 1]);
    }
  }

  lemma ExpansionOfNone(links: seq<LinkRow>)
    ensures Expansion([], links) == []
  {
  }

  lemma ExpansionSnoc(sources: seq<nat>, links: seq<LinkRow>, k: nat)
    requires k < |sources|
    ensures Expansion(sources[..k + 1], links) == Expansion(sources[..k], links) + TargetsOf(links, sources[k])
  {
    assert sources[..k + 1][..k] == sources[..k];
  }

  lemma DedupSnoc(ids: seq<nat>, id: nat)
    ensures Dedup(ids + [id]) == if id in Dedup(ids) then Dedup(ids) else Dedup(ids) + [id]
  {
    assert (ids + [id])[..|ids|] == ids;
  }

  lemma {:induction false} DedupPrefix(a: seq<nat>, b: seq<nat>)
    ensures Dedup(a) <= Dedup(a + b)
  {
    if b == [] {
      assert a + b == a;
    } else {
      DedupPrefix(a, b[..|b| - 1]);
      assert (a + b)[..|a + b| - 1] == a + b[..|b| - 1];
    }
  }

  /** No id twice, the nearest neighbours first and in their order, and exactly their one-hop targets besides. */
  lemma OrderedIdsExpandOnce(top: seq<nat>, links: seq<LinkRow>)
    ensures Distinct(OrderedIds(top, links))
    ensures Dedup(top) <= OrderedIds(top, links)
    ensures forall id :: id in OrderedIds(top, links)
              <==> id in top || exists source :: source in top && (source, id) in links
  {
    DedupDistinct(top + Expansion(top, links));
    DedupPrefix(top, Expansion(top, links));
  }

  // --- The order of the ids, told by places ---

  ghost predicate Increasing(at: seq<nat>, n: nat) {
    (forall k :: 0 <= k < |at| ==> at[k] < n) && forall j, k :: 0 <= j < k < |at| ==> at[j] < at[k]
  }

  /** `r` holds each id once, where it first occurs. */
  ghost predicate FirstsAt(ids: seq<nat>, at: seq<nat>, r: seq<nat>) {
    && |at| == |r| && Increasing(at, |ids|)
    && (forall k :: 0 <= k < |at| ==> r[k] == ids[at[k]])
    && (forall i :: 0 <= i < |ids| ==> (i in at <==> ids[i] !in ids[..i]))
  }

  /** `r` holds the targets of the source's links, in the order of the rows. */
  ghost predicate TargetsAt(links: seq<LinkRow>, source: nat, at: seq<nat>, r: seq<nat>) {
    && |at| == |r| && Increasing(at, |links|)
    && (forall k :: 0 <= k < |at| ==> r[k] == links[at[k]].1)
    && (forall i :: 0 <= i < |links| ==> (i in at <==> links[i].0 == source))
  }

  function Concat(parts: seq<seq<nat>>): seq<nat> {
    if parts == [] then [] else Concat(parts[..|parts| - 1]) + parts[|parts| - 1]
  }

  /** One part for each source: the targets it is linked to. */
  ghost predicate PartsOf(links: seq<LinkRow>, sources: seq<nat>, parts: seq<seq<nat>>) {
    && |parts| == |sources|
    && forall k :: 0 <= k < |sources| ==> IsPart(links, sources[k], parts[k])
  }

  ghost predicate IsPart(links: seq<LinkRow>, source: nat, part: seq<nat>) {
    exists at :: TargetsAt(links, source, at, part)
  }

  lemma {:induction false} DedupKeepsFirsts(ids: seq<nat>) returns (at: seq<nat>)
    ensures FirstsAt(ids, at, Dedup(ids))
  {
    if ids == [] {
      at := [];
    } else {
      var n := |ids| - 1;
      at := DedupKeepsFirsts(ids[..n]);
      assert ids == ids[..n] + [ids[n]];
      FirstsSnoc(ids[..n], at, Dedup(ids[..n]), ids[n]);
      if ids[n] !in ids[..n] { at := at + [n]; }
    }
  }

  lemma FirstsSnoc(ids: seq<nat>, at: seq<nat>, r: seq<nat>, id: nat)
    requires FirstsAt(ids, at, r)
    ensures if id in ids then FirstsAt(ids + [id], at, r) else FirstsAt(ids + [id], at + [|ids|], r + [id])
  {
    var all := ids + [id];
    assert all[..|ids|] == ids && forall i :: 0 <= i < |ids| ==> all[i] == ids[i] && all[..i] == ids[..i];
    assert |ids| !in at;
    assert forall i :: i in at + [|ids|] <==> i in at || i == |ids|;
  }

  lemma {:induction false} TargetsInOrder(links: seq<LinkRow>, source: nat) returns (at: seq<nat>)
    ensures TargetsAt(links, source, at, TargetsOf(links, source))
  {
    if links == [] {
      at := [];
    } else {
      var n := |links| - 1;
      at := TargetsInOrder(links[..n], source);
      assert links == links[..n] + [links[n]];
      TargetsSnoc(links[..n], source, at, TargetsOf(links[..n], source), links[n]);
      if links[n].0 == source { at := at + [n]; }
    }
  }

  lemma TargetsSnoc(links: seq<LinkRow>, source: nat, at: seq<nat>, r: seq<nat>, link: LinkRow)
    requires TargetsAt(links, source, at, r)
    ensures if link.0 == source then TargetsAt(links + [link], source, at + [|links|], r + [link.1])
            else TargetsAt(links + [link], source, at, r)
  {
    assert |links| !in at;
    assert forall i :: i in at + [|links|] <==> i in at || i == |links|;
  }

  lemma {:induction false} ExpansionInParts(links: seq<LinkRow>, sources: seq<nat>) returns (parts: seq<seq<nat>>)
    ensures PartsOf(links, sources, parts) && Expansion(sources, links) == Concat(parts)
  {
    hide TargetsAt;
    if sources == [] {
      parts := [];
    } else {
      var n := |sources| - 1;
      var init := ExpansionInParts(links, sources[..n]);
      var at := TargetsInOrder(links, sources[n]);
      parts := init + [TargetsOf(links, sources[n])];
      assert parts[..n] == init && sources == sources[..n] + [sources[n]];
      PartsSnoc(links, sources[..n], init, sources[n], TargetsOf(links, sources[n]));
    }
  }

  lemma PartsSnoc(links: seq<LinkRow>, sources: seq<nat>, parts: seq<seq<nat>>, source: nat, part: seq<nat>)
    requires PartsOf(links, sources, parts) && IsPart(links, source, part)
    ensures PartsOf(links, sources + [source], parts + [part])
  {
    hide IsPart;
  }

  /** First the nearest, then what each of these is linked to in turn, each id where it first occurs. */
  lemma OrderedExactly(top: seq<nat>, links: seq<LinkRow>)
    ensures exists parts, at :: PartsOf(links, top, parts) && FirstsAt(top + Concat(parts), at, OrderedIds(top, links))
  {
    hide PartsOf, FirstsAt;
    var parts := ExpansionInParts(links, top);
    var at := DedupKeepsFirsts(top + Expansion(top, links));
    assert FirstsAt(top + Concat(parts), at, OrderedIds(top, links));
  }

  // --- Sorting the fetched rows ---

  datatype Row = Row(id: nat, memory: Memory)

  /** Where an id was asked for; rows nobody asked for sort last. */
  type Positions = map<nat, nat>

  predicate SortsBefore(positions: Positions, a: Row, b: Row) {
    a.id in positions && (b.id in positions ==> positions[a.id] < positions[b.id])
  }

  function InsertRow(positions: Positions, sorted: seq<Row>, row: Row): (r: seq<Row>)
    ensures |r| == |sorted| + 1
    ensures multiset(r) == multiset(sorted) + multiset{row}
  {
    if sorted == [] then [row]
    else
      var last := sorted[|sorted| - 1];
      assert sorted == sorted[..|sorted| - 1] + [last];
      if SortsBefore(positions, row, last) then InsertRow(positions, sorted[..|sorted| - 1], row) + [last]
          else sorted + [row]
  }

  /** `sort_by_key`, stable. */
  function SortRows(positions: Positions, rows: seq<Row>): (r: seq<Row>)
    ensures multiset(r) == multiset(rows)
  {
    if rows == [] then []
    else
      assert rows == rows[..|rows| - 1] + [rows[|rows| - 1]];
      InsertRow(positions, SortRows(positions, rows[..|rows| - 1]), rows[|rows| - 1])
  }

  /** The position map of a list: for a repeated id, its last index. */
  function PositionsOf(ids: seq<nat>): (r: Positions)
    ensures forall id :: id in r <==> id in ids
    ensures forall id :: id in r ==> r[id] < |ids| && ids[r[id]] == id
  {
    if ids == [] then map[]
    else
      assert ids == ids[..|ids| - 1] + [ids[|ids| - 1]];
      PositionsOf(ids[..|ids| - 1])[ids[|ids| - 1] := |ids| - 1]
  }

  function Ids(rows: seq<Row>): (r: seq<nat>)
    ensures |r| == |rows| && forall i :: 0 <= i < |r| ==> r[i] == rows[i].id
  {
    seq(|rows|, i requires 0 <= i < |rows| => rows[i].id)
  }

  /** Strictly increasing positions. */
  ghost predicate Ascending(positions: Positions, ids: seq<nat>) {
    && (forall i :: 0 <= i < |ids| ==> ids[i] in positions)
    && (forall i, j :: 0 <= i < j < |ids| ==> positions[ids[i]] < positions[ids[j]])
  }

  lemma {:induction false} AscendingUnique(positions: Positions, a: seq<nat>, b: seq<nat>)
    requires Ascending(positions, a) && Ascending(positions, b) && (forall id :: id in a <==> id in b)
    ensures a == b
  {
    assert b != [] ==> b[0] in a;
    if a != [] {
      assert a[0] in b;
      assert a[0] == b[0];
      forall id ensures id in a[1..] <==> id in b[1..] {
        if id in a[1..] {
          assert positions[a[0]] < positions[id] && id in b;
        }
        if id in b[1..] {
          assert positions[b[0]] < positions[id] && id in a;
        }
      }
      AscendingUnique(positions, a[1..], b[1..]);
      assert a == [a[0]] + a[1..] && b == [b[0]] + b[1..];
    }
  }

  lemma AscendingSnoc(positions: Positions, init: seq<nat>, last: nat)
    ensures Ascending(positions, init + [last]) <==>
              Ascending(positions, init) && last in positions
                  && forall id :: id in init ==> id in positions && positions[id] < positions[last]
  {
    var ids := init + [last];
    if Ascending(positions, ids) {
      assert ids[|init|] in positions;
      forall id | id in init ensures id in positions && positions[id] < positions[last] {
        var i :| 0 <= i < |init| && init[i] == id;
        assert ids[i] == id && ids[|init|] == last;
      }
      assert forall i :: 0 <= i < |init| ==> ids[i] == init[i];
      assert ids[|init|] == last;
    }
  }

  lemma {:induction false} InsertIds(positions: Positions, sorted: seq<Row>, row: Row)
    ensures forall id :: id in Ids(InsertRow(positions, sorted, row)) <==> id in Ids(sorted) || id == row.id
  {
    if sorted == [] {
      assert Ids([row]) == [row.id];
    } else {
      hide SortsBefore;
      var init, last := sorted[..|sorted| - 1], sorted[|sorted| - 1];
      assert Ids(sorted) == Ids(init) + [last.id];
      InsertIds(positions, init, row);
      assert Ids(InsertRow(positions, init, row) + [last]) == Ids(InsertRow(positions, init, row)) + [last.id];
      assert Ids(sorted + [row]) == Ids(sorted) + [row.id];
    }
  }

  /** Positions tell ids apart. */
  lemma PositionsDiffer(asked: seq<nat>, a: nat, b: nat)
    requires a in asked && b in asked && a != b
    ensures PositionsOf(asked)[a] != PositionsOf(asked)[b]
  {
  }

  lemma IdsSnoc(rows: seq<Row>, row: Row)
    ensures Ids(rows + [row]) == Ids(rows) + [row.id]
  {
  }

  lemma {:induction false} InsertAscends(asked: seq<nat>, sorted: seq<Row>, row: Row)
    requires Ascending(PositionsOf(asked), Ids(sorted)) && row.id in asked && row.id !in Ids(sorted)
    ensures Ascending(PositionsOf(asked), Ids(InsertRow(PositionsOf(asked), sorted, row)))
  {
    var p := PositionsOf(asked);
    if sorted == [] {
      assert Ids([row]) == [row.id];
    } else {
      hide Ascending, Ids, PositionsOf;
      var init, last := sorted[..|sorted| - 1], sorted[|sorted| - 1];
      assert sorted == init + [last];
      IdsSnoc(init, last);
      IdsSnoc(sorted, row);
      AscendingSnoc(p, Ids(init), last.id);
      if SortsBefore(p, row, last) {
        InsertAscends(asked, init, row);
        InsertIds(p, init, row);
        IdsSnoc(InsertRow(p, init, row), last);
        BelowAscends(p, Ids(init), Ids(InsertRow(p, init, row)), row.id, last.id);
      } else {
        PositionsDiffer(asked, row.id, last.id);
        AppendAscends(p, Ids(init), last.id, row.id);
      }
    }
  }

  lemma BelowAscends(positions: Positions, init: seq<nat>, ids: seq<nat>, id: nat, last: nat)
    requires Ascending(positions, init + [last]) && Ascending(positions, ids) && last in positions
    requires (forall i :: i in ids <==> i in init || i == id) && id in positions && positions[id] < positions[last]
    ensures Ascending(positions, ids + [last])
  {
    hide Ascending;
    AscendingSnoc(positions, init, last);
    AscendingSnoc(positions, ids, last);
  }

  lemma AppendAscends(positions: Positions, init: seq<nat>, last: nat, next: nat)
    requires Ascending(positions, init + [last]) && last in positions && next in positions
              && positions[last] < positions[next]
    ensures Ascending(positions, init + [last] + [next])
  {
    AscendingSnoc(positions, init, last);
    AscendingSnoc(positions, init + [last], next);
    hide Ascending;
  }

  lemma {:induction false} SortAscends(asked: seq<nat>, rows: seq<Row>)
    requires Distinct(Ids(rows)) && forall id :: id in Ids(rows) ==> id in asked
    ensures Ascending(PositionsOf(asked), Ids(SortRows(PositionsOf(asked), rows)))
    ensures forall id :: id in Ids(SortRows(PositionsOf(asked), rows)) <==> id in Ids(rows)
  {
    if rows != [] {
      var init, last := rows[..|rows| - 1], rows[|rows| - 1];
      assert Ids(rows) == Ids(init) + [last.id];
      assert last.id !in Ids(init) by {
        assert forall i :: 0 <= i < |init| ==> Ids(rows)[i] != Ids(rows)[|init|];
      }
      SortAscends(asked, init);
      InsertAscends(asked, SortRows(PositionsOf(asked), init), last);
      InsertIds(PositionsOf(asked), SortRows(PositionsOf(asked), init), last);
      hide InsertRow, Ascending, PositionsOf;
    }
  }

  /** `rows` is what a query for `ids` returns: each existing row once, in any order. */
  ghost predicate Fetched(table: seq<Memory>, ids: seq<nat>, rows: seq<Row>) {
    && Distinct(Ids(rows))
    && (forall row :: row in rows ==> row.id < |table| && row.memory == table[row.id])
    && (forall id :: id in Ids(rows) <==> id in ids && id < |table|)
  }

  /** When every id exists, the sorted rows are exactly those of `ids`, once each and in that order. */
  lemma SortedAsAsked(table: seq<Memory>, ids: seq<nat>, rows: seq<Row>)
    requires Distinct(ids) && (forall id :: id in ids ==> id < |table|) && Fetched(table, ids, rows)
    ensures var sorted := SortRows(PositionsOf(ids), rows);
            Ids(sorted) == ids
                && forall k :: 0 <= k < |ids| ==> ids[k] < |table| && sorted[k] == Row(ids[k], table[ids[k]])
  {
    var p := PositionsOf(ids);
    var sorted := SortRows(p, rows);
    SortAscends(ids, rows);
    assert Ascending(p, ids) by {
      assert forall i :: 0 <= i < |ids| ==> ids[i] in ids && ids[p[ids[i]]] == ids[i];
    }
    AscendingUnique(p, Ids(sorted), ids);
    forall k | 0 <= k < |ids| ensures ids[k] < |table| && sorted[k] == Row(ids[k], table[ids[k]]) {
      assert ids[k] in ids && sorted[k] in multiset(sorted) && sorted[k] in rows && Ids(sorted)[k] == sorted[k].id;
    }
  }

  /** The link rows of some sources, as the query returns them. */
  ghost predicate LinkRowsOf(links: Links, sources: seq<nat>, rows: seq<LinkRow>) {
    forall source, target :: (source, target) in rows <==> source in sources && (source, target) in links
  }

  /** With a sound graph, retrieval returns each nearest neighbour and each one-hop memory once, in order. */
  lemma RetrievalReturnsAll(g: Graph, top: seq<nat>, linkRows: seq<LinkRow>, rows: seq<Row>)
    requires LinksSound(g.links, |g.rows|) && (forall id :: id in top ==> id < |g.rows|)
    requires LinkRowsOf(g.links, top, linkRows) && Fetched(g.rows, OrderedIds(top, linkRows), rows)
    ensures var ids := OrderedIds(top, linkRows);
            && Ids(SortRows(PositionsOf(ids), rows)) == ids
            && (forall id :: id in ids <==> id in top || exists source :: source in top && (source, id) in g.links)
  {
    var ids := OrderedIds(top, linkRows);
    OrderedIdsExpandOnce(top, linkRows);
    forall id | id in ids ensures id < |g.rows| {
      if id !in top {
        var source :| source in top && (source, id) in linkRows;
        assert (source, id) in g.links;
      }
    }
    SortedAsAsked(g.rows, ids, rows);
  }
}
