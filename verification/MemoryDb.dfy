/**
 * The memory database and the actor's work on it: preparing and persisting turns, retrieval, and the startup of
 * the vector table. The ingest tables live in the same file, so persisting also writes there.
 */
module MemoryDbs {
  import opened Options
  import opened Tables
  import opened Dispatch
  import opened MemoryGraph
  import opened Reindex
  import opened Retrieval
  import opened IngestStores
  import Schema

  class MemoryDb {
    var memories: seq<Memory>
    var vectors: Vectors
    var tableExists: bool
    var links: Links
    var recorded: Option<EncoderId>
    const ingest: IngestStore

    function GraphOf(): Graph
      reads this
    {
      Graph(memories, vectors, links)
    }

    function IndexOf(): IndexState
      reads this
    {
      IndexState(if tableExists then Some(vectors) else None, recorded)
    }

    /** The graph is sound under an encoder: what every committed transaction keeps. */
    ghost predicate SoundUnder(encode: Encoder)
      reads this
    {
      IndexAgrees(memories, vectors, encode) && LinksSound(links, |memories|)
    }

    constructor (ingest: IngestStore)
      ensures this.ingest == ingest && GraphOf() == EMPTY_GRAPH && IndexOf() == IndexState(None, None)
    {
      this.ingest := ingest;
      memories, vectors, links := [], map[], {};
      tableExists, recorded := false, None;
    }

    // --- Preparing a turn ---

    method KnownLinks(neighbors: seq<nat>, connections: seq<int>) returns (known: seq<nat>)
      ensures known == MemoryGraph.KnownLinks(neighbors, connections)
    {
      known := [];
      for k := 0 to |connections|
        invariant known == MemoryGraph.KnownLinks(neighbors, connections[..k])
      {
        assert connections[..k + 1][..k] == connections[..k];
        if connections[k] >= 0 && connections[k] in neighbors {
          known := known + [connections[k]];
        }
      }
      assert connections[..|connections|] == connections;
    }

    method PlanUpdates(neighbors: seq<nat>, evolved: seq<Evolved>) returns (updates: seq<NeighborUpdate>)
      requires forall id :: id in neighbors ==> id < |memories|
      ensures updates == PlannedUpdates(memories, neighbors, evolved)
    {
      updates := [];
      for k := 0 to |evolved|
        invariant updates == PlannedUpdates(memories, neighbors, evolved[..k])
      {
        assert evolved[..k + 1][..k] == evolved[..k];
        var next := evolved[k];
        if next.id >= 0 && next.id in neighbors {
          var row := memories[next.id];
          var context := if next.context.Some? then next.context.value else row.context;
          if row.context != context || row.tags != next.tags {
            updates := updates + [NeighborUpdate(next.id, Text(row.content, row.keywords, next.tags, context))];
          }
        }
      }
      assert evolved[..|evolved|] == evolved;
    }

    method PrepareNeighborWrites(encode: Encoder, updates: seq<NeighborUpdate>, neighborCount: nat)
      returns (r: Result<seq<NeighborWrite>, PrepareError>)
      ensures r == if updates != [] && |updates| > neighborCount then Failure(TooManyUpdates)
                else Success(EncodedUpdates(updates, encode))
    {
      if updates == [] {
        return Success([]);
      }
      var prepared: seq<NeighborWrite> := [];
      for k := 0 to |updates|
        invariant prepared == EncodedUpdates(updates[..k], encode)
      {
        var text := updates[k].text;
        prepared := prepared + [NeighborWrite(updates[k].id, text.context, text.keywords, text.tags, encode(text))];
      }
      assert updates[..|updates|] == updates;
      if |prepared| > neighborCount {
        return Failure(TooManyUpdates);
      }
      r := Success(prepared);
    }

    /** `process_turn_with_clients` up to the transaction. */
    method PrepareTurn(encode: Encoder, content: string, timestamp: Time, analysis: Analysis, nearest: seq<nat>,
                       evolution: Evolution)
      returns (r: Result<TurnWrite, PrepareError>)
      ensures r == Prepare(memories, encode, content, timestamp, analysis, nearest, evolution)
      ensures r.Success? ==> Sound(memories, r.value, encode)
      ensures exists at :: Prepared(memories, encode, content, timestamp, analysis, nearest, evolution, r, at)
    {
      PrepareIsSound(memories, encode, content, timestamp, analysis, nearest, evolution);
      ghost var _ := PrepareExactly(memories, encode, content, timestamp, analysis, nearest, evolution);
      hide Sound, Prepared;
      var tags := analysis.tags;
      var embedding := encode(Text(content, analysis.keywords, tags, analysis.context));
      var neighbors := Neighbors(memories, nearest);
      var linkIds: seq<nat> := [];
      var updates: seq<NeighborUpdate> := [];
      if neighbors != [] {
        linkIds := KnownLinks(neighbors, evolution.connections);
        if evolution.tags != [] && evolution.tags != tags {
          tags := evolution.tags;
          embedding := encode(Text(content, analysis.keywords, tags, analysis.context));
        }
        updates := PlanUpdates(neighbors, evolution.neighbors);
      }
      var writes := PrepareNeighborWrites(encode, updates, |Elements(neighbors)|);
      if writes.Failure? {
        return Failure(writes.error);
      }
      r := Success(TurnWrite(Memory(content, timestamp, analysis.context, analysis.keywords, tags), embedding, linkIds,
          writes.value));
    }

    // --- Persisting it ---

    method InsertLinks(id: nat, targets: seq<nat>) returns (ok: bool)
      modifies this`links
      ensures var r := AddLinks(old(links), |memories|, id, targets); ok == r.Some? && (ok ==> links == r.value)
    {
      for k := 0 to |targets|
        invariant AddLinks(old(links), |memories|, id, targets[..k]) == Some(links)
      {
        assert targets[..k + 1][..k] == targets[..k];
        if !(id < |memories| && targets[k] < |memories|) {
          LinkFailureStays(old(links), |memories|, id, targets, k + 1);
          return false;
        }
        ghost var before := links;
        links := links + {(id, targets[k])};
        links := links + {(targets[k], id)};
        assert links == before + {(id, targets[k]), (targets[k], id)};
      }
      assert targets[..|targets|] == targets;
      ok := true;
    }

    static lemma LinkFailureStays(links: Links, count: nat, id: nat, targets: seq<nat>, k: nat)
      requires k <= |targets| && AddLinks(links, count, id, targets[..k]).None?
      ensures AddLinks(links, count, id, targets).None?
    {
      if k < |targets| {
        var init := targets[..|targets| - 1];
        assert init[..k] == targets[..k];
        LinkFailureStays(links, count, id, init, k);
      } else {
        assert targets[..k] == targets;
      }
    }

    method UpdateNeighbors(updates: seq<NeighborWrite>) returns (ok: bool)
      modifies this`memories, this`vectors
      ensures var r := MemoryGraph.UpdateNeighbors(Index(old(memories), old(vectors)), updates);
              ok == r.Some? && (ok ==> r.value == Index(memories, vectors))
    {
      ghost var start := Index(memories, vectors);
      for k := 0 to |updates|
        invariant MemoryGraph.UpdateNeighbors(start, updates[..k]) == Some(Index(memories, vectors))
      {
        assert updates[..k + 1][..k] == updates[..k];
        var u := updates[k];
        if !(u.id < |memories| && u.id in vectors) {
          UpdateFailureStays(start, updates, k + 1);
          return false;
        }
        memories := memories[u.id := memories[u.id].(context := u.context, keywords := u.keywords, tags := u.tags)];
        vectors := vectors[u.id := u.embedding];
      }
      assert updates[..|updates|] == updates;
      ok := true;
    }

    static lemma UpdateFailureStays(start: Index, updates: seq<NeighborWrite>, k: nat)
      requires k <= |updates| && MemoryGraph.UpdateNeighbors(start, updates[..k]).None?
      ensures MemoryGraph.UpdateNeighbors(start, updates).None?
    {
      if k < |updates| {
        var init := updates[..|updates| - 1];
        assert init[..k] == updates[..k];
        UpdateFailureStays(start, init, k);
      } else {
        assert updates[..k] == updates;
      }
    }

    /** The graph part of the transaction; false when a statement fails, with the writes so far still in place. */
    method WriteGraph(write: TurnWrite) returns (ok: bool)
      modifies this`memories, this`vectors, this`links
      ensures var r := Persist(old(GraphOf()), write); ok == r.Some? && (ok ==> GraphOf() == r.value)
    {
      var id := |memories|;
      if id in vectors {
        return false;
      }
      memories := memories + [write.memory];
      vectors := vectors[id := write.embedding];
      ok := InsertLinks(id, write.linkIds);
      if ok {
        ok := UpdateNeighbors(write.updates);
      }
    }

    /** Memory, embedding, links, neighbour updates and the stored mark: all of them, or none. */
    method PersistPreparedTurn(turn: nat, write: TurnWrite, now: Time, ghost encode: Encoder) returns (committed: bool)
      requires ingest.Valid() && SoundUnder(encode) && Sound(memories, write, encode)
      modifies this`memories, this`vectors, this`links, ingest`turns
      ensures ingest.Valid() && SoundUnder(encode)
      ensures committed == InProcess(old(ingest.turns), turn)
      ensures committed ==>
                && Persist(old(GraphOf()), write) == Some(GraphOf())
                && ingest.turns == MarkStored(old(ingest.turns), turn, now)
                && |memories| == |old(memories)| + 1 && memories[|old(memories)|] == write.memory
      ensures !committed ==> GraphOf() == old(GraphOf()) && ingest.turns == old(ingest.turns)
    {
      PersistKeepsGraph(GraphOf(), write, encode);
      hide Schema.Valid, Sound, IndexAgrees, LinksSound, Persist;
      var savedMemories, savedVectors, savedLinks := memories, vectors, links;
      committed := WriteGraph(write);
      if committed {
        committed := ingest.MarkStored(turn, now);
      }
      if !committed {
        memories, vectors, links := savedMemories, savedVectors, savedLinks;
      }
    }

    // --- Retrieval ---

    /** Appends the ids not seen yet, where `before` is everything that went in so far. */
    static method AppendUnseen(ordered: seq<nat>, seen: set<nat>, ids: seq<nat>, ghost before: seq<nat>)
      returns (ordered': seq<nat>, seen': set<nat>)
      requires ordered == Dedup(before) && seen == (set id | id in ordered)
      ensures ordered' == Dedup(before + ids) && seen' == (set id | id in ordered')
    {
      hide Dedup;
      ordered', seen' := ordered, seen;
      assert before + ids[..0] == before;
      for k := 0 to |ids|
        invariant ordered' == Dedup(before + ids[..k]) && seen' == (set id | id in ordered')
      {
        assert before + ids[..k + 1] == before + ids[..k] + [ids[k]];
        DedupSnoc(before + ids[..k], ids[k]);
        if ids[k] !in seen' {
          seen' := seen' + {ids[k]};
          ordered' := ordered' + [ids[k]];
        }
      }
      assert ids[..|ids|] == ids;
    }

    /** The targets of each source, in row order. */
    static method GroupBySource(linkRows: seq<LinkRow>) returns (bySource: map<nat, seq<nat>>)
      ensures forall source :: TargetsOf(linkRows, source) == if source in bySource then bySource[source] else []
    {
      bySource := map[];
      for k := 0 to |linkRows|
        invariant forall source :: TargetsOf(linkRows[..k], source) == if source in bySource then bySource[source]
                  else []
      {
        assert linkRows[..k + 1][..k] == linkRows[..k];
        var (source, target) := linkRows[k];
        bySource := bySource[source := (if source in bySource then bySource[source] else []) + [target]];
      }
      assert linkRows[..|linkRows|] == linkRows;
    }

    /** The nearest ids once each, then the targets of each of them in turn. */
    static method OrderedRetrievalIds(top: seq<nat>, linkRows: seq<LinkRow>) returns (ordered: seq<nat>)
      ensures ordered == OrderedIds(top, linkRows)
      ensures Distinct(ordered) && Dedup(top) <= ordered
    {
      OrderedIdsExpandOnce(top, linkRows);
      ExpansionOfNone(linkRows);
      hide Dedup, Distinct, Expansion;
      var seen;
      assert [] == Dedup([]) by { DedupNothing(); }
      ordered, seen := AppendUnseen([], {}, top, []);
      assert [] + top == top && top[..0] == [] && top + [] == top;
      var bySource := GroupBySource(linkRows);
      for k := 0 to |top|
        invariant ordered == Dedup(top + Expansion(top[..k], linkRows)) && seen == (set id | id in ordered)
      {
        var targets := if top[k] in bySource then bySource[top[k]] else [];
        ghost var before := top + Expansion(top[..k], linkRows);
        ExpansionSnoc(top, linkRows, k);
        assert before + targets == top + Expansion(top[..k + 1], linkRows);
        ordered, seen := AppendUnseen(ordered, seen, targets, before);
      }
      assert top[..|top|] == top;
    }

    static lemma DedupNothing()
      ensures Dedup([]) == []
    {
    }

    /** Moves row `i` down to its place among the sorted rows before it. */
    static method InsertDown(rows: array<Row>, i: nat, positions: Positions)
      requires i < rows.Length
      modifies rows
      ensures rows[..i + 1] == InsertRow(positions, old(rows[..i]), old(rows[i]))
      ensures forall p :: i < p < rows.Length ==> rows[p] == old(rows[p])
    {
      hide Placed, InsertRow, SortsBefore;
      var row := rows[i];
      ghost var sorted := rows[..i];
      var j := ShiftLater(rows, i, positions);
      PlacedHere(positions, sorted, row, j);
      rows[j] := row;
      ShiftedIsPlaced(rows[..i + 1], sorted, row, j);
      PlacedLast(positions, sorted, row);
    }

    /** Moves the rows that sort after row `i` one place up, and returns the place that leaves. */
    static method ShiftLater(rows: array<Row>, i: nat, positions: Positions) returns (j: nat)
      requires i < rows.Length
      modifies rows
      ensures j <= i && (j == 0 || !SortsBefore(positions, old(rows[i]), old(rows[..i])[j - 1]))
      ensures forall p :: 0 <= p < j || i < p < rows.Length ==> rows[p] == old(rows[p])
      ensures forall p :: j < p <= i ==> rows[p] == old(rows[..i])[p - 1]
      ensures Placed(positions, old(rows[..i]), old(rows[i]), j) == Placed(positions, old(rows[..i]), old(rows[i]), i)
    {
      hide Placed, SortsBefore;
      var row := rows[i];
      ghost var sorted := rows[..i];
      j := i;
      while j > 0 && SortsBefore(positions, row, rows[j - 1])
        invariant j <= i
        invariant forall p :: 0 <= p < j || i < p < rows.Length ==> rows[p] == old(rows[p])
        invariant forall p :: j < p <= i ==> rows[p] == sorted[p - 1]
        invariant Placed(positions, sorted, row, j) == Placed(positions, sorted, row, i)
      {
        PlacedEarlier(positions, sorted, row, j);
        rows[j] := rows[j - 1];
        j := j - 1;
      }
    }

    /** The row inserted among the first `j` of the sorted rows, with the others after them. */
    static ghost function Placed(positions: Positions, sorted: seq<Row>, row: Row, j: nat): seq<Row>
      requires j <= |sorted|
    {
      InsertRow(positions, sorted[..j], row) + sorted[j..]
    }

    static lemma PlacedLast(positions: Positions, sorted: seq<Row>, row: Row)
      ensures Placed(positions, sorted, row, |sorted|) == InsertRow(positions, sorted, row)
    {
      assert sorted[..|sorted|] == sorted;
    }

    static lemma PlacedEarlier(positions: Positions, sorted: seq<Row>, row: Row, j: nat)
      requires 0 < j <= |sorted| && SortsBefore(positions, row, sorted[j - 1])
      ensures Placed(positions, sorted, row, j) == Placed(positions, sorted, row, j - 1)
    {
      assert sorted[..j][..j - 1] == sorted[..j - 1];
    }

    /** What the shifting leaves in the array. */
    static lemma ShiftedIsPlaced(r: seq<Row>, sorted: seq<Row>, row: Row, j: nat)
      requires j <= |sorted| && |r| == |sorted| + 1 && r[j] == row
      requires forall p :: 0 <= p < j ==> r[p] == sorted[p]
      requires forall p :: j < p <= |sorted| ==> r[p] == sorted[p - 1]
      ensures r == sorted[..j] + [row] + sorted[j..]
    {
    }

    static lemma PlacedHere(positions: Positions, sorted: seq<Row>, row: Row, j: nat)
      requires j <= |sorted| && (j == 0 || !SortsBefore(positions, row, sorted[j - 1]))
      ensures Placed(positions, sorted, row, j) == sorted[..j] + [row] + sorted[j..]
    {
    }

    static method IndexPositions(ordered: seq<nat>) returns (positions: Positions)
      ensures positions == PositionsOf(ordered)
    {
      positions := map[];
      for k := 0 to |ordered|
        invariant positions == PositionsOf(ordered[..k])
      {
        assert ordered[..k + 1][..k] == ordered[..k];
        positions := positions[ordered[k] := k];
      }
      assert ordered[..|ordered|] == ordered;
    }

    static method SortRetrievalRows(rows: array<Row>, ordered: seq<nat>)
      modifies rows
      ensures rows[..] == SortRows(PositionsOf(ordered), old(rows[..]))
    {
      var positions := IndexPositions(ordered);
      ghost var before := rows[..];
      for i := 0 to rows.Length
        invariant rows[..i] == SortRows(positions, before[..i])
        invariant forall p :: i <= p < rows.Length ==> rows[p] == before[p]
      {
        assert before[..i + 1][..i] == before[..i];
        InsertDown(rows, i, positions);
      }
      assert rows[..] == rows[..rows.Length] && before[..rows.Length] == before;
    }

    // --- The vector table at startup ---

    /** Inserts one chunk, row by row, in one transaction. No row of it is in the table yet. */
    method PersistChunk(encode: Encoder, from: nat, end: nat)
      requires from <= end <= |memories| && forall id :: id in vectors ==> id < from
      modifies this`vectors
      ensures vectors == InsertChunk(memories, encode, old(vectors), from, end)
    {
      for id := from to end
        invariant vectors == InsertChunk(memories, encode, old(vectors), from, id)
        invariant forall known :: known in vectors ==> known < id
      {
        vectors := vectors[id := encode(memories[id].TextOf())];
      }
    }

    /** The chunk loop; it stops when the budget is used up. */
    method MigrateEmbeddings(encode: Encoder, budget: nat) returns (finished: bool, left: nat)
      requires vectors == map[]
      modifies this`vectors
      ensures Migrate(memories, encode, map[], 0, budget) == Migration(vectors, left, finished)
    {
      var from := 0;
      left := budget;
      while from < |memories|
        invariant from <= |memories| && forall id :: id in vectors ==> id < from
        invariant Migrate(memories, encode, vectors, from, left) == Migrate(memories, encode, map[], 0, budget)
      {
        if left == 0 {
          return false, 0;
        }
        var end := ChunkEnd(|memories|, from);
        PersistChunk(encode, from, end);
        from := end;
        left := left - 1;
      }
      finished := true;
    }

    /** One startup that may die after `budget` statements. */
    method EnsureVecTable(encode: Encoder, target: EncoderId, budget: nat) returns (completed: bool)
      modifies this`vectors, this`tableExists, this`recorded
      ensures (IndexOf(), completed) == Startup(memories, encode, old(IndexOf()), target, budget)
      ensures Honest(memories, encode, old(IndexOf()), target) && completed ==>
                IndexAgrees(memories, vectors, encode) && recorded == Some(target)
    {
      if Honest(memories, encode, IndexOf(), target) {
        StartupStaysHonest(memories, encode, IndexOf(), target, budget);
      }
      hide Honest, Complete, IndexAgrees;
      var left := budget;
      if DetermineMode(IndexOf(), target).Rebuild? {
        if tableExists {
          if left == 0 { return false; }
          tableExists := false;
          left := left - 1;
        }
        if left == 0 { return false; }
        tableExists, vectors := true, map[];
        left := left - 1;
        var finished;
        finished, left := MigrateEmbeddings(encode, left);
        if !finished { return false; }
      }
      if left == 0 { return false; }
      recorded := Some(target);
      completed := true;
    }
  }
}
