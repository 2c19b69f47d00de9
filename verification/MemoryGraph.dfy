/**
 * The memory graph: the `memories` rows, the vector index over them, and the links between them.
 * Preparing a turn reads the graph and asks the encoder; persisting it is one transaction.
 *
 * The encoder is any pure function of what it is given, the nearest neighbours are any list of ids,
 * and what the language model answers is arbitrary.
 */
module MemoryGraph {
  import opened Options
  import opened Tables

  type Embedding = seq<int>

  /** What is encoded of a memory. */
  datatype Text = Text(content: string, keywords: seq<string>, tags: seq<string>, context: string)

  type Encoder = Text -> Embedding

  datatype Memory =
    Memory(content: string, timestamp: Time, context: string, keywords: seq<string>, tags: seq<string>)
  {
    function TextOf(): Text { Text(content, keywords, tags, context) }
  }

  type Vectors = map<nat, Embedding>
  type Links = set<(nat, nat)>

  datatype Graph = Graph(rows: seq<Memory>, vectors: Vectors, links: Links)

  const EMPTY_GRAPH := Graph([], map[], {})

  // --- Invariants ---

  /** The index covers exactly the memories, and holds the encoding of each row as it is now. */
  ghost predicate IndexAgrees(rows: seq<Memory>, vectors: Vectors, encode: Encoder) {
    && (forall id :: id in vectors ==> id < |rows|)
    && (forall id: nat :: id < |rows| ==> id in vectors && vectors[id] == encode(rows[id].TextOf()))
  }

  /** Links run both ways, between different existing memories. */
  ghost predicate LinksSound(links: Links, count: nat) {
    forall a, b :: (a, b) in links ==> a < count && b < count && a != b && (b, a) in links
  }

  // --- Preparing a turn ---

  datatype Analysis = Analysis(context: string, keywords: seq<string>, tags: seq<string>)

  datatype Evolved = Evolved(id: int, context: Option<string>, tags: seq<string>)

  datatype Evolution = Evolution(connections: seq<int>, tags: seq<string>, neighbors: seq<Evolved>)

  datatype NeighborUpdate = NeighborUpdate(id: nat, text: Text)

  datatype NeighborWrite =
    NeighborWrite(id: nat, context: string, keywords: seq<string>, tags: seq<string>, embedding: Embedding)

  datatype TurnWrite = TurnWrite(memory: Memory, embedding: Embedding, linkIds: seq<nat>, updates: seq<NeighborWrite>)

  datatype PrepareError = TooManyUpdates

  /** The ids whose rows the neighbour query returns: it joins the index with the memories. */
  function Neighbors(rows: seq<Memory>, nearest: seq<nat>): (r: seq<nat>)
    ensures forall id :: id in r <==> id in nearest && id < |rows|
  {
    if nearest == [] then []
    else
      assert nearest == nearest[..|nearest| - 1] + [nearest[|nearest| - 1]];
      var rest, id := Neighbors(rows, nearest[..|nearest| - 1]), nearest[|nearest| - 1];
      if id < |rows| then rest + [id] else rest
  }

  /** Suggested links, without the ones to unknown neighbours. */
  function KnownLinks(neighbors: seq<nat>, connections: seq<int>): (r: seq<nat>)
    ensures forall id :: id in r <==> id in neighbors && id as int in connections
  {
    if connections == [] then []
    else
      assert connections == connections[..|connections| - 1] + [connections[|connections| - 1]];
      var rest, id := KnownLinks(neighbors, connections[..|connections| - 1]), connections[|connections| - 1];
      if id >= 0 && id in neighbors then rest + [id] else rest
  }

  /** The neighbours the answer really changes, with everything that is to be encoded again. */
  function PlannedUpdates(rows: seq<Memory>, neighbors: seq<nat>, evolved: seq<Evolved>): (r: seq<NeighborUpdate>)
    requires forall id :: id in neighbors ==> id < |rows|
    ensures forall u :: u in r ==> u.id < |rows| && u.text.content == rows[u.id].content
  {
    if evolved == [] then []
    else
      var rest, next := PlannedUpdates(rows, neighbors, evolved[..|evolved| - 1]), evolved[|evolved| - 1];
      if next.id < 0 || next.id !in neighbors then rest
      else
        var row := rows[next.id];
        var context := if next.context.Some? then next.context.value else row.context;
        if row.context == context && row.tags == next.tags then rest
        else rest + [NeighborUpdate(next.id, Text(row.content, row.keywords, next.tags, context))]
  }

  /** What a suggestion makes of a neighbour: what it does not mention stays. */
  function Suggested(row: Memory, e: Evolved): Text {
    Text(row.content, row.keywords, e.tags, if e.context.Some? then e.context.value else row.context)
  }

  /** Planned are exactly the suggestions for known neighbours that would change something. */
  lemma {:induction false} PlannedExactly(rows: seq<Memory>, neighbors: seq<nat>, evolved: seq<Evolved>,
                                          u: NeighborUpdate)
    requires forall id :: id in neighbors ==> id < |rows|
    ensures u in PlannedUpdates(rows, neighbors, evolved) <==>
              u.id in neighbors
              && exists e :: e in evolved && e.id == u.id && u.text == Suggested(rows[u.id], e)
                   && u.text != rows[u.id].TextOf()
  {
    if evolved != [] {
      var init, last := evolved[..|evolved| - 1], evolved[|evolved| - 1];
      assert evolved == init + [last];
      PlannedExactly(rows, neighbors, init, u);
    }
  }

  function EncodedUpdates(updates: seq<NeighborUpdate>, encode: Encoder): (r: seq<NeighborWrite>)
    ensures |r| == |updates|
    ensures forall i :: 0 <= i < |r|
              ==> r[i] == NeighborWrite(updates[i].id, updates[i].text.context, updates[i].text.keywords,
                                                             updates[i].text.tags, encode(updates[i].text))
  {
    seq(|updates|, i requires 0 <= i < |updates| =>
      NeighborWrite(updates[i].id, updates[i].text.context, updates[i].text.keywords, updates[i].text.tags,
          encode(updates[i].text)))
  }

  function Elements(ids: seq<nat>): set<nat> { set id | id in ids }

  /** The tags to store: the model may refine them, and a refinement is encoded anew. */
  function FinalTags(analysis: Analysis, neighbors: seq<nat>, evolution: Evolution): seq<string> {
    if neighbors != [] && evolution.tags != [] then evolution.tags else analysis.tags
  }

  function Prepare(rows: seq<Memory>, encode: Encoder, content: string, timestamp: Time,
                   analysis: Analysis, nearest: seq<nat>, evolution: Evolution): Result<TurnWrite, PrepareError>
  {
    var neighbors := Neighbors(rows, nearest);
    var tags := FinalTags(analysis, neighbors, evolution);
    var memory := Memory(content, timestamp, analysis.context, analysis.keywords, tags);
    var links := if neighbors == [] then [] else KnownLinks(neighbors, evolution.connections);
    var updates := if neighbors == [] then [] else PlannedUpdates(rows, neighbors, evolution.neighbors);
    if updates != [] && |updates| > |Elements(neighbors)| then Failure(TooManyUpdates)
    else Success(TurnWrite(memory, encode(memory.TextOf()), links, EncodedUpdates(updates, encode)))
  }

  // --- What is prepared, told from the answers ---

  /** The neighbours the answers may speak of. */
  function KnownIds(rows: seq<Memory>, nearest: seq<nat>): set<nat> { set id | id in nearest && id < |rows| }

  /** The suggestion is for a known neighbour and would change its context or its tags. */
  predicate Changes(rows: seq<Memory>, known: set<nat>, e: Evolved) {
    && 0 <= e.id < |rows| && e.id in known
    && (rows[e.id].tags != e.tags || (e.context.Some? && rows[e.id].context != e.context.value))
  }

  /** `at` are the places of the suggestions that change something, in order. */
  ghost predicate ChangesAt(rows: seq<Memory>, known: set<nat>, evolved: seq<Evolved>, at: seq<nat>) {
    && (forall k :: 0 <= k < |at| ==> at[k] < |evolved|)
    && (forall k, l :: 0 <= k < l < |at| ==> at[k] < at[l])
    && (forall i :: 0 <= i < |evolved| ==> (i in at <==> Changes(rows, known, evolved[i])))
  }

  lemma ChangesSnoc(rows: seq<Memory>, known: set<nat>, init: seq<Evolved>, last: Evolved, at: seq<nat>)
    requires ChangesAt(rows, known, init, at)
    ensures ChangesAt(rows, known, init + [last], if Changes(rows, known, last) then at + [|init|] else at)
  {
    hide Changes;
    var all, n := init + [last], |init|;
    assert forall i :: 0 <= i < n ==> all[i] == init[i];
    assert forall i :: i in at + [n] <==> i in at || i == n;
    assert n !in at;
  }

  /** One suggestion more plans one update more, if it changes something. */
  lemma PlannedStep(rows: seq<Memory>, neighbors: seq<nat>, init: seq<Evolved>, last: Evolved)
    requires forall id :: id in neighbors ==> id < |rows|
    ensures PlannedUpdates(rows, neighbors, init + [last]) ==
            PlannedUpdates(rows, neighbors, init)
              + (if Changes(rows, Elements(neighbors), last)
                 then [NeighborUpdate(last.id, Suggested(rows[last.id], last))] else [])
  {
    assert (init + [last])[..|init|] == init;
  }

  /** The updates are those of the suggestions at these places. */
  ghost predicate PlannedFrom(rows: seq<Memory>, evolved: seq<Evolved>, at: seq<nat>, planned: seq<NeighborUpdate>) {
    && |planned| == |at|
    && forall k :: 0 <= k < |at| ==>
         && at[k] < |evolved| && 0 <= evolved[at[k]].id < |rows|
         && planned[k] == NeighborUpdate(evolved[at[k]].id, Suggested(rows[evolved[at[k]].id], evolved[at[k]]))
  }

  lemma {:induction false} PlannedInOrder(rows: seq<Memory>, neighbors: seq<nat>, evolved: seq<Evolved>)
    returns (at: seq<nat>)
    requires forall id :: id in neighbors ==> id < |rows|
    ensures ChangesAt(rows, Elements(neighbors), evolved, at)
    ensures PlannedFrom(rows, evolved, at, PlannedUpdates(rows, neighbors, evolved))
  {
    if evolved == [] {
      at := [];
    } else {
      hide ChangesAt, PlannedUpdates, Elements;
      var init, last, known := evolved[..|evolved| - 1], evolved[|evolved| - 1], Elements(neighbors);
      assert evolved == init + [last];
      at := PlannedInOrder(rows, neighbors, init);
      ChangesSnoc(rows, known, init, last, at);
      PlannedStep(rows, neighbors, init, last);
      PlannedMore(rows, init, last, at, PlannedUpdates(rows, neighbors, init));
      if Changes(rows, known, last) { at := at + [|init|]; }
      hide PlannedFrom;
    }
  }

  lemma PlannedMore(rows: seq<Memory>, init: seq<Evolved>, last: Evolved, at: seq<nat>, planned: seq<NeighborUpdate>)
    requires PlannedFrom(rows, init, at, planned)
    ensures PlannedFrom(rows, init + [last], at, planned + [])
    ensures 0 <= last.id < |rows| ==>
              PlannedFrom(rows, init + [last], at + [|init|],
                          planned + [NeighborUpdate(last.id, Suggested(rows[last.id], last))])
  {
    hide Suggested;
    assert forall k :: 0 <= k < |at| ==> (init + [last])[at[k]] == init[at[k]];
    assert planned + [] == planned;
  }

  /** The write to a neighbour that a suggestion asks for: what it does not mention stays. */
  function Asked(rows: seq<Memory>, e: Evolved, encode: Encoder): NeighborWrite
    requires 0 <= e.id < |rows|
  {
    var row := rows[e.id];
    var context := if e.context.Some? then e.context.value else row.context;
    NeighborWrite(e.id, context, row.keywords, e.tags, encode(Text(row.content, row.keywords, e.tags, context)))
  }

  /**
   * What is prepared, from the answers: the analysis's context and keywords, its tags unless some neighbour is known
   * and the evolution has tags of its own, a link for each suggested id that is known, and one write for each
   * suggestion that changes a known neighbour, in their order. It fails exactly when these are more than the known
   * neighbours.
   */
  ghost predicate Prepared(rows: seq<Memory>, encode: Encoder, content: string, timestamp: Time, analysis: Analysis,
                           nearest: seq<nat>, evolution: Evolution, r: Result<TurnWrite, PrepareError>, at: seq<nat>) {
    var known := KnownIds(rows, nearest);
    && ChangesAt(rows, known, evolution.neighbors, at)
    && (r.Failure? <==> |at| > |known|)
    && (r.Success? ==>
          var tags := if known != {} && evolution.tags != [] then evolution.tags else analysis.tags;
          && r.value.memory == Memory(content, timestamp, analysis.context, analysis.keywords, tags)
          && r.value.embedding == encode(Text(content, analysis.keywords, tags, analysis.context))
          && LinksAre(r.value.linkIds, known, evolution.connections)
          && WritesAre(rows, encode, evolution.neighbors, at, r.value.updates))
  }

  /** Linked are the known neighbours that the answer names. */
  ghost predicate LinksAre(linkIds: seq<nat>, known: set<nat>, connections: seq<int>) {
    forall id: nat :: id in linkIds <==> id in known && id as int in connections
  }

  /** One write for the suggestion at each of these places. */
  ghost predicate WritesAre(rows: seq<Memory>, encode: Encoder, evolved: seq<Evolved>, at: seq<nat>,
                            writes: seq<NeighborWrite>) {
    && |writes| == |at|
    && forall k :: 0 <= k < |at| ==>
         && at[k] < |evolved| && 0 <= evolved[at[k]].id < |rows|
         && writes[k] == Asked(rows, evolved[at[k]], encode)
  }

  lemma PrepareExactly(rows: seq<Memory>, encode: Encoder, content: string, timestamp: Time,
                       analysis: Analysis, nearest: seq<nat>, evolution: Evolution) returns (at: seq<nat>)
    ensures Prepared(rows, encode, content, timestamp, analysis, nearest, evolution,
                     Prepare(rows, encode, content, timestamp, analysis, nearest, evolution), at)
  {
    var neighbors := Neighbors(rows, nearest);
    assert Elements(neighbors) == KnownIds(rows, nearest);
    hide ChangesAt, Neighbors, PlannedUpdates, KnownLinks, Prepare, Prepared;
    if neighbors == [] {
      NoneChange(rows, evolution.neighbors);
      at := [];
    } else {
      assert neighbors[0] in Elements(neighbors);
      at := PlannedInOrder(rows, neighbors, evolution.neighbors);
    }
    PreparedFrom(rows, encode, content, timestamp, analysis, nearest, evolution, at);
  }

  lemma AskedFrom(rows: seq<Memory>, encode: Encoder, evolved: seq<Evolved>, at: seq<nat>,
                  planned: seq<NeighborUpdate>)
    requires PlannedFrom(rows, evolved, at, planned)
    ensures WritesAre(rows, encode, evolved, at, EncodedUpdates(planned, encode)) && |planned| == |at|
  {
  }

  lemma LinkedAre(neighbors: seq<nat>, connections: seq<int>)
    ensures LinksAre(if neighbors == [] then [] else KnownLinks(neighbors, connections), Elements(neighbors),
                     connections)
  {
  }

  /** What is prepared, given the places of the suggestions that change something. */
  lemma PreparedFrom(rows: seq<Memory>, encode: Encoder, content: string, timestamp: Time, analysis: Analysis,
                     nearest: seq<nat>, evolution: Evolution, at: seq<nat>)
    requires ChangesAt(rows, KnownIds(rows, nearest), evolution.neighbors, at)
    requires var neighbors := Neighbors(rows, nearest);
             && Elements(neighbors) == KnownIds(rows, nearest) && (neighbors == [] <==> KnownIds(rows, nearest) == {})
             && if neighbors == [] then at == []
                else PlannedFrom(rows, evolution.neighbors, at, PlannedUpdates(rows, neighbors, evolution.neighbors))
    ensures Prepared(rows, encode, content, timestamp, analysis, nearest, evolution,
                     Prepare(rows, encode, content, timestamp, analysis, nearest, evolution), at)
  {
    hide PlannedFrom, EncodedUpdates, LinksAre, WritesAre, ChangesAt, Neighbors, PlannedUpdates, KnownLinks, KnownIds,
      Elements;
    var neighbors := Neighbors(rows, nearest);
    LinkedAre(neighbors, evolution.connections);
    if neighbors == [] {
      NothingPlanned(rows, encode, evolution.neighbors);
    } else {
      AskedFrom(rows, encode, evolution.neighbors, at, PlannedUpdates(rows, neighbors, evolution.neighbors));
    }
  }

  lemma NothingPlanned(rows: seq<Memory>, encode: Encoder, evolved: seq<Evolved>)
    ensures WritesAre(rows, encode, evolved, [], EncodedUpdates([], encode))
  {
  }

  lemma NoneChange(rows: seq<Memory>, evolved: seq<Evolved>)
    ensures ChangesAt(rows, {}, evolved, [])
  {
  }

  // --- Persisting it ---

  /** `INSERT OR IGNORE` of both directions; a target that does not exist breaks a foreign key. */
  function AddLinks(links: Links, count: nat, id: nat, targets: seq<nat>): Option<Links> {
    if targets == [] then Some(links)
    else
      var target := targets[|targets| - 1];
      match AddLinks(links, count, id, targets[..|targets| - 1])
      case None => None
      case Some(added) => if id < count && target < count then Some(added + {(id, target), (target, id)}) else None
  }

  datatype Index = Index(rows: seq<Memory>, vectors: Vectors)

  function UpdateNeighbor(x: Index, u: NeighborWrite): Option<Index> {
    if u.id < |x.rows| && u.id in x.vectors then
      var row := x.rows[u.id].(context := u.context, keywords := u.keywords, tags := u.tags);
      Some(Index(x.rows[u.id := row], x.vectors[u.id := u.embedding]))
    else None
  }

  /** The metadata and the embedding of each neighbour; an update that meets no row aborts. */
  function UpdateNeighbors(x: Index, updates: seq<NeighborWrite>): Option<Index> {
    if updates == [] then Some(x)
    else
      match UpdateNeighbors(x, updates[..|updates| - 1])
      case None => None
      case Some(y) => UpdateNeighbor(y, updates[|updates| - 1])
  }

  /** The graph writes of `persist_prepared_turn`; nothing when a statement fails. */
  function Persist(g: Graph, w: TurnWrite): Option<Graph> {
    var id := |g.rows|;
    if id in g.vectors then None
    else
      match AddLinks(g.links, id + 1, id, w.linkIds)
      case None => None
      case Some(links) =>
        match UpdateNeighbors(Index(g.rows + [w.memory], g.vectors[id := w.embedding]), w.updates)
        case None => None
        case Some(x) => Some(Graph(x.rows, x.vectors, links))
  }

  // --- Why the index never goes stale ---

  /** Content is never rewritten and memories are never deleted. */
  ghost predicate Grows(rows: seq<Memory>, rows': seq<Memory>) {
    |rows| <= |rows'|
        && forall id :: 0 <= id < |rows|
             ==> rows'[id].content == rows[id].content && rows'[id].timestamp == rows[id].timestamp
  }

  /** A prepared write is sound against any graph that has grown from the one it was prepared on. */
  ghost predicate Sound(rows: seq<Memory>, w: TurnWrite, encode: Encoder) {
    && w.embedding == encode(w.memory.TextOf())
    && (forall id :: id in w.linkIds ==> id < |rows|)
    && (forall u :: u in w.updates
          ==> u.id < |rows| && u.embedding == encode(Text(rows[u.id].content, u.keywords, u.tags, u.context)))
  }

  lemma PrepareIsSound(rows: seq<Memory>, encode: Encoder, content: string, timestamp: Time,
                       analysis: Analysis, nearest: seq<nat>, evolution: Evolution)
    ensures var r := Prepare(rows, encode, content, timestamp, analysis, nearest, evolution);
            r.Success? ==>
              && Sound(rows, r.value, encode)
              && r.value.memory.content == content && r.value.memory.timestamp == timestamp
  {
    var neighbors := Neighbors(rows, nearest);
    if neighbors != [] {
      var updates := PlannedUpdates(rows, neighbors, evolution.neighbors);
      forall u | u in EncodedUpdates(updates, encode)
        ensures u.id < |rows| && u.embedding == encode(Text(rows[u.id].content, u.keywords, u.tags, u.context))
      {
        var i :| 0 <= i < |updates| && EncodedUpdates(updates, encode)[i] == u;
        assert updates[i] in updates;
      }
    }
  }

  lemma SoundStays(rows: seq<Memory>, rows': seq<Memory>, w: TurnWrite, encode: Encoder)
    requires Sound(rows, w, encode) && Grows(rows, rows')
    ensures Sound(rows', w, encode)
  {
  }

  lemma {:induction false} LinksStaySound(links: Links, count: nat, targets: seq<nat>)
    requires LinksSound(links, count) && forall id :: id in targets ==> id < count
    ensures var r := AddLinks(links, count + 1, count, targets);
            && r.Some? && LinksSound(r.value, count + 1)
            && (forall a, b :: (a, b) in r.value
                  <==> (a, b) in links || (a == count && b in targets) || (b == count && a in targets))
  {
    if targets != [] {
      var init, target := targets[..|targets| - 1], targets[|targets| - 1];
      assert targets == init + [target] && target in targets;
      assert forall id :: id in init ==> id in targets;
      LinksStaySound(links, count, init);
      var added := AddLinks(links, count + 1, count, init).value;
      assert AddLinks(links, count + 1, count, targets) == Some(added + {(count, target), (target, count)});
    }
  }

  lemma UpdateKeepsIndex(x: Index, u: NeighborWrite, encode: Encoder)
    requires IndexAgrees(x.rows, x.vectors, encode) && u.id < |x.rows|
    requires u.embedding == encode(Text(x.rows[u.id].content, u.keywords, u.tags, u.context))
    ensures var r := UpdateNeighbor(x, u);
            && r.Some? && IndexAgrees(r.value.rows, r.value.vectors, encode)
            && |r.value.rows| == |x.rows| && Grows(x.rows, r.value.rows)
            && (forall id :: 0 <= id < |x.rows| && id != u.id ==> r.value.rows[id] == x.rows[id])
  {
  }

  /**
   * Each update rewrites a row and its vector together, so they keep agreeing, also when one neighbour comes up twice.
   */
  lemma {:induction false} UpdatesKeepIndex(x: Index, updates: seq<NeighborWrite>, encode: Encoder, count: nat)
    requires IndexAgrees(x.rows, x.vectors, encode) && count <= |x.rows|
    requires forall u :: u in updates
              ==> u.id < count && u.embedding == encode(Text(x.rows[u.id].content, u.keywords, u.tags, u.context))
    ensures var r := UpdateNeighbors(x, updates);
            && r.Some? && IndexAgrees(r.value.rows, r.value.vectors, encode)
            && |r.value.rows| == |x.rows| && Grows(x.rows, r.value.rows)
            && (forall id :: 0 <= id < |x.rows| && (forall u :: u in updates ==> u.id != id)
                  ==> r.value.rows[id] == x.rows[id])
  {
    if updates != [] {
      var init, u := updates[..|updates| - 1], updates[|updates| - 1];
      assert updates == init + [u];
      UpdatesKeepIndex(x, init, encode, count);
      var y := UpdateNeighbors(x, init).value;
      assert y.rows[u.id].content == x.rows[u.id].content;
      UpdateKeepsIndex(y, u, encode);
      hide IndexAgrees, UpdateNeighbor;
    }
  }

  /** The row an update leaves behind. */
  function Updated(row: Memory, u: NeighborWrite): Memory {
    row.(context := u.context, keywords := u.keywords, tags := u.tags)
  }

  /** Each neighbour ends with what its last update says. */
  ghost predicate LastWins(before: seq<Memory>, updates: seq<NeighborWrite>, after: seq<Memory>) {
    forall k: nat :: IsLast(updates, k)
      ==> updates[k].id < |before| && updates[k].id < |after|
          && after[updates[k].id] == Updated(before[updates[k].id], updates[k])
  }

  /** No later update is for the same neighbour. */
  ghost predicate IsLast(updates: seq<NeighborWrite>, k: nat) {
    k < |updates| && forall l :: k < l < |updates| ==> updates[l].id != updates[k].id
  }

  lemma {:induction false} LastUpdateWins(x: Index, updates: seq<NeighborWrite>)
    requires UpdateNeighbors(x, updates).Some?
    ensures var r := UpdateNeighbors(x, updates).value;
            |r.rows| == |x.rows| && Grows(x.rows, r.rows) && LastWins(x.rows, updates, r.rows)
  {
    if updates != [] {
      var init, u := updates[..|updates| - 1], updates[|updates| - 1];
      LastUpdateWins(x, init);
      var mid := UpdateNeighbors(x, init).value;
      assert updates == init + [u];
      assert UpdateNeighbors(x, updates).value.rows == mid.rows[u.id := Updated(mid.rows[u.id], u)];
      LastWinsSnoc(x.rows, init, u, mid.rows);
    }
  }

  lemma LastWinsSnoc(before: seq<Memory>, init: seq<NeighborWrite>, u: NeighborWrite, mid: seq<Memory>)
    requires LastWins(before, init, mid) && |mid| == |before| && Grows(before, mid) && u.id < |mid|
    ensures var after := mid[u.id := Updated(mid[u.id], u)];
            LastWins(before, init + [u], after) && Grows(before, after)
  {
    var after, updates := mid[u.id := Updated(mid[u.id], u)], init + [u];
    forall k: nat | IsLast(updates, k)
      ensures updates[k].id < |before| && updates[k].id < |after|
                && after[updates[k].id] == Updated(before[updates[k].id], updates[k])
    {
      if k < |init| { LastOfInit(init, u, k); }
      hide IsLast;
    }
    hide IsLast;
  }

  lemma LastOfInit(init: seq<NeighborWrite>, u: NeighborWrite, k: nat)
    requires k < |init| && IsLast(init + [u], k)
    ensures IsLast(init, k) && init[k].id != u.id
  {
    var updates := init + [u];
    assert updates[|init|] == u && updates[k] == init[k];
    forall l | k < l < |init| ensures init[l].id != init[k].id {
      assert updates[l] == init[l];
    }
  }

  lemma LastWinsBelow(before: seq<Memory>, before': seq<Memory>, updates: seq<NeighborWrite>, after: seq<Memory>)
    requires LastWins(before, updates, after) && before' <= before && forall u :: u in updates ==> u.id < |before'|
    ensures LastWins(before', updates, after)
  {
    hide IsLast;
    forall k: nat | k < |updates| ensures updates[k].id < |before'| && before'[updates[k].id] == before[updates[k].id] {
      assert updates[k] in updates;
    }
    assert forall k: nat :: IsLast(updates, k) ==> k < |updates| by { IsLastBounds(updates); }
  }

  lemma IsLastBounds(updates: seq<NeighborWrite>)
    ensures forall k: nat :: IsLast(updates, k) ==> k < |updates|
  {
  }

  /**
   * Persisting a sound write succeeds, keeps the index in agreement with the rows and the links sound, and
   * touches only the new memory and the updated neighbours.
   */
  lemma PersistKeepsGraph(g: Graph, w: TurnWrite, encode: Encoder)
    requires IndexAgrees(g.rows, g.vectors, encode) && LinksSound(g.links, |g.rows|) && Sound(g.rows, w, encode)
    ensures var r := Persist(g, w);
            && r.Some?
            && IndexAgrees(r.value.rows, r.value.vectors, encode) && LinksSound(r.value.links, |r.value.rows|)
            && |r.value.rows| == |g.rows| + 1 && r.value.rows[|g.rows|] == w.memory && Grows(g.rows, r.value.rows)
            && (forall id :: 0 <= id < |g.rows| && (forall u :: u in w.updates ==> u.id != id)
                  ==> r.value.rows[id] == g.rows[id])
            && LastWins(g.rows, w.updates, r.value.rows)
            && (forall a, b :: (a, b) in r.value.links <==>
                  (a, b) in g.links || (a == |g.rows| && b in w.linkIds) || (b == |g.rows| && a in w.linkIds))
  {
    hide AddLinks, UpdateNeighbors, LastWins, LinksSound, IndexAgrees;
    var id := |g.rows|;
    LinksStaySound(g.links, id, w.linkIds);
    var x := Index(g.rows + [w.memory], g.vectors[id := w.embedding]);
    NewMemoryIndexed(g, w.memory, w.embedding, encode);
    assert forall u :: u in w.updates ==> x.rows[u.id] == g.rows[u.id];
    UpdatesKeepIndex(x, w.updates, encode, id);
    LastUpdateWins(x, w.updates);
    LastWinsBelow(x.rows, g.rows, w.updates, UpdateNeighbors(x, w.updates).value.rows);
  }

  lemma NewMemoryIndexed(g: Graph, m: Memory, embedding: Embedding, encode: Encoder)
    requires IndexAgrees(g.rows, g.vectors, encode) && embedding == encode(m.TextOf())
    ensures |g.rows| !in g.vectors && IndexAgrees(g.rows + [m], g.vectors[|g.rows| := embedding], encode)
  {
  }
}
