/**
 * `ensure_vec_table`: at startup the vector table is kept or rebuilt, statement by statement, and the process may
 * die between any two of them. A budget says how many statements get through.
 */
module Reindex {
  import opened Options
  import opened MemoryGraph

  type EncoderId = string

  /** The vector table, if it exists, and the encoder recorded in `model_config`. */
  datatype IndexState = IndexState(table: Option<Vectors>, recorded: Option<EncoderId>)

  datatype Mode = EnsureExists | Rebuild

  /** `determine_vec_table_mode`. */
  function DetermineMode(s: IndexState, target: EncoderId): Mode {
    if s.table.None? then Rebuild
    else if s.recorded.Some? && s.recorded.value == target then EnsureExists
    else Rebuild
  }

  /** `MIGRATION_CHUNK_SIZE`. */
  const CHUNK: nat := 50

  function ChunkEnd(count: nat, from: nat): nat {
    if from + CHUNK < count then from + CHUNK else count
  }

  /** One chunk's inserts, committed together. */
  function InsertChunk(rows: seq<Memory>, encode: Encoder, table: Vectors, from: nat, end: nat): Vectors
    requires from <= end <= |rows|
  {
    table + map id: nat | from <= id < end :: encode(rows[id].TextOf())
  }

  datatype Migration = Migration(table: Vectors, left: nat, finished: bool)

  function Migrate(rows: seq<Memory>, encode: Encoder, table: Vectors, from: nat, budget: nat): Migration
    requires from <= |rows|
    decreases |rows| - from
  {
    if from == |rows| then Migration(table, budget, true)
    else if budget == 0 then Migration(table, 0, false)
    else
      var end := ChunkEnd(|rows|, from);
      Migrate(rows, encode, InsertChunk(rows, encode, table, from, end), end, budget - 1)
  }

  /** Recording the encoder is the last statement of a startup. */
  function Record(s: IndexState, target: EncoderId, budget: nat): (IndexState, bool) {
    if budget == 0 then (s, false) else (s.(recorded := Some(target)), true)
  }

  function RebuildTable(rows: seq<Memory>, encode: Encoder, s: IndexState, target: EncoderId, budget: nat)
    : (IndexState, bool)
  {
    if s.table.Some? && budget == 0 then (s, false)
    else
      var afterDrop := if s.table.Some? then budget - 1 else budget;
      if afterDrop == 0 then (s.(table := None), false)
      else
        var m := Migrate(rows, encode, map[], 0, afterDrop - 1);
        var migrated := s.(table := Some(m.table));
        if !m.finished then (migrated, false) else Record(migrated, target, m.left)
  }

  /** One startup: the state it leaves, and whether it got through. */
  function Startup(rows: seq<Memory>, encode: Encoder, s: IndexState, target: EncoderId, budget: nat)
    : (IndexState, bool)
  {
    match DetermineMode(s, target)
    case EnsureExists => Record(s, target, budget)
    case Rebuild => RebuildTable(rows, encode, s, target, budget)
  }

  /** Startups in a row, for one encoder, each with its own budget. */
  function Startups(rows: seq<Memory>, encode: Encoder, s: IndexState, target: EncoderId,
                    budgets: seq<nat>): IndexState {
    if budgets == [] then s
    else Startup(rows, encode, Startups(rows, encode, s, target, budgets[..|budgets| - 1]), target,
        budgets[|budgets| - 1]).0
  }

  /** The table holds every memory's encoding and nothing else. */
  ghost predicate Complete(rows: seq<Memory>, encode: Encoder, s: IndexState) {
    s.table.Some? && IndexAgrees(rows, s.table.value, encode)
  }

  /** The table holds exactly the encodings of the first `n` memories. */
  ghost predicate Filled(rows: seq<Memory>, encode: Encoder, table: Vectors, n: nat) {
    && n <= |rows|
    && (forall id :: id in table ==> id < n)
    && (forall id: nat :: id < n ==> id in table && table[id] == encode(rows[id].TextOf()))
  }

  lemma {:induction false} MigrationFills(rows: seq<Memory>, encode: Encoder, table: Vectors, from: nat, budget: nat)
    requires Filled(rows, encode, table, from)
    ensures var m := Migrate(rows, encode, table, from, budget);
            && (m.finished ==> Filled(rows, encode, m.table, |rows|))
            && (m.finished <==> budget >= (|rows| - from + CHUNK - 1) / CHUNK)
            && (from < |rows| && budget == 0 ==> m == Migration(table, 0, false))
    decreases |rows| - from
  {
    if from < |rows| && budget > 0 {
      var end := ChunkEnd(|rows|, from);
      MigrationFills(rows, encode, InsertChunk(rows, encode, table, from, end), end, budget - 1);
    }
  }

  /** While the recorded encoder is the target, the table is complete: recording comes last. */
  ghost predicate Honest(rows: seq<Memory>, encode: Encoder, s: IndexState, target: EncoderId) {
    s.recorded == Some(target) ==> Complete(rows, encode, s) || (s.table.None? && rows == [])
  }

  lemma StartupStaysHonest(rows: seq<Memory>, encode: Encoder, s: IndexState, target: EncoderId, budget: nat)
    requires Honest(rows, encode, s, target)
    ensures var (s', done) := Startup(rows, encode, s, target, budget);
            && Honest(rows, encode, s', target)
            && (done ==> Complete(rows, encode, s') && s'.recorded == Some(target))
  {
    var budget' := if s.table.Some? then budget - 1 else budget;
    if budget' > 0 {
      MigrationFills(rows, encode, map[], 0, budget' - 1);
    }
  }

  lemma {:induction false} StartupsStayHonest(rows: seq<Memory>, encode: Encoder, s: IndexState, target: EncoderId,
                                              budgets: seq<nat>)
    requires Honest(rows, encode, s, target)
    ensures Honest(rows, encode, Startups(rows, encode, s, target, budgets), target)
  {
    if budgets != [] {
      StartupsStayHonest(rows, encode, s, target, budgets[..|budgets| - 1]);
      StartupStaysHonest(rows, encode, Startups(rows, encode, s, target, budgets[..|budgets| - 1]), target,
          budgets[|budgets| - 1]);
    }
  }

  /** A startup for a new encoder, after any number of startups cut short anywhere, leaves a complete index under it. */
  lemma RebuildSurvivesCrashes(rows: seq<Memory>, encode: Encoder, s: IndexState, target: EncoderId, budgets: seq<nat>,
                               budget: nat)
    requires s.recorded != Some(target)
    ensures var (s', done) := Startup(rows, encode, Startups(rows, encode, s, target, budgets), target, budget);
            done ==> Complete(rows, encode, s') && s'.recorded == Some(target)
  {
    StartupsStayHonest(rows, encode, s, target, budgets);
    StartupStaysHonest(rows, encode, Startups(rows, encode, s, target, budgets), target, budget);
  }

  /** Given room for every statement, a startup does get through. */
  lemma StartupCompletes(rows: seq<Memory>, encode: Encoder, s: IndexState, target: EncoderId, budget: nat)
    requires budget >= 3 + (|rows| + 49) / 50
    ensures Startup(rows, encode, s, target, budget).1
  {
    var budget' := if s.table.Some? then budget - 1 else budget;
    MigrationFills(rows, encode, map[], 0, budget' - 1);
    MigrationSpends(rows, encode, map[], 0, budget' - 1);
  }

  lemma {:induction false} MigrationSpends(rows: seq<Memory>, encode: Encoder, table: Vectors, from: nat, budget: nat)
    requires from <= |rows| && budget >= (|rows| - from + CHUNK - 1) / CHUNK
    ensures Migrate(rows, encode, table, from, budget).finished
    ensures Migrate(rows, encode, table, from, budget).left == budget - (|rows| - from + CHUNK - 1) / CHUNK
    decreases |rows| - from
  {
    if from < |rows| {
      var end := ChunkEnd(|rows|, from);
      MigrationSpends(rows, encode, InsertChunk(rows, encode, table, from, end), end, budget - 1);
    }
  }

  // --- When the guarantee holds ---

  /** Whatever crashes come first, a startup that gets through leaves a complete index. */
  ghost predicate CrashSafe(rows: seq<Memory>, encode: Encoder, s: IndexState, target: EncoderId) {
    forall budgets: seq<nat>, budget: nat ::
      var (s', done) := Startup(rows, encode, Startups(rows, encode, s, target, budgets), target, budget);
      done ==> Complete(rows, encode, s')
  }

  /**
   * The guarantee holds exactly from states that do not already record the target, or record it with a complete
   * table, or with no table and no memories. In particular it fails for a table lost while the encoder stays the same.
   */
  lemma CrashSafeExactly(rows: seq<Memory>, encode: Encoder, s: IndexState, target: EncoderId)
    ensures CrashSafe(rows, encode, s, target) <==>
              s.recorded != Some(target) || Complete(rows, encode, s) || (s.table.None? && rows == [])
  {
    if Honest(rows, encode, s, target) {
      forall budgets: seq<nat>, budget: nat
        ensures var (s', done) := Startup(rows, encode, Startups(rows, encode, s, target, budgets), target, budget);
                done ==> Complete(rows, encode, s')
      {
        StartupsStayHonest(rows, encode, s, target, budgets);
        StartupStaysHonest(rows, encode, Startups(rows, encode, s, target, budgets), target, budget);
      }
    } else {
      LostIndex(rows, encode, s, target);
    }
  }

  /** The schedule that defeats it: die right after creating the table, then start again. */
  lemma LostIndex(rows: seq<Memory>, encode: Encoder, s: IndexState, target: EncoderId)
    requires !Honest(rows, encode, s, target)
    ensures exists budgets: seq<nat>, budget: nat ::
              var (s', done) := Startup(rows, encode, Startups(rows, encode, s, target, budgets), target, budget);
              done && !Complete(rows, encode, s')
  {
    var budgets: seq<nat> := if s.table.Some? then [] else [1];
    var before := Startups(rows, encode, s, target, budgets);
    if s.table.None? {
      assert budgets[..0] == [];
      assert before == Startup(rows, encode, Startups(rows, encode, s, target, []), target, 1).0;
      assert before == IndexState(Some(map[]), Some(target));
      assert !Complete(rows, encode, before) by {
        assert 0 < |rows| && 0 !in before.table.value;
      }
    }
    var (s', done) := Startup(rows, encode, before, target, 1);
    assert done && s' == before;
  }

  /** A migration that is cut short has not come to the last memory. */
  lemma {:induction false} MigrationMissesLast(rows: seq<Memory>, encode: Encoder, table: Vectors, from: nat,
                                               budget: nat)
    requires from <= |rows| && (forall id :: id in table ==> id < from)
    requires !Migrate(rows, encode, table, from, budget).finished
    ensures from < |rows| && |rows| - 1 !in Migrate(rows, encode, table, from, budget).table
    decreases |rows| - from
  {
    if budget > 0 {
      var end := ChunkEnd(|rows|, from);
      MigrationMissesLast(rows, encode, InsertChunk(rows, encode, table, from, end), end, budget - 1);
    }
  }

  /** The encoders agree on everything there is to encode. */
  ghost predicate SameEncoding(rows: seq<Memory>, a: Encoder, b: Encoder) {
    forall id :: 0 <= id < |rows| ==> a(rows[id].TextOf()) == b(rows[id].TextOf())
  }

  /**
   * Going back to the old encoder after a rebuild for a new one was cut short loses the index unnoticed, except when
   * nothing was done yet, when all of it was done, or when there was nothing to lose.
   */
  lemma RevertSafeExactly(rows: seq<Memory>, encodeOld: Encoder, encodeNew: Encoder, s: IndexState,
                          before: EncoderId, target: EncoderId, budget: nat)
    requires before != target && s.recorded == Some(before) && Complete(rows, encodeOld, s)
    ensures var chunks := (|rows| + 49) / 50;
            CrashSafe(rows, encodeOld, Startup(rows, encodeNew, s, target, budget).0, before) <==>
            || rows == [] || budget == 0 || budget >= 3 + chunks
            || (budget == 2 + chunks && SameEncoding(rows, encodeNew, encodeOld))
  {
    hide CrashSafe, IndexAgrees, Filled, Migrate, SameEncoding;
    var chunks := (|rows| + 49) / 50;
    NothingIsFilled(rows, encodeNew);
    var interrupted := Startup(rows, encodeNew, s, target, budget).0;
    CrashSafeExactly(rows, encodeOld, interrupted, before);
    if budget >= 2 {
      MigrationFills(rows, encodeNew, map[], 0, budget - 2);
      var m := Migrate(rows, encodeNew, map[], 0, budget - 2);
      if budget >= 2 + chunks {
        MigrationSpends(rows, encodeNew, map[], 0, budget - 2);
        FilledIsComplete(rows, encodeOld, encodeNew, m.table);
      } else {
        MigrationMissesLast(rows, encodeNew, map[], 0, budget - 2);
        MissingIsIncomplete(rows, encodeOld, m.table);
      }
    }
  }

  lemma NothingIsFilled(rows: seq<Memory>, encode: Encoder)
    ensures Filled(rows, encode, map[], 0) && (rows == [] ==> SameEncoding(rows, encode, encode))
    ensures rows == [] ==> forall a: Encoder, b: Encoder :: SameEncoding(rows, a, b)
  {
  }

  lemma MissingIsIncomplete(rows: seq<Memory>, encode: Encoder, table: Vectors)
    requires rows != [] && |rows| - 1 !in table
    ensures !IndexAgrees(rows, table, encode)
  {
    var last: nat := |rows| - 1;
    assert last !in table;
  }

  lemma FilledIsComplete(rows: seq<Memory>, encodeOld: Encoder, encodeNew: Encoder, table: Vectors)
    requires Filled(rows, encodeNew, table, |rows|)
    ensures IndexAgrees(rows, table, encodeOld) <==> SameEncoding(rows, encodeNew, encodeOld)
  {
    if IndexAgrees(rows, table, encodeOld) {
      forall id: nat | id < |rows| ensures encodeNew(rows[id].TextOf()) == encodeOld(rows[id].TextOf()) {
        assert id in table;
      }
    }
  }
}
