/**
 * Changing the encoder of a running service: the process stops, startups rebuild the index until one gets through, and
 * the service goes on under the new encoder with the guarantees it had.
 */
module Upgrade {
  import opened Options
  import opened Tables
  import opened Schema
  import opened MemoryGraph
  import opened Service
  import opened Reindex

  /** The state after the process has died and the index was rebuilt: what was prepared for the old encoder is gone. */
  function Rebooted(s: System, vectors: Vectors): System {
    s.(graph := Graph(s.graph.rows, vectors, s.graph.links), dispatcher := Booting, drafts := [], permit := false,
        notifying := 0)
  }

  lemma RebootKeepsInv(cfg: Config, s: System, encode: Encoder, vectors: Vectors)
    requires Inv(cfg, s) && IndexAgrees(s.graph.rows, vectors, encode)
    ensures Inv(cfg.(encode := encode), Rebooted(s, vectors))
  {
    var cfg' := cfg.(encode := encode);
    MemoriesKeep(cfg, cfg', s);
    hide Valid, IndexAgrees, LinksSound, ClaimsInOrder, StoredOnce;
  }

  /** What a turn's memory must say does not depend on the encoder. */
  lemma MemoriesKeep(cfg: Config, cfg': Config, s: System)
    requires StoredOnce(cfg, s.tables.turns, s.graph.rows, s.origin) && cfg'.render == cfg.render
    ensures StoredOnce(cfg', s.tables.turns, s.graph.rows, s.origin)
  {
    forall k | 0 <= k < |s.origin| ensures Remembers(cfg', s.graph.rows[k], s.tables.turns[s.origin[k]]) {
      assert Remembers(cfg, s.graph.rows[k], s.tables.turns[s.origin[k]]);
    }
  }

  /**
   * From any reachable state, any number of startups for a new encoder that die anywhere and then one that gets
   * through: whatever happens afterwards, the index agrees with the rows under the new encoder.
   */
  lemma IndexSurvivesUpgrade(cfg: Config, clock: Time, before: seq<Event>, recorded: Option<EncoderId>,
                             encode: Encoder, target: EncoderId, budgets: seq<nat>, budget: nat, after: seq<Event>)
    requires recorded != Some(target)
    ensures var s := Run(cfg, Initial(clock), before);
            var start := IndexState(Some(s.graph.vectors), recorded);
            var (index, done) :=
                Startup(s.graph.rows, encode, Startups(s.graph.rows, encode, start, target, budgets), target, budget);
            done && index.table.Some? ==>
              var s' := Run(cfg.(encode := encode), Rebooted(s, index.table.value), after);
              && Inv(cfg.(encode := encode), s')
              && IndexAgrees(s'.graph.rows, s'.graph.vectors, encode) && index.recorded == Some(target)
    ensures var s := Run(cfg, Initial(clock), before);
            var start := IndexState(Some(s.graph.vectors), recorded);
            var (index, done) :=
                Startup(s.graph.rows, encode, Startups(s.graph.rows, encode, start, target, budgets), target, budget);
            done ==> index.table.Some?
  {
    hide Run, Initial, Startup, Startups, IndexAgrees;
    var s := Run(cfg, Initial(clock), before);
    var rows, start := s.graph.rows, IndexState(Some(s.graph.vectors), recorded);
    Reachable(cfg, clock, before);
    RebuildSurvivesCrashes(rows, encode, start, target, budgets, budget);
    var (index, done) := Startup(rows, encode, Startups(rows, encode, start, target, budgets), target, budget);
    if done {
      hide Inv;
      RebootKeepsInv(cfg, s, encode, index.table.value);
      var s1 := Rebooted(s, index.table.value);
      RunKeepsInv(cfg.(encode := encode), s1, after);
      AgreesUnder(cfg.(encode := encode), Run(cfg.(encode := encode), s1, after));
    }
  }

  lemma AgreesUnder(cfg: Config, s: System)
    requires Inv(cfg, s)
    ensures IndexAgrees(s.graph.rows, s.graph.vectors, cfg.encode)
  {
  }
}
