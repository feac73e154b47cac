/** Two statements that read one after the other: the second may see a later state. */
module Reads {
  import opened Tables
  import opened Protocol
  import opened Invariants
  import opened Safety
  import opened StoredVerification
  import opened ServerChains
  import opened History

  /** No event was sealed into the chain between two reads. */
  predicate Unmoved(s: State, t: State, shard: ShardKey)
    requires shard in s.tables.chains
  {
    shard in t.tables.chains && ServerChain(t, shard) == ServerChain(s, shard)
  }

  /** A chain keeps its id and its owner, and only grows. */
  lemma LaterChain(cfg: Config, s: State, t: State, shard: ShardKey)
    requires Reachable(cfg, s) && Later(cfg, s, t) && shard in s.tables.chains
    ensures Reachable(cfg, t) && shard in t.tables.chains
    ensures t.tables.chains[shard].id == s.tables.chains[shard].id
    ensures t.tables.chains[shard].org == s.tables.chains[shard].org
    ensures t.tables.chains[shard].project == s.tables.chains[shard].project
    ensures ServerChain(s, shard) <= ServerChain(t, shard)
  {
    hide Executable, Exec, Reachable;
    var steps :| Executable(cfg, s, steps) && Exec(cfg, s, steps) == t;
    LaterStateIsReachable(cfg, s, steps);
    ChainsAppendOnly(cfg, s, steps, shard);
    hide Inv;
    ReachableInv(cfg, s);
    ReachableInv(cfg, t);
    ChainProject(cfg, s, shard);
    ChainProject(cfg, t, shard);
  }

  lemma SameIsLater(cfg: Config, s: State)
    ensures Later(cfg, s, s)
  {
    hide Enabled, Apply;
    assert Executable(cfg, s, []) && Exec(cfg, s, []) == s;
  }
}
