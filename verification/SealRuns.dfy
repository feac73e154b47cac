/** A sealer that is not interrupted: lock, drain, look up and commit in one go, as a run of the
    protocol. */
module SealRuns {
  import opened Tables
  import opened Sealing
  import opened Protocol
  import opened Invariants
  import opened Safety

  /** The chain row that a sealer locks: the stored one, or a new one for the environment. */
  function LockedChain(cfg: Config, t: Tables, shard: ShardKey, chainId: string): ChainRow
    requires shard in t.chains || shard.env in cfg.envs
  {
    if shard in t.chains then t.chains[shard] else NewChain(cfg, shard, chainId)
  }

  function SealSteps(k: int, shard: ShardKey, chainId: string, limit: nat, batch: seq<PendingRow>): seq<Step> {
    if batch == [] then [Lock(k, shard, chainId), Drain(k, limit, batch)]
    else [Lock(k, shard, chainId), Drain(k, limit, batch), LookUp(k), Commit(k)]
  }

  /** The state after sealing one batch without interruption. */
  function SealedState(cfg: Config, s: State, shard: ShardKey, chainId: string, batch: seq<PendingRow>): State
    requires shard in s.tables.chains || shard.env in cfg.envs
  {
    var chain := LockedChain(cfg, s.tables, shard, chainId);
    if batch == [] then s.(tables := s.tables.(chains := s.tables.chains[shard := chain]))
    else
      var already := ExistingExternals(s.tables.events, shard.env, Externals(batch));
      s.(tables := SealedTables(cfg.digest, s.tables, shard, chain, batch, already),
         drained := s.drained[shard := DrainedOf(s.drained, shard) + batch])
  }

  /** A sealer may start on the shard. */
  predicate CanLock(cfg: Config, s: State, k: int, shard: ShardKey, chainId: string) {
    k !in s.txns && !LockHeld(s, shard) && (shard in s.tables.chains || (shard.env in cfg.envs && FreshChainId(s, chainId)))
  }

  lemma ExecTwo(cfg: Config, s: State, a: Step, b: Step)
    requires Enabled(cfg, s, a) && Enabled(cfg, Apply(cfg, s, a), b)
    ensures Executable(cfg, s, [a, b]) && Exec(cfg, s, [a, b]) == Apply(cfg, Apply(cfg, s, a), b)
  {
    hide Enabled, Apply;
    var s1 := Apply(cfg, s, a);
    assert [a, b][1..] == [b] && [b][1..] == [];
    assert Executable(cfg, Apply(cfg, s1, b), []);
    assert Executable(cfg, s1, [b]) && Exec(cfg, s1, [b]) == Apply(cfg, s1, b);
  }

  /** Sealing without interruption is a run, and it cannot fail. */
  lemma SealIsRun(cfg: Config, s: State, k: int, shard: ShardKey, chainId: string, limit: nat, batch: seq<PendingRow>)
    requires Inv(cfg, s) && CanLock(cfg, s, k, shard, chainId) && IsDrain(s.tables.pending, shard, limit, batch)
    ensures Executable(cfg, s, SealSteps(k, shard, chainId, limit, batch))
    ensures Exec(cfg, s, SealSteps(k, shard, chainId, limit, batch)) == SealedState(cfg, s, shard, chainId, batch)
  {
    hide Inv, IsDrain, LockHeld, FreshChainId, SealedTables, ExistingExternals;
    var lock, drain := Lock(k, shard, chainId), Drain(k, limit, batch);
    assert Enabled(cfg, s, lock);
    StepKeepsInv(cfg, s, lock);
    var s1 := Apply(cfg, s, lock);
    assert Enabled(cfg, s1, drain);
    StepKeepsInv(cfg, s1, drain);
    var s2 := Apply(cfg, s1, drain);
    hide Enabled, Apply;
    ExecTwo(cfg, s, lock, drain);
    LockThenDrain(cfg, s, k, shard, chainId, limit, batch);
    if batch != [] {
      assert SealSteps(k, shard, chainId, limit, batch) == [lock, drain] + [LookUp(k), Commit(k)];
      LookUpThenCommit(cfg, s2, k);
      ExecAppend(cfg, s, [lock, drain], [LookUp(k), Commit(k)]);
    }
  }

  function DrainedTxn(cfg: Config, s: State, shard: ShardKey, chainId: string, batch: seq<PendingRow>): Txn
    requires shard in s.tables.chains || shard.env in cfg.envs
  {
    Txn(shard, LockedChain(cfg, s.tables, shard, chainId), shard !in s.tables.chains, Drained(batch))
  }

  lemma LockThenDrain(cfg: Config, s: State, k: int, shard: ShardKey, chainId: string, limit: nat,
                      batch: seq<PendingRow>)
    requires Enabled(cfg, s, Lock(k, shard, chainId))
    requires Enabled(cfg, Apply(cfg, s, Lock(k, shard, chainId)), Drain(k, limit, batch))
    ensures Apply(cfg, Apply(cfg, s, Lock(k, shard, chainId)), Drain(k, limit, batch))
            == if batch == [] then SealedState(cfg, s, shard, chainId, batch)
               else s.(txns := s.txns[k := DrainedTxn(cfg, s, shard, chainId, batch)])
  {
    hide IsDrain, LockHeld, FreshChainId, SealedTables;
    var s1 := Apply(cfg, s, Lock(k, shard, chainId));
    assert s1.txns - {k} == s.txns;
  }

  /** Looking up and committing right after cannot fail. */
  lemma LookUpThenCommit(cfg: Config, s: State, k: int)
    requires Inv(cfg, s) && k in s.txns && s.txns[k].stage.Drained?
    ensures Executable(cfg, s, [LookUp(k), Commit(k)])
    ensures var txn := s.txns[k];
            var batch := txn.stage.batch;
            var already := ExistingExternals(s.tables.events, txn.shard.env, Externals(batch));
            Exec(cfg, s, [LookUp(k), Commit(k)])
            == Close(s.(tables := SealedTables(cfg.digest, s.tables, txn.shard, txn.chain, batch, already),
                        drained := s.drained[txn.shard := DrainedOf(s.drained, txn.shard) + batch]), k)
  {
    hide Inv, IsDrain, LockHeld, FreshChainId, SealedTables, ExistingExternals, CopySucceeds, ApplyCommit;
    var s1 := ApplyLookUp(s, k);
    assert Enabled(cfg, s, LookUp(k)) && Apply(cfg, s, LookUp(k)) == s1;
    assert Enabled(cfg, s1, Commit(k)) && Apply(cfg, s1, Commit(k)) == ApplyCommit(cfg, s1, k);
    StepKeepsInv(cfg, s, LookUp(k));
    hide Enabled, Apply;
    CopyAlwaysSucceeds(cfg, s1, k);
    assert s1.txns - {k} == s.txns - {k};
    ExecTwo(cfg, s, LookUp(k), Commit(k));
  }
}
