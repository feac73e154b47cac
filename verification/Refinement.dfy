/** The code's own calls, run without interruption, are runs of the protocol; so whatever holds of
    every run holds of them. */
module Refinement {
  import opened Wrappers
  import opened Tables
  import opened Sealing
  import opened Shard
  import opened Protocol
  import opened Invariants
  import opened Safety
  import opened SealRuns
  import opened Sealer
  import opened Ingest
  import opened Idempotency

  /** A call of SealShard on a reachable state is a run of lock, drain, look up and commit (or
      nothing, when the row is missing or held), and it never fails on the unique indexes. */
  lemma SealShardIsRun(cfg: Config, s: State, held: set<ShardKey>, k: int, shard: ShardKey, limit: nat, newId: string,
                       t': Tables, ok: bool) returns (steps: seq<Step>)
    requires Reachable(cfg, s) && k !in s.txns && FreshChainId(s, newId)
    requires shard in held <==> LockHeld(s, shard)
    requires SealOutcome(cfg, s.tables, held, shard, limit, newId, t', ok)
    ensures ok
    ensures Executable(cfg, s, steps) && Exec(cfg, s, steps).tables == t'
    ensures Exec(cfg, s, steps).calls == s.calls && Exec(cfg, s, steps).txns == s.txns
  {
    hide Reachable, Inv, IsDrain, FreshChainId, LockHeld, Executable, Exec, BatchOutcome;
    steps := [];
    NoSteps(cfg, s);
    if !(shard in held || (shard !in s.tables.chains && shard.env !in cfg.envs)) {
      var batch :| IsDrain(s.tables.pending, shard, limit, batch) && BatchOutcome(cfg, s.tables, shard, newId, batch, t', ok);
      ReachableInv(cfg, s);
      BatchNeverFails(cfg, s, k, shard, limit, newId, batch, t', ok);
      SealIsRun(cfg, s, k, shard, newId, limit, batch);
      steps := SealSteps(k, shard, newId, limit, batch);
    }
  }

  lemma NoSteps(cfg: Config, s: State)
    ensures Executable(cfg, s, []) && Exec(cfg, s, []) == s
  {
    hide Enabled, Apply;
  }

  /** In a reachable state the copy succeeds, so the outcome is the sealed state. */
  lemma BatchNeverFails(cfg: Config, s: State, k: int, shard: ShardKey, limit: nat, newId: string, batch: seq<PendingRow>,
                        t': Tables, ok: bool)
    requires Inv(cfg, s) && CanLock(cfg, s, k, shard, newId) && IsDrain(s.tables.pending, shard, limit, batch)
    requires BatchOutcome(cfg, s.tables, shard, newId, batch, t', ok)
    ensures ok && t' == SealedState(cfg, s, shard, newId, batch).tables
  {
    hide Inv, IsDrain, FreshChainId, LockHeld, SealedTables, CopySucceeds, FirstOccurrences, ExistingExternals;
    if batch != [] {
      var lock, drain := Lock(k, shard, newId), Drain(k, limit, batch);
      assert Enabled(cfg, s, lock);
      StepKeepsInv(cfg, s, lock);
      var s1 := Apply(cfg, s, lock);
      assert Enabled(cfg, s1, drain);
      StepKeepsInv(cfg, s1, drain);
      var s2 := Apply(cfg, s1, drain);
      assert Enabled(cfg, s2, LookUp(k));
      StepKeepsInv(cfg, s2, LookUp(k));
      var s3 := Apply(cfg, s2, LookUp(k));
      CopyAlwaysSucceeds(cfg, s3, k);
      assert s3.txns[k].chain == LockedChain(cfg, s.tables, shard, newId);
    }
  }

  lemma ExecThree(cfg: Config, s: State, a: Step, b: Step, c: Step)
    requires Enabled(cfg, s, a) && Enabled(cfg, Apply(cfg, s, a), b)
    requires Enabled(cfg, Apply(cfg, Apply(cfg, s, a), b), c)
    ensures Executable(cfg, s, [a, b, c])
    ensures Exec(cfg, s, [a, b, c]) == Apply(cfg, Apply(cfg, Apply(cfg, s, a), b), c)
  {
    hide Enabled, Apply;
    ExecTwo(cfg, Apply(cfg, s, a), b, c);
    assert [a, b, c][1..] == [b, c];
  }

  /** The steps of one uninterrupted Accept call; none when the payload has no hash. */
  function AcceptSteps(cfg: Config, t: Tables, request: Request, now: int, id: int, acceptedAt: int,
                       shard: int): seq<Step> {
    var arrive := Arrive(id, request, now, shard);
    if HashOfRequest(cfg, request, now).None? then []
    else if request.key == "" then [arrive, Insert(id, acceptedAt)]
    else if IdempotencyKey(request) in t.idempotency then [arrive, Claim(id), Replay(id)]
    else [arrive, Claim(id), Insert(id, acceptedAt)]
  }

  lemma ArriveStep(cfg: Config, s: State, request: Request, now: int, id: int, shard: int)
    requires id !in s.calls && IsIndexFor(cfg.fnv, RoutingKey(request.event), cfg.shardCount, shard)
    requires HashOfRequest(cfg, request, now).Some?
    ensures Enabled(cfg, s, Arrive(id, request, now, shard))
    ensures Apply(cfg, s, Arrive(id, request, now, shard))
            == s.(calls := s.calls[id := HashedCall(request, now, shard, HashOfRequest(cfg, request, now).value)])
  {
    hide IsIndexFor, HashOfRequest, RoutingKey;
  }

  /** Without a key the call inserts at once. */
  lemma InsertStep(cfg: Config, s: State, id: int, acceptedAt: int)
    requires id in s.calls && (s.calls[id].phase.Claimed? || (s.calls[id].phase.Hashed? && s.calls[id].request.key == ""))
    ensures Enabled(cfg, s, Insert(id, acceptedAt))
    ensures Apply(cfg, s, Insert(id, acceptedAt)) == ApplyInsert(s, id, acceptedAt)
    ensures ApplyInsert(s, id, acceptedAt)
            == s.(tables := s.tables.(pending := s.tables.pending[id := PendingRowOf(id, s.calls[id], acceptedAt)]),
                  calls := s.calls[id := s.calls[id].(phase := Accepted)])
  {
    hide PendingRowOf;
  }

  lemma ClaimStep(cfg: Config, s: State, id: int)
    requires id in s.calls && s.calls[id].phase.Hashed? && s.calls[id].request.key != ""
    ensures Enabled(cfg, s, Claim(id)) && Apply(cfg, s, Claim(id)) == ApplyClaim(s, id)
  {
    hide ResponseBody;
  }

  lemma ReplayStep(cfg: Config, s: State, id: int)
    requires id in s.calls && s.calls[id].phase.Outbid? && IdempotencyKey(s.calls[id].request) in s.tables.idempotency
    ensures Enabled(cfg, s, Replay(id))
    ensures Apply(cfg, s, Replay(id)) == WithPhase(s, id, Replayed(s.tables.idempotency[IdempotencyKey(s.calls[id].request)]))
  {
  }

  /** A call of Accept is a run of arrival, claim, and insert or replay, to which the protocol gives
      the same answer; or of no step, when it is refused. */
  lemma AcceptIsRun(cfg: Config, s: State, request: Request, now: int, id: int, acceptedAt: int, shard: int,
                    t': Tables, result: AcceptResult)
    requires id !in s.calls && IsIndexFor(cfg.fnv, RoutingKey(request.event), cfg.shardCount, shard)
    requires AcceptOutcome(cfg, s.tables, request, now, id, acceptedAt, shard, t', result)
    ensures var steps := AcceptSteps(cfg, s.tables, request, now, id, acceptedAt, shard);
            && Executable(cfg, s, steps)
            && (var s' := Exec(cfg, s, steps);
                && s'.tables == t' && s'.txns == s.txns
                && (result.Refused? ==> s' == s)
                && (result.Answered? ==> id in s'.calls && Answer(id, s'.calls[id]) == Some(result.body)))
  {
    hide IsIndexFor, HashOfRequest, RoutingKey, Enabled, Apply, Executable, Exec, PendingRowOf, Answer, AcceptOutcome;
    NoSteps(cfg, s);
    OutcomeIsProtocols(cfg, s.tables, request, now, id, acceptedAt, shard, t', result);
    if result.Answered? {
      AnsweredIsRun(cfg, s, request, now, id, acceptedAt, shard, t', result);
    }
  }

  lemma AnsweredIsRun(cfg: Config, s: State, request: Request, now: int, id: int, acceptedAt: int, shard: int,
                      t': Tables, result: AcceptResult)
    requires id !in s.calls && IsIndexFor(cfg.fnv, RoutingKey(request.event), cfg.shardCount, shard)
    requires StepOutcome(cfg, s.tables, request, now, id, acceptedAt, shard, t', result) && result.Answered?
    ensures var steps := AcceptSteps(cfg, s.tables, request, now, id, acceptedAt, shard);
            && Executable(cfg, s, steps)
            && (var s' := Exec(cfg, s, steps);
                && s'.tables == t' && s'.txns == s.txns
                && id in s'.calls && Answer(id, s'.calls[id]) == Some(result.body))
  {
    hide IsIndexFor, HashOfRequest, RoutingKey, Enabled, Apply, PendingRowOf;
    var c := HashedCall(request, now, shard, HashOfRequest(cfg, request, now).value);
    ArriveStep(cfg, s, request, now, id, shard);
    var s1 := s.(calls := s.calls[id := c]);
    var arrive := Arrive(id, request, now, shard);
    if request.key == "" {
      InsertStep(cfg, s1, id, acceptedAt);
      ExecTwo(cfg, s, arrive, Insert(id, acceptedAt));
    } else {
      ClaimStep(cfg, s1, id);
      var s2 := ApplyClaim(s1, id);
      if IdempotencyKey(request) in s.tables.idempotency {
        ReplayStep(cfg, s2, id);
        ExecThree(cfg, s, arrive, Claim(id), Replay(id));
      } else {
        InsertStep(cfg, s2, id, acceptedAt);
        PhaseDoesNotMatter(id, c, acceptedAt);
        ExecThree(cfg, s, arrive, Claim(id), Insert(id, acceptedAt));
      }
    }
  }

  lemma PhaseDoesNotMatter(id: int, c: Call, acceptedAt: int)
    ensures PendingRowOf(id, c.(phase := Claimed), acceptedAt) == PendingRowOf(id, c, acceptedAt)
  {
  }
}
