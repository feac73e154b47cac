/** The idempotency gate over all interleavings: one event and one answer per key. */
module Idempotency {
  import opened Wrappers
  import opened Tables
  import opened Shard
  import opened Protocol
  import opened Invariants
  import opened CommitStep
  import opened Safety
  import opened Conservation
  import opened History

  /** The call whose insert into the idempotency table went through. */
  predicate IsClaimant(calls: map<int, Call>, key: (string, string), body: AcceptedResponse) {
    && body.id in calls
    && IdempotencyKey(calls[body.id].request) == key && key.1 != ""
    && body == ResponseBody(body.id, calls[body.id])
    && (calls[body.id].phase.Claimed? || calls[body.id].phase.Accepted? || calls[body.id].phase.Failed?)
  }

  /** Where a call stands relative to the row of its key. */
  predicate StandsWith(idem: map<(string, string), AcceptedResponse>, id: int, c: Call) {
    var key := IdempotencyKey(c.request);
    if c.request.key == "" then c.phase.Hashed? || c.phase.Accepted? || c.phase.Failed?
    else
      match c.phase
      case Hashed => key in idem ==> idem[key].id != id
      case Claimed => key in idem && idem[key].id == id
      case Accepted => key in idem && idem[key].id == id
      case Outbid => key in idem && idem[key].id != id
      case Replayed(body) => key in idem && idem[key] == body && body.id != id
      case Failed => true
  }

  predicate GateOk(calls: map<int, Call>, idem: map<(string, string), AcceptedResponse>) {
    && (forall key :: key in idem ==> IsClaimant(calls, key, idem[key]))
    && (forall id :: id in calls ==> StandsWith(idem, id, calls[id]))
  }

  lemma PhaseKeepsGate(calls: map<int, Call>, idem: map<(string, string), AcceptedResponse>, id: int, phase: Phase)
    requires GateOk(calls, idem) && id in calls
    requires StandsWith(idem, id, calls[id].(phase := phase))
    requires phase.Claimed? || phase.Accepted? || phase.Failed?
             || calls[id].phase.Hashed? || calls[id].phase.Outbid?
    ensures GateOk(calls[id := calls[id].(phase := phase)], idem)
  {
    var calls' := calls[id := calls[id].(phase := phase)];
    forall key | key in idem ensures IsClaimant(calls', key, idem[key]) {
      assert IsClaimant(calls, key, idem[key]);
      assert StandsWith(idem, id, calls[id]);
    }
  }

  lemma NewCallKeepsGate(calls: map<int, Call>, idem: map<(string, string), AcceptedResponse>, id: int, c: Call)
    requires GateOk(calls, idem) && id !in calls && c.phase.Hashed?
    ensures GateOk(calls[id := c], idem)
  {
    var calls' := calls[id := c];
    forall key | key in idem ensures IsClaimant(calls', key, idem[key]) {
      assert IsClaimant(calls, key, idem[key]);
    }
  }

  lemma ClaimKeepsGate(calls: map<int, Call>, idem: map<(string, string), AcceptedResponse>, id: int)
    requires GateOk(calls, idem) && id in calls && calls[id].phase.Hashed? && calls[id].request.key != ""
    requires IdempotencyKey(calls[id].request) !in idem
    ensures GateOk(calls[id := calls[id].(phase := Claimed)],
                   idem[IdempotencyKey(calls[id].request) := ResponseBody(id, calls[id])])
  {
    var key := IdempotencyKey(calls[id].request);
    var calls', idem' := calls[id := calls[id].(phase := Claimed)], idem[key := ResponseBody(id, calls[id])];
    forall k | k in idem' ensures IsClaimant(calls', k, idem'[k]) {
      if k != key {
        assert IsClaimant(calls, k, idem[k]);
      }
    }
    forall i | i in calls' ensures StandsWith(idem', i, calls'[i]) {
      if i != id {
        assert StandsWith(idem, i, calls[i]);
      }
    }
  }

  lemma StepKeepsGate(cfg: Config, s: State, step: Step)
    requires Inv(cfg, s) && GateOk(s.calls, s.tables.idempotency) && Enabled(cfg, s, step)
    ensures var s' := Apply(cfg, s, step); GateOk(s'.calls, s'.tables.idempotency)
  {
    hide Inv, GateOk, IsDrain, PendingRowOf, IsIndexFor, HashOfRequest, ApplyCommit, SealedTables, ResponseBody;
    var calls, idem := s.calls, s.tables.idempotency;
    match step
    case Arrive(id, request, now, shard) => NewCallKeepsGate(calls, idem, id, Apply(cfg, s, step).calls[id]);
    case Claim(id) =>
      if IdempotencyKey(calls[id].request) in idem {
        HashedIsNotClaimant(calls, idem, id);
        PhaseKeepsGate(calls, idem, id, Outbid);
      } else {
        ClaimKeepsGate(calls, idem, id);
      }
    case Replay(id) =>
      OutbidIsNotClaimant(calls, idem, id);
      PhaseKeepsGate(calls, idem, id, Replayed(idem[IdempotencyKey(calls[id].request)]));
    case Insert(id, _) =>
      InsertStands(calls, idem, id);
      PhaseKeepsGate(calls, idem, id, Accepted);
    case Fail(id) => PhaseKeepsGate(calls, idem, id, Failed);
    case Commit(k) =>
      CopyAlwaysSucceeds(cfg, s, k);
      var txn := s.txns[k];
      SealedTablesParts(cfg.digest, s.tables, txn.shard, txn.chain, txn.stage.batch, txn.stage.already);
    case _ =>
  }

  lemma HashedIsNotClaimant(calls: map<int, Call>, idem: map<(string, string), AcceptedResponse>, id: int)
    requires GateOk(calls, idem) && id in calls && calls[id].phase.Hashed? && calls[id].request.key != ""
    requires IdempotencyKey(calls[id].request) in idem
    ensures StandsWith(idem, id, calls[id].(phase := Outbid))
  {
    assert StandsWith(idem, id, calls[id]);
  }

  lemma OutbidIsNotClaimant(calls: map<int, Call>, idem: map<(string, string), AcceptedResponse>, id: int)
    requires GateOk(calls, idem) && id in calls && calls[id].phase.Outbid?
    ensures IdempotencyKey(calls[id].request) in idem
    ensures StandsWith(idem, id, calls[id].(phase := Replayed(idem[IdempotencyKey(calls[id].request)])))
  {
    assert StandsWith(idem, id, calls[id]);
  }

  lemma InsertStands(calls: map<int, Call>, idem: map<(string, string), AcceptedResponse>, id: int)
    requires GateOk(calls, idem) && id in calls
    requires calls[id].phase.Claimed? || (calls[id].phase.Hashed? && calls[id].request.key == "")
    ensures StandsWith(idem, id, calls[id].(phase := Accepted))
  {
    assert StandsWith(idem, id, calls[id]);
  }

  lemma {:induction false} RunKeepsGate(cfg: Config, s: State, steps: seq<Step>)
    requires Inv(cfg, s) && GateOk(s.calls, s.tables.idempotency) && Executable(cfg, s, steps)
    ensures GateOk(Exec(cfg, s, steps).calls, Exec(cfg, s, steps).tables.idempotency)
    decreases |steps|
  {
    hide Inv, Enabled, Apply, GateOk;
    if steps == [] {
    } else {
      StepKeepsGate(cfg, s, steps[0]);
      StepKeepsInv(cfg, s, steps[0]);
      RunKeepsGate(cfg, Apply(cfg, s, steps[0]), steps[1..]);
    }
  }

  lemma ReachableGate(cfg: Config, s: State)
    requires Reachable(cfg, s)
    ensures GateOk(s.calls, s.tables.idempotency)
  {
    var steps :| Executable(cfg, INIT, steps) && Exec(cfg, INIT, steps) == s;
    hide Inv, Executable, Exec;
    InvInit(cfg);
    RunKeepsGate(cfg, INIT, steps);
  }

  // ----- what callers see -----

  /** The 202 answer of a call, once it has one. */
  function Answer(id: int, c: Call): Option<AcceptedResponse> {
    match c.phase
    case Accepted => Some(ResponseBody(id, c))
    case Replayed(body) => Some(body)
    case _ => None
  }

  /** For one organization and key at most one call ever inserts a pending row, however many
      run at once and whatever events they carry. */
  lemma OneEventPerKey(cfg: Config, s: State, a: int, b: int)
    requires Reachable(cfg, s) && a in s.calls && b in s.calls
    requires s.calls[a].phase.Accepted? && s.calls[b].phase.Accepted?
    requires s.calls[a].request.key != "" && s.calls[a].request.key == s.calls[b].request.key
    requires s.calls[a].request.org == s.calls[b].request.org
    ensures a == b
  {
    ReachableGate(cfg, s);
    assert StandsWith(s.tables.idempotency, a, s.calls[a]) && StandsWith(s.tables.idempotency, b, s.calls[b]);
  }

  /** Every 202 answer for one organization and key is the same. */
  lemma OneAnswerPerKey(cfg: Config, s: State, a: int, b: int)
    requires Reachable(cfg, s) && a in s.calls && b in s.calls
    requires Answer(a, s.calls[a]).Some? && Answer(b, s.calls[b]).Some?
    requires s.calls[a].request.key != "" && s.calls[a].request.key == s.calls[b].request.key
    requires s.calls[a].request.org == s.calls[b].request.org
    ensures Answer(a, s.calls[a]) == Answer(b, s.calls[b])
  {
    ReachableGate(cfg, s);
    var idem := s.tables.idempotency;
    assert StandsWith(idem, a, s.calls[a]) && StandsWith(idem, b, s.calls[b]);
    assert IsClaimant(s.calls, IdempotencyKey(s.calls[a].request), idem[IdempotencyKey(s.calls[a].request)]);
  }

  /** A 202 answer promises an event.  It is one that exists exactly when the call that minted it
      is accepted: a claimant that fails before its insert leaves an answer with no event. */
  lemma AnsweredEventExists(cfg: Config, s: State, id: int)
    requires Reachable(cfg, s) && id in s.calls && Answer(id, s.calls[id]).Some?
    ensures var promised := Answer(id, s.calls[id]).value.id;
            && promised in s.calls
            && (s.calls[promised].phase.Accepted? ==>
                  || IsPending(s, promised) || IsJournaled(s, promised)
                  || IsSuperseded(s, promised, s.calls[promised].request.event, s.calls[promised].request.env))
            && (!s.calls[promised].phase.Accepted? ==> !IsPending(s, promised) && !IsJournaled(s, promised))
  {
    hide Reachable;
    ReachableGate(cfg, s);
    assert StandsWith(s.tables.idempotency, id, s.calls[id]);
    var promised := Answer(id, s.calls[id]).value.id;
    var key := IdempotencyKey(s.calls[id].request);
    assert s.calls[id].phase.Replayed? ==> IsClaimant(s.calls, key, s.tables.idempotency[key]);
    PlacesAreExclusive(cfg, s, promised);
    if s.calls[promised].phase.Accepted? {
      AcceptedIsConserved(cfg, s, promised);
    }
  }

  // ----- an answer without an event -----

  /** A call that failed, answered or replayed stays as it is. */
  predicate Final(phase: Phase) {
    phase.Accepted? || phase.Replayed? || phase.Failed?
  }

  lemma FinalStays(cfg: Config, s: State, step: Step, id: int)
    requires Enabled(cfg, s, step) && id in s.calls && Final(s.calls[id].phase)
    ensures id in Apply(cfg, s, step).calls && Apply(cfg, s, step).calls[id] == s.calls[id]
  {
    hide IsDrain, PendingRowOf, IsIndexFor, HashOfRequest, SealedTables, ResponseBody, CopySucceeds;
  }

  lemma {:induction false} FinalStaysInRun(cfg: Config, s: State, steps: seq<Step>, id: int)
    requires Executable(cfg, s, steps) && id in s.calls && Final(s.calls[id].phase)
    ensures id in Exec(cfg, s, steps).calls && Exec(cfg, s, steps).calls[id] == s.calls[id]
    decreases |steps|
  {
    hide Enabled, Apply;
    if steps == [] {
    } else {
      FinalStays(cfg, s, steps[0], id);
      FinalStaysInRun(cfg, Apply(cfg, s, steps[0]), steps[1..], id);
    }
  }

  /** The event of a call that failed before its insert never turns up, however the run goes on;
      every 202 that was or will be replayed for it stays without an event. */
  lemma FailedEventNeverAppears(cfg: Config, s: State, steps: seq<Step>, id: int)
    requires Reachable(cfg, s) && id in s.calls && s.calls[id].phase.Failed? && Executable(cfg, s, steps)
    ensures !IsPending(Exec(cfg, s, steps), id) && !IsJournaled(Exec(cfg, s, steps), id)
  {
    hide Reachable, Executable, Exec;
    FinalStaysInRun(cfg, s, steps, id);
    LaterStateIsReachable(cfg, s, steps);
    PlacesAreExclusive(cfg, Exec(cfg, s, steps), id);
  }

  // ----- runs in which no claimant fails -----

  /** The step does not end a call between its claim and its insert. */
  predicate SparesClaimants(s: State, step: Step) {
    step.Fail? && step.id in s.calls ==> !s.calls[step.id].phase.Claimed?
  }

  predicate ClaimantsSpared(cfg: Config, s: State, steps: seq<Step>)
    requires Executable(cfg, s, steps)
    decreases |steps|
  {
    steps == [] || (SparesClaimants(s, steps[0]) && ClaimantsSpared(cfg, Apply(cfg, s, steps[0]), steps[1..]))
  }

  /** The call behind every idempotency row is on its way or accepted. */
  predicate ClaimantsAlive(calls: map<int, Call>, idem: map<(string, string), AcceptedResponse>) {
    forall key :: key in idem ==> idem[key].id in calls && !calls[idem[key].id].phase.Failed?
  }

  lemma StepKeepsClaimantsAlive(cfg: Config, s: State, step: Step)
    requires Inv(cfg, s) && GateOk(s.calls, s.tables.idempotency) && Enabled(cfg, s, step)
    requires ClaimantsAlive(s.calls, s.tables.idempotency) && SparesClaimants(s, step)
    ensures var s' := Apply(cfg, s, step); ClaimantsAlive(s'.calls, s'.tables.idempotency)
  {
    hide Inv, StandsWith, IsDrain, PendingRowOf, IsIndexFor, HashOfRequest, ApplyCommit, SealedTables, ResponseBody,
         ExistingExternals;
    var calls, idem := s.calls, s.tables.idempotency;
    match step
    case Fail(id) =>
      forall key | key in idem ensures idem[key].id != id {
        assert IsClaimant(calls, key, idem[key]);
      }
    case Claim(id) => ClaimedIsAlive(calls, idem, s, id);
    case Commit(k) =>
      CopyAlwaysSucceeds(cfg, s, k);
      var txn := s.txns[k];
      SealedTablesParts(cfg.digest, s.tables, txn.shard, txn.chain, txn.stage.batch, txn.stage.already);
    case _ =>
  }

  lemma ClaimedIsAlive(calls: map<int, Call>, idem: map<(string, string), AcceptedResponse>, s: State, id: int)
    requires calls == s.calls && idem == s.tables.idempotency && id in calls && ClaimantsAlive(calls, idem)
    ensures var s' := ApplyClaim(s, id); ClaimantsAlive(s'.calls, s'.tables.idempotency)
  {
    assert ResponseBody(id, calls[id]).id == id;
    hide ResponseBody;
  }

  lemma {:induction false} RunKeepsClaimantsAlive(cfg: Config, s: State, steps: seq<Step>)
    requires Inv(cfg, s) && GateOk(s.calls, s.tables.idempotency) && ClaimantsAlive(s.calls, s.tables.idempotency)
    requires Executable(cfg, s, steps) && ClaimantsSpared(cfg, s, steps)
    ensures ClaimantsAlive(Exec(cfg, s, steps).calls, Exec(cfg, s, steps).tables.idempotency)
    decreases |steps|
  {
    hide Inv, Enabled, Apply, GateOk, ClaimantsAlive, SparesClaimants;
    if steps == [] {
    } else {
      StepKeepsClaimantsAlive(cfg, s, steps[0]);
      StepKeepsGate(cfg, s, steps[0]);
      StepKeepsInv(cfg, s, steps[0]);
      RunKeepsClaimantsAlive(cfg, Apply(cfg, s, steps[0]), steps[1..]);
    }
  }

  /** If no call fails between its claim and its insert, every answer whose claimant has settled
      names an event that exists: pending, sealed, or superseded by a sealed one. */
  lemma SettledAnswersHaveEvents(cfg: Config, steps: seq<Step>, id: int)
    requires Executable(cfg, INIT, steps) && ClaimantsSpared(cfg, INIT, steps)
    requires var s := Exec(cfg, INIT, steps);
             && id in s.calls && Answer(id, s.calls[id]).Some?
             && (var promised := Answer(id, s.calls[id]).value.id;
                 promised in s.calls ==> !s.calls[promised].phase.Claimed?)
    ensures var s := Exec(cfg, INIT, steps);
            var promised := Answer(id, s.calls[id]).value.id;
            && promised in s.calls
            && (|| IsPending(s, promised) || IsJournaled(s, promised)
                || IsSuperseded(s, promised, s.calls[promised].request.event, s.calls[promised].request.env))
  {
    var s := Exec(cfg, INIT, steps);
    assert Reachable(cfg, s);
    InvInit(cfg);
    assert GateOk(INIT.calls, INIT.tables.idempotency) && ClaimantsAlive(INIT.calls, INIT.tables.idempotency);
    hide Executable, Exec, Reachable, Inv, IsPending, IsJournaled, IsSuperseded, ClaimantsSpared;
    RunKeepsClaimantsAlive(cfg, INIT, steps);
    ReachableGate(cfg, s);
    SettledClaimantAccepted(s.calls, s.tables.idempotency, id);
    AnsweredEventExists(cfg, s, id);
  }

  lemma SettledClaimantAccepted(calls: map<int, Call>, idem: map<(string, string), AcceptedResponse>, id: int)
    requires GateOk(calls, idem) && ClaimantsAlive(calls, idem) && id in calls && Answer(id, calls[id]).Some?
    requires var promised := Answer(id, calls[id]).value.id; promised in calls ==> !calls[promised].phase.Claimed?
    ensures var promised := Answer(id, calls[id]).value.id; promised in calls && calls[promised].phase.Accepted?
  {
    assert StandsWith(idem, id, calls[id]);
    var key := IdempotencyKey(calls[id].request);
    assert calls[id].phase.Replayed? ==> IsClaimant(calls, key, idem[key]);
  }

  /** Six steps that end with a replayed 202 whose event is nowhere: the first caller claims the
      key and fails, the second is answered from the claimed row. */
  lemma ReplayWithoutEvent(cfg: Config, request: Request, shard: int)
    requires request.key != "" && IsIndexFor(cfg.fnv, RoutingKey(request.event), cfg.shardCount, shard)
    requires HashOfRequest(cfg, request, 0).Some?
    ensures var steps := [Arrive(1, request, 0, shard), Claim(1), Fail(1), Arrive(2, request, 0, shard), Claim(2), Replay(2)];
            && Executable(cfg, INIT, steps)
            && (var s := Exec(cfg, INIT, steps);
                && 2 in s.calls && Answer(2, s.calls[2]).Some? && Answer(2, s.calls[2]).value.id == 1
                && 1 in s.calls && s.calls[1].phase == Failed
                && !IsPending(s, 1) && !IsJournaled(s, 1))
  {
    hide IsIndexFor, HashOfRequest, RoutingKey;
    var arrive1, arrive2 := Arrive(1, request, 0, shard), Arrive(2, request, 0, shard);
    var steps := [arrive1, Claim(1), Fail(1), arrive2, Claim(2), Replay(2)];
    var s1 := Apply(cfg, INIT, arrive1);
    var s2 := Apply(cfg, s1, Claim(1));
    var s3 := Apply(cfg, s2, Fail(1));
    var s4 := Apply(cfg, s3, arrive2);
    var s5 := Apply(cfg, s4, Claim(2));
    var s6 := Apply(cfg, s5, Replay(2));
    var body := ResponseBody(1, s1.calls[1]);
    assert s2.tables.idempotency[IdempotencyKey(request)] == body;
    assert s6.calls[2].phase == Replayed(body);
    assert s6.tables.events == [] && s6.tables.pending == map[];
    hide Apply, Enabled;
    RunOfSix(cfg, INIT, steps[0], steps[1], steps[2], steps[3], steps[4], steps[5]);
    assert steps == [steps[0], steps[1], steps[2], steps[3], steps[4], steps[5]];
  }

  lemma RunOfSix(cfg: Config, s: State, a: Step, b: Step, c: Step, d: Step, e: Step, f: Step)
    requires Enabled(cfg, s, a)
    requires var s1 := Apply(cfg, s, a);
             && Enabled(cfg, s1, b)
             && (var s2 := Apply(cfg, s1, b);
                 && Enabled(cfg, s2, c)
                 && (var s3 := Apply(cfg, s2, c);
                     && Enabled(cfg, s3, d)
                     && (var s4 := Apply(cfg, s3, d);
                         && Enabled(cfg, s4, e)
                         && (var s5 := Apply(cfg, s4, e); Enabled(cfg, s5, f)))))
    ensures Executable(cfg, s, [a, b, c, d, e, f])
    ensures Exec(cfg, s, [a, b, c, d, e, f])
            == Apply(cfg, Apply(cfg, Apply(cfg, Apply(cfg, Apply(cfg, Apply(cfg, s, a), b), c), d), e), f)
  {
    hide Enabled, Apply;
    var s1 := Apply(cfg, s, a);
    var s2 := Apply(cfg, s1, b);
    var s3 := Apply(cfg, s2, c);
    var s4 := Apply(cfg, s3, d);
    var s5 := Apply(cfg, s4, e);
    assert [a, b, c, d, e, f][1..] == [b, c, d, e, f];
    assert [b, c, d, e, f][1..] == [c, d, e, f];
    assert [c, d, e, f][1..] == [d, e, f];
    assert [d, e, f][1..] == [e, f];
    assert [e, f][1..] == [f];
    assert [f][1..] == [];
    assert Executable(cfg, Apply(cfg, s5, f), []);
    assert Executable(cfg, s5, [f]) && Exec(cfg, s5, [f]) == Apply(cfg, s5, f);
    assert Executable(cfg, s4, [e, f]) && Exec(cfg, s4, [e, f]) == Apply(cfg, s5, f);
    assert Executable(cfg, s3, [d, e, f]) && Exec(cfg, s3, [d, e, f]) == Apply(cfg, s5, f);
    assert Executable(cfg, s2, [c, d, e, f]) && Exec(cfg, s2, [c, d, e, f]) == Apply(cfg, s5, f);
    assert Executable(cfg, s1, [b, c, d, e, f]) && Exec(cfg, s1, [b, c, d, e, f]) == Apply(cfg, s5, f);
  }
}
