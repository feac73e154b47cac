/** What the rows carry of the requests behind them, and what the 202 answers say of the rows. */
module Receipts {
  import opened Wrappers
  import opened Content
  import opened Payloads
  import opened Tables
  import opened Sealing
  import opened Protocol
  import opened Invariants
  import opened JournalFacts
  import opened Safety
  import opened StoredVerification
  import opened Idempotency

  /** Every call was hashed under its own scope at a whole millisecond, and routed by its external id,
      else by its actor, else anywhere in range. */
  lemma CallsCarry(cfg: Config, s: State, id: int)
    requires Reachable(cfg, s) && id in s.calls
    ensures var c := s.calls[id];
            var r, n := c.request, if cfg.shardCount <= 0 then 8 else cfg.shardCount;
            && c.receivedAt % 1_000_000 == 0
            && ContentHash(cfg.digest, cfg.canonical, ContentInput(r.org, r.project, r.env, c.receivedAt, r.event))
               == Some(c.payloadHash)
            && 0 <= c.shard < n
            && (if r.event.externalEventId != "" then c.shard == cfg.fnv(r.event.externalEventId) % n
                else r.event.actor.id != "" ==> c.shard == cfg.fnv(r.event.actor.id) % n)
  {
    hide Reachable, ContentHash, QueuesOk, JournalOk, TxnsOk;
    ReachableInv(cfg, s);
    var c := s.calls[id];
    assert CallOk(cfg, c);
    ReceivedAtSurvives(c.receivedAt);
  }

  /** Every pending row carries the accepted request of its own id, column by column. */
  lemma PendingRowsCarry(cfg: Config, s: State, id: int)
    requires Reachable(cfg, s) && id in s.tables.pending
    ensures id in s.calls && s.calls[id].phase.Accepted?
    ensures var p, c := s.tables.pending[id], s.calls[id];
            var r := c.request;
            && p.id == id && p.org == r.org && p.project == r.project && p.env == r.env && p.shard == c.shard
            && p.externalId == (if r.event.externalEventId == "" then None else Some(r.event.externalEventId))
            && p.payloadHash == c.payloadHash && p.idempotencyKey == r.key
            && p.data.receivedAt == c.receivedAt && p.data.input == EncodeEvent(r.event)
  {
    hide Reachable, CallsOk, JournalOk, TxnsOk, DrainedOk, NothingLost, EncodeEvent;
    ReachableInv(cfg, s);
    assert FromCall(s.calls, s.tables.pending[id]);
  }

  /** Every journal row carries the accepted request of its own id, column by column, under the project
      that owns the environment and in the chain of its shard. */
  lemma JournalRowsCarry(cfg: Config, s: State, e: EventRow)
    requires Reachable(cfg, s) && e in s.tables.events
    ensures e.id in s.calls && s.calls[e.id].phase.Accepted?
    ensures var c := s.calls[e.id];
            var r, shard := c.request, ShardKey(c.request.env, c.shard);
            && e.org == r.org && e.env == r.env && r.env in cfg.envs && e.project == cfg.envs[r.env].project
            && e.externalId == (if r.event.externalEventId == "" then None else Some(r.event.externalEventId))
            && e.payloadHash == c.payloadHash && e.receivedAt == c.receivedAt && e.rawPayload == EncodeEvent(r.event)
            && shard in s.tables.chains && e.chainId == s.tables.chains[shard].id
  {
    hide Reachable, JournalOk, QueuesOk, TxnsOk, SealedLog, EncodeEvent, RawPayload, EnvelopeExternalId;
    ReachableInv(cfg, s);
    var shard, p := EventChain(cfg, s, e);
    ChainProject(cfg, s, shard);
    RowExternal(s.calls, p);
    var c := s.calls[p.id];
    assert CallOk(cfg, c);
    ReceivedAtSurvives(c.receivedAt);
    RawPayloadIs(p.data, c.request.event);
  }

  /** Decoding and encoding again leaves the encoded event as it is. */
  lemma RawPayloadIs(data: Envelope, event: EventInput)
    requires data.input == EncodeEvent(event)
    ensures RawPayload(data) == EncodeEvent(event)
  {
    JsonRoundTrip(event);
    hide DecodeEvent, EncodeSource, EncodeActor, EncodeAction, EncodeResource, EncodePolicy, EncodeRequest;
  }

  /** An answer agrees with the row that it names, wherever the row is. */
  predicate AgreesWithRows(s: State, body: AcceptedResponse) {
    && (body.id in s.tables.pending ==>
          var p := s.tables.pending[body.id];
          && p.id == body.id && p.payloadHash == body.payloadHash && p.env == body.env && p.shard == body.shard
          && p.data.receivedAt == body.acceptedAt)
    && (forall e :: e in s.tables.events && e.id == body.id ==>
          && e.payloadHash == body.payloadHash && e.env == body.env && e.receivedAt == body.acceptedAt
          && ShardKey(body.env, body.shard) in s.tables.chains
          && e.chainId == s.tables.chains[ShardKey(body.env, body.shard)].id)
  }

  lemma OwnBodyAgrees(cfg: Config, s: State, id: int)
    requires Reachable(cfg, s) && id in s.calls
    ensures AgreesWithRows(s, ResponseBody(id, s.calls[id]))
  {
    hide Reachable, EncodeEvent;
    if id in s.tables.pending {
      PendingRowsCarry(cfg, s, id);
    }
    forall e | e in s.tables.events && e.id == id
      ensures e.payloadHash == s.calls[id].payloadHash && e.env == s.calls[id].request.env
      ensures e.receivedAt == s.calls[id].receivedAt
      ensures var shard := ShardKey(s.calls[id].request.env, s.calls[id].shard);
              shard in s.tables.chains && e.chainId == s.tables.chains[shard].id
    {
      JournalRowsCarry(cfg, s, e);
    }
  }

  /** Every 202 answer, fresh or replayed, agrees with the row of the event that it names, while the
      row is pending and after it has been sealed. */
  lemma AnswersAgree(cfg: Config, s: State, id: int)
    requires Reachable(cfg, s) && id in s.calls && Answer(id, s.calls[id]).Some?
    ensures AgreesWithRows(s, Answer(id, s.calls[id]).value)
  {
    hide Reachable, AgreesWithRows, ResponseBody;
    ReachableGate(cfg, s);
    var idem, key := s.tables.idempotency, IdempotencyKey(s.calls[id].request);
    assert StandsWith(idem, id, s.calls[id]);
    if s.calls[id].phase.Replayed? {
      StoredAnswersAgree(cfg, s, key);
    } else {
      OwnBodyAgrees(cfg, s, id);
    }
  }

  /** So does every stored answer; and it is stored under the organization and the key of the request
      that claimed it. */
  lemma StoredAnswersAgree(cfg: Config, s: State, key: (string, string))
    requires Reachable(cfg, s) && key in s.tables.idempotency
    ensures AgreesWithRows(s, s.tables.idempotency[key])
    ensures var id := s.tables.idempotency[key].id;
            id in s.calls && s.calls[id].request.org == key.0 && s.calls[id].request.key == key.1 != ""
  {
    hide Reachable, AgreesWithRows, ResponseBody;
    ReachableGate(cfg, s);
    var body := s.tables.idempotency[key];
    assert IsClaimant(s.calls, key, body);
    OwnBodyAgrees(cfg, s, body.id);
  }
}
