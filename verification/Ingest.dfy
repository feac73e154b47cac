/** Accept (server/internal/ingest/accept.go), statement by statement. */
module Ingest {
  import opened Wrappers
  import opened Content
  import opened Payloads
  import opened Tables
  import opened Shard
  import opened Protocol
  import opened Database

  /** The 202 body and whether it was replayed, or no answer because the payload has no hash. */
  datatype AcceptResult = Refused | Answered(body: AcceptedResponse, cached: bool)

  /** The call as the protocol knows it once the payload is hashed. */
  function HashedCall(request: Request, now: int, shard: int, hash: string): Call {
    Call(request, TruncateMilli(now), shard, hash, Hashed)
  }

  /** What one call does to the tables, and its answer, in terms of the request. */
  predicate AcceptOutcome(cfg: Config, t: Tables, request: Request, now: int, id: int, acceptedAt: int, shard: int,
                          t': Tables, result: AcceptResult)
  {
    var receivedAt := now - now % 1_000_000;
    match cfg.canonical(ContentPayload(ContentInput(request.org, request.project, request.env, receivedAt, request.event)))
    case None => t' == t && result == Refused
    case Some(text) =>
      if request.key != "" && (request.org, request.key) in t.idempotency then
        t' == t && result == Answered(t.idempotency[(request.org, request.key)], true)
      else
        var hash := "sha256:" + cfg.digest(text);
        var body := AcceptedResponse(id, hash, receivedAt, request.env, shard);
        var externalId := request.event.externalEventId;
        && result == Answered(body, false)
        && t' == t.(idempotency := if request.key == "" then t.idempotency
                                   else t.idempotency[(request.org, request.key) := body],
                    pending := t.pending[id := PendingRow(
                                 id, request.org, request.project, request.env, shard,
                                 if externalId == "" then None else Some(externalId), hash,
                                 Envelope(receivedAt, EncodeEvent(request.event)), acceptedAt, request.key)])
  }

  /** The same in the protocol's terms. */
  predicate StepOutcome(cfg: Config, t: Tables, request: Request, now: int, id: int, acceptedAt: int, shard: int,
                        t': Tables, result: AcceptResult)
  {
    match HashOfRequest(cfg, request, now)
    case None => t' == t && result == Refused
    case Some(hash) =>
      var c := HashedCall(request, now, shard, hash);
      var key := IdempotencyKey(request);
      if request.key != "" && key in t.idempotency then
        t' == t && result == Answered(t.idempotency[key], true)
      else
        var body := ResponseBody(id, c);
        && result == Answered(body, false)
        && t' == t.(idempotency := if request.key == "" then t.idempotency else t.idempotency[key := body],
                    pending := t.pending[id := PendingRowOf(id, c, acceptedAt)])
  }

  /** What the code writes and answers is what the protocol's steps write and answer. */
  lemma OutcomeIsProtocols(cfg: Config, t: Tables, request: Request, now: int, id: int, acceptedAt: int, shard: int,
                           t': Tables, result: AcceptResult)
    ensures AcceptOutcome(cfg, t, request, now, id, acceptedAt, shard, t', result)
      <==> StepOutcome(cfg, t, request, now, id, acceptedAt, shard, t', result)
  {
    hide ContentPayload, EncodeEvent;
  }

  method Accept(cfg: Config, db: Database, request: Request, now: int, id: int, acceptedAt: int, draw: nat)
    returns (result: AcceptResult, shardIdx: int)
    requires db.Valid() && id !in db.pending && draw < EffectiveCount(cfg.shardCount)
    modifies db
    ensures db.Valid() && db.heldElsewhere == old(db.heldElsewhere)
    ensures IsIndexFor(cfg.fnv, RoutingKey(request.event), cfg.shardCount, shardIdx)
    ensures AcceptOutcome(cfg, old(db.Snapshot()), request, now, id, acceptedAt, shardIdx, db.Snapshot(), result)
    ensures var n := if cfg.shardCount <= 0 then 8 else cfg.shardCount;
            && 0 <= shardIdx < n
            && (if request.event.externalEventId != "" then shardIdx == cfg.fnv(request.event.externalEventId) % n
                else if request.event.actor.id != "" then shardIdx == cfg.fnv(request.event.actor.id) % n
                else shardIdx == draw)
  {
    hide IsIndexFor, ContentPayload, EncodeEvent, Lookup;
    var shardKey := request.event.externalEventId;
    if shardKey == "" {
      shardKey := request.event.actor.id;
    }
    shardIdx := IndexFor(cfg.fnv, shardKey, cfg.shardCount, draw);
    var receivedAt := TruncateMilli(now);

    var payload := BuildContentPayload(ContentInput(request.org, request.project, request.env, receivedAt, request.event));
    var payloadHash := PayloadHash(cfg.digest, cfg.canonical, payload);
    if payloadHash.None? {
      return Refused, shardIdx;
    }
    var envelope := Envelope(receivedAt, EncodeEvent(request.event));
    var body := AcceptedResponse(id, payloadHash.value, receivedAt, request.env, shardIdx);

    if request.key != "" {
      var won := db.ClaimIdempotencyKey((request.org, request.key), body);
      if !won {
        var cached := db.GetIdempotentResponse((request.org, request.key));
        return Answered(cached.value, true), shardIdx;
      }
    }
    db.InsertPendingEvent(PendingRow(id, request.org, request.project, request.env, shardIdx,
                                     NullIfEmpty(request.event.externalEventId), payloadHash.value, envelope, acceptedAt,
                                     request.key));
    result := Answered(body, false);
  }
}
