/** The database tables that accept and seal share, with the columns that matter for the chain
    (server/migrations/0001_core_ingest.up.sql). */
module Tables {
  import opened Wrappers
  import opened Content

  /** The owner of an environment. */
  datatype Tenant = Tenant(org: string, project: string)

  /** One chain per environment and shard. */
  datatype ShardKey = ShardKey(env: string, shard: int)

  datatype PendingRow = PendingRow(
    id: int, org: string, project: string, env: string, shard: int, externalId: Option<string>,
    payloadHash: string, data: Envelope, acceptedAt: int, idempotencyKey: string)

  datatype ChainRow = ChainRow(
    id: string, org: string, project: string, latestPosition: int, latestHash: Option<string>)

  datatype EventRow = EventRow(
    id: int, org: string, project: string, env: string, externalId: Option<string>, receivedAt: int,
    rawPayload: EventJson, chainId: string, position: int, payloadHash: string,
    previousHash: Option<string>, eventHash: string)

  datatype Checkpoint = Checkpoint(
    org: string, project: string, env: string, chainId: string,
    fromPosition: int, toPosition: int, rootHash: string, eventCount: int)

  /** The 202 body; equal values are equal bytes. */
  datatype AcceptedResponse = AcceptedResponse(
    id: int, payloadHash: string, acceptedAt: int, env: string, shard: int)

  datatype Tables = Tables(
    idempotency: map<(string, string), AcceptedResponse>,
    pending: map<int, PendingRow>,
    chains: map<ShardKey, ChainRow>,
    events: seq<EventRow>,
    checkpoints: seq<Checkpoint>)

  function NullIfEmpty(s: string): Option<string> {
    if s == "" then None else Some(s)
  }

  /** Rows of one chain, in journal order. */
  function ChainEvents(events: seq<EventRow>, chainId: string): (r: seq<EventRow>)
    ensures forall i :: 0 <= i < |r| ==> r[i].chainId == chainId && r[i] in events
  {
    if events == [] then []
    else
      var last := events[|events| - 1];
      ChainEvents(events[..|events| - 1], chainId) + (if last.chainId == chainId then [last] else [])
  }

  lemma {:induction false} ChainEventsAppend(a: seq<EventRow>, b: seq<EventRow>, chainId: string)
    ensures ChainEvents(a + b, chainId) == ChainEvents(a, chainId) + ChainEvents(b, chainId)
  {
    if b == [] {
      assert a + b == a;
    } else {
      var init := b[..|b| - 1];
      assert (a + b)[..|a + b| - 1] == a + init;
      ChainEventsAppend(a, init, chainId);
    }
  }

  lemma {:induction false} ChainEventsAll(events: seq<EventRow>, chainId: string)
    requires forall i :: 0 <= i < |events| ==> events[i].chainId == chainId
    ensures ChainEvents(events, chainId) == events
  {
    if events == [] {
    } else {
      ChainEventsAll(events[..|events| - 1], chainId);
    }
  }

  lemma {:induction false} ChainEventsNone(events: seq<EventRow>, chainId: string)
    requires forall i :: 0 <= i < |events| ==> events[i].chainId != chainId
    ensures ChainEvents(events, chainId) == []
  {
    if events == [] {
    } else {
      ChainEventsNone(events[..|events| - 1], chainId);
    }
  }

  lemma {:induction false} ChainEventsComplete(events: seq<EventRow>, e: EventRow)
    requires e in events
    ensures e in ChainEvents(events, e.chainId)
  {
    var init := events[..|events| - 1];
    if e in init {
      ChainEventsComplete(init, e);
    }
  }

  /** Checkpoints of one chain, in insertion order. */
  function ChainCheckpoints(checkpoints: seq<Checkpoint>, chainId: string): (r: seq<Checkpoint>)
    ensures forall i :: 0 <= i < |r| ==> r[i].chainId == chainId
  {
    if checkpoints == [] then []
    else
      var last := checkpoints[|checkpoints| - 1];
      ChainCheckpoints(checkpoints[..|checkpoints| - 1], chainId) + (if last.chainId == chainId then [last] else [])
  }
}
