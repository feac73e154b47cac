/** The chains of a reachable state, as records that a verifier can walk. */
module ServerChains {
  import opened Wrappers
  import opened HashChain
  import opened Verification
  import opened Tables
  import opened Sealing
  import opened Protocol
  import opened Invariants
  import opened Safety
  import opened StoredVerification
  import opened Sorting

  /** A journal row without its content. */
  function JournalRecord<C>(e: EventRow): Record<C> {
    Record(e.previousHash, e.payloadHash, e.eventHash, e.position, None)
  }

  function JournalRecords<C>(events: seq<EventRow>): (r: seq<Record<C>>)
    ensures |r| == |events|
    ensures forall i :: 0 <= i < |r| ==> r[i] == JournalRecord(events[i])
  {
    seq(|events|, i requires 0 <= i < |events| => JournalRecord(events[i]))
  }

  /** The journal rows of a shard's chain, in position order. */
  function ServerChain(s: State, shard: ShardKey): seq<EventRow>
    requires shard in s.tables.chains
  {
    ChainEvents(s.tables.events, s.tables.chains[shard].id)
  }

  /** ORDER BY chain_position. */
  predicate WalkOrder(e: EventRow, f: EventRow) {
    e.position <= f.position
  }

  lemma ServerChainIsLog(cfg: Config, s: State, shard: ShardKey)
    requires Inv(cfg, s) && shard in s.tables.chains
    ensures var chain := s.tables.chains[shard];
            && ServerChain(s, shard) == SealedLog(cfg.digest, chain.id, chain.project, DrainedOf(s.drained, shard))
            && chain.latestPosition == |ServerChain(s, shard)|
            && chain.latestHash == NullIfEmpty(TipHash("", ServerChain(s, shard)))
  {
    hide CallsOk, QueuesOk, TxnsOk, SealedLog;
    assert ChainOk(cfg, shard, s.tables.chains[shard], ServerChain(s, shard), DrainedOf(s.drained, shard));
  }

  /** Row i of a chain: position i+1, the previous row's hash (null first), and a hash that
      recomputes. */
  predicate RowLinks(H: Digest, chain: seq<EventRow>, i: nat)
    requires i < |chain|
  {
    var tip := if i == 0 then "" else chain[i - 1].eventHash;
    && chain[i].position == i + 1
    && chain[i].previousHash == (if i == 0 then None else Some(tip))
    && chain[i].eventHash == EventHash(H, tip, chain[i].payloadHash, i + 1)
  }

  lemma LogIsLinked(H: Digest, chainId: string, project: string, drained: seq<PendingRow>)
    ensures var log := SealedLog(H, chainId, project, drained);
            forall i :: 0 <= i < |log| ==> RowLinks(H, log, i) && log[i].eventHash != ""
  {
    hide EventHash, SealedLog;
    var log := SealedLog(H, chainId, project, drained);
    forall i | 0 <= i < |log| ensures RowLinks(H, log, i) && log[i].eventHash != "" {
      LogRowLinks(H, chainId, project, drained, i);
      EventHashIsTagged(H, if i == 0 then "" else log[i - 1].eventHash, log[i].payloadHash, i + 1);
    }
  }

  /** In every reachable state each chain's events occupy positions 1..latest_position once
      each, every one links to its predecessor, and the stored tip is the last event hash, null
      exactly when there is none. */
  lemma ChainsAreWellLinked(cfg: Config, s: State, shard: ShardKey)
    requires Reachable(cfg, s) && shard in s.tables.chains
    ensures var chain := s.tables.chains[shard];
            var rows := ServerChain(s, shard);
            && (forall i :: 0 <= i < |rows| ==> RowLinks(cfg.digest, rows, i))
            && chain.latestPosition == |rows|
            && chain.latestHash == (if rows == [] then None else Some(rows[|rows| - 1].eventHash))
  {
    hide Reachable, Inv, EventHash, SealedLog, RowLinks, ServerChain, DrainedOf;
    ReachableInv(cfg, s);
    ServerChainIsLog(cfg, s, shard);
    var chain := s.tables.chains[shard];
    LogIsLinked(cfg.digest, chain.id, chain.project, DrainedOf(s.drained, shard));
  }

  /** Records that repeat a linked chain, with or without the previous hashes, walk. */
  lemma RepeatedChainWalks<C>(h: Hasher<C>, chain: seq<EventRow>, records: seq<Record<C>>)
    requires forall i :: 0 <= i < |chain| ==> RowLinks(h.digest, chain, i)
    requires |records| == |chain|
    requires forall i :: 0 <= i < |records| ==>
               && records[i].payloadHash == chain[i].payloadHash && records[i].eventHash == chain[i].eventHash
               && records[i].position == chain[i].position && records[i].content.None?
               && (records[i].previousHash.None? || records[i].previousHash == chain[i].previousHash)
    ensures Walks(h, records)
  {
    hide EventHash;
    forall i | 0 <= i < |records| ensures Fault(h, records, i).None? {
      assert RowLinks(h.digest, chain, i);
    }
  }

  lemma ServerChainWalks<C>(cfg: Config, s: State, shard: ShardKey, h: Hasher<C>)
    requires Reachable(cfg, s) && shard in s.tables.chains && h.digest == cfg.digest
    ensures Walks(h, JournalRecords(ServerChain(s, shard)))
  {
    hide Reachable, RowLinks;
    ChainsAreWellLinked(cfg, s, shard);
    RepeatedChainWalks(h, ServerChain(s, shard), JournalRecords(ServerChain(s, shard)));
  }

  lemma ServerChainPositions(cfg: Config, s: State, shard: ShardKey)
    requires Reachable(cfg, s) && shard in s.tables.chains
    ensures Sorted(ServerChain(s, shard), WalkOrder) && NoTies(ServerChain(s, shard), WalkOrder)
  {
    hide Reachable, ServerChain, EventHash;
    ChainsAreWellLinked(cfg, s, shard);
    var rows := ServerChain(s, shard);
    forall i | 0 <= i < |rows| ensures rows[i].position == i + 1 {
      assert RowLinks(cfg.digest, rows, i);
    }
  }
}
