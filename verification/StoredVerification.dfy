/** Verification of stored rows (server/internal/verify/verify.go): every event that the
    protocol seals verifies from what the tables hold. */
module StoredVerification {
  import opened Wrappers
  import opened HashChain
  import opened Content
  import opened Payloads
  import opened Verification
  import opened Tables
  import opened Sealing
  import opened Protocol
  import opened Invariants
  import opened JournalFacts
  import opened Safety

  // ----- verifySealed and verifyPending -----

  /** The content envelope rebuilt from a journal row. */
  function SealedContent(e: EventRow): ContentInput {
    ContentInput(e.org, e.project, e.env, e.receivedAt, DecodeEvent(e.rawPayload))
  }

  function SealedRecord(e: EventRow): Record<ContentInput> {
    Record(e.previousHash, e.payloadHash, e.eventHash, e.position, Some(SealedContent(e)))
  }

  predicate SealedValid(H: Digest, canonical: Canonicalizer, e: EventRow) {
    EventValid(CoreHasher(H, canonical), SealedRecord(e))
  }

  method VerifySealed(H: Digest, canonical: Canonicalizer, e: EventRow) returns (r: EventVerdict)
    ensures r.valid <==> SealedValid(H, canonical, e)
    ensures r.valid <==> r.checks.eventHashMatches && r.checks.linksToPrevious && r.checks.payloadHashMatches
    ensures r.checks.eventHashMatches
      <==> e.eventHash == EventHash(H, e.previousHash.GetOr(""), e.payloadHash, e.position)
    ensures r.checks.linksToPrevious
      <==> if e.position == 1 then e.previousHash == None else e.previousHash !in {None, Some("")}
    ensures r.checks.payloadHashChecked
    ensures r.checks.payloadHashMatches
      <==> ContentHash(H, canonical, ContentInput(e.org, e.project, e.env, e.receivedAt, DecodeEvent(e.rawPayload)))
           == Some(e.payloadHash)
  {
    r := VerifyEvent(CoreHasher(H, canonical), SealedRecord(e));
  }

  function PendingContent(p: PendingRow): ContentInput {
    ContentInput(p.org, p.project, p.env, p.data.receivedAt, DecodeEvent(p.data.input))
  }

  /** None where the hash cannot be recomputed; otherwise whether it is the stored one. */
  method VerifyPending(H: Digest, canonical: Canonicalizer, p: PendingRow) returns (valid: Option<bool>)
    ensures var hash := ContentHash(H, canonical,
                                    ContentInput(p.org, p.project, p.env, p.data.receivedAt, DecodeEvent(p.data.input)));
            && (valid.None? <==> hash.None?)
            && (valid.Some? ==> (valid.value <==> hash == Some(p.payloadHash)))
  {
    var payload := BuildContentPayload(PendingContent(p));
    var recomputed := PayloadHash(H, canonical, payload);
    if recomputed.None? {
      return None;
    }
    valid := Some(recomputed.value == p.payloadHash);
  }

  predicate PendingValid(H: Digest, canonical: Canonicalizer, p: PendingRow) {
    ContentHash(H, canonical, PendingContent(p)) == Some(p.payloadHash)
  }

  /** The hashed and the stored content have different payloads whose canonical forms collide. */
  predicate ContentCollision(cfg: Config, hashed: ContentInput, stored: ContentInput) {
    var x, y := cfg.canonical(ContentPayload(hashed)), cfg.canonical(ContentPayload(stored));
    x.Some? && y.Some? && Collides(cfg.digest, (x.value, y.value))
  }

  // ----- what the rows hold -----

  /** The content rebuilt from a journal row is the accepted one after two trips through JSON,
      under the chain's project. */
  lemma SealedContentIs(cfg: Config, calls: map<int, Call>, p: PendingRow, e: EventRow, project: string)
    requires CallsOk(cfg, calls) && FromCall(calls, p) && SealedFrom(e, p, e.chainId, project)
    ensures var c := calls[p.id];
            var content := RequestContent(c.request, c.receivedAt);
            SealedContent(e) == content.(event := Stored(content.event, 2), projectId := project)
  {
    hide EncodeEvent, DecodeEvent;
    var c := calls[p.id];
    assert CallOk(cfg, c);
    ReceivedAtSurvives(c.receivedAt);
    var event := c.request.event;
    assert Stored(event, 2) == DecodeEvent(EncodeEvent(Stored(event, 1)));
    assert Stored(event, 1) == DecodeEvent(EncodeEvent(Stored(event, 0)));
  }

  lemma PendingContentIs(calls: map<int, Call>, p: PendingRow)
    requires FromCall(calls, p)
    ensures var c := calls[p.id];
            var content := RequestContent(c.request, c.receivedAt);
            PendingContent(p) == content.(event := Stored(content.event, 1), projectId := content.projectId)
  {
    hide EncodeEvent, DecodeEvent;
    var event := calls[p.id].request.event;
    assert Stored(event, 1) == DecodeEvent(EncodeEvent(Stored(event, 0)));
  }

  /** Links in the log: each row's hash recomputes from the running tip, which the row also
      stores, as null at position 1 and never empty after it. */
  lemma LogRowLinks(H: Digest, chainId: string, project: string, drained: seq<PendingRow>, i: nat)
    requires i < |SealedLog(H, chainId, project, drained)|
    ensures var log := SealedLog(H, chainId, project, drained);
            var tip := if i == 0 then "" else log[i - 1].eventHash;
            && log[i].position == i + 1
            && log[i].previousHash == NullIfEmpty(tip)
            && log[i].eventHash == EventHash(H, tip, log[i].payloadHash, log[i].position)
            && (tip == "" <==> i == 0)
  {
    hide EventHash, RawPayload, EnvelopeExternalId;
    var kept := FirstOccurrences(drained, {});
    var log := SealedLog(H, chainId, project, drained);
    LinkRowsAt(H, chainId, project, "", 1, kept, i);
    if i > 0 {
      LinkRowsAt(H, chainId, project, "", 1, kept, i - 1);
      var before := if i == 1 then "" else log[i - 2].eventHash;
      EventHashIsTagged(H, before, kept[i - 1].payloadHash, i);
    }
  }

  lemma JournalRowLinks(cfg: Config, s: State, e: EventRow)
    requires Inv(cfg, s) && e in s.tables.events
    ensures EventHashMatches(CoreHasher(cfg.digest, cfg.canonical), SealedRecord(e))
    ensures LinksToPrevious(SealedRecord(e))
  {
    hide Inv, EventHash, SealedLog, SealedFrom, FromCall, SealedContent;
    var shard, p := EventChain(cfg, s, e);
    var chain := s.tables.chains[shard];
    var log := SealedLog(cfg.digest, chain.id, chain.project, DrainedOf(s.drained, shard));
    var i :| 0 <= i < |log| && log[i] == e;
    LogRowLinks(cfg.digest, chain.id, chain.project, DrainedOf(s.drained, shard), i);
  }

  // ----- every sealed event verifies -----

  /** What makes a sealed event's content come back as it was hashed: storable metadata, and a
      caller whose project owns the environment. */
  predicate ContentKept(cfg: Config, r: Request) {
    MetadataStorable(r.event) && r.env in cfg.envs && cfg.envs[r.env].project == r.project
  }

  /** Where the content of a journal row comes from: the hashed content of its call, after two trips
      through storage and under the project that owns the environment. */
  lemma JournalContent(cfg: Config, s: State, e: EventRow)
    requires Inv(cfg, s) && e in s.tables.events
    ensures e.id in s.calls
    ensures var c := s.calls[e.id];
            var content := RequestContent(c.request, c.receivedAt);
            && c.request.env in cfg.envs
            && SealedContent(e) == content.(event := Stored(content.event, 2), projectId := cfg.envs[c.request.env].project)
            && ContentHash(cfg.digest, cfg.canonical, content) == Some(e.payloadHash)
  {
    hide JournalOk, TxnsOk, QueuesOk, SealedLog, ContentHash, RequestContent, SealedContent, RawPayload,
         EnvelopeExternalId, Stored, TimestampColumn;
    var shard, p := EventChain(cfg, s, e);
    SealedContentIs(cfg, s.calls, p, e, s.tables.chains[shard].project);
    assert CallOk(cfg, s.calls[p.id]);
    ChainProject(cfg, s, shard);
  }

  /** The stored content has the hashed payload exactly when the content was kept. */
  lemma KeptExactly(cfg: Config, r: Request, receivedAt: int, stored: ContentInput)
    requires r.env in cfg.envs
    requires var content := RequestContent(r, receivedAt);
             stored == content.(event := Stored(content.event, 2), projectId := cfg.envs[r.env].project)
    ensures ContentPayload(stored) == ContentPayload(RequestContent(r, receivedAt)) <==> ContentKept(cfg, r)
  {
    hide ContentPayload, Stored, MetadataStorable;
    PayloadSurvivesStorage(RequestContent(r, receivedAt), 2, cfg.envs[r.env].project);
  }

  lemma SealedValidExactly(cfg: Config, s: State, e: EventRow)
    requires Inv(cfg, s) && e in s.tables.events
    ensures SealedValid(cfg.digest, cfg.canonical, e)
      <==> ContentHash(cfg.digest, cfg.canonical, SealedContent(e)) == Some(e.payloadHash)
  {
    hide Inv, EventHashMatches, LinksToPrevious, ContentHash, SealedContent;
    JournalRowLinks(cfg, s, e);
  }

  /** In every reachable state every journal row verifies whose request had storable metadata and
      came from the environment's own project. */
  lemma SealedEventsVerify(cfg: Config, s: State, e: EventRow)
    requires Reachable(cfg, s) && e in s.tables.events
    ensures e.id in s.calls
    ensures ContentKept(cfg, s.calls[e.id].request) ==> SealedValid(cfg.digest, cfg.canonical, e)
  {
    hide Reachable, Inv, SealedValid, ContentKept, ContentPayload, RequestContent, SealedContent, Stored;
    ReachableInv(cfg, s);
    JournalContent(cfg, s, e);
    SealedValidExactly(cfg, s, e);
    var c := s.calls[e.id];
    KeptExactly(cfg, c.request, c.receivedAt, SealedContent(e));
  }

  lemma RequestContentEvent(c: Call)
    ensures RequestContent(c.request, c.receivedAt).event == c.request.event
    ensures RequestContent(c.request, c.receivedAt).projectId == c.request.project
  {
  }

  lemma ChainProject(cfg: Config, s: State, shard: ShardKey)
    requires Inv(cfg, s) && shard in s.tables.chains
    ensures shard.env in cfg.envs
    ensures s.tables.chains[shard].project == cfg.envs[shard.env].project
    ensures s.tables.chains[shard].org == cfg.envs[shard.env].org
  {
    hide CallsOk, QueuesOk, TxnsOk, SealedLog;
    assert ChainOk(cfg, shard, s.tables.chains[shard], ChainEvents(s.tables.events, s.tables.chains[shard].id),
                   DrainedOf(s.drained, shard));
  }

  /** The condition is exact: a row that verifies without it exhibits a collision between the
      content that was hashed and the content that was stored. */
  lemma OnlyKeptContentVerifies(cfg: Config, s: State, e: EventRow)
    requires Reachable(cfg, s) && Injective(cfg.canonical)
    requires e in s.tables.events && SealedValid(cfg.digest, cfg.canonical, e)
    ensures e.id in s.calls
    ensures var c := s.calls[e.id];
            || ContentKept(cfg, c.request)
            || ContentCollision(cfg, RequestContent(c.request, c.receivedAt), SealedContent(e))
  {
    hide Reachable, Inv, SealedValid, ContentKept, ContentPayload, RequestContent, SealedContent, Stored, Injective;
    ReachableInv(cfg, s);
    JournalContent(cfg, s, e);
    SealedValidExactly(cfg, s, e);
    var c := s.calls[e.id];
    var content := RequestContent(c.request, c.receivedAt);
    KeptExactly(cfg, c.request, c.receivedAt, SealedContent(e));
    PayloadHashCommits(cfg.digest, cfg.canonical, content, SealedContent(e));
  }

  /** In every reachable state every pending row verifies whose metadata is storable; one trip is
      enough to lose other metadata. */
  lemma PendingEventsVerify(cfg: Config, s: State, id: int)
    requires Reachable(cfg, s) && id in s.tables.pending
    ensures id in s.calls
    ensures MetadataStorable(s.calls[id].request.event) ==> PendingValid(cfg.digest, cfg.canonical, s.tables.pending[id])
  {
    hide Reachable, ContentPayload, JournalOk, TxnsOk, PendingContent, RequestContent, MetadataStorable, Stored,
         NothingLost, DrainedOk;
    ReachableInv(cfg, s);
    var p := s.tables.pending[id];
    assert FromCall(s.calls, p);
    PendingContentIs(s.calls, p);
    var c := s.calls[id];
    assert CallOk(cfg, c);
    RequestContentEvent(c);
    PayloadSurvivesStorage(RequestContent(c.request, c.receivedAt), 1, c.request.project);
  }

  /** The condition is exact: a pending row that verifies without it exhibits a collision. */
  lemma OnlyStorablePendingVerifies(cfg: Config, s: State, id: int)
    requires Reachable(cfg, s) && Injective(cfg.canonical) && id in s.tables.pending
    requires PendingValid(cfg.digest, cfg.canonical, s.tables.pending[id])
    ensures id in s.calls
    ensures var c := s.calls[id];
            || MetadataStorable(c.request.event)
            || ContentCollision(cfg, RequestContent(c.request, c.receivedAt), PendingContent(s.tables.pending[id]))
  {
    hide Reachable, ContentPayload, JournalOk, TxnsOk, PendingContent, RequestContent, MetadataStorable, Stored,
         NothingLost, DrainedOk, Injective;
    ReachableInv(cfg, s);
    var p := s.tables.pending[id];
    assert FromCall(s.calls, p);
    PendingContentIs(s.calls, p);
    var c := s.calls[id];
    assert CallOk(cfg, c);
    RequestContentEvent(c);
    var content := RequestContent(c.request, c.receivedAt);
    PayloadHashCommits(cfg.digest, cfg.canonical, content, PendingContent(p));
    PayloadSurvivesStorage(content, 1, c.request.project);
  }
}
