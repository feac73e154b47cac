/** The verifier of core/verify.go: one event on its own, and a walk over a whole chain. */
module Verification {
  import opened Wrappers
  import opened HashChain

  /** What verification recomputes with: the digest, and the payload hash of an event's
      content.  Canonicalization may fail, and then there is no hash. */
  datatype Hasher<-C> = Hasher(digest: Digest, contentHash: C -> Option<string>)

  datatype Record<+C> = Record(previousHash: Option<string>, payloadHash: string, eventHash: string,
                               position: int, content: Option<C>)

  // ----- VerifyEvent -----

  datatype Checks = Checks(payloadHashChecked: bool, payloadHashMatches: bool,
                           eventHashMatches: bool, linksToPrevious: bool)

  datatype EventVerdict = EventVerdict(valid: bool, checks: Checks,
                                       computedEventHash: string, computedPayloadHash: Option<string>)

  /** previous_event_hash is null exactly at position 1, and never empty elsewhere. */
  predicate LinksToPrevious<C>(rec: Record<C>) {
    (rec.position == 1 <==> rec.previousHash.None?) && rec.previousHash != Some("")
  }

  predicate EventHashMatches<C>(h: Hasher<C>, rec: Record<C>) {
    rec.eventHash == EventHash(h.digest, rec.previousHash.GetOr(""), rec.payloadHash, rec.position)
  }

  predicate ContentMatches<C>(h: Hasher<C>, rec: Record<C>) {
    rec.content.Some? ==> h.contentHash(rec.content.value) == Some(rec.payloadHash)
  }

  predicate EventValid<C>(h: Hasher<C>, rec: Record<C>) {
    EventHashMatches(h, rec) && LinksToPrevious(rec) && ContentMatches(h, rec)
  }

  method VerifyEvent<C>(h: Hasher<C>, rec: Record<C>) returns (r: EventVerdict)
    ensures r.valid <==> EventValid(h, rec)
    ensures r.valid <==> && r.checks.eventHashMatches && r.checks.linksToPrevious
                         && (r.checks.payloadHashChecked ==> r.checks.payloadHashMatches)
    ensures r.checks.eventHashMatches <==> rec.eventHash == r.computedEventHash
    ensures r.checks.linksToPrevious
      <==> if rec.position == 1 then rec.previousHash == None else rec.previousHash !in {None, Some("")}
    ensures r.checks.payloadHashChecked <==> rec.content.Some?
    ensures r.checks.payloadHashMatches <==> rec.content.Some? && r.computedPayloadHash == Some(rec.payloadHash)
    ensures r.computedEventHash == EventHash(h.digest, rec.previousHash.GetOr(""), rec.payloadHash, rec.position)
    ensures r.computedPayloadHash == if rec.content.Some? then h.contentHash(rec.content.value) else None
  {
    var checks := Checks(false, false, false, false);
    var computedPayload: Option<string> := None;

    var prev := "";
    if rec.previousHash.Some? {
      prev := rec.previousHash.value;
    }
    var recomputed := EventHash(h.digest, prev, rec.payloadHash, rec.position);
    checks := checks.(eventHashMatches := recomputed == rec.eventHash);

    if rec.position == 1 {
      checks := checks.(linksToPrevious := rec.previousHash.None?);
    } else {
      checks := checks.(linksToPrevious := rec.previousHash.Some? && rec.previousHash.value != "");
    }

    if rec.content.Some? {
      checks := checks.(payloadHashChecked := true);
      var hash := h.contentHash(rec.content.value);
      if hash.Some? {
        computedPayload := hash;
        checks := checks.(payloadHashMatches := hash.value == rec.payloadHash);
      }
    }

    var valid := checks.eventHashMatches && checks.linksToPrevious &&
                 (!checks.payloadHashChecked || checks.payloadHashMatches);
    r := EventVerdict(valid, checks, recomputed, computedPayload);
  }

  // ----- VerifyChain -----

  datatype BreakReason = LinkMismatch | EventHashMismatch | PayloadHashMismatch

  datatype ChainBreak = ChainBreak(position: int, reason: BreakReason, expected: string, stored: string)

  datatype ChainVerdict = ChainVerdict(valid: bool, eventsVerified: nat, count: nat, broken: Option<ChainBreak>)

  /** The running tip before record i. */
  function TipBefore<C>(records: seq<Record<C>>, i: nat): string
    requires i <= |records|
  {
    if i == 0 then "" else records[i - 1].eventHash
  }

  /** What is wrong with one record when the running tip is `tip`, if anything. */
  function StepFault<C>(h: Hasher<C>, tip: string, rec: Record<C>): Option<ChainBreak> {
    if rec.previousHash.Some? && rec.previousHash.value != tip then
      Some(ChainBreak(rec.position, LinkMismatch, tip, rec.previousHash.value))
    else
      var recomputed := EventHash(h.digest, tip, rec.payloadHash, rec.position);
      if recomputed != rec.eventHash then
        Some(ChainBreak(rec.position, EventHashMismatch, recomputed, rec.eventHash))
      else if !ContentMatches(h, rec) then
        Some(ChainBreak(rec.position, PayloadHashMismatch,
                        h.contentHash(rec.content.value).GetOr(""), rec.payloadHash))
      else None
  }

  function Fault<C>(h: Hasher<C>, records: seq<Record<C>>, i: nat): Option<ChainBreak>
    requires i < |records|
  {
    StepFault(h, TipBefore(records, i), records[i])
  }

  /** The first n records link to the running tip and recompute. */
  predicate FaultFree<C>(h: Hasher<C>, records: seq<Record<C>>, n: nat)
    requires n <= |records|
  {
    forall i :: 0 <= i < n ==> Fault(h, records, i).None?
  }

  predicate Walks<C>(h: Hasher<C>, records: seq<Record<C>>) {
    FaultFree(h, records, |records|)
  }

  /** The verdict names the length of the faultless prefix and the fault that ends it. */
  predicate IsVerdict<C>(h: Hasher<C>, records: seq<Record<C>>, r: ChainVerdict) {
    && r.count == |records|
    && r.eventsVerified <= |records|
    && FaultFree(h, records, r.eventsVerified)
    && (r.valid <==> r.eventsVerified == |records|)
    && (r.valid <==> r.broken.None?)
    && (!r.valid ==> r.broken == Fault(h, records, r.eventsVerified))
  }

  /** Record i continues the chain: a stored previous hash is its predecessor's event hash, empty at
      the start; the event hash is that of this link, the payload hash and the position; and the
      payload hash is that of the content, where there is one. */
  predicate Continues<C>(h: Hasher<C>, records: seq<Record<C>>, i: nat)
    requires i < |records|
  {
    var rec, tip := records[i], if i == 0 then "" else records[i - 1].eventHash;
    && (rec.previousHash.Some? ==> rec.previousHash.value == tip)
    && rec.eventHash == EventHash(h.digest, tip, rec.payloadHash, rec.position)
    && (rec.content.Some? ==> h.contentHash(rec.content.value) == Some(rec.payloadHash))
  }

  /** What a break tells about the record that it stops at: the first check that fails, what the
      check expected, and what is stored instead. */
  predicate BreakTells<C>(h: Hasher<C>, records: seq<Record<C>>, i: nat, b: ChainBreak)
    requires i < |records|
  {
    var rec, tip := records[i], if i == 0 then "" else records[i - 1].eventHash;
    var recomputed := EventHash(h.digest, tip, rec.payloadHash, rec.position);
    && b.position == rec.position
    && match b.reason
       case LinkMismatch => rec.previousHash == Some(b.stored) && b.expected == tip && b.stored != tip
       case EventHashMismatch =>
         && (rec.previousHash == None || rec.previousHash == Some(tip))
         && b.expected == recomputed && b.stored == rec.eventHash && b.expected != b.stored
       case PayloadHashMismatch =>
         && (rec.previousHash == None || rec.previousHash == Some(tip)) && rec.eventHash == recomputed
         && rec.content.Some? && b.stored == rec.payloadHash
         && match h.contentHash(rec.content.value)
            case Some(hash) => b.expected == hash && hash != b.stored
            case None => b.expected == ""
  }

  lemma FaultTells<C>(h: Hasher<C>, records: seq<Record<C>>, i: nat)
    requires i < |records|
    ensures match Fault(h, records, i)
            case None => Continues(h, records, i)
            case Some(b) => !Continues(h, records, i) && BreakTells(h, records, i, b)
  {
    hide EventHash;
  }

  /** A verdict in terms of the records: those before the break continue the chain, the one at the
      break does not, and the break tells why. */
  lemma VerdictTells<C>(h: Hasher<C>, records: seq<Record<C>>, r: ChainVerdict)
    requires IsVerdict(h, records, r)
    ensures r.valid <==> forall i :: 0 <= i < |records| ==> Continues(h, records, i)
    ensures forall i :: 0 <= i < r.eventsVerified ==> Continues(h, records, i)
    ensures !r.valid ==>
              && r.broken.Some? && r.eventsVerified < |records|
              && !Continues(h, records, r.eventsVerified)
              && BreakTells(h, records, r.eventsVerified, r.broken.value)
  {
    hide Fault, Continues, BreakTells;
    forall i | 0 <= i < r.eventsVerified ensures Continues(h, records, i) {
      assert Fault(h, records, i).None?;
      FaultTells(h, records, i);
    }
    if r.eventsVerified < |records| {
      FaultTells(h, records, r.eventsVerified);
    }
  }

  method VerifyChain<C>(h: Hasher<C>, records: seq<Record<C>>) returns (r: ChainVerdict)
    ensures IsVerdict(h, records, r)
    ensures r.count == |records|
    ensures r.valid <==> forall i :: 0 <= i < |records| ==> Continues(h, records, i)
    ensures forall i :: 0 <= i < r.eventsVerified ==> Continues(h, records, i)
    ensures !r.valid ==>
              && r.broken.Some? && r.eventsVerified < |records|
              && !Continues(h, records, r.eventsVerified)
              && BreakTells(h, records, r.eventsVerified, r.broken.value)
  {
    hide Continues, BreakTells;
    r := ChainVerdict(false, 0, |records|, None);
    var prev := "";
    for i := 0 to |records|
      invariant r == ChainVerdict(false, i, |records|, None)
      invariant prev == TipBefore(records, i)
      invariant FaultFree(h, records, i)
    {
      var rec := records[i];
      ghost var fault := Fault(h, records, i);
      if rec.previousHash.Some? && rec.previousHash.value != prev {
        r := r.(broken := Some(ChainBreak(rec.position, LinkMismatch, prev, rec.previousHash.value)));
        assert r.broken == fault;
        VerdictTells(h, records, r);
        return;
      }
      var recomputed := EventHash(h.digest, prev, rec.payloadHash, rec.position);
      if recomputed != rec.eventHash {
        r := r.(broken := Some(ChainBreak(rec.position, EventHashMismatch, recomputed, rec.eventHash)));
        assert r.broken == fault;
        VerdictTells(h, records, r);
        return;
      }
      if rec.content.Some? {
        var hash := h.contentHash(rec.content.value);
        if hash.None? || hash.value != rec.payloadHash {
          r := r.(broken := Some(ChainBreak(rec.position, PayloadHashMismatch, hash.GetOr(""), rec.payloadHash)));
          assert r.broken == fault;
          VerdictTells(h, records, r);
          return;
        }
      }
      assert fault.None?;
      prev := rec.eventHash;
      r := r.(eventsVerified := r.eventsVerified + 1);
    }
    r := r.(valid := true);
    VerdictTells(h, records, r);
  }

  lemma PrefixFault<C>(h: Hasher<C>, records: seq<Record<C>>, n: nat, i: nat)
    requires i < n <= |records|
    ensures Fault(h, records[..n], i) == Fault(h, records, i)
  {
    assert records[..n][i] == records[i];
    assert TipBefore(records[..n], i) == TipBefore(records, i);
  }

  lemma WalksTake<C>(h: Hasher<C>, records: seq<Record<C>>, n: nat)
    requires n <= |records| && FaultFree(h, records, n)
    ensures Walks(h, records[..n])
  {
    var taken := records[..n];
    forall i | 0 <= i < n ensures Fault(h, taken, i).None? {
      PrefixFault(h, records, n, i);
    }
  }

  /** The verified count is the length of the longest prefix that is valid as a chain of its own. */
  lemma WalkExactness<C>(h: Hasher<C>, records: seq<Record<C>>, r: ChainVerdict, n: nat)
    requires IsVerdict(h, records, r) && n <= |records|
    ensures Walks(h, records[..n]) <==> n <= r.eventsVerified
  {
    var k := r.eventsVerified;
    forall i | 0 <= i < n ensures Fault(h, records[..n], i) == Fault(h, records, i) {
      PrefixFault(h, records, n, i);
    }
    assert k < n ==> Fault(h, records[..n], k) == Fault(h, records, k);
  }

  /** Records have one verdict, and it is "valid" exactly when all of them walk. */
  lemma VerdictUnique<C>(h: Hasher<C>, records: seq<Record<C>>, r: ChainVerdict, r': ChainVerdict)
    requires IsVerdict(h, records, r) && IsVerdict(h, records, r')
    ensures r == r'
    ensures r.valid <==> Walks(h, records)
  {
    assert r.eventsVerified < |records| ==> !FaultFree(h, records, r.eventsVerified + 1);
    assert r'.eventsVerified < |records| ==> !FaultFree(h, records, r'.eventsVerified + 1);
  }

  // ----- local checks against the walk -----

  /** Each record names its predecessor's event hash, and only position 1 comes first. */
  predicate AdjacentLinks<C>(records: seq<Record<C>>) {
    forall i :: 0 < i < |records| ==> records[i].previousHash == Some(records[i - 1].eventHash)
  }

  predicate AllEventsValid<C>(h: Hasher<C>, records: seq<Record<C>>) {
    forall i :: 0 <= i < |records| ==> EventValid(h, records[i])
  }

  /** Records without a predecessor are those at position 1, and only the first is one. */
  predicate GenesisOnlyFirst<C>(records: seq<Record<C>>) {
    && (forall i :: 0 <= i < |records| ==> (records[i].position == 1 <==> i == 0))
    && (forall i :: 0 <= i < |records| ==> (records[i].previousHash.None? <==> i == 0))
  }

  /** Checking every event alone, and its link to the one before it, is enough for the walk. */
  lemma LocalChecksImplyWalk<C>(h: Hasher<C>, records: seq<Record<C>>)
    requires |records| > 0 ==> records[0].position == 1
    requires AllEventsValid(h, records) && AdjacentLinks(records)
    ensures Walks(h, records)
  {
    forall i | 0 <= i < |records| ensures Fault(h, records, i).None? {
      assert EventValid(h, records[i]);
    }
  }

  /** A walk whose links are all written down makes every record valid on its own. */
  lemma WalkImpliesLocalChecks<C>(h: Hasher<C>, records: seq<Record<C>>)
    requires Walks(h, records) && GenesisOnlyFirst(records)
    ensures AllEventsValid(h, records) && AdjacentLinks(records)
  {
    forall i | 0 <= i < |records| ensures EventValid(h, records[i]) {
      assert Fault(h, records, i).None?;
      if i > 0 {
        assert Fault(h, records, i - 1).None?;
        EventHashIsTagged(h.digest, TipBefore(records, i - 1), records[i - 1].payloadHash, records[i - 1].position);
      }
    }
    forall i | 0 < i < |records| ensures records[i].previousHash == Some(records[i - 1].eventHash) {
      assert Fault(h, records, i).None?;
    }
  }

  // ----- what one event hash commits to -----

  /** The parts of a record that its event hash is computed from. */
  predicate SameHashedParts<C>(a: Record<C>, b: Record<C>) {
    && Normalize(a.previousHash.GetOr("")) == Normalize(b.previousHash.GetOr(""))
    && a.payloadHash == b.payloadHash && a.position == b.position
  }

  /** Two records that pass the hash check with one event hash have the same hashed parts, unless
      their previous hashes are confusable or their pre-images collide. */
  lemma HashCheckCommits<C>(h: Hasher<C>, a: Record<C>, b: Record<C>)
    requires EventHashMatches(h, a) && EventHashMatches(h, b) && a.eventHash == b.eventHash
    ensures var p, q := a.previousHash.GetOr(""), b.previousHash.GetOr("");
            || SameHashedParts(a, b)
            || Confusable(p, q)
            || Collides(h.digest, (Preimage(p, a.payloadHash, a.position), Preimage(q, b.payloadHash, b.position)))
  {
    hide Confusable, Preimage;
    var p, q := a.previousHash.GetOr(""), b.previousHash.GetOr("");
    var x, y := Preimage(p, a.payloadHash, a.position), Preimage(q, b.payloadHash, b.position);
    EqualEventHashesEqualDigests(h.digest, x, y);
    if x == y && !SameHashedParts(a, b) {
      SharedMeansConfusable(p, a.payloadHash, a.position, q, b.payloadHash, b.position);
    }
  }

  /** Conversely confusable stored previous hashes, whatever the digest, admit two different events
      that VerifyEvent both accepts under one event hash. */
  lemma ConfusableEventsVerify<C>(h: Hasher<C>, p: string, q: string, position: int)
    returns (a: Record<C>, b: Record<C>)
    requires Confusable(p, q) && p != "" && q != "" && position != 1
    ensures a.previousHash == Some(p) && b.previousHash == Some(q) && !SameHashedParts(a, b)
    ensures a.eventHash == b.eventHash && EventValid(h, a) && EventValid(h, b)
  {
    hide Confusable, Preimage, Normalize;
    var x, y := ConfusableShare(p, q, position);
    var hash := EventHash(h.digest, p, x, position);
    a := Record(Some(p), x, hash, position, None);
    b := Record(Some(q), y, hash, position, None);
  }
}
