/** Payload hashes of event contents (core/chain.go over core/jcs.go), and the hasher that the
    server and the public verifier share. */
module Payloads {
  import opened Wrappers
  import opened HashChain
  import opened Content
  import opened Verification
  import opened TamperEvidence

  /** Canonical JSON (section 3.2 of RFC 8785) as a deterministic function that may fail. */
  type Canonicalizer = Payload -> Option<string>

  function PayloadHash(H: Digest, canonical: Canonicalizer, p: Payload): Option<string> {
    match canonical(p)
    case Some(bytes) => Some(HASH_PREFIX + H(bytes))
    case None => None
  }

  function ContentHash(H: Digest, canonical: Canonicalizer, c: ContentInput): Option<string> {
    PayloadHash(H, canonical, ContentPayload(c))
  }

  /** The text form of a payload hash, which is missing exactly where there is no canonical form. */
  lemma PayloadHashText(H: Digest, canonical: Canonicalizer, p: Payload)
    ensures PayloadHash(H, canonical, p)
            == if canonical(p).None? then None else Some("sha256:" + H(canonical(p).value))
  {
  }

  function CoreHasher(H: Digest, canonical: Canonicalizer): Hasher<ContentInput> {
    Hasher(H, c => ContentHash(H, canonical, c))
  }

  /** Different payloads have different canonical forms. */
  ghost predicate Injective(canonical: Canonicalizer) {
    forall p, q :: canonical(p).Some? && canonical(p) == canonical(q) ==> p == q
  }

  /** A payload hash commits to the content: two contents with one hash have the same payload,
      or their canonical forms collide. */
  lemma PayloadHashCommits(H: Digest, canonical: Canonicalizer, c: ContentInput, d: ContentInput)
    requires Injective(canonical)
    requires ContentHash(H, canonical, c).Some?
    requires ContentHash(H, canonical, c) == ContentHash(H, canonical, d)
    ensures || ContentPayload(c) == ContentPayload(d)
            || Collides(H, (canonical(ContentPayload(c)).value, canonical(ContentPayload(d)).value))
  {
    var x, y := canonical(ContentPayload(c)).value, canonical(ContentPayload(d)).value;
    EqualEventHashesEqualDigests(H, x, y);
  }

  /** The chain's tip commits to contents: two chains that verify with their contents and end in
      one hash have equal payloads throughout, or a collision is at hand: one that comparing the
      chains finds, or one between the canonical forms of two contents. */
  lemma SameTipSameContent(H: Digest, canonical: Canonicalizer, a: seq<Record<ContentInput>>,
                           b: seq<Record<ContentInput>>, i: nat)
    requires Injective(canonical)
    requires var h := CoreHasher(H, canonical); Walks(h, a) && Walks(h, b)
    requires |a| > 0 && |b| > 0 && a[|a| - 1].eventHash == b[|b| - 1].eventHash
    requires i < |a| && i < |b| && a[i].content.Some? && b[i].content.Some?
    ensures var x, y := ContentPayload(a[i].content.value), ContentPayload(b[i].content.value);
            || x == y
            || (canonical(x).Some? && canonical(y).Some? && Collides(H, (canonical(x).value, canonical(y).value)))
            || CollisionShown(CoreHasher(H, canonical), a, b)
  {
    hide EventHash, ContentPayload, Injective, CollisionBetween;
    var h := CoreHasher(H, canonical);
    SameTipSameChain(h, a, b);
    assert Fault(h, a, i).None? && Fault(h, b, i).None?;
    if Divergence(a, b).None? {
      assert SameEvent(a[i], b[i]);
      PayloadHashCommits(H, canonical, a[i].content.value, b[i].content.value);
    }
  }
}
