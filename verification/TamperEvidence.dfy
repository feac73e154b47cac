/** Tamper evidence as a reduction: two chains that verify and end in one event hash are the
    same chain, or comparing them step by step yields two strings with one digest.

    Since digests have 64 characters and inputs are unbounded, some collision always exists;
    the statements therefore name the colliding pair and where it was hashed. */
module TamperEvidence {
  import opened Wrappers
  import opened HashChain
  import opened Verification

  /** The string that the walk hashes at record i. */
  function StepPreimage<C>(records: seq<Record<C>>, i: nat): string
    requires i < |records|
  {
    Preimage(TipBefore(records, i), records[i].payloadHash, records[i].position)
  }

  /** Compares two chains from their ends; the first differing pair of pre-images, if any. */
  function Divergence<C>(a: seq<Record<C>>, b: seq<Record<C>>): Option<(string, string)> {
    if |a| == 0 || |b| == 0 then None
    else
      var p, q := StepPreimage(a, |a| - 1), StepPreimage(b, |b| - 1);
      if p != q then Some((p, q)) else Divergence(a[..|a| - 1], b[..|b| - 1])
  }

  /** The parts of two records that the chain commits to are equal. */
  predicate SameEvent<C>(r: Record<C>, s: Record<C>) {
    r.payloadHash == s.payloadHash && r.position == s.position && r.eventHash == s.eventHash
  }

  predicate SameChain<C>(a: seq<Record<C>>, b: seq<Record<C>>) {
    |a| == |b| && forall i :: 0 <= i < |a| ==> SameEvent(a[i], b[i])
  }

  /** The pair collides, and each half was hashed while walking one of the two chains. */
  ghost predicate CollisionBetween<C>(h: Hasher<C>, a: seq<Record<C>>, b: seq<Record<C>>, pair: (string, string)) {
    && Collides(h.digest, pair)
    && (exists i :: 0 <= i < |a| && pair.0 == StepPreimage(a, i))
    && (exists j :: 0 <= j < |b| && pair.1 == StepPreimage(b, j))
  }

  /** The same chain, or the comparison found a collision. */
  ghost predicate SameOrCollision<C>(h: Hasher<C>, a: seq<Record<C>>, b: seq<Record<C>>) {
    match Divergence(a, b)
    case None => SameChain(a, b)
    case Some(pair) => CollisionBetween(h, a, b, pair)
  }

  /** The comparison names a collision. */
  ghost predicate CollisionShown<C>(h: Hasher<C>, a: seq<Record<C>>, b: seq<Record<C>>) {
    Divergence(a, b).Some? && CollisionBetween(h, a, b, Divergence(a, b).value)
  }

  lemma DifferentLengthsCollide<C>(h: Hasher<C>, a: seq<Record<C>>, b: seq<Record<C>>)
    requires SameOrCollision(h, a, b) && |a| != |b|
    ensures CollisionShown(h, a, b)
  {
  }

  /** In a walking chain the tip is empty at the start and a tagged hash from then on. */
  lemma TipShape<C>(h: Hasher<C>, records: seq<Record<C>>, i: nat)
    requires Walks(h, records) && i <= |records|
    ensures IsLink(TipBefore(records, i))
    ensures Normalize(TipBefore(records, i)) == GENESIS <==> i == 0
    ensures i > 0 ==> Normalize(TipBefore(records, i)) == TipBefore(records, i)
  {
    if i > 0 {
      assert Fault(h, records, i - 1).None?;
      var prev, rec := TipBefore(records, i - 1), records[i - 1];
      EventHashIsTagged(h.digest, prev, rec.payloadHash, rec.position);
      assert |rec.eventHash| == 71 && |GENESIS| == 7;
    }
  }

  lemma StepPreimageDropLast<C>(records: seq<Record<C>>, i: nat)
    requires i + 1 < |records|
    ensures StepPreimage(records[..|records| - 1], i) == StepPreimage(records, i)
  {
    assert TipBefore(records[..|records| - 1], i) == TipBefore(records, i);
  }

  /** Equal pre-images at the ends carry agreement one record back. */
  lemma AgreementStep<C>(h: Hasher<C>, a: seq<Record<C>>, b: seq<Record<C>>)
    requires Walks(h, a) && Walks(h, b) && |a| > 0 && |b| > 0
    requires StepPreimage(a, |a| - 1) == StepPreimage(b, |b| - 1)
    ensures a[|a| - 1].payloadHash == b[|b| - 1].payloadHash && a[|a| - 1].position == b[|b| - 1].position
    ensures |a| == 1 <==> |b| == 1
    ensures TipBefore(a, |a| - 1) == TipBefore(b, |b| - 1)
  {
    TipShape(h, a, |a| - 1);
    TipShape(h, b, |b| - 1);
    PreimageUnambiguous(TipBefore(a, |a| - 1), a[|a| - 1].payloadHash, a[|a| - 1].position,
                        TipBefore(b, |b| - 1), b[|b| - 1].payloadHash, b[|b| - 1].position);
  }

  lemma EqualTipsEqualDigests<C>(h: Hasher<C>, a: seq<Record<C>>, b: seq<Record<C>>)
    requires Walks(h, a) && Walks(h, b) && |a| > 0 && |b| > 0
    requires a[|a| - 1].eventHash == b[|b| - 1].eventHash
    ensures h.digest(StepPreimage(a, |a| - 1)) == h.digest(StepPreimage(b, |b| - 1))
  {
    assert Fault(h, a, |a| - 1).None? && Fault(h, b, |b| - 1).None?;
    EqualEventHashesEqualDigests(h.digest, StepPreimage(a, |a| - 1), StepPreimage(b, |b| - 1));
  }

  lemma SameChainExtends<C>(a: seq<Record<C>>, b: seq<Record<C>>)
    requires |a| == |b| > 0 && SameChain(a[..|a| - 1], b[..|b| - 1])
    requires SameEvent(a[|a| - 1], b[|b| - 1])
    ensures SameChain(a, b)
  {
    forall i | 0 <= i < |a| ensures SameEvent(a[i], b[i]) {
      if i < |a| - 1 {
        assert a[i] == a[..|a| - 1][i] && b[i] == b[..|b| - 1][i];
      }
    }
  }

  /** Agreement of all but the last records, and of the last pre-images, is agreement. */
  lemma SameOrCollisionExtends<C>(h: Hasher<C>, a: seq<Record<C>>, b: seq<Record<C>>)
    requires |a| > 0 && |b| > 0 && StepPreimage(a, |a| - 1) == StepPreimage(b, |b| - 1)
    requires SameEvent(a[|a| - 1], b[|b| - 1])
    requires SameOrCollision(h, a[..|a| - 1], b[..|b| - 1])
    ensures SameOrCollision(h, a, b)
  {
    var d := Divergence(a[..|a| - 1], b[..|b| - 1]);
    assert Divergence(a, b) == d;
    if d.Some? {
      LiftCollision(h, a, b, d.value);
    } else {
      SameChainExtends(a, b);
    }
  }

  /** The central theorem: non-empty chains that verify and end alike are the same chain, or a
      concrete collision has been found. */
  lemma {:induction false} SameTipSameChain<C>(h: Hasher<C>, a: seq<Record<C>>, b: seq<Record<C>>)
    requires Walks(h, a) && Walks(h, b) && |a| > 0 && |b| > 0
    requires a[|a| - 1].eventHash == b[|b| - 1].eventHash
    ensures SameOrCollision(h, a, b)
  {
    hide EventHash, Preimage, Fault;
    var m, n := |a| - 1, |b| - 1;
    EqualTipsEqualDigests(h, a, b);
    var p, q := StepPreimage(a, m), StepPreimage(b, n);
    if p != q {
      assert Divergence(a, b) == Some((p, q));
      assert CollisionBetween(h, a, b, (p, q));
    } else {
      AgreementStep(h, a, b);
      if m > 0 {
        WalksTake(h, a, m);
        WalksTake(h, b, n);
        SameTipSameChain(h, a[..m], b[..n]);
      }
      SameOrCollisionExtends(h, a, b);
    }
  }

  lemma LiftCollision<C>(h: Hasher<C>, a: seq<Record<C>>, b: seq<Record<C>>, pair: (string, string))
    requires |a| > 0 && |b| > 0 && CollisionBetween(h, a[..|a| - 1], b[..|b| - 1], pair)
    ensures CollisionBetween(h, a, b, pair)
  {
    var i :| 0 <= i < |a| - 1 && pair.0 == StepPreimage(a[..|a| - 1], i);
    var j :| 0 <= j < |b| - 1 && pair.1 == StepPreimage(b[..|b| - 1], j);
    StepPreimageDropLast(a, i);
    StepPreimageDropLast(b, j);
  }

  /** A past event cannot be altered quietly: if two verified chains differ at i, they differ in
      every event hash from i on, or a collision shows up. */
  lemma ChangePropagates<C>(h: Hasher<C>, a: seq<Record<C>>, b: seq<Record<C>>, i: nat, j: nat)
    requires Walks(h, a) && Walks(h, b) && i <= j < |a| && j < |b|
    requires !SameEvent(a[i], b[i])
    ensures || a[j].eventHash != b[j].eventHash
            || CollisionShown(h, a[..j + 1], b[..j + 1])
  {
    if a[j].eventHash == b[j].eventHash {
      var a', b' := a[..j + 1], b[..j + 1];
      WalksTake(h, a, j + 1);
      WalksTake(h, b, j + 1);
      SameTipSameChain(h, a', b');
      assert a'[i] == a[i] && b'[i] == b[i];
    }
  }
}
