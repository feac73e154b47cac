/** The hash chain of core/chain.go: how an event hash commits to its predecessor,
    its payload hash and its position.  The digest is a parameter of which only the
    output shape is known; nothing here assumes that it is injective. */
module HashChain {

  const HASH_PREFIX := "sha256:"
  const GENESIS := "genesis"

  predicate IsHexDigit(c: char) {
    '0' <= c <= '9' || 'a' <= c <= 'f'
  }

  /** 64 lower-case hex characters: hex.EncodeToString of a 32-byte digest. */
  predicate IsHexDigest(s: string) {
    |s| == 64 && forall i :: 0 <= i < |s| ==> IsHexDigit(s[i])
  }

  type HexDigest = s: string | IsHexDigest(s) witness seq(64, i => '0')

  type Digest = string -> HexDigest

  /** A concrete digest collision: two different inputs with one output. */
  predicate Collides(H: Digest, pair: (string, string)) {
    pair.0 != pair.1 && H(pair.0) == H(pair.1)
  }

  // ----- strconv.FormatInt(position, 10) -----

  function Digit(d: nat): char
    requires d < 10
  {
    ('0' as int + d) as char
  }

  function DecimalNat(n: nat): (s: string)
    ensures |s| >= 1
    ensures forall i :: 0 <= i < |s| ==> '0' <= s[i] <= '9'
  {
    if n < 10 then [Digit(n)] else DecimalNat(n / 10) + [Digit(n % 10)]
  }

  function Decimal(n: int): (s: string)
    ensures |s| >= 1
    ensures forall i :: 0 <= i < |s| ==> s[i] != ':'
  {
    if n < 0 then "-" + DecimalNat(-n) else DecimalNat(n)
  }

  lemma {:induction false} DecimalNatInjective(a: nat, b: nat)
    requires DecimalNat(a) == DecimalNat(b)
    ensures a == b
  {
    var s, t := DecimalNat(a), DecimalNat(b);
    assert s[|s| - 1] == Digit(a % 10) && t[|t| - 1] == Digit(b % 10);
    if a >= 10 && b >= 10 {
      assert s[..|s| - 1] == DecimalNat(a / 10) && t[..|t| - 1] == DecimalNat(b / 10);
      DecimalNatInjective(a / 10, b / 10);
    }
  }

  /** No two positions are written alike. */
  lemma DecimalInjective(a: int, b: int)
    requires Decimal(a) == Decimal(b)
    ensures a == b
  {
    assert a < 0 <==> Decimal(a)[0] == '-';
    assert b < 0 <==> Decimal(b)[0] == '-';
    if a < 0 {
      assert Decimal(a)[1..] == DecimalNat(-a) && Decimal(b)[1..] == DecimalNat(-b);
      DecimalNatInjective(-a, -b);
    } else {
      DecimalNatInjective(a, b);
    }
  }

  /** The number that a string of digits denotes, most significant digit first. */
  function ReadDigits(s: string): int {
    if s == "" then 0 else 10 * ReadDigits(s[..|s| - 1]) + (s[|s| - 1] as int - '0' as int)
  }

  /** Digits without padding. */
  predicate IsPlainDigits(s: string) {
    && s != "" && (forall i :: 0 <= i < |s| ==> '0' <= s[i] <= '9')
    && (|s| > 1 ==> s[0] != '0')
  }

  /** A base-10 numeral without padding: plain digits, after a minus sign for a negative number. */
  predicate IsNumeral(s: string, n: int) {
    if n < 0 then s != "" && s[0] == '-' && IsPlainDigits(s[1..]) && ReadDigits(s[1..]) == -n
    else IsPlainDigits(s) && ReadDigits(s) == n
  }

  lemma {:induction false} DecimalNatIsPlain(n: nat)
    ensures IsPlainDigits(DecimalNat(n)) && ReadDigits(DecimalNat(n)) == n
    ensures n > 0 ==> DecimalNat(n)[0] != '0'
  {
    var s := DecimalNat(n);
    if n < 10 {
      assert s[..0] == "";
    } else {
      DecimalNatIsPlain(n / 10);
      assert s[..|s| - 1] == DecimalNat(n / 10);
    }
  }

  lemma {:induction false} PlainDigitsValue(s: string)
    requires IsPlainDigits(s)
    ensures ReadDigits(s) >= 0 && (s[0] != '0' ==> ReadDigits(s) >= 1) && (|s| > 1 ==> ReadDigits(s) >= 10)
  {
    if |s| == 1 {
      assert s[..0] == "";
    } else {
      PlainDigitsValue(s[..|s| - 1]);
    }
  }

  /** Plain digits are how their number is written. */
  lemma {:induction false} PlainDigitsAreDecimal(s: string)
    requires IsPlainDigits(s)
    ensures ReadDigits(s) >= 0 && DecimalNat(ReadDigits(s)) == s
  {
    PlainDigitsValue(s);
    var n := |s| - 1;
    assert s == s[..n] + [s[n]];
    if n > 0 {
      PlainDigitsAreDecimal(s[..n]);
    } else {
      assert s[..0] == "";
    }
  }

  /** The position is written in base 10 without padding, and only that way. */
  lemma DecimalExactly(s: string, n: int)
    ensures s == Decimal(n) <==> IsNumeral(s, n)
  {
    hide IsPlainDigits, ReadDigits, DecimalNat;
    if n < 0 {
      DecimalNatIsPlain(-n);
      assert Decimal(n)[1..] == DecimalNat(-n);
      if IsNumeral(s, n) {
        PlainDigitsAreDecimal(s[1..]);
        assert s == "-" + s[1..];
      }
    } else {
      DecimalNatIsPlain(n);
      if IsNumeral(s, n) {
        PlainDigitsAreDecimal(s);
      }
    }
  }

  // ----- the pre-image -----

  /** The empty previous hash is written as the literal "genesis". */
  function Normalize(previousHash: string): string {
    if previousHash == "" then GENESIS else previousHash
  }

  function Preimage(previousHash: string, payloadHash: string, position: int): string {
    Normalize(previousHash) + ":" + payloadHash + ":" + Decimal(position)
  }

  function EventHash(H: Digest, previousHash: string, payloadHash: string, position: int): string {
    HASH_PREFIX + H(Preimage(previousHash, payloadHash, position))
  }

  /** The text that is hashed, for every position and its numeral. */
  lemma EventHashText(H: Digest, previousHash: string, payloadHash: string, position: int, numeral: string)
    requires IsNumeral(numeral, position)
    ensures EventHash(H, previousHash, payloadHash, position)
            == "sha256:" + H((if previousHash == "" then "genesis" else previousHash) + ":" + payloadHash + ":" + numeral)
  {
    hide IsNumeral;
    DecimalExactly(numeral, position);
  }

  lemma PreimageExamples()
    ensures Preimage("", "p", 12) == "genesis:p:12"
    ensures Preimage("sha256:x", "p", 8) == "sha256:x:p:8"
    ensures Preimage("x", "p", -305) == "x:p:-305"
  {
    assert DecimalNat(30) == "30";
  }

  /** What EventHash produces: the algorithm tag and a digest. */
  predicate IsTaggedHash(s: string) {
    |s| == 71 && s[..7] == HASH_PREFIX && IsHexDigest(s[7..])
  }

  /** What a chain walk passes to EventHash as the previous hash. */
  predicate IsLink(s: string) {
    s == "" || s == GENESIS || IsTaggedHash(s)
  }

  lemma EventHashIsTagged(H: Digest, previousHash: string, payloadHash: string, position: int)
    ensures IsTaggedHash(EventHash(H, previousHash, payloadHash, position))
  {
    var d := H(Preimage(previousHash, payloadHash, position));
    assert (HASH_PREFIX + d)[..7] == HASH_PREFIX;
    assert (HASH_PREFIX + d)[7..] == d;
  }

  /** Equal event hashes come from digests of equal value. */
  lemma EqualEventHashesEqualDigests(H: Digest, a: string, b: string)
    requires HASH_PREFIX + H(a) == HASH_PREFIX + H(b)
    ensures H(a) == H(b)
  {
    assert (HASH_PREFIX + H(a))[7..] == H(a);
    assert (HASH_PREFIX + H(b))[7..] == H(b);
  }

  /** Text after the last colon is determined, because neither tail holds a colon. */
  lemma LastColonSplit(a: string, b: string, x: string, y: string)
    requires a + ":" + x == b + ":" + y
    requires forall i :: 0 <= i < |x| ==> x[i] != ':'
    requires forall i :: 0 <= i < |y| ==> y[i] != ':'
    ensures a == b && x == y
  {
    var s, t := a + ":" + x, b + ":" + y;
    assert s[|a|] == ':' && t[|b|] == ':';
    assert forall k :: |a| < k < |s| ==> s[k] == x[k - |a| - 1] != ':';
    assert forall k :: |b| < k < |t| ==> t[k] == y[k - |b| - 1] != ':';
    assert |a| == |b|;
    assert a == s[..|a|] == t[..|b|] == b;
    assert x == s[|a| + 1..] == t[|b| + 1..] == y;
  }

  /** A genesis head never equals a linked head, whatever the payload strings are. */
  lemma HeadSplit(p: string, q: string, x: string, y: string)
    requires IsLink(p) && IsLink(q)
    requires Normalize(p) + ":" + x == Normalize(q) + ":" + y
    ensures Normalize(p) == Normalize(q) && x == y
  {
    var m, n := Normalize(p), Normalize(q);
    var s, t := m + ":" + x, n + ":" + y;
    assert s[0] == m[0] && t[0] == n[0];
    assert IsTaggedHash(p) ==> p[0] == p[..7][0] == 's';
    assert IsTaggedHash(q) ==> q[0] == q[..7][0] == 's';
    assert |m| == |n|;
    assert m == s[..|m|] == t[..|n|] == n;
    assert x == s[|m| + 1..] == t[|n| + 1..] == y;
  }

  /** The pre-image determines all three of its parts, up to "" standing for genesis. */
  lemma PreimageUnambiguous(p: string, payload: string, position: int, q: string, payload': string, position': int)
    requires IsLink(p) && IsLink(q)
    requires Preimage(p, payload, position) == Preimage(q, payload', position')
    ensures Normalize(p) == Normalize(q) && payload == payload' && position == position'
  {
    var a, b := Normalize(p) + ":" + payload, Normalize(q) + ":" + payload';
    LastColonSplit(a, b, Decimal(position), Decimal(position'));
    DecimalInjective(position, position');
    HeadSplit(p, q, payload, payload');
  }

  // ----- previous hashes of any shape -----

  /** One previous hash, with its colon, properly begins the other. */
  predicate Confusable(p: string, q: string) {
    Normalize(p) + ":" < Normalize(q) + ":" || Normalize(q) + ":" < Normalize(p) + ":"
  }

  /** The pre-image is shared by two different readings, one per previous hash. */
  predicate SharesPreimage(p: string, x: string, n: int, q: string, y: string, m: int) {
    Preimage(p, x, n) == Preimage(q, y, m) && (Normalize(p) != Normalize(q) || x != y || n != m)
  }

  /** A shared pre-image has one position, and its previous hashes are confusable. */
  lemma SharedMeansConfusable(p: string, x: string, n: int, q: string, y: string, m: int)
    requires SharesPreimage(p, x, n, q, y, m)
    ensures Confusable(p, q) && n == m
  {
    var a, b := Normalize(p) + ":", Normalize(q) + ":";
    LastColonSplit(a + x, b + y, Decimal(n), Decimal(m));
    DecimalInjective(n, m);
    var s := a + x;
    assert a == s[..|a|] && b == s[..|b|] && x == s[|a|..] && y == s[|b|..];
    assert Normalize(p) == a[..|a| - 1] && Normalize(q) == b[..|b| - 1];
  }

  /** What the longer of two confusable previous hashes has in excess can move to the payload. */
  lemma ConfusableShare(p: string, q: string, n: int) returns (x: string, y: string)
    requires Confusable(p, q)
    ensures SharesPreimage(p, x, n, q, y, n)
  {
    var a, b := Normalize(p) + ":", Normalize(q) + ":";
    if a < b {
      x, y := b[|a|..], "";
      assert a + x == b + y;
    } else {
      x, y := "", a[|b|..];
      assert a + x == b + y;
    }
    assert Normalize(p) == a[..|a| - 1] && Normalize(q) == b[..|b| - 1];
    assert Preimage(p, x, n) == (a + x) + ":" + Decimal(n);
    assert Preimage(q, y, n) == (b + y) + ":" + Decimal(n);
  }

  /** Exactly which previous hashes make the pre-image ambiguous. */
  lemma PreimageAmbiguousExactly(p: string, q: string)
    ensures (exists x, n, y, m :: SharesPreimage(p, x, n, q, y, m)) <==> Confusable(p, q)
  {
    if Confusable(p, q) {
      var x, y := ConfusableShare(p, q, 1);
    }
    forall x, n, y, m | SharesPreimage(p, x, n, q, y, m) ensures Confusable(p, q) {
      SharedMeansConfusable(p, x, n, q, y, m);
    }
  }

  /** No two previous hashes of a chain walk are confusable. */
  lemma LinksAreNotConfusable(p: string, q: string)
    requires IsLink(p) && IsLink(q)
    ensures !Confusable(p, q)
  {
    if Confusable(p, q) {
      var x, y := ConfusableShare(p, q, 1);
      PreimageUnambiguous(p, x, 1, q, y, 1);
    }
  }

  /** A pair of previous hashes that is confusable: a colon may move from one part to the next. */
  lemma PreimageAmbiguousForArbitraryPrevious()
    ensures SharesPreimage("a:b", "c", 1, "a", "b:c", 1)
  {
    assert "a:b" + ":" + "c" == "a" + ":" + "b:c";
  }
}
