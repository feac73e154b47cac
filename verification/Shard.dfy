/** Which shard an event goes to (server/internal/shard/shard.go). */
module Shard {

  const DEFAULT_COUNT := 8

  function EffectiveCount(count: int): (n: int)
    ensures n > 0
  {
    if count <= 0 then DEFAULT_COUNT else count
  }

  /** The answers that IndexFor may give: any shard for the empty key, otherwise the one that
      the key's FNV-1a hash selects. */
  predicate IsIndexFor(fnv: string -> nat, key: string, count: int, index: int) {
    if key == "" then 0 <= index < EffectiveCount(count)
    else index == fnv(key) % EffectiveCount(count)
  }

  /** Routing stays in range, and a non-empty key has one shard only. */
  lemma RoutingDeterministic(fnv: string -> nat, key: string, count: int, a: int, b: int)
    requires IsIndexFor(fnv, key, count, a) && IsIndexFor(fnv, key, count, b)
    ensures 0 <= a < EffectiveCount(count)
    ensures key != "" ==> a == b
  {
  }

  /** IndexFor: the key's hash picks the shard; a draw picks it for the empty key. */
  method IndexFor(fnv: string -> nat, key: string, count: int, draw: nat) returns (index: int)
    requires draw < EffectiveCount(count)
    ensures IsIndexFor(fnv, key, count, index)
    ensures 0 <= index < (if count <= 0 then 8 else count)
    ensures key != "" ==> index == fnv(key) % (if count <= 0 then 8 else count)
    ensures key == "" ==> index == draw
  {
    var n := count;
    if n <= 0 {
      n := DEFAULT_COUNT;
    }
    if key == "" {
      return draw;
    }
    index := fnv(key) % n;
  }
}
