/**
 The sharded in-memory cache: a fixed-length sequence of shards, each a map
 from banner id to its click count since the last drain. The cache's routing
 function is not part of this model; it is a parameter `route` of which only
 the range is known, so nothing here depends on a particular hash.
 */
module InMemory {

  /** One shard's live data (`Shard.Data`). */
  type Shard = map<int, nat>

  /** `GetShard`'s choice of shard index for a key, given the number of shards. */
  type Router = (int, nat) -> nat

  /** The routing function always picks one of the `n` shards (and there is at least one). */
  ghost predicate InRange(route: Router, n: nat)
  {
    0 < n && forall k :: route(k, n) < n
  }

  /** Every key sits only in the shard the router picks for it. */
  ghost predicate Routed(route: Router, shards: seq<Shard>)
  {
    forall i, k :: 0 <= i < |shards| && k in shards[i] ==> route(k, |shards|) == i
  }

  /** `GetShard(k)`: the index of the shard that owns `k`. */
  function GetShard(route: Router, shards: seq<Shard>, k: int): (i: nat)
    requires InRange(route, |shards|)
    ensures i < |shards|
  {
    route(k, |shards|)
  }

  /** The count held for `k` in one shard, 0 when absent. */
  function Count(sh: Shard, k: int): nat
  {
    if k in sh then sh[k] else 0
  }

  /** The live (not yet drained) count of `k`: what its own shard holds for it. */
  function Live(route: Router, shards: seq<Shard>, k: int): nat
    requires InRange(route, |shards|)
  {
    Count(shards[GetShard(route, shards, k)], k)
  }

  /** A freshly constructed cache of `n` shards: every shard empty. */
  function Empty(n: nat): (shards: seq<Shard>)
    ensures |shards| == n
    ensures forall i :: 0 <= i < n ==> shards[i] == map[]
  {
    seq(n, _ => map[])
  }

  /** An empty cache is trivially routed, whatever the routing function. */
  lemma EmptyRouted(route: Router, n: nat)
    ensures Routed(route, Empty(n))
  {
  }
}
