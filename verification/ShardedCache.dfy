/** A cache split into shards (external/rocksdb/cache/sharded_cache.cc): the capacity is divided among
    them, rounding up, and the usage is the sum of theirs. */
module ShardedCache {
  import opened ClockHandle
  import opened ClockShard
  import ClockState
  import ClockRuns
  import ClockOverflow

  /** `1 << num_shard_bits`. */
  function NumShards(bits: nat): (n: nat)
    ensures n >= 1
  {
    if bits == 0 then 1 else 2 * NumShards(bits - 1)
  }

  /** `(capacity + (num_shards - 1)) / num_shards` in size_t. */
  function PerShard(capacity: nat, n: nat): nat
    requires n >= 1
  {
    (capacity + (n - 1)) % SIZE / n
  }

  /** The shares cover the capacity, and exceed it by less than the number of shards. */
  lemma SharesCover(capacity: nat, n: nat)
    requires n >= 1 && capacity + (n - 1) < SIZE
    ensures capacity <= n * PerShard(capacity, n) < capacity + n
  {
    var x := capacity + (n - 1);
    assert x % SIZE == x;
    assert x == n * (x / n) + x % n;
  }

  /** They do so exactly when the rounding does not overflow. */
  lemma SharesCoverIff(capacity: nat, n: nat)
    requires 1 <= n && capacity < SIZE && n < SIZE
    ensures capacity <= n * PerShard(capacity, n) <==> capacity + (n - 1) < SIZE
  {
    var x := capacity + (n - 1);
    if x < SIZE {
      SharesCover(capacity, n);
    } else {
      assert x % SIZE == x - SIZE;
      assert n * ((x - SIZE) / n) <= x - SIZE;
    }
  }

  function SumUsage(shards: seq<Shard>): nat {
    if shards == [] then 0 else SumUsage(shards[..|shards| - 1]) + shards[|shards| - 1].usage
  }

  /** Every shard after SetCapacity. */
  function AllResized(shards: seq<Shard>, capacity: nat): (r: seq<Shard>)
    requires forall i | 0 <= i < |shards| :: shards[i].usage != 0 ==> shards[i].head < |shards[i].handles|
    ensures |r| == |shards|
  {
    seq(|shards|, i requires 0 <= i < |shards| => Resized(shards[i], capacity))
  }

  class ShardedClockCache {
    var shards: seq<Shard>
    var capacity: nat
    const numShardBits: nat

    predicate Valid()
      reads this
    {
      && |shards| == NumShards(numShardBits)
      && forall i | 0 <= i < |shards| :: shards[i].usage != 0 ==> shards[i].head < |shards[i].handles|
    }

    constructor (bits: nat)
      ensures Valid() && fresh(this) && numShardBits == bits
              && shards == seq(NumShards(bits), _ => Shard([], [], map[], 0, 0, 0, 0, false, []))
    {
      numShardBits := bits;
      capacity := 0;
      shards := seq(NumShards(bits), _ => Shard([], [], map[], 0, 0, 0, 0, false, []));
    }

    /** SetCapacity (sharded_cache.cc:29-37). */
    method SetCapacity(total: nat)
      requires Valid()
      modifies this
      ensures shards == AllResized(old(shards), PerShard(total, |old(shards)|)) && capacity == total
    {
      hide Resized, PerShard;
      var n := |shards|;
      var perShard := PerShard(total, n);
      ghost var before := shards;
      for i := 0 to n
        invariant |shards| == n
        invariant forall k | 0 <= k < i :: shards[k] == Resized(before[k], perShard)
        invariant forall k | i <= k < n :: shards[k] == before[k]
      {
        shards := shards[i := Resized(shards[i], perShard)];
      }
      capacity := total;
    }

    /** GetUsage (sharded_cache.cc:90-98): the sum wraps around in size_t. */
    method GetUsage() returns (usage: nat)
      requires Valid()
      ensures usage == SumUsage(shards) % SIZE
    {
      usage := 0;
      for i := 0 to |shards|
        invariant usage == SumUsage(shards[..i]) % SIZE
      {
        assert shards[..i + 1][..i] == shards[..i];
        ModuloSubtract(SumUsage(shards[..i]), shards[i].usage);
        usage := (usage + shards[i].usage) % SIZE;
      }
      assert shards[..|shards|] == shards;
    }
  }

  /** The usages of shards that run concurrently and on their own. */
  function TotalUsage(states: seq<ClockState.State>): nat {
    if states == [] then 0 else TotalUsage(states[..|states| - 1]) + states[|states| - 1].usage
  }

  lemma {:induction false} UsageBound(states: seq<ClockState.State>, limit: nat)
    requires forall i | 0 <= i < |states| :: states[i].usage <= limit
    ensures TotalUsage(states) <= |states| * limit
  {
    if states != [] {
      UsageBound(states[..|states| - 1], limit);
      assert |states| * limit == (|states| - 1) * limit + limit;
    }
  }

  /** With the strict limit on, the total usage stays below the capacity plus the number of shards,
      whatever runs in the shards. */
  lemma StrictTotal(states: seq<ClockState.State>, threads: nat, capacity: nat, histories: seq<seq<ClockState.Event>>)
    requires states != [] && |histories| == |states| && capacity + (|states| - 1) < SIZE
    requires forall i | 0 <= i < |states| ::
               && states[i] ==
                  ClockState.Run(ClockState.Init(threads, PerShard(capacity, |states|), true), histories[i])
               && forall e | e in histories[i] :: ClockRuns.Modest(e, PerShard(capacity, |states|))
    ensures TotalUsage(states) < capacity + |states|
  {
    hide ClockState.Run, ClockRuns.Modest, TotalUsage;
    var n := |states|;
    var limit := PerShard(capacity, n);
    SharesCover(capacity, n);
    ShareIsSmall(capacity, n);
    forall i | 0 <= i < n ensures states[i].usage <= limit {
      ClockRuns.StrictLimit(threads, limit, histories[i]);
    }
    UsageBound(states, limit);
  }

  lemma ShareIsSmall(capacity: nat, n: nat)
    requires n >= 1 && capacity + (n - 1) < SIZE
    ensures PerShard(capacity, n) < SIZE
  {
    var x := capacity + (n - 1);
    var q := x / n;
    assert x == n * q + x % n;
    assert n * q == (n - 1) * q + q;
    assert (n - 1) * q >= 0;
  }

  // ----- the exact condition -----

  /** What the entries of all shards are charged, whether or not the shards report it. */
  function AllCharges(states: seq<ClockState.State>): nat {
    if states == [] then 0
    else
      var last := states[|states| - 1];
      AllCharges(states[..|states| - 1]) + TotalCharge(last.handles, last.recycle)
  }

  /** Shards that have gone through their histories, each with an equal share of the capacity. */
  function AllRun(threads: nat, share: nat, histories: seq<seq<ClockState.Event>>): seq<ClockState.State> {
    seq(|histories|, i requires 0 <= i < |histories| =>
      ClockState.Run(ClockState.Init(threads, share, true), histories[i]))
  }

  predicate AllCharged(histories: seq<seq<ClockState.Event>>, x: nat) {
    forall i | 0 <= i < |histories| :: ClockOverflow.AllCharged(histories[i], x)
  }

  lemma {:induction false} ChargesBound(states: seq<ClockState.State>, limit: nat)
    requires forall i | 0 <= i < |states| :: ClockOverflow.KeepsLimit(states[i], limit)
    ensures AllCharges(states) <= |states| * limit
  {
    hide TotalCharge;
    if states != [] {
      ChargesBound(states[..|states| - 1], limit);
      assert |states| * limit == (|states| - 1) * limit + limit;
    }
  }

  lemma {:induction false} ChargesCover(states: seq<ClockState.State>, i: nat)
    requires i < |states|
    ensures TotalCharge(states[i].handles, states[i].recycle) <= AllCharges(states)
  {
    hide TotalCharge;
    if i < |states| - 1 {
      ChargesCover(states[..|states| - 1], i);
    }
  }

  /** The entries of all shards stay below the capacity plus the number of shards in every run with charges
      of at most `x`, exactly when such a charge cannot overflow the share of one shard. */
  lemma StrictTotalIff(capacity: nat, n: nat, x: nat)
    requires n >= 1 && capacity + (n - 1) < SIZE && x < SIZE
    ensures (forall threads: nat, histories | |histories| == n && AllCharged(histories, x) ::
               AllCharges(AllRun(threads, PerShard(capacity, n), histories)) < capacity + n)
            <==> PerShard(capacity, n) + x < SIZE
  {
    hide PerShard, AllCharges, AllRun, AllCharged;
    var share := PerShard(capacity, n);
    ShareIsSmall(capacity, n);
    if share + x < SIZE {
      forall threads: nat, histories | |histories| == n && AllCharged(histories, x)
        ensures AllCharges(AllRun(threads, share, histories)) < capacity + n
      {
        SharesKeep(threads, capacity, histories, x);
      }
    } else {
      var histories := OneOverflows(capacity, n, x);
      assert |histories| == n && AllCharged(histories, x) && AllCharges(AllRun(1, share, histories)) >= capacity + n;
    }
  }

  lemma SharesKeep(threads: nat, capacity: nat, histories: seq<seq<ClockState.Event>>, x: nat)
    requires histories != [] && capacity + (|histories| - 1) < SIZE && AllCharged(histories, x)
    requires PerShard(capacity, |histories|) + x < SIZE
    ensures AllCharges(AllRun(threads, PerShard(capacity, |histories|), histories)) < capacity + |histories|
  {
    hide ClockState.Run, ClockOverflow.AllCharged, ClockOverflow.KeepsLimit, PerShard, AllCharges;
    var n := |histories|;
    var share := PerShard(capacity, n);
    SharesCover(capacity, n);
    var states := AllRun(threads, share, histories);
    forall i | 0 <= i < n ensures ClockOverflow.KeepsLimit(states[i], share) {
      ClockOverflow.StrictLimitIff(share, x);
    }
    ChargesBound(states, share);
  }

  /** One shard overflows, and nothing happens in the others. */
  lemma OneOverflows(capacity: nat, n: nat, x: nat) returns (histories: seq<seq<ClockState.Event>>)
    requires n >= 1 && capacity + (n - 1) < SIZE && x < SIZE
             && PerShard(capacity, n) < SIZE <= PerShard(capacity, n) + x
    ensures |histories| == n && AllCharged(histories, x)
    ensures AllCharges(AllRun(1, PerShard(capacity, n), histories)) >= capacity + n
  {
    hide ClockState.Run, PerShard, AllCharges;
    var share := PerShard(capacity, n);
    var events := ClockOverflow.StrictLimitOverflows(share, x);
    histories := seq(n, i => if i == 0 then events else []);
    ChargesCover(AllRun(1, share, histories), 0);
  }
}
