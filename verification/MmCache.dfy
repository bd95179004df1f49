// The per-size cache of blocks that stay marked as used, and the byte accounts of used blocks,
// over the map of used blocks and the map of blocks the program holds.
module MmCache {
  import opened MmSize
  import opened Seqs
  import opened MmRing
  import opened MmSum

  // Cache list i: distinct used blocks of class i that the program does not hold.
  ghost predicate CacheList(used: map<nat, nat>, live: map<nat, nat>, i: nat, c: seq<nat>) {
    && Distinct(c)
    && (forall j :: 0 <= j < |c| ==> c[j] in used && c[j] !in live && used[c[j]] == MIN_BLOCK + i * ALIGNMENT)
  }

  // Every used block that the program does not hold is in the list of its class.
  ghost predicate CacheOk(used: map<nat, nat>, live: map<nat, nat>, cache: seq<seq<nat>>) {
    && |cache| == NUM_BUCKETS
    && (forall i :: 0 <= i < NUM_BUCKETS ==> CacheList(used, live, i, cache[i]))
    && (forall b :: b in used && b !in live ==>
      BlockSize(used[b]) && Small(used[b]) && b in cache[BucketIndex(used[b])])
  }

  // Held blocks are used blocks large enough for what was asked.
  ghost predicate LiveOk(used: map<nat, nat>, live: map<nat, nat>) {
    forall b :: b in live ==> b in used && live[b] + HEADER <= used[b]
  }

  ghost function CachedBytes(used: map<nat, nat>, live: map<nat, nat>): nat {
    Sum(used - live.Keys)
  }

  // Giving up a held block.
  lemma {:induction false} ForgetLive(used: map<nat, nat>, live: map<nat, nat>, cache: seq<seq<nat>>, b: nat)
    requires CacheOk(used, live, cache) && LiveOk(used, live) && b in live
    ensures CacheOk(used - {b}, live - {b}, cache) && LiveOk(used - {b}, live - {b})
    ensures CachedBytes(used - {b}, live - {b}) == CachedBytes(used, live)
    ensures Sum(used - {b}) == Sum(used) - used[b]
  {
    assert (used - {b}) - (live - {b}).Keys == used - live.Keys;
    SumWithout(used, b);
  }

  // Taking a block that was not used, or changing a held one.
  lemma {:induction false} HoldBlock(used: map<nat, nat>, live: map<nat, nat>, cache: seq<seq<nat>>, b: nat, n: nat,
      r: nat)
    requires CacheOk(used, live, cache) && LiveOk(used, live) && (b in live || b !in used) && r + HEADER <= n
    ensures CacheOk(used[b := n], live[b := r], cache) && LiveOk(used[b := n], live[b := r])
    ensures CachedBytes(used[b := n], live[b := r]) == CachedBytes(used, live)
    ensures Sum(used[b := n]) == Sum(used) + n - if b in used then used[b] else 0
  {
    assert used[b := n] - live[b := r].Keys == used - live.Keys;
    if b in used { SumUpdate(used, b, n); } else { SumWith(used, b, n); }
  }

  // A held block goes to the front of the list of its class.
  lemma {:induction false} PushBlock(used: map<nat, nat>, live: map<nat, nat>, cache: seq<seq<nat>>, b: nat, i: nat)
    requires CacheOk(used, live, cache) && LiveOk(used, live)
    requires b in live && BlockSize(used[b]) && Small(used[b]) && i == BucketIndex(used[b])
    ensures CacheOk(used, live - {b}, cache[i := [b] + cache[i]]) && LiveOk(used, live - {b})
    ensures CachedBytes(used, live - {b}) == CachedBytes(used, live) + used[b]
  {
    var c, live', cache' := cache[i], live - {b}, cache[i := [b] + cache[i]];
    assert CacheList(used, live, i, c);
    assert CacheList(used, live', i, [b] + c);
    forall j | 0 <= j < NUM_BUCKETS
      ensures CacheList(used, live', j, cache'[j])
    {
      assert CacheList(used, live, j, cache[j]);
    }
    forall k | k in used && k !in live'
      ensures BlockSize(used[k]) && Small(used[k]) && k in cache'[BucketIndex(used[k])]
    {
      assert ([b] + c)[0] == b;
    }
    assert (used - live'.Keys) - {b} == used - live.Keys;
    SumWithout(used - live'.Keys, b);
  }

  // The first block of a list is held again.
  lemma {:induction false} PopBlock(used: map<nat, nat>, live: map<nat, nat>, cache: seq<seq<nat>>, i: nat, r: nat)
    requires CacheOk(used, live, cache) && LiveOk(used, live) && i < NUM_BUCKETS && cache[i] != []
    requires r + HEADER <= MIN_BLOCK + i * ALIGNMENT
    ensures var b := cache[i][0];
      && b in used && b !in live && used[b] == MIN_BLOCK + i * ALIGNMENT
      && CacheOk(used, live[b := r], cache[i := cache[i][1..]]) && LiveOk(used, live[b := r])
      && CachedBytes(used, live[b := r]) == CachedBytes(used, live) - used[b]
      && used[b] <= CachedBytes(used, live)
  {
    assert |cache| == NUM_BUCKETS;
    hide CacheOk, CachedBytes;
    var b := cache[i][0];
    HeadOf(used, live, cache, i);
    PopLists(used, live, cache, i, live[b := r]);
    LessCached(used, live, b, r);
  }

  lemma {:induction false} HeadOf(used: map<nat, nat>, live: map<nat, nat>, cache: seq<seq<nat>>, i: nat)
    requires CacheOk(used, live, cache) && i < NUM_BUCKETS && cache[i] != []
    ensures var b := cache[i][0]; b in used && b !in live && used[b] == MIN_BLOCK + i * ALIGNMENT
  {
    assert CacheList(used, live, i, cache[i]);
  }

  lemma {:induction false} LessCached(used: map<nat, nat>, live: map<nat, nat>, b: nat, r: nat)
    requires b in used && b !in live
    ensures CachedBytes(used, live[b := r]) == CachedBytes(used, live) - used[b] && used[b] <= CachedBytes(used, live)
  {
    hide Sum;
    assert used - live[b := r].Keys == (used - live.Keys) - {b};
    SumWithout(used - live.Keys, b);
  }

  lemma {:induction false} PopLists(used: map<nat, nat>, live: map<nat, nat>, cache: seq<seq<nat>>, i: nat,
      live': map<nat, nat>)
    requires CacheOk(used, live, cache) && i < NUM_BUCKETS && cache[i] != []
    requires live'.Keys == live.Keys + {cache[i][0]}
    ensures CacheOk(used, live', cache[i := cache[i][1..]])
  {
    var b, cache' := cache[i][0], cache[i := cache[i][1..]];
    assert CacheList(used, live, i, cache[i]);
    forall j | 0 <= j < NUM_BUCKETS
      ensures CacheList(used, live', j, cache'[j])
    {
      assert CacheList(used, live, j, cache[j]);
    }
    forall k | k in used && k !in live'
      ensures BlockSize(used[k]) && Small(used[k]) && k in cache'[BucketIndex(used[k])]
    {
      if BucketIndex(used[k]) == i { assert k in cache[i]; }
    }
  }

  // The first block of a list stops being used.
  lemma {:induction false} FlushBlock(used: map<nat, nat>, live: map<nat, nat>, cache: seq<seq<nat>>, i: nat)
    requires CacheOk(used, live, cache) && LiveOk(used, live) && i < NUM_BUCKETS && cache[i] != []
    ensures var b := cache[i][0];
      && b in used && b !in live && used[b] == MIN_BLOCK + i * ALIGNMENT
      && CacheOk(used - {b}, live, cache[i := cache[i][1..]]) && LiveOk(used - {b}, live)
      && CachedBytes(used - {b}, live) == CachedBytes(used, live) - used[b]
      && used[b] <= CachedBytes(used, live) && Sum(used - {b}) == Sum(used) - used[b]
  {
    var b := cache[i][0];
    PopBlock(used, live, cache, i, MIN_BLOCK + i * ALIGNMENT - HEADER);
    var live', cache' := live[b := MIN_BLOCK + i * ALIGNMENT - HEADER], cache[i := cache[i][1..]];
    ForgetLive(used, live', cache', b);
    assert live' - {b} == live;
  }

  // With all lists empty, every used block is held.
  lemma {:induction false} EmptyCache(used: map<nat, nat>, live: map<nat, nat>, cache: seq<seq<nat>>)
    requires CacheOk(used, live, cache) && LiveOk(used, live) && (forall i :: 0 <= i < NUM_BUCKETS ==> cache[i] == [])
    ensures used.Keys == live.Keys && CachedBytes(used, live) == 0
  {
    assert used - live.Keys == map[];
    SumEmpty();
  }
}
