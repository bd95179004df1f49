// How each change of the layout, the cache or the accounts keeps the invariant of a heap.
module MmSteps {
  import opened MmSize
  import opened MmBits
  import opened Seqs
  import opened MmRing
  import opened MmTrie
  import opened MmRings
  import opened MmIndex
  import opened MmSearch
  import opened MmTags
  import opened MmSum
  import opened MmCache
  import opened MmHeap

  const INITIAL_LIMIT: nat := 0x4000_0000_0000_0000

  // The parts of the invariant that changes of the layout touch.
  ghost predicate LayoutOk(h: Heap, x: Index) {
    && TagsOk(h.l) && ParamsOk(h.unit, h.limit) && SegmentsOk(h.list, h.l.seg, h.unit)
    && h.realSize == Sum(h.l.seg) && PeaksOk(h.realSize, h.realPeak, h.reals)
    && Indexed(h.l.hdr, x)
  }

  // g is h after a change of the layout that takes block b out of use.
  ghost predicate BlockGone(h: Heap, g: Heap, b: nat) {
    && g == h.(l := g.l, list := g.list, realSize := g.realSize, reals := g.reals)
    && UsedBlocks(g) == UsedBlocks(h) - {b}
    && g.realSize <= h.realSize
  }

  // The rest of a run fits the index.
  lemma {:induction false} RemainderSize(h: Heap, b: nat, n: nat, m: nat)
    requires Carvable(h.l, b, n, m) && MIN_BLOCK <= n - m && ParamsOk(h.unit, h.limit)
      && SegmentsOk(h.list, h.l.seg, h.unit)
    ensures Indexable(n - m)
  {
    hide Tiled, HeadersAligned, Coalesced;
    RunBound(h.l, b, n);
    BelowWord(n - m);
  }

  lemma {:induction false} NoFreeRemainder(l: Layout, b: nat, n: nat, m: nat)
    requires b + n in l.hdr && b in l.hdr && b + m !in Fused(l, b, n, Used).hdr
    ensures b + m !in Blocks(Fused(l, b, n, Used).hdr, Free)
  {
  }

  // g is h with cached blocks flushed: what the program holds is as before, and the flushed bytes
  // are lost from the account of size.
  ghost predicate FlushedTo(h: Heap, g: Heap) {
    && g.live == h.live && g.mem == h.mem && g.unit == h.unit && g.limit == h.limit
    && g.size == h.size && g.peak == h.peak && g.realPeak == h.realPeak && g.realSize <= h.realSize
    && g.lost + g.cached == h.lost + h.cached && h.lost <= g.lost
    && (forall b :: b in h.live ==> b in UsedBlocks(h) && b in UsedBlocks(g) && UsedBlocks(g)[b] == UsedBlocks(h)[b])
  }

  lemma {:induction false} FlushedTransitive(h: Heap, g: Heap, f: Heap)
    requires FlushedTo(h, g) && FlushedTo(g, f)
    ensures FlushedTo(h, f)
  {
  }

  lemma {:induction false} FlushedSelf(h: Heap)
    requires HeapOk(h)
    ensures FlushedTo(h, h)
  {
    hide TagsOk, CacheOk, AccountsOk, PeaksOk, SegmentsOk;
  }

  lemma {:induction false} CacheSize(h: Heap)
    requires HeapOk(h)
    ensures |h.cache| == NUM_BUCKETS
  {
    hide TagsOk, CacheOk, AccountsOk, PeaksOk, SegmentsOk, LiveOk;
  }

  // With all lists empty nothing is cached.
  lemma {:induction false} AllFlushed(h: Heap)
    requires HeapOk(h) && (forall i :: 0 <= i < |h.cache| ==> h.cache[i] == [])
    ensures h.cached == 0 && UsedBlocks(h).Keys == h.live.Keys
  {
    hide TagsOk, CacheOk, CachedBytes, PeaksOk, SegmentsOk, Sum;
    EmptyCache(UsedBlocks(h), h.live, h.cache);
  }

  // h, read with list c in place of cache list i.
  ghost function WithList(h: Heap, i: nat, c: seq<nat>): Heap
    requires i < |h.cache|
  {
    h.(cache := h.cache[i := c])
  }

  // Flushing the first block of a cache list.
  lemma {:induction false} AfterFlush(h: Heap, g: Heap, f: Heap, x: Index, i: nat, c: seq<nat>)
    requires i < |h.cache| && i < NUM_BUCKETS && HeapOk(WithList(h, i, c)) && c != []
    requires c[0] in UsedBlocks(h) && UsedBlocks(h)[c[0]] <= h.cached
    requires g == h.(cached := h.cached - UsedBlocks(h)[c[0]], lost := h.lost + UsedBlocks(h)[c[0]])
    requires LayoutOk(f, x) && BlockGone(g, f, c[0])
    ensures HeapOk(WithList(f, i, c[1..])) && Indexed(f.l.hdr, x)
    ensures FlushedTo(h, f) && f.cache == h.cache
  {
    hide IndexOk, Tiled, Coalesced, HeadersAligned, CacheOk, CachedBytes, SegmentsOk;
    var w := WithList(h, i, c);
    assert w.cache[i] == c && w.cache[i := c[1..]] == h.cache[i := c[1..]];
    FlushBlock(UsedBlocks(w), w.live, w.cache, i);
  }

  lemma {:induction false} LayoutOf(h: Heap, g: Heap, x: Index, i: nat, c: seq<nat>)
    requires i < |h.cache| && HeapOk(WithList(h, i, c)) && Indexed(h.l.hdr, x)
      && g == h.(cached := g.cached, lost := g.lost)
    ensures LayoutOk(g, x)
  {
    hide TagsOk, CacheOk, CachedBytes, PeaksOk, SegmentsOk, Sum, LiveOk;
  }

  lemma {:induction false} FlushHead(h: Heap, i: nat, c: seq<nat>)
    requires i < |h.cache| && HeapOk(WithList(h, i, c)) && c != []
    ensures i < NUM_BUCKETS
    ensures c[0] in UsedBlocks(h) && UsedBlocks(h)[c[0]] <= h.cached && c[0] !in h.live
    ensures h.l.hdr[c[0]].n == MIN_BLOCK + i * ALIGNMENT
  {
    hide IndexOk, Tiled, Coalesced, HeadersAligned, SegmentsOk;
    FlushBlock(UsedBlocks(h), h.live, h.cache[i := c], i);
  }

  // Caching a held block.
  lemma {:induction false} AfterPush(h: Heap, g: Heap, x: Index, b: nat, i: nat)
    requires HeapOk(h) && Indexed(h.l.hdr, x) && b in h.live && BlockSize(h.l.hdr[b].n) && Small(h.l.hdr[b].n)
      && i == BucketIndex(h.l.hdr[b].n)
    requires h.cached < CACHE_SIZE
    requires g == h.(mem := Erased(h.mem, b + HEADER, b + h.l.hdr[b].n), cache := h.cache[i := [b] + h.cache[i]],
                     live := h.live - {b}, cached := h.cached + h.l.hdr[b].n)
    ensures HeapOk(g) && Indexed(g.l.hdr, x) && Kept(h, g, b)
  {
    hide IndexOk, Tiled, Coalesced, HeadersAligned, CacheOk, CachedBytes, SegmentsOk, Erased;
    PushBlock(UsedBlocks(h), h.live, h.cache, b, i);
    EraseKeeps(h, g, b, h.l.hdr[b].n);
  }

  // Freeing a held block.
  lemma {:induction false} AfterFree(h: Heap, g: Heap, f: Heap, x: Index, b: nat)
    requires HeapOk(h) && b in h.live && h.l.hdr[b].n <= h.size
    requires g == h.(mem := Erased(h.mem, b + HEADER, b + h.l.hdr[b].n), live := h.live - {b},
                     size := h.size - h.l.hdr[b].n, sizes := h.sizes + {h.size - h.l.hdr[b].n})
    requires LayoutOk(f, x) && BlockGone(g, f, b)
    ensures HeapOk(f) && Indexed(f.l.hdr, x) && Kept(h, f, b)
  {
    hide IndexOk, Tiled, Coalesced, HeadersAligned, CacheOk, CachedBytes, SegmentsOk, Erased;
    ForgetLive(UsedBlocks(h), h.live, h.cache, b);
    EraseKeeps(h, f, b, h.l.hdr[b].n);
  }

  // LayoutOk, except that some free blocks are not indexed.
  ghost predicate LayoutOkWithout(h: Heap, x: Index, out: set<nat>) {
    && TagsOk(h.l) && ParamsOk(h.unit, h.limit) && SegmentsOk(h.list, h.l.seg, h.unit)
    && h.realSize == Sum(h.l.seg) && PeaksOk(h.realSize, h.realPeak, h.reals)
    && IndexOk(x) && x.t.size == FreeBlocks(h) - out
  }

  lemma {:induction false} RunIsUnindexed(h: Heap, b: nat, s: nat, e: nat, x: Index)
    requires FreeRun(h.l, b, s, e) && x.t.size == FreeBlocks(h) - {s, b + h.l.hdr[b].n}
    ensures s !in x.t.size
  {
  }

  lemma {:induction false} AfterMerge(h: Heap, g: Heap, x: Index, y: Index, b: nat, s: nat, e: nat)
    requires FreeRun(h.l, b, s, e) && h.l.hdr[b].tag == Used && LayoutOkWithout(h, x, {s, b + h.l.hdr[b].n})
    requires !(h.l.hdr[s].ptag == Guard && h.l.hdr[e].tag == Guard)
    requires g == h.(l := Fused(h.l, s, e - s, Free)) && IndexOk(y) && Filed(x, y, s, e - s)
    ensures LayoutOk(g, y) && BlockGone(h, g, b)
  {
    hide IndexOk, Tiled, Coalesced, Blocks;
    MergedTags(h.l, b, s, e);
    SubsetAligned(h.l, g.l);
    MergedBlocks(h.l, b, s, e);
  }

  lemma {:induction false} AfterRelease(h: Heap, g: Heap, x: Index, b: nat, s: nat, e: nat)
    requires FreeRun(h.l, b, s, e) && h.l.hdr[b].tag == Used && LayoutOkWithout(h, x, {s, b + h.l.hdr[b].n})
    requires h.l.hdr[s].ptag == Guard && h.l.hdr[e].tag == Guard && SEGMENT_HEADER <= s
    requires SegmentGone(h, g, s - SEGMENT_HEADER)
    ensures LayoutOk(g, x) && BlockGone(h, g, b)
  {
    hide IndexOk, Tiled, Coalesced, Blocks;
    ReleasedTiled(h.l, s - SEGMENT_HEADER);
    ReleasedCoalesced(h.l, s - SEGMENT_HEADER);
    SubsetAligned(h.l, g.l);
    ReleasedBlocks(h.l, b, s, e);
  }

  // g is h without segment s.
  ghost predicate SegmentGone(h: Heap, g: Heap, s: nat) {
    && s in h.l.seg
    && g.l == Released(h.l, s)
    && SegmentsOk(g.list, g.l.seg, g.unit)
    && g.realSize == Sum(g.l.seg) == h.realSize - h.l.seg[s] && g.reals == h.reals + {g.realSize}
    && g == h.(l := g.l, list := g.list, realSize := g.realSize, reals := g.reals)
  }

  lemma {:induction false} Unlinked(h: Heap, g: Heap, s: nat, i: nat)
    requires SegmentsOk(h.list, h.l.seg, h.unit) && s in h.l.seg && i < |h.list| && h.list[i] == s
      && h.realSize == Sum(h.l.seg) == h.l.seg[s] + Sum(h.l.seg - {s})
    requires g == h.(l := Released(h.l, s), list := Removed(h.list, i), realSize := h.realSize - h.l.seg[s],
      reals := h.reals + {h.realSize - h.l.seg[s]})
    ensures SegmentGone(h, g, s)
  {
    hide SegmentsOk, Sum;
    ListWithout(h.list, h.l.seg, h.unit, s, i);
  }

  lemma {:induction false} ListWithout(list: seq<nat>, seg: map<nat, nat>, unit: nat, s: nat, i: nat)
    requires SegmentsOk(list, seg, unit) && s in seg && i < |list| && list[i] == s
    ensures SegmentsOk(Removed(list, i), seg - {s}, unit)
  {
    hide Removed;
    forall t
      ensures t in Removed(list, i) <==> t in seg - {s}
    {
      RemovedHas(list, i, t);
    }
    RemovedDistinct(list, i);
  }

  // ---------- giving out a block ----------

  // The block of r bytes is large enough, and less than a smallest block is to spare.
  ghost predicate SizedFor(h: Heap, b: nat, r: nat) {
    b in UsedBlocks(h) && r + HEADER <= UsedBlocks(h)[b] < TrueSize(r) + MIN_BLOCK
  }

  // g is h with block b given out for a request of r bytes: b was not held, the held blocks keep
  // their places and contents, and a segment is acquired only within the limit.
  ghost predicate Given(h: Heap, g: Heap, b: nat, r: nat) {
    && b !in h.live && g.live == h.live[b := r] && g.mem == h.mem && Kept(h, g, b)
    && SizedFor(g, b, r) && g.cached <= h.cached
    && g.limit == h.limit && g.unit == h.unit && g.lost == h.lost
    && (g.realSize != h.realSize ==> h.realSize < g.realSize <= g.limit)
  }

  // The new value of heap->size and its peak.
  ghost predicate Charged(h: Heap, g: Heap, v: nat) {
    g.size == v && g.peak == (if h.peak < v then v else h.peak) && g.sizes == h.sizes + {v}
  }

  lemma {:induction false} AfterGive(h: Heap, f: Heap, x: Index, b: nat, k: nat, r: nat)
    requires HeapOk(h) && b !in UsedBlocks(h) && r + HEADER <= k < TrueSize(r) + MIN_BLOCK
    requires LayoutOk(f, x) && UsedBlocks(f) == UsedBlocks(h)[b := k]
    requires Charged(h, f, h.size + k) && f.live == h.live[b := r] && f.cache == h.cache && f.cached == h.cached
    requires f.mem == h.mem && f.limit == h.limit && f.unit == h.unit && f.lost == h.lost
    requires f.realSize != h.realSize ==> h.realSize < f.realSize <= f.limit
    ensures HeapOk(f) && Given(h, f, b, r)
  {
    hide IndexOk, Tiled, Coalesced, HeadersAligned, CacheOk, CachedBytes, SegmentsOk, Blocks, Sum;
    HoldBlock(UsedBlocks(h), h.live, h.cache, b, k, r);
  }

  // A cached block given out again.
  lemma {:induction false} AfterPop(h: Heap, f: Heap, i: nat, r: nat)
    requires HeapOk(h) && i < NUM_BUCKETS && h.cache[i] != [] && r + HEADER <= TrueSize(r) == MIN_BLOCK + i * ALIGNMENT
    requires MIN_BLOCK + i * ALIGNMENT <= h.cached
    requires f == h.(cache := h.cache[i := h.cache[i][1..]], cached := h.cached - (MIN_BLOCK + i * ALIGNMENT),
      live := h.live[h.cache[i][0] := r])
    ensures HeapOk(f) && Given(h, f, h.cache[i][0], r)
  {
    hide IndexOk, Tiled, Coalesced, HeadersAligned, CacheOk, CachedBytes, SegmentsOk, Blocks, Sum;
    PopBlock(UsedBlocks(h), h.live, h.cache, i, r);
  }

  lemma {:induction false} CachedEnough(h: Heap, i: nat)
    requires HeapOk(h) && i < NUM_BUCKETS && h.cache[i] != []
    ensures MIN_BLOCK + i * ALIGNMENT <= h.cached
    ensures var b := h.cache[i][0];
      b in h.l.hdr && h.l.hdr[b].n == MIN_BLOCK + i * ALIGNMENT && b !in h.live && b in UsedBlocks(h)
  {
    hide IndexOk, Tiled, Coalesced, HeadersAligned, CacheOk, CachedBytes, SegmentsOk, Sum;
    PopBlock(UsedBlocks(h), h.live, h.cache, i, 0);
  }

  // ---------- a new segment ----------

  // g is h with a new segment of n bytes at s, used as one block.
  ghost predicate Enlarged(h: Heap, g: Heap, s: nat, n: nat) {
    && SEGMENT_HEADER + MIN_BLOCK + HEADER <= n
    && g.l == Grown(h.l, s, n) && g.list == [s] + h.list && g.realSize == h.realSize + n
    && g.realPeak == (if g.realSize > h.realPeak then g.realSize else h.realPeak) && g.reals == h.reals + {g.realSize}
    && g == h.(l := g.l, list := g.list, realSize := g.realSize, realPeak := g.realPeak, reals := g.reals)
  }

  lemma {:induction false} GrownBlocks(l: Layout, s: nat, n: nat)
    requires SEGMENT_HEADER + MIN_BLOCK + HEADER <= n && First(s) !in l.hdr && s + n - HEADER !in l.hdr
    ensures Blocks(Grown(l, s, n).hdr, Used) == Blocks(l.hdr, Used)[First(s) := n - SEGMENT_HEADER - HEADER]
    ensures Blocks(Grown(l, s, n).hdr, Free) == Blocks(l.hdr, Free)
  {
  }

  lemma {:induction false} GrownAligned(l: Layout, s: nat, n: nat)
    requires HeadersAligned(l) && s % ALIGNMENT == 0 && n % ALIGNMENT == 0 && SEGMENT_HEADER + MIN_BLOCK + HEADER <= n
    ensures HeadersAligned(Grown(l, s, n))
  {
  }

  lemma {:induction false} GrownList(list: seq<nat>, seg: map<nat, nat>, unit: nat, s: nat, n: nat)
    requires SegmentsOk(list, seg, unit) && s !in seg && 0 < unit && n % unit == 0 && n < WORD
    ensures SegmentsOk([s] + list, seg[s := n], unit)
  {
  }

  lemma {:induction false} AfterGrow(h: Heap, g: Heap, x: Index, s: nat, n: nat)
    requires LayoutOk(h, x) && Enlarged(h, g, s, n) && Unclaimed(h.l.seg, s, n) && s % ALIGNMENT == 0
    requires n % h.unit == 0 && n % ALIGNMENT == 0 && g.realSize <= h.limit
    ensures LayoutOk(g, x) && First(s) !in h.l.hdr
    ensures UsedBlocks(g) == UsedBlocks(h)[First(s) := n - SEGMENT_HEADER - HEADER] && FreeBlocks(g) == FreeBlocks(h)
  {
    hide IndexOk, Tiled, Coalesced, HeadersAligned, SegmentsOk, Blocks, Sum, PeaksOk;
    GrownTiled(h.l, s, n);
    GrownCoalesced(h.l, s, n);
    GrownNoOverlap(h.l, s, n);
    GrownAligned(h.l, s, n);
    GrownBlocks(h.l, s, n);
    GrownList(h.list, h.l.seg, h.unit, s, n);
    SumWith(h.l.seg, s, n);
    PeakGrows(h.realSize, h.realPeak, h.reals, g.realSize);
  }

  lemma {:induction false} MultipleIsAligned(n: nat, unit: nat)
    requires 0 < unit && unit % ALIGNMENT == 0 && n % unit == 0
    ensures n % ALIGNMENT == 0
  {
    var q, u := n / unit, unit / ALIGNMENT;
    assert n == unit * q;
    assert unit == ALIGNMENT * u;
    assert n == ALIGNMENT * (u * q);
    ModOfProduct(ALIGNMENT, u * q);
  }

  lemma {:induction false} ModOfProduct(d: nat, q: nat)
    requires 0 < d
    ensures d * q % d == 0
  {
    MulMod(q, d);
    assert d * q == q * d;
  }

  lemma {:induction false} PeakGrows(now: nat, peak: nat, values: set<nat>, v: nat)
    requires PeaksOk(now, peak, values)
    ensures PeaksOk(v, if v > peak then v else peak, values + {v})
  {
  }

  // Behind a free block is no free block.
  lemma {:induction false} BehindFree(l: Layout, b: nat)
    requires Tiled(l) && Coalesced(l) && b in l.hdr && l.hdr[b].tag == Free && TagOk(l, b)
    ensures b + l.hdr[b].n in l.hdr && l.hdr[b + l.hdr[b].n].tag != Free
  {
    assert Settled(l, b);
  }

  // The block of a fresh segment is a run by itself.
  lemma {:induction false} FreshBlock(l: Layout, b: nat, n: nat)
    requires Tiled(l) && b in l.hdr && l.hdr[b].n == n && l.hdr[b].tag == Used && b + n in l.hdr
      && l.hdr[b + n].tag == Guard
    ensures Run(l, b, n)
    ensures Blocks(Fused(l, b, n, Used).hdr, Used) == Blocks(l.hdr, Used)[b := n]
    ensures Blocks(Fused(l, b, n, Used).hdr, Free) == Blocks(l.hdr, Free)
  {
    assert TagOk(l, b);
    FusedSame(l, b, n, Used, {});
    NoneOut(Blocks(l.hdr, Used));
    FusedOthers(l, b, n, Used, Free, {});
    NoneOut(Blocks(l.hdr, Free));
  }

  ghost function UsedSize(n: nat, m: nat): nat
    requires m <= n
  {
    if n - m < MIN_BLOCK then n else m
  }

  // A block of m bytes can be carved out of the run of n bytes at b; free are the free blocks
  // without the run, used the used blocks afterwards.
  ghost predicate CarveReady(l: Layout, b: nat, n: nat, m: nat, free: map<nat, nat>, used: map<nat, nat>) {
    && Carvable(l, b, n, m)
    && Blocks(Fused(l, b, n, Used).hdr, Free) == free
    && Blocks(Carved(l, b, n, m).hdr, Used) == used
  }

  lemma {:induction false} ReadyToCarve(l: Layout, b: nat, n: nat, m: nat, used: map<nat, nat>)
    requires Carvable(l, b, n, m) && Blocks(Fused(l, b, n, Used).hdr, Used) == used[b := n]
    ensures CarveReady(l, b, n, m, Blocks(Fused(l, b, n, Used).hdr, Free), used[b := UsedSize(n, m)])
  {
    hide Tiled, Coalesced, HeadersAligned, Blocks, Fused;
    CarvedBlocks(l, b, n, m);
    TwiceUpdated(used, b, n, UsedSize(n, m));
  }

  // The layout c after carving: all of the run used, or m bytes used and the rest free.
  ghost predicate CarvedTo(c: Layout, l: Layout, b: nat, n: nat, m: nat, free: map<nat, nat>, used: map<nat, nat>)
    requires m <= n
  {
    && TagsOk(c) && c.seg == l.seg && b in c.hdr && c.hdr[b].n == UsedSize(n, m) && c.hdr[b].tag == Used
    && Blocks(c.hdr, Used) == used
    && Blocks(c.hdr, Free) == if n - m < MIN_BLOCK then free else free[b + m := n - m]
  }

  lemma {:induction false} CarvedWhole(l: Layout, b: nat, n: nat, m: nat, free: map<nat, nat>, used: map<nat, nat>)
    requires m <= n && CarveReady(l, b, n, m, free, used) && n - m < MIN_BLOCK
    ensures Run(l, b, n) && CarvedTo(Fused(l, b, n, Used), l, b, n, m, free, used)
  {
    hide Tiled, Coalesced, HeadersAligned, Blocks;
    CarvedTiled(l, b, n, m);
    CarvedAligned(l, b, n, m);
    CarvedBlocks(l, b, n, m);
  }

  // What the allocator writes.
  ghost function Written(l: Layout, b: nat, n: nat, m: nat): Layout
    requires b in l.own && m <= n
  {
    Layout(SetBlock(SetBlock(MmTags.Dropped(l.hdr, b, b + n), b, Used, m), b + m, Free, n - m), l.seg,
           MmTags.Dropped(l.own, b, b + n)[b + m := l.own[b]])
  }

  lemma {:induction false} CarvedInTwo(h: Heap, b: nat, n: nat, m: nat, free: map<nat, nat>, used: map<nat, nat>)
    requires m <= n && CarveReady(h.l, b, n, m, free, used) && MIN_BLOCK <= n - m
    requires ParamsOk(h.unit, h.limit) && SegmentsOk(h.list, h.l.seg, h.unit)
    ensures b in h.l.own && CarvedTo(Written(h.l, b, n, m), h.l, b, n, m, free, used)
    ensures Indexable(n - m) && b + m !in free
  {
    hide Tiled, Coalesced, HeadersAligned, Blocks, SetBlock, MmTags.Dropped;
    CarvedTiled(h.l, b, n, m);
    CarvedAligned(h.l, b, n, m);
    CarvedBlocks(h.l, b, n, m);
    CarvedIsWritten(h.l, b, n, m);
    RemainderSize(h, b, n, m);
    NoFreeRemainder(h.l, b, n, m);
  }

  lemma {:induction false} TwiceUpdated(m: map<nat, nat>, b: nat, v: nat, w: nat)
    ensures m[b := v][b := w] == m[b := w]
  {
  }

  // What holds before a free block is used.
  lemma {:induction false} TakeReady(h: Heap, x: Index, b: nat, m: nat)
    requires HeapOk(h) && Indexed(h.l.hdr, x) && b in x.t.size && BlockSize(m) && m <= x.t.size[b]
    ensures b in h.l.hdr && h.l.hdr[b].n == x.t.size[b] && b !in UsedBlocks(h)
    ensures CarveReady(h.l, b, x.t.size[b], m, x.t.size - {b}, UsedBlocks(h)[b := UsedSize(x.t.size[b], m)])
  {
    hide IndexOk, CachedBytes, SegmentsOk, CacheOk, LiveOk, AccountsOk, PeaksOk, Tiled, Coalesced, HeadersAligned;
    SizeOfBlock(h, b);
    TakenBlocks(h.l, b);
    BehindFree(h.l, b);
    hide CarveReady, TagOk, Fused;
    ReadyToCarve(h.l, b, h.l.hdr[b].n, m, UsedBlocks(h));
  }

  // What holds before the block of a fresh segment is used.
  lemma {:induction false} FreshReady(h: Heap, g: Heap, x: Index, s: nat, n: nat, m: nat)
    requires HeapOk(h) && Indexed(h.l.hdr, x) && Enlarged(h, g, s, n) && Unclaimed(h.l.seg, s, n) && s % ALIGNMENT == 0
    requires n % h.unit == 0 && g.realSize <= h.limit && BlockSize(m) && m + SEGMENT_HEADER + HEADER <= n
    ensures LayoutOk(g, x) && First(s) !in UsedBlocks(h) && First(s) !in x.t.size
    ensures CarveReady(g.l, First(s), n - SEGMENT_HEADER - HEADER, m, x.t.size,
      UsedBlocks(h)[First(s) := UsedSize(n - SEGMENT_HEADER - HEADER, m)])
  {
    hide IndexOk, CachedBytes, SegmentsOk, CacheOk, LiveOk, PeaksOk, Tiled, Coalesced, HeadersAligned, Sum, CarveReady;
    MultipleIsAligned(n, h.unit);
    AfterGrow(h, g, x, s, n);
    hide Blocks, TagsOk;
    FreshCarve(g.l, s, n, m, UsedBlocks(h));
  }

  // ---------- resizing a block ----------

  // The n bytes at q in m' are those at p in m.
  ghost predicate SamePrefix(m: map<nat, int>, m': map<nat, int>, p: nat, q: nat, n: nat) {
    forall k: nat :: k < n ==> SameByte(m, m', p, q, k)
  }

  ghost predicate SameByte(m: map<nat, int>, m': map<nat, int>, p: nat, q: nat, k: nat) {
    (p + k in m <==> q + k in m') && (p + k in m && q + k in m' ==> m[p + k] == m'[q + k])
  }

  function Min(a: nat, b: nat): nat {
    if a < b then a else b
  }

  // g is h with held block b resized to r bytes, now at c: the other held blocks keep their places
  // and contents, and the common prefix of the payload is the same.
  ghost predicate Resized(h: Heap, g: Heap, b: nat, c: nat, r: nat) {
    && b in h.live && b in UsedBlocks(h) && SizedFor(g, c, r)
    && (c == b || c !in h.live) && g.live == (h.live - {b})[c := r] && Kept(h, g, b)
    && HEADER <= UsedBlocks(h)[b] && HEADER <= UsedBlocks(g)[c]
    && SamePrefix(h.mem, g.mem, b + HEADER, c + HEADER, Min(UsedBlocks(h)[b], UsedBlocks(g)[c]) - HEADER)
    && g.limit == h.limit && g.unit == h.unit && g.lost == h.lost
    && (h.realSize < g.realSize ==> g.realSize <= g.limit)
  }

  // A resize in place.
  lemma {:induction false} AfterResize(h: Heap, f: Heap, x: Index, b: nat, k: nat, r: nat)
    requires HeapOk(h) && b in h.live && r + HEADER <= k < TrueSize(r) + MIN_BLOCK && b in UsedBlocks(h)
      && UsedBlocks(h)[b] <= h.size + k
    requires LayoutOk(f, x) && UsedBlocks(f) == UsedBlocks(h)[b := k]
    requires Charged(h, f, h.size + k - UsedBlocks(h)[b]) && f.live == h.live[b := r] && f.cache == h.cache
      && f.cached == h.cached
    requires f.limit == h.limit && f.unit == h.unit && f.lost == h.lost && f.realSize == h.realSize
    requires f.mem == if k < UsedBlocks(h)[b] then Erased(h.mem, b + k, b + UsedBlocks(h)[b]) else h.mem
    ensures HeapOk(f) && Resized(h, f, b, b, r)
  {
    hide IndexOk, Tiled, Coalesced, HeadersAligned, CacheOk, CachedBytes, SegmentsOk, Blocks, Sum;
    HoldBlock(UsedBlocks(h), h.live, h.cache, b, k, r);
    assert (h.live - {b})[b := r] == h.live[b := r];
    if k < UsedBlocks(h)[b] { TrimKeeps(h, f, b, k); }
  }

  // Erasing the end of the payload of b leaves the other held blocks alone.
  lemma {:induction false} TrimKeeps(h: Heap, g: Heap, b: nat, k: nat)
    requires TagsOk(h.l) && LiveOk(UsedBlocks(h), h.live) && b in UsedBlocks(h) && k < UsedBlocks(h)[b]
    requires g.mem == Erased(h.mem, b + k, b + UsedBlocks(h)[b])
    requires forall c :: c in h.live && c != b ==>
      c in g.live && g.live[c] == h.live[c] && c in UsedBlocks(g) && UsedBlocks(g)[c] == UsedBlocks(h)[c]
    ensures Kept(h, g, b)
  {
    hide Tiled, Coalesced, HeadersAligned;
    forall c | c in h.live && c != b
      ensures SameBytes(h.mem, g.mem, c + HEADER, c + UsedBlocks(h)[c])
    {
      PayloadsDisjoint(h, b, c);
    }
  }

  // c is the header behind b and e the end of the free block at c, if there is one; such a block
  // is indexed.
  ghost predicate Behind(l: Layout, x: Index, b: nat, c: nat, e: nat) {
    && TagOk(l, b) && l.hdr[b].tag != Guard && c == b + l.hdr[b].n && TagOk(l, c) && e == RunEnd(l.hdr, b)
    && c <= e && e in l.hdr && l.hdr[e].tag != Free
    && (l.hdr[c].tag == Free <==> c in x.t.size)
    && (if l.hdr[c].tag == Free then e == c + l.hdr[c].n else e == c)
  }

  lemma {:induction false} FindBehind(l: Layout, x: Index, b: nat) returns (c: nat, e: nat)
    requires TagsOk(l) && b in Blocks(l.hdr, Used) && Indexed(l.hdr, x)
    ensures Behind(l, x, b, c, e)
  {
    hide IndexOk, Tiled, Coalesced, HeadersAligned;
    RunRight(l, b);
    c, e := b + l.hdr[b].n, RunEnd(l.hdr, b);
  }

  lemma {:induction false} CarveWidened(l: Layout, b: nat, m: nat, e: nat)
    requires TagsOk(l) && b in l.hdr && l.hdr[b].tag == Used && TagOk(l, b) && BlockSize(m) && e == RunEnd(l.hdr, b)
      && b + m <= e
    ensures CarveReady(l, b, e - b, m, Blocks(l.hdr, Free) - {b + l.hdr[b].n},
      Blocks(l.hdr, Used)[b := UsedSize(e - b, m)])
  {
    hide Tiled, Coalesced, HeadersAligned;
    WidenedBlocks(l, b, e);
    hide CarveReady, TagOk, Fused, Blocks;
    ReadyToCarve(l, b, e - b, m, Blocks(l.hdr, Used));
  }

  // ---------- swapping with a cached block ----------

  // The contents move to the first block of cache list i, and b goes to the list of its class.
  lemma {:induction false} AfterSwap(h: Heap, f: Heap, b: nat, i: nat, j: nat, r: nat)
    requires HeapOk(h) && b in h.live && i < NUM_BUCKETS && h.cache[i] != [] && b in UsedBlocks(h)
    requires BlockSize(UsedBlocks(h)[b]) && UsedBlocks(h)[b] < MIN_BLOCK + i * ALIGNMENT
      && j == BucketIndex(UsedBlocks(h)[b]) && j < NUM_BUCKETS
    requires r + HEADER <= TrueSize(r) == MIN_BLOCK + i * ALIGNMENT <= h.cached + UsedBlocks(h)[b]
    requires var c, n, m := h.cache[i][0], UsedBlocks(h)[b], MIN_BLOCK + i * ALIGNMENT;
      f == h.(mem := Erased(Copied(h.mem, b + HEADER, c + HEADER, n - HEADER), b + HEADER, b + n),
              cache := h.cache[i := h.cache[i][1..]][j := [b] + h.cache[i := h.cache[i][1..]][j]],
              cached := h.cached - (m - n), live := h.live[c := r] - {b})
    ensures HeapOk(f) && Resized(h, f, b, h.cache[i][0], r)
  {
    hide IndexOk, Tiled, Coalesced, HeadersAligned, CacheOk, CachedBytes, SegmentsOk, Sum, PeaksOk, Copied, Erased;
    var used, c := UsedBlocks(h), h.cache[i][0];
    PopBlock(used, h.live, h.cache, i, r);
    PushBlock(used, h.live[c := r], h.cache[i := h.cache[i][1..]], b, j);
    assert h.live[c := r] - {b} == (h.live - {b})[c := r];
    MovedBytes(h, f, b, c, used[b]);
  }

  // Copying the payload of b to c, and giving b up.
  lemma {:induction false} MovedBytes(h: Heap, f: Heap, b: nat, c: nat, n: nat)
    requires TagsOk(h.l) && LiveOk(UsedBlocks(h), h.live) && b in h.live && b in UsedBlocks(h)
      && n == UsedBlocks(h)[b] && HEADER <= n
    requires c in UsedBlocks(h) && c !in h.live && n <= UsedBlocks(h)[c] && f.l == h.l
    requires f.mem == Erased(Copied(h.mem, b + HEADER, c + HEADER, n - HEADER), b + HEADER, b + n)
    requires forall d :: d in h.live && d != b ==> d in f.live && f.live[d] == h.live[d]
    ensures Kept(h, f, b)
    ensures SamePrefix(h.mem, f.mem, b + HEADER, c + HEADER, n - HEADER)
  {
    hide Tiled, Coalesced, HeadersAligned, Copied;
    PayloadsDisjoint(h, b, c);
    forall d | d in h.live && d != b
      ensures SameBytes(h.mem, f.mem, d + HEADER, d + UsedBlocks(h)[d])
    {
      PayloadsDisjoint(h, b, d);
      PayloadsDisjoint(h, c, d);
      CopiedElsewhere(h.mem, b + HEADER, c + HEADER, n - HEADER, d + HEADER, d + UsedBlocks(h)[d]);
    }
    var p, q := b + HEADER, c + HEADER;
    forall k: nat | k < n - HEADER
      ensures SameByte(h.mem, f.mem, p, q, k)
    {
      CopiedBytes(h.mem, b + HEADER, c + HEADER, n - HEADER, k);
    }
  }

  lemma {:induction false} NotFree(hdr: map<nat, Header>, free: map<nat, nat>, c: nat)
    ensures c !in free ==> free - {c} == free
  {
  }

  // ---------- moving a segment that holds one used block ----------

  // g is h with segment s0 replaced in the list, at i, by one of n bytes at s, used as one block.
  ghost predicate Relocated(h: Heap, g: Heap, s0: nat, i: nat, s: nat, n: nat) {
    && s0 in h.l.seg && i < |h.list| && h.list[i] == s0 && SEGMENT_HEADER + MIN_BLOCK + HEADER <= n
    && h.l.seg[s0] <= h.realSize + n
    && g.l == Grown(Released(h.l, s0), s, n) && g.list == h.list[i := s] && g.realSize == h.realSize + n - h.l.seg[s0]
    && g.realPeak == (if g.realSize > h.realPeak then g.realSize else h.realPeak) && g.reals == h.reals + {g.realSize}
    && g == h.(l := g.l, list := g.list, realSize := g.realSize, realPeak := g.realPeak, reals := g.reals)
  }

  lemma {:induction false} ReplacedInList(list: seq<nat>, seg: map<nat, nat>, unit: nat, i: nat, s: nat, n: nat)
    requires SegmentsOk(list, seg, unit) && i < |list| && (s == list[i] || s !in seg) && 0 < unit && n % unit == 0
      && n < WORD
    ensures SegmentsOk(list[i := s], (seg - {list[i]})[s := n], unit)
  {
    var list', seg' := list[i := s], (seg - {list[i]})[s := n];
    forall t
      ensures t in list' <==> t in seg'
    {
      if t in seg' && t != s {
        var j :| 0 <= j < |list| && list[j] == t;
        assert list'[j] == t;
      }
      assert list'[i] == s;
    }
  }

  lemma {:induction false} ReplacedSum(seg: map<nat, nat>, s0: nat, s: nat, n: nat)
    requires s0 in seg && (s == s0 || s !in seg)
    ensures Sum((seg - {s0})[s := n]) == Sum(seg) - seg[s0] + n && seg[s0] <= Sum(seg)
  {
    SumWithout(seg, s0);
    SumWith(seg - {s0}, s, n);
  }

  // The used block b, first in its segment, and the free block behind it fill the segment.
  lemma {:induction false} WholeSegment(l: Layout, b: nat, e: nat)
    requires TagsOk(l) && TagOk(l, b) && l.hdr[b].tag == Used && e == RunEnd(l.hdr, b) && l.hdr[b].ptag == Guard
      && TagOk(l, e) && l.hdr[e].tag == Guard
    ensures SEGMENT_HEADER <= b && b - SEGMENT_HEADER in l.seg
    ensures e - b + SEGMENT_HEADER + HEADER == l.seg[b - SEGMENT_HEADER]
    ensures Blocks(Released(l, b - SEGMENT_HEADER).hdr, Used) == Blocks(l.hdr, Used) - {b}
    ensures Blocks(Released(l, b - SEGMENT_HEADER).hdr, Free) == Blocks(l.hdr, Free) - {b, b + l.hdr[b].n}
  {
    hide Tiled, HeadersAligned, Coalesced, Blocks, Released;
    var s', e' := FindRun(l, b);
    ReleasedBlocks(l, b, b, e);
  }

  lemma {:induction false} RelocatedTags(l: Layout, b: nat, e: nat, s: nat, n: nat)
    requires TagsOk(l) && TagOk(l, b) && l.hdr[b].tag == Used && e == RunEnd(l.hdr, b) && e in l.hdr
      && l.hdr[b].ptag == Guard && l.hdr[e].tag == Guard
    requires SEGMENT_HEADER <= b && Unclaimed(l.seg - {b - SEGMENT_HEADER}, s, n)
      && SEGMENT_HEADER + MIN_BLOCK + HEADER <= n
    requires s % ALIGNMENT == 0 && n % ALIGNMENT == 0
    ensures var g := Grown(Released(l, b - SEGMENT_HEADER), s, n);
      && TagsOk(g) && First(s) !in Blocks(l.hdr, Used) - {b} && (s == b - SEGMENT_HEADER || s !in l.seg)
      && Blocks(g.hdr, Used) == (Blocks(l.hdr, Used) - {b})[First(s) := n - SEGMENT_HEADER - HEADER]
      && Blocks(g.hdr, Free) == Blocks(l.hdr, Free) - {b, b + l.hdr[b].n}
      && g.seg == (l.seg - {b - SEGMENT_HEADER})[s := n]
  {
    hide Tiled, Coalesced, HeadersAligned;
    var s0 := b - SEGMENT_HEADER;
    EndOfRun(l, b, e);
    WholeSegment(l, b, e);
    hide TagOk, RunEnd;
    var l1 := Released(l, s0);
    ReleasedTiled(l, s0);
    ReleasedCoalesced(l, s0);
    SubsetAligned(l, l1);
    hide Blocks;
    GrownTiled(l1, s, n);
    GrownCoalesced(l1, s, n);
    GrownNoOverlap(l1, s, n);
    GrownAligned(l1, s, n);
    GrownBlocks(l1, s, n);
    assert First(s) !in Blocks(l1.hdr, Used) by { BlocksIn(l1.hdr, Used, First(s)); }
    SegmentsApart(l, s0, s, n);
  }

  lemma {:induction false} BlocksIn(hdr: map<nat, Header>, tag: Tag, b: nat)
    requires b !in hdr
    ensures b !in Blocks(hdr, tag)
  {
  }

  lemma {:induction false} SegmentsApart(l: Layout, s0: nat, s: nat, n: nat)
    requires Tiled(l) && Unclaimed(l.seg - {s0}, s, n) && 0 < n
    ensures s == s0 || s !in l.seg
  {
    if s in l.seg { assert SegmentOk(l, s) && (s in l.seg - {s0} <==> s != s0); }
  }

  lemma {:induction false} AfterRelocate(h: Heap, g: Heap, x: Index, b: nat, e: nat, i: nat, s: nat, n: nat)
    requires TagsOk(h.l) && ParamsOk(h.unit, h.limit) && SegmentsOk(h.list, h.l.seg, h.unit)
    requires h.realSize == Sum(h.l.seg) && PeaksOk(h.realSize, h.realPeak, h.reals)
    requires b in UsedBlocks(h) && TagOk(h.l, b) && e == RunEnd(h.l.hdr, b) && e in h.l.hdr
      && h.l.hdr[b].ptag == Guard && h.l.hdr[e].tag == Guard
    requires IndexOk(x) && x.t.size == FreeBlocks(h) - {b + h.l.hdr[b].n}
    requires SEGMENT_HEADER <= b && Relocated(h, g, b - SEGMENT_HEADER, i, s, n)
      && Unclaimed(h.l.seg - {b - SEGMENT_HEADER}, s, n)
    requires s % ALIGNMENT == 0 && n % h.unit == 0 && g.realSize <= h.limit && n < WORD
    ensures LayoutOk(g, x) && First(s) !in UsedBlocks(h) - {b} && g.l.seg == (h.l.seg - {b - SEGMENT_HEADER})[s := n]
    ensures UsedBlocks(g) == (UsedBlocks(h) - {b})[First(s) := n - SEGMENT_HEADER - HEADER] && FreeBlocks(g) == x.t.size
  {
    hide IndexOk, TagsOk, SegmentsOk, Sum, PeaksOk, Grown, Released;
    assert h.l.hdr[b].tag == Used;
    hide Blocks;
    var s0 := b - SEGMENT_HEADER;
    MultipleIsAligned(n, h.unit);
    RelocatedTags(h.l, b, e, s, n);
    hide TagOk, RunEnd;
    ReplacedInList(h.list, h.l.seg, h.unit, i, s, n);
    ReplacedSum(h.l.seg, s0, s, n);
    PeakGrows(h.realSize, h.realPeak, h.reals, g.realSize);
    SameOut(h, b, b + h.l.hdr[b].n);
  }

  lemma {:induction false} SameOut(h: Heap, b: nat, c: nat)
    requires b in UsedBlocks(h)
    ensures FreeBlocks(h) - {b, c} == FreeBlocks(h) - {c}
  {
  }

  lemma {:induction false} EndOfRun(l: Layout, b: nat, e: nat)
    requires Tiled(l) && Coalesced(l) && b in l.hdr && l.hdr[b].tag == Used && b + l.hdr[b].n in l.hdr
      && e == RunEnd(l.hdr, b)
    ensures TagOk(l, b) && TagOk(l, e)
  {
    hide Tiled, Coalesced;
    RunRight(l, b);
  }

  // What holds before the block of a relocated segment is used.
  lemma {:induction false} MoveReady(h: Heap, g: Heap, x: Index, b: nat, e: nat, i: nat, s: nat, n: nat, m: nat)
    requires TagOk(h.l, b) && h.l.hdr[b].tag == Used && e == RunEnd(h.l.hdr, b) && e in h.l.hdr
      && h.l.hdr[b].ptag == Guard && h.l.hdr[e].tag == Guard
    requires IndexOk(x) && x.t.size == FreeBlocks(h) - {b + h.l.hdr[b].n}
    requires SEGMENT_HEADER <= b && Relocated(h, g, b - SEGMENT_HEADER, i, s, n)
      && Unclaimed(h.l.seg - {b - SEGMENT_HEADER}, s, n)
    requires s % ALIGNMENT == 0 && 0 < h.unit && n % h.unit == 0 && g.realSize <= h.limit && n < WORD && BlockSize(m)
      && m + SEGMENT_HEADER + HEADER <= n
    requires HeapOk(h)
    ensures LayoutOk(g, x) && First(s) !in UsedBlocks(h) - {b} && g.l.seg == (h.l.seg - {b - SEGMENT_HEADER})[s := n]
    ensures CarveReady(g.l, First(s), n - SEGMENT_HEADER - HEADER, m, x.t.size,
      (UsedBlocks(h) - {b})[First(s) := UsedSize(n - SEGMENT_HEADER - HEADER, m)])
  {
    hide CachedBytes, CacheOk, LiveOk, PeaksOk, TagsOk, IndexOk, SegmentsOk, Sum, CarveReady;
    assert b in UsedBlocks(h);
    hide TagOk, Blocks, RunEnd, Fused;
    AfterRelocate(h, g, x, b, e, i, s, n);
    FreshCarve(g.l, s, n, m, UsedBlocks(h) - {b});
  }

  // The block of a segment that holds one block can be carved.
  lemma {:induction false} FreshCarve(l: Layout, s: nat, n: nat, m: nat, used: map<nat, nat>)
    requires BlockSize(m) && m + SEGMENT_HEADER + HEADER <= n && TagsOk(l)
    requires var k := n - SEGMENT_HEADER - HEADER;
      && First(s) in l.hdr && l.hdr[First(s)].n == k
      && l.hdr[First(s)].tag == Used && First(s) + k in l.hdr && l.hdr[First(s) + k].tag == Guard
    requires Blocks(l.hdr, Used) == used[First(s) := n - SEGMENT_HEADER - HEADER]
    ensures CarveReady(l, First(s), n - SEGMENT_HEADER - HEADER, m, Blocks(l.hdr, Free),
      used[First(s) := UsedSize(n - SEGMENT_HEADER - HEADER, m)])
  {
    hide Tiled, Coalesced, HeadersAligned, CarveReady;
    var b, k := First(s), n - SEGMENT_HEADER - HEADER;
    FreshBlock(l, b, k);
    TwiceUpdated(used, b, k, k);
    ReadyToCarve(l, b, k, m, used);
  }

  // The held block b moves to c with its segment.
  lemma {:induction false} AfterMove(h: Heap, f: Heap, x: Index, b: nat, c: nat, k: nat, r: nat)
    requires HeapOk(h) && b in h.live && b in UsedBlocks(h) && c !in UsedBlocks(h) - {b}
      && r + HEADER <= k < TrueSize(r) + MIN_BLOCK && UsedBlocks(h)[b] <= k
    requires LayoutOk(f, x) && UsedBlocks(f) == (UsedBlocks(h) - {b})[c := k]
    requires Charged(h, f, h.size + k - UsedBlocks(h)[b]) && f.live == (h.live - {b})[c := r] && f.cache == h.cache
      && f.cached == h.cached
    requires f.limit == h.limit && f.unit == h.unit && f.lost == h.lost && h.realSize <= f.realSize <= f.limit
    requires HEADER <= UsedBlocks(h)[b] && f.mem == if c == b then h.mem
      else Copied(h.mem, b + HEADER, c + HEADER, UsedBlocks(h)[b] - HEADER)
    ensures HeapOk(f) && Resized(h, f, b, c, r)
  {
    hide IndexOk, Tiled, Coalesced, HeadersAligned, CacheOk, CachedBytes, SegmentsOk, Blocks, Sum, Copied;
    ForgetLive(UsedBlocks(h), h.live, h.cache, b);
    HoldBlock(UsedBlocks(h) - {b}, h.live - {b}, h.cache, c, k, r);
    PeakGrows(h.size, h.peak, h.sizes, f.size);
    CarriedBytes(h, f, b, c, UsedBlocks(h)[b]);
  }

  // The payload of b is at c, where no other held block is.
  lemma {:induction false} CarriedBytes(h: Heap, f: Heap, b: nat, c: nat, n: nat)
    requires TagsOk(f.l) && LiveOk(UsedBlocks(h), h.live) && b in h.live && b in UsedBlocks(h)
      && n == UsedBlocks(h)[b] && HEADER <= n
    requires c in UsedBlocks(f) && c !in UsedBlocks(h) - {b} && n <= UsedBlocks(f)[c]
    requires forall d :: d in UsedBlocks(h) && d != b ==> d in UsedBlocks(f) && UsedBlocks(f)[d] == UsedBlocks(h)[d]
    requires f.mem == if c == b then h.mem else Copied(h.mem, b + HEADER, c + HEADER, n - HEADER)
    requires forall d :: d in h.live && d != b ==> d in f.live && f.live[d] == h.live[d]
    ensures Kept(h, f, b)
    ensures SamePrefix(h.mem, f.mem, b + HEADER, c + HEADER, n - HEADER)
  {
    hide Tiled, Coalesced, HeadersAligned, Copied;
    forall d | d in h.live && d != b
      ensures SameBytes(h.mem, f.mem, d + HEADER, d + UsedBlocks(h)[d])
    {
      PayloadsDisjoint(f, c, d);
      if c != b {
        CopiedElsewhere(h.mem, b + HEADER, c + HEADER, n - HEADER, d + HEADER, d + UsedBlocks(h)[d]);
      }
    }
    var p, q := b + HEADER, c + HEADER;
    forall k: nat | k < n - HEADER
      ensures SameByte(h.mem, f.mem, p, q, k)
    {
      if c != b { CopiedBytes(h.mem, p, q, n - HEADER, k); }
    }
  }

  // ---------- allocating, copying and freeing ----------

  // Payloads are not part of the invariant.
  lemma {:induction false} AnyContents(h: Heap, m: map<nat, int>)
    requires HeapOk(h)
    ensures HeapOk(h.(mem := m))
  {
    hide Tiled, Coalesced, HeadersAligned, CacheOk, CachedBytes, SegmentsOk, Sum;
  }

  lemma {:induction false} LiveOf(h: Heap)
    requires HeapOk(h)
    ensures LiveOk(UsedBlocks(h), h.live) && TagsOk(h.l)
  {
    hide TagsOk, CacheOk, CachedBytes, Sum, SegmentsOk, LiveOk;
  }

  lemma {:induction false} GivenIsLive(h: Heap, g: Heap, b: nat, c: nat, r: nat)
    requires Given(h, g, c, r) && b in h.live
    ensures b in g.live && g.mem == h.mem && g.limit == h.limit && g.unit == h.unit && g.lost == h.lost
  {
    hide Kept;
  }

  // c is given out, takes over the contents of b, and b is given up.
  lemma {:induction false} AfterCopy(h: Heap, g: Heap, g': Heap, f: Heap, b: nat, c: nat, r: nat)
    requires b in h.live && b in UsedBlocks(h) && Given(h, g, c, r) && HEADER <= UsedBlocks(h)[b] < r + HEADER
    requires g' == g.(mem := Copied(h.mem, b + HEADER, c + HEADER, UsedBlocks(h)[b] - HEADER))
      && f.live == g'.live - {b} && Kept(g', f, b)
    requires f.limit == g.limit && f.unit == g.unit && f.lost == g.lost && f.realSize <= g.realSize
    requires TagsOk(g.l) && LiveOk(UsedBlocks(g), g.live) && LiveOk(UsedBlocks(f), f.live)
    ensures Resized(h, f, b, c, r)
  {
    hide TagsOk, Copied, Kept, SamePrefix;
    CopyKeeps(h, g, g', b, c, UsedBlocks(h)[b]);
    CopyThenFree(h, g', f, b, c, UsedBlocks(h)[b]);
    assert (h.live[c := r]) - {b} == (h.live - {b})[c := r];
  }

  lemma {:induction false} CopyThenFree(h: Heap, g: Heap, f: Heap, b: nat, c: nat, n: nat)
    requires Kept(h, g, b) && Kept(g, f, b) && b != c && c in g.live && c in UsedBlocks(g)
      && HEADER <= n <= UsedBlocks(g)[c]
    requires SamePrefix(h.mem, g.mem, b + HEADER, c + HEADER, n - HEADER)
    ensures Kept(h, f, b) && SamePrefix(h.mem, f.mem, b + HEADER, c + HEADER, n - HEADER)
    ensures c in UsedBlocks(f) && UsedBlocks(f)[c] == UsedBlocks(g)[c]
  {
    hide SamePrefix, SameBytes;
    KeptTransitive(h, g, f, b);
    PartSame(g.mem, f.mem, c + HEADER, c + n, c + UsedBlocks(g)[c]);
    SamePrefixThen(h.mem, g.mem, f.mem, b + HEADER, c + HEADER, n - HEADER);
  }

  lemma {:induction false} PartSame(m: map<nat, int>, m': map<nat, int>, lo: nat, hi: nat, end: nat)
    requires SameBytes(m, m', lo, end) && hi <= end
    ensures SameBytes(m, m', lo, hi)
  {
  }

  lemma {:induction false} SamePrefixThen(m: map<nat, int>, m': map<nat, int>, m'': map<nat, int>, p: nat, q: nat,
      n: nat)
    requires SamePrefix(m, m', p, q, n) && SameBytes(m', m'', q, q + n)
    ensures SamePrefix(m, m'', p, q, n)
  {
    forall k: nat | k < n
      ensures SameByte(m, m'', p, q, k)
    {
      assert SameByte(m, m', p, q, k);
    }
  }

  lemma {:induction false} CopyKeeps(h: Heap, g: Heap, g': Heap, b: nat, c: nat, n: nat)
    requires TagsOk(g.l) && LiveOk(UsedBlocks(g), g.live) && c !in h.live && HEADER <= n
    requires c in UsedBlocks(g) && n <= UsedBlocks(g)[c] && Kept(h, g, c) && g.mem == h.mem
    requires g' == g.(mem := Copied(h.mem, b + HEADER, c + HEADER, n - HEADER))
    ensures Kept(h, g', b)
    ensures SamePrefix(h.mem, g'.mem, b + HEADER, c + HEADER, n - HEADER)
  {
    hide TagsOk, Copied;
    forall d | d in h.live && d != b
      ensures d in UsedBlocks(h) && SameBytes(h.mem, g'.mem, d + HEADER, d + UsedBlocks(h)[d])
    {
      PayloadsDisjoint(g, c, d);
      CopiedElsewhere(h.mem, b + HEADER, c + HEADER, n - HEADER, d + HEADER, d + UsedBlocks(h)[d]);
    }
    var p, q := b + HEADER, c + HEADER;
    forall k: nat | k < n - HEADER
      ensures SameByte(h.mem, g'.mem, p, q, k)
    {
      CopiedBytes(h.mem, p, q, n - HEADER, k);
    }
  }

  // The index lacks exactly the free block c.
  ghost predicate Stranded(h: Heap, x: Index, c: nat) {
    HeapOk(h) && IndexOk(x) && c in FreeBlocks(h) && x.t.size == FreeBlocks(h) - {c}
  }

  lemma {:induction false} PutBack(m: map<nat, nat>, c: nat)
    requires c in m
    ensures (m - {c})[c := m[c]] == m
  {
  }

  lemma {:induction false} WholeSegmentOf(l: Layout, b: nat, e: nat)
    requires TagsOk(l) && b in l.hdr && l.hdr[b].tag == Used && b + l.hdr[b].n in l.hdr && e == RunEnd(l.hdr, b)
      && e in l.hdr && l.hdr[b].ptag == Guard && l.hdr[e].tag == Guard
    ensures SEGMENT_HEADER <= b && b - SEGMENT_HEADER in l.seg
    ensures e - b + SEGMENT_HEADER + HEADER == l.seg[b - SEGMENT_HEADER]
  {
    hide Tiled, Coalesced, HeadersAligned;
    EndOfRun(l, b, e);
    hide TagOk;
    WholeSegment(l, b, e);
  }

  lemma {:induction false} ListHas(h: Heap, s: nat)
    requires SegmentsOk(h.list, h.l.seg, h.unit) && s in h.l.seg && h.realSize == Sum(h.l.seg)
    ensures s in h.list && h.l.seg[s] <= h.realSize
  {
    hide Sum;
    SumAtLeast(h.l.seg, s);
  }

  // The segment that r bytes need does not fit below the limit.
  ghost predicate OverLimit(h: Heap, r: nat) {
    SEGMENT_HEADER + HEADER <= h.unit && h.limit < h.realSize + SegmentSize(h.unit, TrueSize(r))
  }

  // There is a cached block of m bytes.
  ghost predicate CachedFor(h: Heap, m: nat) {
    Small(m) && MIN_BLOCK <= m && BucketIndex(m) < |h.cache| && h.cache[BucketIndex(m)] != []
  }

  // Nothing at hand serves r bytes, and storage refused a segment or the limit forbids one.
  ghost predicate Exhausted(h: Heap, x: Index, r: nat, refused: bool) {
    && (refused || OverLimit(h, r))
    && !CachedFor(h, TrueSize(r)) && FitFor(x, TrueSize(r), NearLimit(h), Nil)
  }

  // The heap is so close to its limit that the rest list is searched too.
  predicate NearLimit(h: Heap) {
    h.realSize + h.unit >= h.limit
  }

  // What sends a reallocation of payload p to r bytes down the segment path: the block is too
  // small, no cached block will do, and the block and the free block behind it, if there is one,
  // fill their segment and are too small together.
  ghost predicate Moves(h: Heap, p: nat, r: nat) {
    HEADER <= p && !CachedFor(h, TrueSize(r)) && Fills(h.l, p - HEADER, TrueSize(r))
  }

  ghost predicate Fills(l: Layout, b: nat, m: nat) {
    && b in l.hdr && l.hdr[b].n < m && l.hdr[b].ptag == Guard && b + l.hdr[b].n in l.hdr
    && var c := b + l.hdr[b].n;
      if l.hdr[c].tag == Free then
        c + l.hdr[c].n in l.hdr && l.hdr[c + l.hdr[c].n].tag == Guard && c + l.hdr[c].n < b + m
      else
        l.hdr[c].tag == Guard
  }

  // The segment that r bytes need does not fit below the limit in place of the segment of b.
  ghost predicate MoveOverLimit(h: Heap, b: nat, r: nat) {
    && SEGMENT_HEADER + HEADER <= h.unit && SEGMENT_HEADER <= b && b - SEGMENT_HEADER in h.l.seg
    && h.limit + h.l.seg[b - SEGMENT_HEADER] < h.realSize + SegmentSize(h.unit, TrueSize(r))
  }

  // The limit forbids the segment that a reallocation of p, or an allocation if p is 0, needs.
  ghost predicate NoRoom(h: Heap, p: nat, r: nat) {
    if p != 0 && Moves(h, p, r) then MoveOverLimit(h, p - HEADER, r) else OverLimit(h, r)
  }

  // A refusal by storage would leave the free block behind p out of the index.
  ghost predicate Strands(h: Heap, p: nat, r: nat) {
    p != 0 && Moves(h, p, r) && FreeBehind(h, p)
  }

  // The heap is as it was, but the index lacks the free block behind payload p.
  ghost predicate LeftStranded(h: Heap, g: Heap, x: Index, p: nat) {
    g == h && FreeBehind(g, p) && Stranded(g, x, p - HEADER + g.l.hdr[p - HEADER].n)
  }

  // What a first allocation does: it acquires a segment, and its block is the first there.
  ghost predicate FirstSegment(h: Heap, g: Heap, p: nat, r: nat) {
    SEGMENT_HEADER + HEADER <= h.unit && SEGMENT_HEADER + HEADER <= p
    && g.l.seg == map[p - HEADER - SEGMENT_HEADER := SegmentSize(h.unit, TrueSize(r))]
  }

  // Without segments there are no blocks.
  lemma {:induction false} NoSegments(h: Heap)
    requires HeapOk(h)
    ensures h.l.seg == map[] ==> h.l.hdr == map[]
  {
    hide CacheOk, AccountsOk, PeaksOk, SegmentsOk, LiveOk, Coalesced, HeadersAligned, NoOverlap;
    forall b | b in h.l.hdr
      ensures h.l.seg != map[]
    {
      assert TagOk(h.l, b);
    }
  }

  lemma {:induction false} HeldFacts(h: Heap, b: nat)
    requires HeapOk(h) && b in h.live
    ensures b in UsedBlocks(h) && Indexable(h.l.hdr[b].n) && h.live[b] + HEADER <= h.l.hdr[b].n
    ensures TagOk(h.l, b) && TagsOk(h.l) && |h.cache| == NUM_BUCKETS
  {
    hide TagsOk, SegmentsOk, CacheOk, AccountsOk, PeaksOk;
    SizeOfBlock(h, b);
  }

  lemma {:induction false} UsedHeader(h: Heap, b: nat)
    requires b in UsedBlocks(h)
    ensures b in h.l.hdr && UsedBlocks(h)[b] == h.l.hdr[b].n
  {
  }

  // A heap without segments.
  lemma {:induction false} EmptyHeap(h: Heap)
    requires h == Heap(Layout(map[], map[], map[]), [], h.unit, h.limit, 0, 0, 0, 0, h.cache, 0, map[], map[], 0, {0},
      {0})
    requires ParamsOk(h.unit, h.limit) && |h.cache| == NUM_BUCKETS && forall i :: 0 <= i < NUM_BUCKETS ==>
      h.cache[i] == []
    ensures HeapOk(h) && FreeBlocks(h) == map[]
  {
    hide Sum;
    SumEmpty();
    assert UsedBlocks(h) == map[] && FreeBlocks(h) == map[];
    assert UsedBlocks(h) - h.live.Keys == map[];
  }

  lemma {:induction false} SizeCovers(h: Heap, b: nat)
    requires HeapOk(h) && b in UsedBlocks(h)
    ensures UsedBlocks(h)[b] <= h.size
  {
    hide TagsOk, CacheOk, CachedBytes, PeaksOk, SegmentsOk, Sum, LiveOk;
    SumAtLeast(UsedBlocks(h), b);
  }

  // The layout part of the invariant does not depend on the other fields.
  lemma {:induction false} SameLayout(h: Heap, g: Heap, x: Index)
    requires HeapOk(h) && Indexed(h.l.hdr, x)
    requires g == h.(mem := g.mem, live := g.live, size := g.size, sizes := g.sizes)
    ensures LayoutOk(g, x)
  {
    hide TagsOk, CacheOk, CachedBytes, PeaksOk, SegmentsOk, Sum, LiveOk;
  }

  // What a successful reallocation promises; with no block it allocates.
  ghost predicate Realloced(h: Heap, g: Heap, p: nat, q: nat, r: nat) {
    && HEADER <= q
    && if p == 0 then Given(h, g, q - HEADER, r) else HEADER <= p && Resized(h, g, p - HEADER, q - HEADER, r)
  }

  // A free block lies behind the block of payload p.
  ghost predicate FreeBehind(h: Heap, p: nat) {
    && HEADER <= p && p - HEADER in h.l.hdr && p - HEADER + h.l.hdr[p - HEADER].n in h.l.hdr
    && h.l.hdr[p - HEADER + h.l.hdr[p - HEADER].n].tag == Free
  }

  // The block stays as it is; the program asked for r bytes of it.
  lemma {:induction false} AfterAsking(h: Heap, g: Heap, x: Index, b: nat, r: nat)
    requires HeapOk(h) && Indexed(h.l.hdr, x) && b in h.live && SizedFor(h, b, r)
    requires g == h.(live := h.live[b := r])
    ensures HeapOk(g) && Resized(h, g, b, b, r)
  {
    hide TagsOk, IndexOk, CacheOk, CachedBytes, SegmentsOk, Sum;
    assert UsedBlocks(h)[b := UsedBlocks(h)[b]] == UsedBlocks(h);
    AfterResize(h, g, x, b, UsedBlocks(h)[b], r);
  }
}
