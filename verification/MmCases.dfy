// Runs of a heap: where blocks come to lie, and where the accounts, the index and the search fall
// short of what one might expect.
module MmCases {
  import opened MmSize
  import opened MmBits
  import opened Seqs
  import opened MmRing
  import opened MmTrie
  import opened MmRings
  import opened MmIndex
  import opened MmFit
  import opened MmSearch
  import opened MmFreeIndex
  import opened MmTags
  import opened MmSum
  import opened MmCache
  import opened MmHeap
  import opened MmSteps
  import opened MmRoutes
  import opened MmManager

  // Allocate a byte, free it, flush the cache: the program holds nothing, and the usage that the
  // heap reports is the size of the block that was flushed.
  method UsageDrifts(unit: nat) returns (heap: Manager, p: nat)
    requires PowerOfTwo(unit) && SEGMENT_HEADER + HEADER <= unit <= INITIAL_LIMIT
    ensures heap.Valid() && heap.h.live == map[]
    ensures p != 0 ==> UsedBlocks(heap.h) == map[] && 0 < heap.h.lost == heap.h.size - heap.h.cached
  {
    hide HeapOk, IndexOk, Kept, Served, GivenBack;
    heap := new Manager(unit);
    ghost var refused;
    p, refused := heap.AllocInt(1);
    if p == 0 {
      return;
    }
    SmallBlock(heap.h, p - HEADER);
    heap.FreeInt(p);
    heap.FreeCache();
    Empty(heap.h);
  }

  // The block of a byte belongs to a small class.
  lemma {:induction false} SmallBlock(h: Heap, b: nat)
    requires HeapOk(h) && b in h.live && SizedFor(h, b, 1)
    ensures Small(UsedBlocks(h)[b]) && MIN_BLOCK <= UsedBlocks(h)[b] && BucketIndex(UsedBlocks(h)[b]) < |h.cache|
  {
    hide HeapOk;
    HeldFacts(h, b);
    SmallClassesAreExact(UsedBlocks(h)[b], 0);
  }

  lemma {:induction false} Empty(h: Heap)
    requires HeapOk(h) && UsedBlocks(h).Keys == {}
    ensures UsedBlocks(h) == map[] && h.size == h.lost
  {
    hide TagsOk, CacheOk, PeaksOk, SegmentsOk, LiveOk, Sum;
    assert UsedBlocks(h) == map[];
    SumEmpty();
  }

  // Without cached blocks the used blocks are the held ones.
  lemma {:induction false} NoneCached(h: Heap)
    requires HeapOk(h) && h.cached == 0
    ensures UsedBlocks(h).Keys == h.live.Keys
  {
    hide TagsOk, PeaksOk, SegmentsOk, Sum, Blocks, CacheList;
    var idle := UsedBlocks(h) - h.live.Keys;
    forall b | b in UsedBlocks(h)
      ensures b in h.live
    {
      if b in idle { SumAtLeast(idle, b); }
    }
  }

  // A segment with one used block, first in it and not filling it, ends with a free block.
  lemma {:induction false} LoneBlock(l: Layout, s: nat, k: nat)
    requires TagsOk(l) && s in l.seg && HEADER <= l.seg[s] && Blocks(l.hdr, Used) == map[First(s) := k]
      && First(s) + k != Last(l, s)
    ensures Fills(l, First(s), l.seg[s]) && l.hdr[First(s) + l.hdr[First(s)].n].tag == Free
  {
    hide HeadersAligned, NoOverlap;
    var b := First(s);
    assert SegmentOk(l, s);
    assert b in Blocks(l.hdr, Used) && l.hdr[b].n == k;
    assert TagOk(l, b) && TagOk(l, b + k);
    var c := b + k;
    assert c !in Blocks(l.hdr, Used);
    assert Settled(l, c);
    assert TagOk(l, c + l.hdr[c].n);
    assert c + l.hdr[c].n !in Blocks(l.hdr, Used);
  }

  lemma {:induction false} ReadyToStrand(h: Heap, p: nat, unit: nat)
    requires HeapOk(h) && h.cached == 0 && 128 <= unit && SEGMENT_HEADER + HEADER <= p && h.live == map[p - HEADER := 1]
    requires h.l.seg == map[p - HEADER - SEGMENT_HEADER := unit] && SizedFor(h, p - HEADER, 1)
    ensures Strands(h, p, unit + MAX_SMALL)
  {
    hide CacheOk, PeaksOk, SegmentsOk, LiveOk, AccountsOk, TagsOk;
    NoneCached(h);
    var b, s := p - HEADER, p - HEADER - SEGMENT_HEADER;
    var k := UsedBlocks(h)[b];
    assert UsedBlocks(h) == map[b := k];
    LoneBlock(h.l, s, k);
  }

  // Allocate a byte, then resize it beyond the segment: if storage refuses to resize the segment,
  // the free block behind stays out of the index.
  method RefusalStrands(unit: nat) returns (heap: Manager, p: nat, q: nat, ghost refused: bool)
    requires PowerOfTwo(unit) && 128 <= unit <= INITIAL_LIMIT
    ensures p == 0 || q != 0 || !refused ==> heap.Valid()
    ensures p != 0 && q == 0 && refused ==> !heap.Valid() && HeapOk(heap.h) && IndexOk(heap.ix.x)
  {
    hide HeapOk, IndexOk, Kept, Resized, Served, Goes, LeftOver, Fails;
    heap := new Manager(unit);
    p, refused := heap.AllocInt(1);
    q := 0;
    if p == 0 {
      return;
    }
    ReadyToStrand(heap.h, p, unit);
    q, refused := heap.ReallocInt(p, unit + MAX_SMALL);
  }

  // ---------- where blocks lie ----------

  // A heap with one segment of one unit, in which b is the first block, of 32 bytes, and the rest is
  // one free block in the tries.
  ghost predicate OneBlock(h: Heap, x: Index, b: nat, unit: nat) {
    && h.cached == 0 && SEGMENT_HEADER <= b && 1024 <= unit
    && h.l.seg == map[b - SEGMENT_HEADER := unit] && UsedBlocks(h) == map[b := 32]
    && x.t.size == map[b + 32 := unit - 64] && InTrie(x, b + 32)
  }

  lemma {:induction false} NothingCached(h: Heap, m: nat)
    requires HeapOk(h) && h.cached == 0
    ensures !CachedFor(h, m)
  {
    hide HeapOk;
    if CachedFor(h, m) {
      CacheSize(h);
      CachedEnough(h, BucketIndex(m));
    }
  }

  lemma {:induction false} NothingFree(h: Heap, x: Index)
    requires HeapOk(h) && Indexed(h.l.hdr, x) && h.l.seg == map[]
    ensures x.t.size == map[]
  {
    NoSegments(h);
  }

  // Behind the first block and the block after it, in a segment of two, there is no other.
  lemma {:induction false} OnlyFree(l: Layout, s: nat, c: nat, n: nat)
    requires TagsOk(l) && l.seg == map[s := c + n - s + HEADER] && c in l.hdr && l.hdr[c].n == n && First(s) <= c
    requires c == First(s) || (First(s) in l.hdr && First(s) + l.hdr[First(s)].n == c)
    requires First(s) in l.hdr && l.hdr[First(s)].tag == Used && l.hdr[c].tag == Free
    ensures Blocks(l.hdr, Free) == map[c := n]
  {
    hide Tiled, Coalesced, HeadersAligned;
    TiledApart(l);
    forall d | d in Blocks(l.hdr, Free)
      ensures d == c
    {
      Within(l, s, d);
      hide NoOverlap;
      InRun(l.hdr, First(s), First(s), c + n, d);
    }
  }

  // A block of the only segment lies between its header and its guard.
  lemma {:induction false} Within(l: Layout, s: nat, d: nat)
    requires Tiled(l) && l.seg.Keys == {s} && d in l.hdr && l.hdr[d].tag != Guard
    ensures First(s) <= d && d + l.hdr[d].n + HEADER <= s + l.seg[s] && 0 < l.hdr[d].n
  {
    hide NoOverlap;
    assert TagOk(l, d) && TagOk(l, d + l.hdr[d].n);
  }

  lemma {:induction false} FirstBlock(h: Heap, x: Index, g: Heap, y: Index, b: nat, unit: nat)
    requires HeapOk(h) && Indexed(h.l.hdr, x) && h.l.seg == map[] && h.cached == 0 && h.unit == unit && 1024 <= unit
    requires HeapOk(g) && Indexed(g.l.hdr, y) && Served(h, x, g, y, b, 1) && g.cached == 0 && g.live == map[b := 1]
    ensures OneBlock(g, y, b, unit)
  {
    hide HeapOk, IndexOk, FitFor, TagsOk;
    NothingFree(h, x);
    NothingCached(h, 32);
    assert g.l.seg == map[b - SEGMENT_HEADER := unit];
    NoneCached(g);
    assert UsedBlocks(g) == map[b := 32];
    LiveOf(g);
    OnlyFree(g.l, b - SEGMENT_HEADER, b + 32, unit - 64);
  }

  // Two bytes, allocated one after the other: both blocks are in the first segment, one behind the
  // other.
  method SmallShareSegment(unit: nat) returns (heap: Manager, p: nat, q: nat)
    requires PowerOfTwo(unit) && 1024 <= unit <= INITIAL_LIMIT
    ensures heap.Valid() && (p != 0 ==> q == p + 32 && heap.h.realSize == unit)
  {
    hide HeapOk, IndexOk, Kept, Served, FirstSegment, FitFor, Exhausted;
    heap := new Manager(unit);
    ghost var h, x := heap.h, heap.ix.x;
    ghost var refused;
    p, refused := heap.AllocInt(1);
    q := 0;
    if p == 0 {
      return;
    }
    FirstBlock(h, x, heap.h, heap.ix.x, p - HEADER, unit);
    ghost var g, y := heap.h, heap.ix.x;
    q, refused := heap.AllocInt(1);
    SecondBlock(g, y, heap.h, heap.ix.x, p - HEADER, q, refused, unit);
  }

  lemma {:induction false} SecondBlock(h: Heap, x: Index, g: Heap, y: Index, b: nat, q: nat, refused: bool, unit: nat)
    requires HeapOk(h) && OneBlock(h, x, b, unit) && HeapOk(g) && (q != 0 ==> HEADER <= q)
    requires q == 0 ==> Exhausted(h, x, 1, refused)
    requires q != 0 ==> Served(h, x, g, y, q - HEADER, 1)
    ensures q == b + HEADER + 32 && g.realSize == unit
  {
    hide HeapOk, FitFor, Remainder, Acquired;
    SomethingLeft(x, b + 32, NearLimit(h));
    NothingCached(h, 32);
    RealSizeIs(g, b - SEGMENT_HEADER, unit);
  }

  lemma {:induction false} SomethingLeft(x: Index, c: nat, near: bool)
    requires c in x.t.size && InTrie(x, c) && 32 <= x.t.size[c]
    ensures !FitFor(x, 32, near, Nil)
  {
  }

  lemma {:induction false} RealSizeIs(h: Heap, s: nat, n: nat)
    requires HeapOk(h)
    ensures h.l.seg == map[s := n] ==> h.realSize == n
  {
    hide TagsOk, CacheOk, PeaksOk, SegmentsOk, LiveOk, Sum;
    if h.l.seg == map[s := n] {
      SumWithout(h.l.seg, s);
      assert h.l.seg - {s} == map[];
      SumEmpty();
    }
  }

  // With the limit at one unit, a byte grows in place until its block fills the segment.
  method GrowsToTheLimit(unit: nat) returns (heap: Manager, p: nat, q: nat)
    requires PowerOfTwo(unit) && 1024 <= unit <= INITIAL_LIMIT
    ensures heap.Valid() && (p != 0 ==> q == p && heap.h.limit == unit)
  {
    hide HeapOk, IndexOk, Kept, Served, FirstSegment, FitFor, Exhausted, Resized, Goes, LeftOver, Fails;
    PowerOfTwoIsAligned(unit);
    heap := new Manager(unit);
    heap.SetLimit(unit);
    ghost var h, x := heap.h, heap.ix.x;
    ghost var refused;
    p, refused := heap.AllocInt(1);
    q := 0;
    if p == 0 {
      return;
    }
    FirstBlock(h, x, heap.h, heap.ix.x, p - HEADER, unit);
    ghost var g, y := heap.h, heap.ix.x;
    q, refused := heap.ReallocInt(p, unit - 48);
    GrownBlock(g, y, p - HEADER, q, refused, unit);
    SameLimit(g, heap.h, p - HEADER, q - HEADER, unit - 48);
  }

  lemma {:induction false} SameLimit(h: Heap, g: Heap, b: nat, c: nat, r: nat)
    requires Resized(h, g, b, c, r)
    ensures g.limit == h.limit
  {
  }

  lemma {:induction false} GrownBlock(h: Heap, x: Index, b: nat, q: nat, refused: bool, unit: nat)
    requires HeapOk(h) && Indexed(h.l.hdr, x) && OneBlock(h, x, b, unit) && unit % ALIGNMENT == 0
    requires q == 0 ==> Fails(h, x, b + HEADER, unit - 48, refused)
    requires q != 0 ==> HEADER <= q && Goes(h, x, b, q - HEADER, unit - 48)
    ensures q == b + HEADER
  {
    hide HeapOk, IndexOk;
    NothingCached(h, unit - 32);
    assert b in UsedBlocks(h) && b + 32 in FreeBlocks(h);
    assert TrueSize(unit - 48) == unit - 32;
    assert InPlace(h, b, unit - 48);
  }

  // ---------- the search ----------

  // Three large blocks of one bucket, filed largest first: the search for 560 bytes starts at the
  // largest and does not come to the smallest.
  method SearchMisses() returns (ix: FreeIndex, r: Ref)
    ensures ix.Valid() && ix.x.t.size == map[8192 := 2040, 16384 := 1032, 24576 := 1544]
    ensures r == Block(24576) && GoodFit(ix.x, 560, r) && !BestFit(ix.x, 560, r)
  {
    hide IndexOk, GoodFit, BestAtHand, Nearest;
    TenthBucket();
    ix := new FreeIndex();
    ix.AddToFreeList(8192, 2040);
    FirstIsRoot(ix.x);
    ix.AddToFreeList(16384, 1032);
    ix.AddToFreeList(24576, 1544);
    SmallestIsNotAtHand(ix.x);
    r := SearchLarge(ix.x, 560);
    SomethingFits(ix.x, r);
    WalkComesTo(ix.x, r);
  }

  lemma {:induction false} TenthBits()
    ensures Prefix(1032, 10, 1) == 2 && Prefix(1544, 10, 1) == 3
  {
    assert Shr(1032, 5) == 32 && Shr(1544, 5) == 48;
    ShrShr(1032, 5, 4);
    ShrShr(1544, 5, 4);
  }

  // A node of the bucket that is not the root, and differs from the third one in its first bit, is a
  // child of the root.
  lemma {:induction false} ChildOfRoot(t: Forest, a: nat, b: nat, c: nat)
    requires Trie(t) && t.depth.Keys == {a, b, c} && a != b && b != c && a != c
    requires a in t.parent && t.parent[a] == Root(10)
    requires Bucket(t.size[a]) == Bucket(t.size[b]) == Bucket(t.size[c]) == 10
    requires Prefix(t.size[b], 10, 1) != Prefix(t.size[c], 10, 1)
    ensures NodeOk(t, a) && NodeOk(t, b) && t.slot[Root(10)] == Block(a) && t.depth[b] == 1
    ensures t.slot[Child(a, Prefix(t.size[b], 10, 1) % 2)] == Block(b)
  {
    hide Bucket, Prefix;
    assert NodeOk(t, a) && NodeOk(t, b) && NodeOk(t, c);
  }

  // A node one level down without nodes two levels down is a leaf.
  lemma {:induction false} LeafAt(t: Forest, b: nat)
    requires Trie(t) && b in t.depth && t.depth[b] == 1 && forall c :: c in t.depth ==> t.depth[c] < 2
    ensures NodeOk(t, b) && t.slot[Child(b, 0)] == t.slot[Child(b, 1)] == Nil
  {
    hide Trie, Fits;
    ChildLevel(t, b, 0);
    ChildLevel(t, b, 1);
  }

  lemma {:induction false} ChildLevel(t: Forest, b: nat, i: nat)
    requires Trie(t) && b in t.depth && i < 2
    ensures NodeOk(t, b)
    ensures var c := t.slot[Child(b, i)];
      c != Nil ==> c.Block? && c.addr in t.depth && t.depth[c.addr] == t.depth[b] + 1
  {
    hide Bucket, Prefix;
    assert NodeOk(t, b);
    var c := t.slot[Child(b, i)];
    if c != Nil { assert NodeOk(t, c.addr); }
  }

  // The three are the nodes.
  lemma {:induction false} ThreeNodes(x: Index)
    requires IndexOk(x) && x.t.size == map[8192 := 2040, 16384 := 1032, 24576 := 1544]
    requires InTrie(x, 16384) && InTrie(x, 24576) && 8192 in x.t.depth
    ensures Trie(x.t) && x.t.depth.Keys == {8192, 16384, 24576}
  {
    hide IndexOk, LargeSize, NodeOk, SlotOk;
    var c := NodeFor(x, 16384);
    var d := NodeFor(x, 24576);
    TrieOf(x);
    hide Trie;
    forall b
      ensures b in x.t.depth <==> b in {8192, 16384, 24576}
    {
    }
  }

  lemma {:induction false} TrieOf(x: Index)
    requires IndexOk(x)
    ensures Trie(x.t) && forall b :: b in x.t.depth ==> b in x.t.size
  {
  }

  // A walk of two nodes.
  lemma {:induction false} TwoOnChain(t: Forest, a: nat, b: nat)
    requires Child(a, 0) in t.slot && Child(a, 1) in t.slot && Child(b, 0) in t.slot && Child(b, 1) in t.slot
    requires Down(t, a) == Block(b) && Down(t, b) == Nil
    ensures OnChain(t, Block(a), b) && forall p :: OnChain(t, Block(a), p) ==> p == a || p == b
  {
    hide Down;
    assert DownBy(t, Block(a), 0) == Block(a);
    assert DownBy(t, Block(a), 1) == Block(b);
    assert DownBy(t, Block(a), 2) == Nil;
    forall p | OnChain(t, Block(a), p)
      ensures p == a || p == b
    {
      var k: nat :| DownBy(t, Block(a), k) == Block(p);
      if 2 <= k { NilStays(t, Block(a), 2, k); }
    }
  }

  lemma {:induction false} WalkComesTo(x: Index, r: Ref)
    requires IndexOk(x) && x.t.size == map[8192 := 2040, 16384 := 1032, 24576 := 1544]
    requires InTrie(x, 16384) && InTrie(x, 24576) && GoodFit(x, 560, r)
    requires 8192 in x.t.depth && 8192 in x.t.parent && x.t.parent[8192] == Root(10) && Nearest(x, 560, r)
    ensures r == Block(24576)
  {
    TenthBucket();
    TenthBits();
    ThreeNodes(x);
    hide IndexOk, Bucket, Prefix, Trie, OnChain, AtHand, NodeOk, GoodFit, InTrie;
    ChildOfRoot(x.t, 8192, 16384, 24576);
    ChildOfRoot(x.t, 8192, 24576, 16384);
    LeafBoth(x.t);
    TwoOnChain(x.t, 8192, 24576);
  }

  lemma {:induction false} LeafBoth(t: Forest)
    requires Trie(t) && t.depth.Keys == {8192, 16384, 24576} && t.depth[16384] == t.depth[24576] == 1
    requires NodeOk(t, 8192) && t.parent[8192] == Root(10)
    ensures NodeOk(t, 24576) && t.slot[Child(24576, 0)] == t.slot[Child(24576, 1)] == Nil
    ensures Child(8192, 0) in t.slot && Child(8192, 1) in t.slot
  {
    hide Trie;
    LeafAt(t, 24576);
  }

  lemma {:induction false} TenthBucket()
    ensures Bucket(2040) == Bucket(1032) == Bucket(1544) == 10 && Bucket(560) == 9
  {
  }

  lemma {:induction false} FirstIsRoot(x: Index)
    requires IndexOk(x) && x.t.size == map[8192 := 2040] && InTrie(x, 8192)
    ensures 8192 in x.t.depth && 8192 in x.t.parent && x.t.parent[8192] == Root(10)
  {
    TenthBucket();
    var c := NodeFor(x, 8192);
    assert NodeOk(x.t, c);
  }

  lemma {:induction false} SmallestIsNotAtHand(x: Index)
    requires IndexOk(x) && x.t.size == map[8192 := 2040, 16384 := 1032, 24576 := 1544] && InTrie(x, 16384)
    requires 8192 in x.t.depth && 8192 in x.t.parent && x.t.parent[8192] == Root(10)
    ensures !BestAtHand(x.t, 560)
  {
    TenthBucket();
    hide Bucket;
    var c := NodeFor(x, 16384);
    assert NodeOk(x.t, 8192) && NodeOk(x.t, 16384);
    forall q | LeastFit(x.t, 560, q)
      ensures !AtHand(x.t, 560, q)
    {
      assert q == 16384;
    }
  }

  lemma {:induction false} SomethingFits(x: Index, r: Ref)
    requires 16384 in x.t.size && x.t.size[16384] == 1032 && InTrie(x, 16384) && GoodFit(x, 560, r)
    ensures r != Nil
  {
  }
}
