// The heap manager: allocation, release and resizing of blocks, updated in place.
module MmManager {
  import opened MmSize
  import opened MmBits
  import opened Seqs
  import opened MmRing
  import opened MmTrie
  import opened MmRings
  import opened MmIndex
  import opened MmSearch
  import opened MmFreeIndex
  import opened MmTags
  import opened MmSum
  import opened MmCache
  import opened MmHeap
  import opened MmSteps
  import opened MmRoutes

  class Manager {
    var h: Heap
    const ix: FreeIndex

    ghost predicate Valid()
      reads this, ix
    {
      HeapOk(h) && Indexed(h.l.hdr, ix.x)
    }

    // zend_mm_startup_ex, without the reserve
    constructor (unit: nat)
      requires PowerOfTwo(unit) && SEGMENT_HEADER + HEADER <= unit <= INITIAL_LIMIT
      ensures Valid() && fresh(ix)
      ensures h.live == map[] && h.lost == 0 && h.cached == 0 && h.l.seg == map[] && h.unit == unit
        && h.limit == INITIAL_LIMIT
    {
      ix := new FreeIndex();
      h := Heap(Layout(map[], map[], map[]), [], unit, INITIAL_LIMIT, 0, 0, 0, 0,
                seq(NUM_BUCKETS, _ => []), 0, map[], map[], 0, {0}, {0});
      new;
      hide HeapOk, IndexOk;
      PowerOfTwoIsAligned(unit);
      EmptyHeap(h);
    }

    // zend_mm_del_segment
    method DelSegment(s: nat)
      requires Tiled(h.l) && s in h.l.seg && SegmentsOk(h.list, h.l.seg, h.unit) && h.realSize == Sum(h.l.seg)
      modifies this`h
      ensures SegmentGone(old(h), h, s)
    {
      var i := Position(h.list, s);
      SumWithout(h.l.seg, s);
      ReleasedByRange(h.l, s);
      var n := h.l.seg[s];
      h := h.(list := Removed(h.list, i));
      h := h.(realSize := h.realSize - n, reals := h.reals + {h.realSize - n});
      h := h.(l := Layout(Outside(h.l.hdr, s, n), h.l.seg - {s}, Disowned(h.l.own, s)));
      Unlinked(old(h), h, s, i);
    }

    // ZEND_MM_BLOCK over the run from s to e
    method WriteRun(s: nat, e: nat, tag: Tag)
      requires s in h.l.hdr && e in h.l.hdr && s < e
      modifies this`h
      ensures h == old(h).(l := Fused(old(h).l, s, e - s, tag))
    {
      FusedIsWritten(h.l, s, e - s, tag);
      h := h.(l := h.l.(hdr := MmTags.Dropped(h.l.hdr, s, e), own := MmTags.Dropped(h.l.own, s, e)));
      h := h.(l := h.l.(hdr := SetBlock(h.l.hdr, s, tag, e - s)));
    }

    // The block that freeing b makes is filed, or its segment is given back.
    method FileRun(b: nat, s: nat, e: nat)
      requires FreeRun(h.l, b, s, e) && h.l.hdr[b].tag == Used && LayoutOkWithout(h, ix.x, {s, b + h.l.hdr[b].n})
      modifies this`h, ix
      ensures LayoutOk(h, ix.x) && BlockGone(old(h), h, b) && GivenBack(old(h).l, h.l, ix.x, b)
    {
      hide IndexOk, Tiled, Coalesced, Blocks, GivenBack;
      if h.l.hdr[s].ptag == Guard && h.l.hdr[e].tag == Guard {
        ReleasedBlocks(h.l, b, s, e);
        DelSegment(s - SEGMENT_HEADER);
        AfterRelease(old(h), h, ix.x, b, s, e);
        Emptied(old(h).l, h.l, ix.x, b, s, e);
      } else {
        FreedSize(h, b, s, e);
        RunIsUnindexed(h, b, s, e, ix.x);
        WriteRun(s, e, Free);
        ghost var x := ix.x;
        ix.AddToFreeList(s, e - s);
        AfterMerge(old(h), h, x, ix.x, b, s, e);
        Merged(old(h).l, h.l, x, ix.x, b, s, e);
      }
    }

    // The part of _zend_mm_free_int behind the cache: the next block first, then the previous one.
    method Coalesce(b: nat)
      requires LayoutOk(h, ix.x) && b in UsedBlocks(h)
      modifies this`h, ix
      ensures LayoutOk(h, ix.x) && BlockGone(old(h), h, b) && GivenBack(old(h).l, h.l, ix.x, b)
    {
      hide IndexOk, Tiled, Coalesced, SegmentsOk, ParamsOk, ShortenedBy, PeerGone, FreeBitsWithout;
      ghost var s', e' := FindRun(h.l, b);
      var size := h.l.hdr[b].n;
      var next := b + size;
      if h.l.hdr[next].tag == Free {
        ix.RemoveFromFreeList(next);
        size := size + h.l.hdr[next].n;
      }
      var s := b;
      if h.l.hdr[b].ptag == Free {
        s := b - h.l.hdr[b].pn;
        ix.RemoveFromFreeList(s);
        size := size + h.l.hdr[s].n;
      }
      FileRun(b, s, s + size);
    }

    // The same in zend_mm_free_cache: the previous block first, then the next one.
    method CoalesceCached(b: nat)
      requires LayoutOk(h, ix.x) && b in UsedBlocks(h)
      modifies this`h, ix
      ensures LayoutOk(h, ix.x) && BlockGone(old(h), h, b) && GivenBack(old(h).l, h.l, ix.x, b)
    {
      hide IndexOk, Tiled, Coalesced, SegmentsOk, ParamsOk, ShortenedBy, PeerGone, FreeBitsWithout;
      ghost var s', e' := FindRun(h.l, b);
      var size := h.l.hdr[b].n;
      var next := b + size;
      var s := b;
      if h.l.hdr[b].ptag == Free {
        s := b - h.l.hdr[b].pn;
        size := size + h.l.hdr[s].n;
        ix.RemoveFromFreeList(s);
      }
      if h.l.hdr[next].tag == Free {
        size := size + h.l.hdr[next].n;
        ix.RemoveFromFreeList(next);
      }
      FileRun(b, s, s + size);
    }

    // _zend_mm_free_int
    method FreeInt(p: nat)
      requires Valid() && (p == 0 || (HEADER <= p && p - HEADER in h.live))
      modifies this`h, ix
      ensures Valid()
      ensures p == 0 ==> h == old(h)
      ensures p != 0 ==>
        h.live == old(h).live - {p - HEADER} && Kept(old(h), h, p - HEADER)
      ensures p != 0 ==> Freed(old(h), h, old(ix.x), ix.x, p - HEADER)
      ensures h.limit == old(h).limit && h.unit == old(h).unit && h.realSize <= old(h).realSize
      ensures h.lost == old(h).lost && h.peak == old(h).peak
    {
      hide IndexOk, HeapOk, TagsOk, LayoutOk, Erased, Kept;
      if p == 0 {
        return;
      }
      var b := p - HEADER;
      HeldFacts(h, b);
      var n := h.l.hdr[b].n;
      SmallClassesAreExact(n, BucketIndex(n));
      if Small(n) && h.cached < CACHE_SIZE {
        var index := BucketIndex(n);
        h := h.(mem := Erased(h.mem, b + HEADER, b + n));
        h := h.(cache := h.cache[index := [b] + h.cache[index]], live := h.live - {b});
        h := h.(cached := h.cached + n);
        AfterPush(old(h), h, ix.x, b, index);
        return;
      }
      SizeCovers(h, b);
      h := h.(mem := Erased(h.mem, b + HEADER, b + n), live := h.live - {b});
      h := h.(size := h.size - n, sizes := h.sizes + {h.size - n});
      ghost var g := h;
      SameLayout(old(h), g, ix.x);
      Coalesce(b);
      AfterFree(old(h), g, h, ix.x, b);
    }

    // The inner loop of zend_mm_free_cache: list i, which stays in place until it is done.
    method FlushList(i: nat)
      requires Valid() && i < NUM_BUCKETS
      modifies this`h, ix
      ensures Valid() && FlushedTo(old(h), h)
      ensures h.cache == old(h).cache[i := []]
    {
      hide IndexOk, HeapOk, LayoutOk, LiveOk;
      CacheSize(h);
      LiveOf(h);
      FlushedSelf(h);
      hide TagsOk;
      var c := h.cache[i];
      assert h.cache[i := c] == h.cache;
      while c != []
        invariant h.cache == old(h).cache && i < |h.cache| && HeapOk(WithList(h, i, c)) && Indexed(h.l.hdr, ix.x)
        invariant FlushedTo(old(h), h)
        decreases c
      {
        ghost var h0 := h;
        FlushHead(h, i, c);
        h := h.(cached := h.cached - h.l.hdr[c[0]].n, lost := h.lost + h.l.hdr[c[0]].n);
        ghost var g := h;
        LayoutOf(h0, g, ix.x, i, c);
        CoalesceCached(c[0]);
        AfterFlush(h0, g, h, ix.x, i, c);
        FlushedTransitive(old(h), h0, h);
        c := c[1..];
      }
      h := h.(cache := h.cache[i := []]);
    }

    // zend_mm_free_cache
    method FreeCache()
      requires Valid()
      modifies this`h, ix
      ensures Valid() && FlushedTo(old(h), h)
      ensures h.cached == 0 && forall i :: 0 <= i < NUM_BUCKETS ==> h.cache[i] == []
      ensures UsedBlocks(h).Keys == h.live.Keys
    {
      hide IndexOk, HeapOk, LayoutOk, FlushedTo;
      FlushedSelf(h);
      CacheSize(h);
      var i := 0;
      while i < NUM_BUCKETS
        invariant i <= NUM_BUCKETS && Valid() && FlushedTo(old(h), h) && |h.cache| == NUM_BUCKETS
        invariant forall j :: 0 <= j < i ==> h.cache[j] == []
      {
        ghost var g := h;
        FlushList(i);
        FlushedTransitive(old(h), g, h);
        i := i + 1;
      }
      AllFlushed(h);
    }

    // The code that _zend_mm_alloc_int and _zend_mm_realloc_int share: of the run of n bytes at b,
    // use m and file the rest, if it is large enough for a block.
    method Place(b: nat, n: nat, m: nat, keepRest: bool, ghost used: map<nat, nat>) returns (k: nat)
      requires m <= n && CarveReady(h.l, b, n, m, ix.x.t.size, used) && IndexOk(ix.x)
      requires ParamsOk(h.unit, h.limit) && SegmentsOk(h.list, h.l.seg, h.unit)
      modifies this`h, ix
      ensures h == old(h).(l := h.l) && h.l.seg == old(h).l.seg && TagsOk(h.l) && Indexed(h.l.hdr, ix.x)
      ensures UsedBlocks(h) == used && k == UsedSize(n, m) && (b in UsedBlocks(h) ==> h.l.hdr[b].n == k)
      ensures Remainder(h.l.hdr, ix.x, b, n, m, keepRest)
    {
      hide IndexOk, TagsOk, CarveReady, SegmentsOk, Blocks, SetBlock, MmTags.Dropped, Fused;
      hide Filed, RestedAfter, FiledAt, SmallBitsExact;
      if n - m < MIN_BLOCK {
        CarvedWhole(h.l, b, n, m, ix.x.t.size, used);
        WriteRun(b, b + n, Used);
        return n;
      }
      CarvedInTwo(h, b, n, m, ix.x.t.size, used);
      h := h.(l := h.l.(hdr := MmTags.Dropped(h.l.hdr, b, b + n),
        own := MmTags.Dropped(h.l.own, b, b + n)[b + m := h.l.own[b]]));
      h := h.(l := h.l.(hdr := SetBlock(h.l.hdr, b, Used, m)));
      h := h.(l := h.l.(hdr := SetBlock(h.l.hdr, b + m, Free, n - m)));
      if !keepRest {
        ghost var x := ix.x;
        ix.AddToFreeList(b + m, n - m);
        FiledInList(x, ix.x, b + m, n - m);
      } else {
        ghost var x := ix.x;
        ix.AddToRestList(b + m, n - m);
        FiledInRest(x, ix.x, b + m, n - m);
      }
      return m;
    }

    // The search of _zend_mm_alloc_int: small rings, tries and, near the limit, the rest list.
    method FindFree(m: nat) returns (r: Ref)
      requires IndexOk(ix.x) && BlockSize(m)
      ensures FitFor(ix.x, m, NearLimit(h), r)
      ensures r != Nil ==> r.Block? && r.addr in ix.x.t.size && m <= ix.x.t.size[r.addr]
    {
      hide IndexOk;
      r := Nil;
      if Small(m) {
        r := SearchSmall(ix.x, m);
      }
      if r == Nil {
        r := SearchLarge(ix.x, m);
        if r == Nil && NearLimit(h) {
          r := SearchRest(ix.x, m);
        }
      }
    }

    // Using a block of a free list.
    method TakeFree(b: nat, m: nat, r: nat)
      requires Valid() && b in ix.x.t.size && m <= ix.x.t.size[b] && m == TrueSize(r)
      modifies this`h, ix
      ensures Valid() && Given(old(h), h, b, r) && h.l.seg == old(h).l.seg
      ensures Remainder(h.l.hdr, ix.x, b, old(ix.x).t.size[b], m, false)
    {
      hide IndexOk, TagsOk, CachedBytes, SegmentsOk, CacheOk, Given, Kept, Sum, PeaksOk, LiveOk, CarveReady, Blocks;
      TrueSizeIsLeast(r, 0);
      TakeReady(h, ix.x, b, m);
      ix.RemoveFromFreeList(b);
      var n := h.l.hdr[b].n;
      var k := Place(b, n, m, false, UsedBlocks(h)[b := UsedSize(n, m)]);
      Charge(h.size + k, b, r);
      AfterGive(old(h), h, ix.x, b, k, r);
    }

    // heap->size and its peak; from here on the program holds b
    method Charge(v: nat, ghost b: nat, ghost r: nat)
      modifies this`h
      ensures h == old(h).(size := v, peak := if old(h).peak < v then v else old(h).peak, sizes := old(h).sizes + {v},
                           live := old(h).live[b := r])
    {
      h := h.(size := v, sizes := h.sizes + {v}, live := h.live[b := r]);
      if h.peak < h.size {
        h := h.(peak := h.size);
      }
    }

    // A new segment of n bytes at s, first in the list, with one used block.
    method AddSegment(s: nat, n: nat)
      requires SEGMENT_HEADER + MIN_BLOCK + HEADER <= n
      modifies this`h
      ensures Enlarged(old(h), h, s, n)
    {
      h := h.(realSize := h.realSize + n, reals := h.reals + {h.realSize + n});
      if h.realSize > h.realPeak {
        h := h.(realPeak := h.realSize);
      }
      h := h.(list := [s] + h.list);
      var b := First(s);
      var blockSize := n - SEGMENT_HEADER - HEADER;
      h := h.(l := Layout(h.l.hdr[b := Header(blockSize, Used, 0, Guard)][b + blockSize :=
        Header(HEADER, Guard, blockSize, Used)],
                          h.l.seg[s := n], h.l.own[b := s][b + blockSize := s]));
    }

    // Acquiring a segment and using its block.
    method TakeFresh(s: nat, n: nat, m: nat, r: nat, keepRest: bool)
      requires Valid() && m == TrueSize(r) && n == SegmentSize(h.unit, m) && h.realSize + n <= h.limit
      requires Unclaimed(h.l.seg, s, n) && s % ALIGNMENT == 0
      modifies this`h, ix
      ensures Valid() && Given(old(h), h, First(s), r) && h.l.seg == old(h).l.seg[s := n]
      ensures First(s) !in old(ix.x).t.size && SEGMENT_HEADER + HEADER <= n
      ensures Remainder(h.l.hdr, ix.x, First(s), n - SEGMENT_HEADER - HEADER, m, keepRest)
    {
      hide IndexOk, TagsOk, CachedBytes, SegmentsOk, CacheOk, Given, Kept, Sum, PeaksOk, LiveOk, CarveReady, Blocks,
        SegmentSize;
      TrueSizeIsLeast(r, 0);
      SegmentSizeIsLeast(h.unit, m, 1);
      AddSegment(s, n);
      var b := First(s);
      var blockSize := n - SEGMENT_HEADER - HEADER;
      FreshReady(old(h), h, ix.x, s, n, m);
      var k := Place(b, blockSize, m, keepRest, UsedBlocks(old(h))[b := UsedSize(blockSize, m)]);
      Charge(h.size + k, b, r);
      AfterGive(old(h), h, ix.x, b, k, r);
    }

    // _zend_mm_alloc_int; 0 stands for the exits through zend_mm_safe_error
    method AllocInt(size: nat) returns (p: nat, ghost refused: bool)
      requires Valid()
      modifies this`h, ix
      ensures Valid()
      ensures p != 0 ==> HEADER <= p && Given(old(h), h, p - HEADER, size)
      ensures p == 0 ==> FlushedTo(old(h), h) && h.cached == 0 && Exhausted(old(h), old(ix.x), size, refused)
      ensures p != 0 ==> Served(old(h), old(ix.x), h, ix.x, p - HEADER, size)
      ensures p != 0 && old(h).l.seg == map[] ==> FirstSegment(old(h), h, p, size)
    {
      hide IndexOk, Tiled, Coalesced, HeadersAligned, CachedBytes, SegmentsOk, CacheOk, Given, Kept, Sum, PeaksOk,
        FlushedTo;
      refused := false;
      hide Served, Remainder, FitFor;
      NoSegments(h);
      var m := TrueSize(size);
      TrueSizeIsLeast(size, 0);
      if Small(m) {
        var index := BucketIndex(m);
        SmallClassesAreExact(m, index);
        if h.cache[index] != [] {
          CachedEnough(h, index);
          var b := h.cache[index][0];
          h := h.(cache := h.cache[index := h.cache[index][1..]], live := h.live[b := size]);
          h := h.(cached := h.cached - m);
          AfterPop(old(h), h, index, size);
          ServedCached(old(h), ix.x, h, b, size);
          return b + HEADER, false;
        }
      }
      var r := FindFree(m);
      if r != Nil {
        ghost var x := ix.x;
        TakeFree(r.addr, m, size);
        ServedFree(old(h), x, h, ix.x, r.addr, size);
        return r.addr + HEADER, false;
      }
      var n := SegmentSize(h.unit, m);
      var keepRest := m > h.unit - (SEGMENT_HEADER + HEADER);
      if h.realSize + n > h.limit {
        FreeCache();
        return 0, false;
      }
      var s := StorageAlloc(h.l.seg, n);
      if s == 0 {
        FreeCache();
        return 0, true;
      }
      ghost var x := ix.x;
      TakeFresh(s, n, m, size, keepRest);
      ServedFresh(old(h), x, h, ix.x, s, size);
      return First(s) + HEADER, false;
    }

    // Resizing b within itself and the free block behind it, as a shrinking or an absorbing
    // _zend_mm_realloc_int does.
    method ResizeInPlace(b: nat, m: nat, r: nat, keepRest: bool, ghost c: nat, ghost e: nat)
      requires Valid() && b in h.live && b in UsedBlocks(h) && m == TrueSize(r) && Behind(h.l, ix.x, b, c, e)
        && b + m <= e
      modifies this`h, ix
      ensures Valid() && Resized(old(h), h, b, b, r)
      ensures b <= e && Remainder(h.l.hdr, ix.x, b, e - b, m, keepRest)
    {
      hide IndexOk, TagsOk, CachedBytes, SegmentsOk, CacheOk, Resized, Kept, Sum, PeaksOk, LiveOk, CarveReady, Erased;
      hide ShortenedBy, PeerGone, FreeBitsWithout, Remainder;
      TrueSizeIsLeast(r, 0);
      CarveWidened(h.l, b, m, e);
      SumAtLeast(UsedBlocks(h), b);
      var n := h.l.hdr[b].n;
      var next := b + n;
      var size := n;
      if h.l.hdr[next].tag == Free {
        size := size + h.l.hdr[next].n;
        ix.RemoveFromFreeList(next);
      }
      NotFree(h.l.hdr, old(ix.x).t.size, c);
      var k := Place(b, size, m, keepRest, UsedBlocks(h)[b := UsedSize(size, m)]);
      if k < n {
        h := h.(mem := Erased(h.mem, b + k, b + n));
      }
      Charge(h.size + k - n, b, r);
      AfterResize(old(h), h, ix.x, b, k, r);
    }

    // The cache path of _zend_mm_realloc_int: the contents move to a cached block, b is cached.
    method SwapWithCached(b: nat, i: nat, r: nat) returns (c: nat)
      requires Valid() && b in h.live && i < NUM_BUCKETS && h.cache[i] != [] && MIN_BLOCK + i * ALIGNMENT == TrueSize(r)
      requires b in UsedBlocks(h) && BlockSize(h.l.hdr[b].n) && h.l.hdr[b].n < TrueSize(r)
      modifies this`h
      ensures Valid() && Resized(old(h), h, b, c, r) && h.l == old(h).l && c == old(h).cache[i][0]
    {
      hide IndexOk, TagsOk, CachedBytes, SegmentsOk, CacheOk, Resized, Sum, PeaksOk, LiveOk, Erased, Copied;
      TrueSizeIsLeast(r, 0);
      CachedEnough(h, i);
      var n := h.l.hdr[b].n;
      c := h.cache[i][0];
      h := h.(cache := h.cache[i := h.cache[i][1..]], live := h.live[c := r]);
      h := h.(mem := Copied(h.mem, b + HEADER, c + HEADER, n - HEADER));
      h := h.(cached := h.cached - (TrueSize(r) - n));
      var j := BucketIndex(n);
      SmallClassesAreExact(n, j);
      h := h.(cache := h.cache[j := [b] + h.cache[j]], mem := Erased(h.mem, b + HEADER, b + n), live := h.live - {b});
      AfterSwap(old(h), h, b, i, j, r);
    }

    // The last path of _zend_mm_realloc_int: allocate, copy, free.
    method CopyToNew(b: nat, r: nat) returns (q: nat, ghost refused: bool)
      requires Valid() && b in h.live && b in UsedBlocks(h) && HEADER <= h.l.hdr[b].n < r + HEADER
      modifies this`h, ix
      ensures Valid()
      ensures q != 0 ==> HEADER <= q && Resized(old(h), h, b, q - HEADER, r)
      ensures q != 0 ==> Chosen(old(h), old(ix.x), q - HEADER, r)
      ensures q == 0 ==> FlushedTo(old(h), h) && h.cached == 0 && Exhausted(old(h), old(ix.x), r, refused)
    {
      hide IndexOk, TagsOk, CachedBytes, SegmentsOk, CacheOk, Resized, Sum, PeaksOk, Erased, Copied, FlushedTo, Kept;
      hide Blocks, HeapOk, LiveOk, Given, UsedBlocks, Indexed, OverLimit, Freed, FirstSegment, FitFor, CachedFor;
      hide Served, Chosen, Exhausted;
      UsedHeader(h, b);
      var n := h.l.hdr[b].n;
      q, refused := AllocInt(r);
      if q == 0 {
        return;
      }
      ghost var g := h;
      ServedIsChosen(old(h), old(ix.x), h, ix.x, q - HEADER, r);
      GivenIsLive(old(h), h, b, q - HEADER, r);
      h := h.(mem := Copied(h.mem, b + HEADER, q, n - HEADER));
      ghost var g' := h;
      AnyContents(g, h.mem);
      LiveOf(g);
      FreeInt(b + HEADER);
      LiveOf(h);
      AfterCopy(old(h), g, g', h, b, q - HEADER, r);
    }

    // The segment at s0 is now the n bytes at s, with one used block.
    method ReplaceSegment(s0: nat, s: nat, n: nat) returns (ghost i: nat)
      requires Tiled(h.l) && s0 in h.l.seg && SegmentsOk(h.list, h.l.seg, h.unit) && h.realSize == Sum(h.l.seg)
        && SEGMENT_HEADER + MIN_BLOCK + HEADER <= n
      modifies this`h
      ensures Relocated(old(h), h, s0, i, s, n)
    {
      hide Tiled, SegmentsOk, Sum, Outside, Disowned;
      ListHas(h, s0);
      var j := Position(h.list, s0);
      i := j;
      ReleasedByRange(h.l, s0);
      hide Released;
      var n0 := h.l.seg[s0];
      h := h.(realSize := h.realSize + n - n0, reals := h.reals + {h.realSize + n - n0});
      if h.realSize > h.realPeak {
        h := h.(realPeak := h.realSize);
      }
      h := h.(list := h.list[j := s]);
      var c := First(s);
      var blockSize := n - SEGMENT_HEADER - HEADER;
      h := h.(l := Layout(Outside(h.l.hdr, s0, n0)[c := Header(blockSize, Used, 0, Guard)][c + blockSize :=
        Header(HEADER, Guard, blockSize, Used)],
                          (h.l.seg - {s0})[s := n], Disowned(h.l.own, s0)[c := s][c + blockSize := s]));
    }

    // The rest of the segment path: the segment of b is now the n bytes at s.
    method Relocate(b: nat, s: nat, n: nat, m: nat, r: nat, ghost e: nat)
      requires HeapOk(h) && b in h.live && TagOk(h.l, b) && h.l.hdr[b].tag == Used && e == RunEnd(h.l.hdr, b)
        && e in h.l.hdr && h.l.hdr[b].ptag == Guard && h.l.hdr[e].tag == Guard
      requires IndexOk(ix.x) && ix.x.t.size == FreeBlocks(h) - {b + h.l.hdr[b].n}
      requires SEGMENT_HEADER <= b && b - SEGMENT_HEADER in h.l.seg && Unclaimed(h.l.seg - {b - SEGMENT_HEADER}, s, n)
        && s % ALIGNMENT == 0
      requires m == TrueSize(r) && n == SegmentSize(h.unit, m)
        && h.realSize + n <= h.limit + h.l.seg[b - SEGMENT_HEADER]
      requires h.l.hdr[b].n < m && h.l.seg[b - SEGMENT_HEADER] < m + SEGMENT_HEADER + HEADER
      modifies this`h, ix
      ensures Valid() && Resized(old(h), h, b, First(s), r) && SegmentMoved(old(h), h, ix.x, b, First(s), m)
    {
      hide IndexOk, Tiled, Coalesced, HeadersAligned, CachedBytes, SegmentsOk, CacheOk, Resized, Sum, PeaksOk, LiveOk,
        CarveReady, Copied, SegmentSize, Unclaimed, RunEnd, Released, Grown;
      hide SegmentMoved, Remainder;
      var s0 := b - SEGMENT_HEADER;
      var orig := h.l.hdr[b].n;
      assert b in UsedBlocks(h) && UsedBlocks(h)[b] == orig && HEADER <= orig;
      hide Blocks;
      TrueSizeIsLeast(r, 0);
      ListHas(h, s0);
      SegmentSizeIsLeast(h.unit, m, 1);
      ghost var i := ReplaceSegment(s0, s, n);
      MoveReady(old(h), h, ix.x, b, e, i, s, n, m);
      var c := First(s);
      var blockSize := n - SEGMENT_HEADER - HEADER;
      hide HeapOk, TagOk, TagsOk;
      var k := Place(c, blockSize, m, true, (UsedBlocks(old(h)) - {b})[c := UsedSize(blockSize, m)]);
      if s != s0 {
        h := h.(mem := Copied(h.mem, b + HEADER, c + HEADER, orig - HEADER));
      }
      h := h.(live := h.live - {b});
      Charge(h.size + k - orig, c, r);
      AfterMove(old(h), h, ix.x, b, c, k, r);
      MovedTo(old(h), h, ix.x, b, s, n, m);
    }

    // The segment path of _zend_mm_realloc_int: b and the free block behind it, if there is one,
    // fill the segment, and the segment is resized.
    method MoveSegment(b: nat, m: nat, r: nat, ghost c: nat, ghost e: nat) returns (q: nat, ghost refused: bool)
      requires Valid() && b in h.live && b in UsedBlocks(h) && m == TrueSize(r) && Behind(h.l, ix.x, b, c, e)
        && e < b + m
      requires h.l.hdr[b].ptag == Guard && h.l.hdr[e].tag == Guard
      modifies this`h, ix
      ensures q != 0 ==> Valid() && HEADER <= q && Resized(old(h), h, b, q - HEADER, r)
      ensures q != 0 ==> SegmentMoved(old(h), h, ix.x, b, q - HEADER, m)
      ensures q == 0 ==> refused || MoveOverLimit(old(h), b, r)
      ensures q == 0 && !(refused && old(h).l.hdr[c].tag == Free) ==> Valid() && FlushedTo(old(h), h) && h.cached == 0
      ensures q == 0 && refused && old(h).l.hdr[c].tag == Free ==> h == old(h) && Stranded(h, ix.x, c)
    {
      hide IndexOk, TagsOk, CachedBytes, SegmentsOk, CacheOk, Resized, Sum, PeaksOk, LiveOk, FlushedTo, ShortenedBy,
        FreeBitsWithout, Unclaimed;
      refused := false;
      WholeSegmentOf(h.l, b, e);
      var next := b + h.l.hdr[b].n;
      var free := h.l.hdr[next].tag == Free;
      ghost var x := ix.x;
      if free {
        ix.RemoveFromFreeList(next);
      }
      NotFree(h.l.hdr, x.t.size, next);
      var n := SegmentSize(h.unit, m);
      var s0 := b - SEGMENT_HEADER;
      if h.realSize + n - h.l.seg[s0] > h.limit {
        if free {
          SizeOfBlock(h, next);
          ix.AddToFreeList(next, h.l.hdr[next].n);
          PutBack(FreeBlocks(h), next);
        }
        FreeCache();
        return 0, false;
      }
      var s := StorageRealloc(h.l.seg, s0, n);
      if s == 0 {
        refused := true;
        if free {
          return 0, true;
        }
        FreeCache();
        return 0, true;
      }
      Relocate(b, s, n, m, r, e);
      return First(s) + HEADER, false;
    }

    // The paths of _zend_mm_realloc_int that need new memory: the segment, if b and the free block
    // behind it, if there is one, fill it up to end; else a new block.
    method MoveOrCopy(b: nat, m: nat, r: nat, end: nat, ghost c: nat) returns (q: nat, ghost refused: bool)
      requires b in h.live && b in h.l.hdr && h.l.hdr[b].tag == Used && h.l.hdr[b].n < m == TrueSize(r)
      requires !CachedFor(h, m) && Behind(h.l, ix.x, b, c, end) && end < b + m && Valid()
      modifies this`h, ix
      ensures q != 0 ==> Valid() && HEADER <= q && Resized(old(h), h, b, q - HEADER, r)
      ensures q != 0 ==>
        if Moves(old(h), b + HEADER, r) then SegmentMoved(old(h), h, ix.x, b, q - HEADER, m)
        else Chosen(old(h), old(ix.x), q - HEADER, r)
      ensures q == 0 ==> Fails(old(h), old(ix.x), b + HEADER, r, refused)
      ensures q == 0 && !(refused && Strands(old(h), b + HEADER, r)) ==>
        Valid() && FlushedTo(old(h), h) && h.cached == 0
      ensures q == 0 && refused && Strands(old(h), b + HEADER, r) ==> LeftStranded(old(h), h, ix.x, b + HEADER)
    {
      hide IndexOk, HeapOk, TagsOk, Given, Resized, FlushedTo, Stranded, CachedFor, SegmentMoved;
      hide Chosen, FitFor, InPlace, OverLimit, MoveOverLimit;
      TrueSizeIsLeast(r, 0);
      HeldFacts(h, b);
      TooSmall(h, b, end, r);
      if h.l.hdr[b].ptag == Guard && h.l.hdr[end].tag == Guard {
        q, refused := MoveSegment(b, m, r, c, end);
        return;
      }
      q, refused := CopyToNew(b, r);
    }

    // The growing part of _zend_mm_realloc_int: a cached block, the free block behind, new memory.
    method GrowBlock(b: nat, m: nat, r: nat) returns (q: nat, ghost refused: bool)
      requires b in h.live && b in h.l.hdr && h.l.hdr[b].tag == Used && h.l.hdr[b].n < m == TrueSize(r) && Valid()
      modifies this`h, ix
      ensures q != 0 ==> Valid() && HEADER <= q && Resized(old(h), h, b, q - HEADER, r)
      ensures q != 0 ==>
        Goes(old(h), old(ix.x), b, q - HEADER, r) && LeftOver(old(h), old(ix.x), h, ix.x, b, q - HEADER, r)
      ensures q == 0 ==> Fails(old(h), old(ix.x), b + HEADER, r, refused)
      ensures q == 0 && !(refused && Strands(old(h), b + HEADER, r)) ==>
        Valid() && FlushedTo(old(h), h) && h.cached == 0
      ensures q == 0 && refused && Strands(old(h), b + HEADER, r) ==> LeftStranded(old(h), h, ix.x, b + HEADER)
    {
      hide IndexOk, HeapOk, TagsOk, Given, Resized, FlushedTo, LeftStranded, Strands, NoRoom;
      hide Goes, LeftOver, Fails, Remainder, SegmentMoved, Chosen, Moves;
      refused := false;
      TrueSizeIsLeast(r, 0);
      HeldFacts(h, b);
      ghost var c, e := FindBehind(h.l, ix.x, b);
      ghost var x := ix.x;
      if Small(m) {
        var index := BucketIndex(m);
        SmallClassesAreExact(m, index);
        if h.cache[index] != [] {
          var d := SwapWithCached(b, index, r);
          RouteCached(old(h), x, h, b, d, r);
          return d + HEADER, false;
        }
      }
      var end := b + h.l.hdr[b].n;
      if h.l.hdr[end].tag == Free {
        end := end + h.l.hdr[end].n;
        if m <= end - b {
          var keepRest := h.l.hdr[b].ptag == Guard && h.l.hdr[end].tag == Guard;
          ResizeInPlace(b, m, r, keepRest, c, e);
          RouteInPlace(old(h), x, h, ix.x, b, e, r, keepRest);
          return b + HEADER, false;
        }
      }
      TooSmall(h, b, end, r);
      q, refused := MoveOrCopy(b, m, r, end, c);
      if q != 0 { RouteMoved(old(h), x, h, ix.x, b, q - HEADER, r); }
    }

    // _zend_mm_realloc_int; 0 stands for the exits through zend_mm_safe_error
    method ReallocInt(p: nat, size: nat) returns (q: nat, ghost refused: bool)
      requires Valid() && (p == 0 || (HEADER <= p && p - HEADER in h.live))
      modifies this`h, ix
      ensures q != 0 ==> Valid() && Realloced(old(h), h, p, q, size)
      ensures q != 0 && p == 0 ==> Served(old(h), old(ix.x), h, ix.x, q - HEADER, size)
      ensures q != 0 && p != 0 ==> Goes(old(h), old(ix.x), p - HEADER, q - HEADER, size)
      ensures q != 0 && p != 0 ==> LeftOver(old(h), old(ix.x), h, ix.x, p - HEADER, q - HEADER, size)
      ensures q == 0 ==> Fails(old(h), old(ix.x), p, size, refused)
      ensures q == 0 && !(refused && Strands(old(h), p, size)) ==> Valid() && FlushedTo(old(h), h) && h.cached == 0
      ensures q == 0 && refused && Strands(old(h), p, size) ==> LeftStranded(old(h), h, ix.x, p)
    {
      hide IndexOk, HeapOk, TagsOk, Given, Resized, FlushedTo, Stranded, FitFor, FirstSegment;
      hide Goes, LeftOver, Remainder, Served, InPlace;
      refused := false;
      if p == 0 {
        q, refused := AllocInt(size);
        return;
      }
      hide Fails;
      var b := p - HEADER;
      var m := TrueSize(size);
      TrueSizeIsLeast(size, 0);
      HeldFacts(h, b);
      ghost var x := ix.x;
      var n := h.l.hdr[b].n;
      if m <= n {
        ghost var c, e := FindBehind(h.l, ix.x, b);
        if MIN_BLOCK <= n - m {
          EnoughInPlace(h, b, size);
          ResizeInPlace(b, m, size, false, c, e);
          RouteInPlace(old(h), x, h, ix.x, b, e, size, false);
        } else {
          h := h.(live := h.live[b := size]);
          AfterAsking(old(h), h, ix.x, b, size);
          RouteUnchanged(old(h), x, h, b, e, size);
        }
        return p, false;
      }
      q, refused := GrowBlock(b, m, size);
    }

    // zend_set_memory_limit; the limit may drop below the bytes already acquired
    method SetLimit(limit: nat)
      requires Valid() && limit < WORD
      modifies this`h
      ensures Valid() && h == old(h).(limit := h.limit) && h.limit == if h.unit < limit then limit else h.unit
    {
      hide IndexOk, TagsOk, CachedBytes, SegmentsOk, CacheOk, Sum, PeaksOk, LiveOk;
      h := h.(limit := if limit >= h.unit then limit else h.unit);
    }

    // The program writes a byte of a payload it holds.
    method Store(p: nat, at: nat, v: int)
      requires Valid() && HEADER <= p && p - HEADER in h.live && at < h.live[p - HEADER]
      modifies this`h
      ensures Valid() && h == old(h).(mem := old(h).mem[p + at := v])
    {
      hide HeapOk, IndexOk;
      AnyContents(h, h.mem[p + at := v]);
      h := h.(mem := h.mem[p + at := v]);
    }
  }

  // The storage layer: any aligned region that overlaps no segment, or none.
  method StorageAlloc(seg: map<nat, nat>, n: nat) returns (s: nat)
    ensures s != 0 ==> Unclaimed(seg, s, n) && s % ALIGNMENT == 0
  {
    s := *;
    if s <= 0 || s % ALIGNMENT != 0 || exists t :: t in seg && !(s + n <= t || t + seg[t] <= s) {
      s := 0;
    }
  }

  // Resizing a segment in place or moving it: any aligned region that overlaps no other segment.
  method StorageRealloc(seg: map<nat, nat>, s0: nat, n: nat) returns (s: nat)
    ensures s != 0 ==> Unclaimed(seg - {s0}, s, n) && s % ALIGNMENT == 0
  {
    s := StorageAlloc(seg - {s0}, n);
  }

  // The walk along segments_list to the link that points to s.
  method Position(list: seq<nat>, s: nat) returns (i: nat)
    requires s in list
    ensures i < |list| && list[i] == s && s !in list[..i]
  {
    i := 0;
    while list[i] != s
      invariant i < |list| && s !in list[..i]
      decreases |list| - i
    {
      i := i + 1;
    }
  }
}
