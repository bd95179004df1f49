// Which block an allocation or a reallocation takes, and what it leaves behind.
module MmRoutes {
  import opened MmSize
  import opened MmRing
  import opened MmTrie
  import opened MmRings
  import opened MmIndex
  import opened MmSearch
  import opened MmFreeIndex
  import opened MmTags
  import opened MmHeap
  import opened MmSteps

  // What is left of a run of n bytes at b when m are used: nothing, or a free block behind, which is
  // in the rest list or in the list of its size.
  ghost predicate Remainder(hdr: map<nat, Header>, y: Index, b: nat, n: nat, m: nat, rest: bool) {
    && m <= n && b in hdr && hdr[b].tag == Used && hdr[b].n == UsedSize(n, m)
    && (MIN_BLOCK <= n - m ==> FiledAt(y, b + m, n - m, rest))
  }

  ghost predicate FiledAt(y: Index, b: nat, n: nat, rest: bool) {
    && BlockSize(n) && b in y.t.size && y.t.size[b] == n
    && b in y.r.home && y.r.home[b] == if rest then RestRing else HomeOf(n)
  }

  lemma {:induction false} FiledInList(x: Index, y: Index, b: nat, n: nat)
    requires Filed(x, y, b, n)
    ensures FiledAt(y, b, n, false) && y.t.size == x.t.size[b := n]
  {
    hide NodesStay, InFront, BehindNode;
  }

  lemma {:induction false} FiledInRest(x: Index, y: Index, b: nat, n: nat)
    requires BlockSize(n) && exists e :: RestedAfter(x, y, b, n, e)
    ensures FiledAt(y, b, n, true) && y.t.size == x.t.size[b := n]
  {
    hide EvictedVia, Moved;
    var e :| RestedAfter(x, y, b, n, e);
    var z :| EvictedSome(x, z, e) && z.rest < MAX_REST_BLOCKS && b !in z.t.size && RestAppended(z, y, b, n);
  }

  // ---------- release ----------

  // What becomes of a block out of use: merged with its free neighbours it is filed under its size,
  // or, if that is all of its segment, the segment is given back.
  ghost predicate GivenBack(l: Layout, g: Layout, y: Index, b: nat) {
    && b in l.hdr && l.hdr[b].pn <= b && b + l.hdr[b].n in l.hdr
    && var s, e := RunStart(l.hdr, b), RunEnd(l.hdr, b);
    && s in l.hdr && e in l.hdr && s <= e
    && if l.hdr[s].ptag == Guard && l.hdr[e].tag == Guard then
         SEGMENT_HEADER <= s && g.seg == l.seg - {s - SEGMENT_HEADER}
       else
         g.seg == l.seg && FiledAt(y, s, e - s, false)
  }

  lemma {:induction false} Merged(l: Layout, g: Layout, x: Index, y: Index, b: nat, s: nat, e: nat)
    requires FreeRun(l, b, s, e) && !(l.hdr[s].ptag == Guard && l.hdr[e].tag == Guard) && g.seg == l.seg
    requires Filed(x, y, s, e - s)
    ensures GivenBack(l, g, y, b)
  {
    hide NodesStay, InFront;
  }

  lemma {:induction false} Emptied(l: Layout, g: Layout, y: Index, b: nat, s: nat, e: nat)
    requires FreeRun(l, b, s, e) && l.hdr[s].ptag == Guard && l.hdr[e].tag == Guard
    requires SEGMENT_HEADER <= s && g.seg == l.seg - {s - SEGMENT_HEADER}
    ensures GivenBack(l, g, y, b)
  {
  }

  // Freeing a block: a small one is put first in the cache list of its class while the cache is not
  // full, and size does not change; any other is given back, and its bytes are taken off size.
  ghost predicate Freed(h: Heap, g: Heap, x: Index, y: Index, b: nat) {
    && b in UsedBlocks(h)
    && var n := UsedBlocks(h)[b];
    && if Small(n) && MIN_BLOCK <= n && BucketIndex(n) < |h.cache| && h.cached < CACHE_SIZE then
         && g.l == h.l && y == x && g.cached == h.cached + n && g.size == h.size
         && g.cache == h.cache[BucketIndex(n) := [b] + h.cache[BucketIndex(n)]]
       else
         && UsedBlocks(g) == UsedBlocks(h) - {b} && GivenBack(h.l, g.l, y, b)
         && g.cache == h.cache && g.cached == h.cached && g.size + n == h.size
  }

  // ---------- allocation ----------

  // Which block b an allocation of r bytes takes, and what is left of it: the first cached block of
  // the class; without one, what the search finds; only without that, a new segment.
  ghost predicate Served(h: Heap, x: Index, g: Heap, y: Index, b: nat, r: nat) {
    if CachedFor(h, TrueSize(r)) then
      b == h.cache[BucketIndex(TrueSize(r))][0] && g.l == h.l && y == x
    else if b in x.t.size then
      && FitFor(x, TrueSize(r), NearLimit(h), Block(b)) && g.l.seg == h.l.seg
      && Remainder(g.l.hdr, y, b, x.t.size[b], TrueSize(r), false)
    else
      FitFor(x, TrueSize(r), NearLimit(h), Nil) && Acquired(h, g, y, b, TrueSize(r))
  }

  // b is first in a new segment. What is left goes to the rest list if and only if the block does not
  // fit in a segment of one unit.
  ghost predicate Acquired(h: Heap, g: Heap, y: Index, b: nat, m: nat) {
    && SEGMENT_HEADER + HEADER <= h.unit && SEGMENT_HEADER <= b
    && var s, n := b - SEGMENT_HEADER, SegmentSize(h.unit, m);
    && Unclaimed(h.l.seg, s, n) && h.realSize + n <= h.limit
    && g.l.seg == h.l.seg[s := n] && SEGMENT_HEADER + HEADER <= n
    && Remainder(g.l.hdr, y, b, n - SEGMENT_HEADER - HEADER, m, h.unit < m + SEGMENT_HEADER + HEADER)
  }

  lemma {:induction false} ServedCached(h: Heap, x: Index, g: Heap, b: nat, r: nat)
    requires CachedFor(h, TrueSize(r)) && b == h.cache[BucketIndex(TrueSize(r))][0] && g.l == h.l
    ensures Served(h, x, g, x, b, r)
  {
  }

  lemma {:induction false} ServedFree(h: Heap, x: Index, g: Heap, y: Index, b: nat, r: nat)
    requires !CachedFor(h, TrueSize(r)) && b in x.t.size && FitFor(x, TrueSize(r), NearLimit(h), Block(b))
    requires g.l.seg == h.l.seg && Remainder(g.l.hdr, y, b, x.t.size[b], TrueSize(r), false)
    ensures Served(h, x, g, y, b, r)
  {
    hide FitFor, Remainder;
  }

  lemma {:induction false} ServedFresh(h: Heap, x: Index, g: Heap, y: Index, s: nat, r: nat)
    requires !CachedFor(h, TrueSize(r)) && First(s) !in x.t.size && FitFor(x, TrueSize(r), NearLimit(h), Nil)
    requires SEGMENT_HEADER + HEADER <= h.unit
    requires var n := SegmentSize(h.unit, TrueSize(r));
      && Unclaimed(h.l.seg, s, n) && h.realSize + n <= h.limit && g.l.seg == h.l.seg[s := n]
      && SEGMENT_HEADER + HEADER <= n
      && Remainder(g.l.hdr, y, First(s), n - SEGMENT_HEADER - HEADER, TrueSize(r),
                   TrueSize(r) > h.unit - (SEGMENT_HEADER + HEADER))
    ensures Served(h, x, g, y, First(s), r)
  {
    hide FitFor, Remainder, SegmentSize, Unclaimed;
  }

  // A segment is acquired only when nothing at hand fits.
  lemma {:induction false} AcquiredIfNothingFits(h: Heap, x: Index, g: Heap, y: Index, b: nat, r: nat)
    requires Served(h, x, g, y, b, r) && g.l.seg != h.l.seg
    ensures !CachedFor(h, TrueSize(r)) && FitFor(x, TrueSize(r), NearLimit(h), Nil)
    ensures Acquired(h, g, y, b, TrueSize(r))
  {
    hide FitFor, Acquired, Remainder;
  }

  // Which block an allocation may take, as far as the heap before it decides.
  ghost predicate Chosen(h: Heap, x: Index, b: nat, r: nat) {
    if CachedFor(h, TrueSize(r)) then
      b == h.cache[BucketIndex(TrueSize(r))][0]
    else if b in x.t.size then
      FitFor(x, TrueSize(r), NearLimit(h), Block(b))
    else
      && FitFor(x, TrueSize(r), NearLimit(h), Nil) && SEGMENT_HEADER + HEADER <= h.unit && SEGMENT_HEADER <= b
      && Unclaimed(h.l.seg, b - SEGMENT_HEADER, SegmentSize(h.unit, TrueSize(r)))
  }

  lemma {:induction false} ServedIsChosen(h: Heap, x: Index, g: Heap, y: Index, b: nat, r: nat)
    requires Served(h, x, g, y, b, r)
    ensures Chosen(h, x, b, r)
  {
    hide FitFor, Remainder, SegmentSize, Unclaimed;
  }

  // ---------- reallocation ----------

  // A reallocation of block b to r bytes can stay where it is: the block is large enough, or no cached
  // block will do and the free block behind makes it so.
  ghost predicate InPlace(h: Heap, b: nat, r: nat) {
    && b in h.l.hdr
    && var n, c := h.l.hdr[b].n, b + h.l.hdr[b].n;
    || TrueSize(r) <= n
    || (!CachedFor(h, TrueSize(r)) && c in h.l.hdr && h.l.hdr[c].tag == Free && TrueSize(r) <= n + h.l.hdr[c].n)
  }

  // Where block b is after a reallocation to r bytes: in place if possible, else in a cached block,
  // else in its resized segment, else where an allocation would be.
  ghost predicate Goes(h: Heap, x: Index, b: nat, c: nat, r: nat) {
    if InPlace(h, b, r) then
      c == b
    else if CachedFor(h, TrueSize(r)) then
      c == h.cache[BucketIndex(TrueSize(r))][0]
    else if Moves(h, b + HEADER, r) then
      && SEGMENT_HEADER + HEADER <= h.unit && SEGMENT_HEADER <= b && SEGMENT_HEADER <= c
      && Unclaimed(h.l.seg - {b - SEGMENT_HEADER}, c - SEGMENT_HEADER, SegmentSize(h.unit, TrueSize(r)))
    else
      Chosen(h, x, c, r)
  }

  // Why a reallocation of payload p to r bytes, or an allocation if p is 0, fails: it cannot stay in
  // place, no cached block will do, nothing else at hand fits unless its segment is to be resized,
  // and storage refused a segment or the limit forbids one.
  ghost predicate Fails(h: Heap, x: Index, p: nat, r: nat, refused: bool) {
    && (refused || NoRoom(h, p, r)) && !CachedFor(h, TrueSize(r))
    && (HEADER <= p ==> !InPlace(h, p - HEADER, r))
    && (p == 0 || !Moves(h, p, r) ==> Exhausted(h, x, r, refused))
  }

  // What is left behind the block, now at c: in place, of the block and the free one behind, if any;
  // in a resized segment, of the segment, and always in the rest list.
  ghost predicate LeftOver(h: Heap, x: Index, g: Heap, y: Index, b: nat, c: nat, r: nat) {
    if InPlace(h, b, r) then
      StaysBehind(h, x, g, y, b, r)
    else if CachedFor(h, TrueSize(r)) then
      g.l == h.l && y == x
    else
      Moves(h, b + HEADER, r) ==> SegmentMoved(h, g, y, b, c, TrueSize(r))
  }

  ghost predicate StaysBehind(h: Heap, x: Index, g: Heap, y: Index, b: nat, r: nat)
    requires b in h.l.hdr
  {
    && b + h.l.hdr[b].n in h.l.hdr
    && var n, e := h.l.hdr[b].n, RunEnd(h.l.hdr, b);
    && b <= e && e in h.l.hdr
    && if TrueSize(r) <= n < TrueSize(r) + MIN_BLOCK then g.l == h.l && y == x
       else
         Remainder(g.l.hdr, y, b, e - b, TrueSize(r),
                   n < TrueSize(r) && h.l.hdr[b].ptag == Guard && h.l.hdr[e].tag == Guard)
  }

  ghost predicate SegmentMoved(h: Heap, g: Heap, y: Index, b: nat, c: nat, m: nat) {
    && SEGMENT_HEADER + HEADER <= h.unit && SEGMENT_HEADER <= b && SEGMENT_HEADER <= c
    && var s0, s, n := b - SEGMENT_HEADER, c - SEGMENT_HEADER, SegmentSize(h.unit, m);
    && Unclaimed(h.l.seg - {s0}, s, n) && g.l.seg == (h.l.seg - {s0})[s := n] && SEGMENT_HEADER + HEADER <= n
    && Remainder(g.l.hdr, y, c, n - SEGMENT_HEADER - HEADER, m, true)
  }

  // The paths, one by one.

  lemma {:induction false} MovedTo(h: Heap, g: Heap, y: Index, b: nat, s: nat, n: nat, m: nat)
    requires SEGMENT_HEADER + HEADER <= h.unit && SEGMENT_HEADER <= b && n == SegmentSize(h.unit, m)
    requires Unclaimed(h.l.seg - {b - SEGMENT_HEADER}, s, n) && g.l.seg == (h.l.seg - {b - SEGMENT_HEADER})[s := n]
    requires SEGMENT_HEADER + HEADER <= n && Remainder(g.l.hdr, y, First(s), n - SEGMENT_HEADER - HEADER, m, true)
    ensures SegmentMoved(h, g, y, b, First(s), m)
  {
    hide Unclaimed, Remainder, SegmentSize;
  }

  lemma {:induction false} RouteInPlace(h: Heap, x: Index, g: Heap, y: Index, b: nat, e: nat, r: nat, rest: bool)
    requires b in h.l.hdr && b + h.l.hdr[b].n in h.l.hdr && InPlace(h, b, r) && e == RunEnd(h.l.hdr, b) && b <= e
    requires e in h.l.hdr && !(TrueSize(r) <= h.l.hdr[b].n < TrueSize(r) + MIN_BLOCK)
    requires Remainder(g.l.hdr, y, b, e - b, TrueSize(r), rest)
    requires rest <==> h.l.hdr[b].n < TrueSize(r) && h.l.hdr[b].ptag == Guard && h.l.hdr[e].tag == Guard
    ensures Goes(h, x, b, b, r) && LeftOver(h, x, g, y, b, b, r)
  {
    hide Remainder, CachedFor;
  }

  lemma {:induction false} RouteUnchanged(h: Heap, x: Index, g: Heap, b: nat, e: nat, r: nat)
    requires b in h.l.hdr && b + h.l.hdr[b].n in h.l.hdr && e == RunEnd(h.l.hdr, b) && b <= e && e in h.l.hdr
    requires TrueSize(r) <= h.l.hdr[b].n < TrueSize(r) + MIN_BLOCK && g.l == h.l
    ensures Goes(h, x, b, b, r) && LeftOver(h, x, g, x, b, b, r)
  {
    hide CachedFor;
  }

  lemma {:induction false} RouteCached(h: Heap, x: Index, g: Heap, b: nat, c: nat, r: nat)
    requires b in h.l.hdr && h.l.hdr[b].n < TrueSize(r) && CachedFor(h, TrueSize(r)) && g.l == h.l
    requires c == h.cache[BucketIndex(TrueSize(r))][0]
    ensures Goes(h, x, b, c, r) && LeftOver(h, x, g, x, b, c, r)
  {
  }

  lemma {:induction false} RouteMoved(h: Heap, x: Index, g: Heap, y: Index, b: nat, c: nat, r: nat)
    requires !InPlace(h, b, r) && !CachedFor(h, TrueSize(r))
    requires if Moves(h, b + HEADER, r) then SegmentMoved(h, g, y, b, c, TrueSize(r)) else Chosen(h, x, c, r)
    ensures Goes(h, x, b, c, r) && LeftOver(h, x, g, y, b, c, r)
  {
    hide InPlace, CachedFor, Chosen, Moves, Remainder, Unclaimed, SegmentSize;
  }

  lemma {:induction false} EnoughInPlace(h: Heap, b: nat, r: nat)
    requires b in h.l.hdr && TrueSize(r) <= h.l.hdr[b].n
    ensures InPlace(h, b, r)
  {
  }

  // A block that is too small with what is behind it cannot stay in place.
  lemma {:induction false} TooSmall(h: Heap, b: nat, e: nat, r: nat)
    requires b in h.l.hdr && b + h.l.hdr[b].n in h.l.hdr && h.l.hdr[b].n < TrueSize(r) && e == RunEnd(h.l.hdr, b)
    requires e < b + TrueSize(r)
    ensures !InPlace(h, b, r)
  {
    hide CachedFor;
  }
}
