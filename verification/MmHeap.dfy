// The state of a heap and its invariant: segments and tags, cache lists, byte accounts and the
// contents of the payloads.
module MmHeap {
  import opened MmSize
  import opened MmBits
  import opened Seqs
  import opened MmRing
  import opened MmTrie
  import opened MmIndex
  import opened MmTags
  import opened MmSum
  import opened MmCache

  // The fields of struct _zend_mm_heap that the operations use, the memory of the payloads (an
  // absent byte is indeterminate), and, for the specification only, the blocks the program
  // holds with the sizes it asked for, the bytes lost from size's account (flushing the cache
  // does not reduce size), and the values that size and real_size have had.
  datatype Heap = Heap(
    l: Layout, list: seq<nat>, unit: nat, limit: nat,
    realSize: nat, realPeak: nat, size: nat, peak: nat,
    cache: seq<seq<nat>>, cached: nat,
    mem: map<nat, int>,
    ghost live: map<nat, nat>, ghost lost: nat, ghost sizes: set<nat>, ghost reals: set<nat>)

  function UsedBlocks(h: Heap): map<nat, nat> {
    Blocks(h.l.hdr, Used)
  }

  function FreeBlocks(h: Heap): map<nat, nat> {
    Blocks(h.l.hdr, Free)
  }

  ghost predicate ParamsOk(unit: nat, limit: nat) {
    SEGMENT_HEADER + HEADER <= unit && unit % ALIGNMENT == 0 && unit <= limit < WORD
  }

  // segments_list holds each segment once; segment sizes are multiples of the unit.
  ghost predicate SegmentsOk(list: seq<nat>, seg: map<nat, nat>, unit: nat) {
    && Distinct(list)
    && (forall s :: s in list <==> s in seg)
    && (0 < unit ==> forall s :: s in seg ==> seg[s] % unit == 0 && seg[s] < WORD)
  }

  ghost predicate AccountsOk(h: Heap) {
    && h.realSize == Sum(h.l.seg)
    && h.cached == CachedBytes(UsedBlocks(h), h.live) && h.cached < CACHE_SIZE + MAX_SMALL
    && h.size == Sum(UsedBlocks(h)) + h.lost
  }

  // A peak is the maximum of all values so far.
  ghost predicate PeaksOk(now: nat, peak: nat, values: set<nat>) {
    now in values && peak in values && forall v :: v in values ==> v <= peak
  }

  ghost predicate TagsOk(l: Layout) {
    Tiled(l) && Coalesced(l) && HeadersAligned(l)
  }

  ghost predicate HeapOk(h: Heap) {
    && TagsOk(h.l) && ParamsOk(h.unit, h.limit) && SegmentsOk(h.list, h.l.seg, h.unit)
    && |h.cache| == NUM_BUCKETS && CacheOk(UsedBlocks(h), h.live, h.cache) && LiveOk(UsedBlocks(h), h.live)
    && AccountsOk(h)
    && PeaksOk(h.size, h.peak, h.sizes) && PeaksOk(h.realSize, h.realPeak, h.reals)
  }

  // The index holds exactly the free blocks, with their sizes.
  ghost predicate Indexed(hdr: map<nat, Header>, x: Index) {
    IndexOk(x) && x.t.size == Blocks(hdr, Free)
  }

  // ---------- block sizes ----------

  lemma {:induction false} BelowWord(n: nat)
    requires 0 < n < WORD
    ensures Bucket(n) < NUM_BUCKETS
  {
    Pow2Word();
    HighBitBelow(n, 64);
  }

  // A run is shorter than its segment, and aligned.
  lemma {:induction false} RunBound(l: Layout, b: nat, n: nat)
    requires Tiled(l) && HeadersAligned(l) && Run(l, b, n)
    ensures BlockSize(n) && l.own[b] in l.seg && n < l.seg[l.own[b]]
  {
    RunSize(l, b, n);
    assert TagOk(l, b) && TagOk(l, b + n);
    AlignedDifference(b, n);
  }

  lemma {:induction false} SizeOfBlock(h: Heap, b: nat)
    requires TagsOk(h.l) && ParamsOk(h.unit, h.limit) && SegmentsOk(h.list, h.l.seg, h.unit) && b in h.l.hdr
      && h.l.hdr[b].tag != Guard
    ensures Indexable(h.l.hdr[b].n)
    ensures TagOk(h.l, b)
  {
    assert TagOk(h.l, b);
    hide Tiled, HeadersAligned, Coalesced;
    RunBound(h.l, b, h.l.hdr[b].n);
    BelowWord(h.l.hdr[b].n);
  }

  lemma {:induction false} AlignedDifference(b: nat, n: nat)
    requires b % ALIGNMENT == 0 && (b + n) % ALIGNMENT == 0
    ensures n % ALIGNMENT == 0
  {
  }

  // ---------- what is used and what is free after a change of the layout ----------

  // A run becomes one block: the blocks with another tag lose those in the run, out, and the
  // blocks with its tag lose those in the run and gain the whole run.
  lemma {:induction false} FusedOthers(l: Layout, b: nat, total: nat, tag: Tag, t: Tag, out: set<nat>)
    requires b in l.hdr && b + total in l.hdr && 0 < total && t != tag
    requires forall k :: k in l.hdr && l.hdr[k].tag == t ==> (b <= k < b + total <==> k in out)
    ensures Blocks(Fused(l, b, total, tag).hdr, t) == Blocks(l.hdr, t) - out
  {
  }

  lemma {:induction false} FusedSame(l: Layout, b: nat, total: nat, tag: Tag, out: set<nat>)
    requires b in l.hdr && b + total in l.hdr && 0 < total
    requires forall k :: k in l.hdr && l.hdr[k].tag == tag && k != b ==> (b <= k < b + total <==> k in out)
    ensures Blocks(Fused(l, b, total, tag).hdr, tag) == (Blocks(l.hdr, tag) - out)[b := total]
  {
  }

  lemma {:induction false} NoneOut(m: map<nat, nat>)
    ensures m - {} == m
  {
  }

  // A free block taken whole.
  lemma {:induction false} TakenBlocks(l: Layout, b: nat)
    requires Tiled(l) && b in l.hdr && l.hdr[b].tag == Free && TagOk(l, b)
    ensures Run(l, b, l.hdr[b].n)
    ensures var f := Fused(l, b, l.hdr[b].n, Used);
      Blocks(f.hdr, Used) == Blocks(l.hdr, Used)[b := l.hdr[b].n] && Blocks(f.hdr, Free) == Blocks(l.hdr, Free) - {b}
  {
    FusedSame(l, b, l.hdr[b].n, Used, {});
    NoneOut(Blocks(l.hdr, Used));
    FusedOthers(l, b, l.hdr[b].n, Used, Free, {b});
  }

  // A used block and the free block behind it, if there is one, as one used block.
  lemma {:induction false} WidenedBlocks(l: Layout, b: nat, e: nat)
    requires Tiled(l) && Coalesced(l) && b in l.hdr && l.hdr[b].tag == Used && TagOk(l, b) && e == RunEnd(l.hdr, b)
    ensures Run(l, b, e - b) && l.hdr[e].tag != Free
    ensures var f := Fused(l, b, e - b, Used);
      Blocks(f.hdr, Used) == Blocks(l.hdr, Used)[b := e - b]
        && Blocks(f.hdr, Free) == Blocks(l.hdr, Free) - {b + l.hdr[b].n}
  {
    RunRight(l, b);
    WidenedView(l, b, b + l.hdr[b].n, e);
  }

  lemma {:induction false} WidenedView(l: Layout, b: nat, c: nat, e: nat)
    requires NoOverlap(l.hdr) && b in l.hdr && l.hdr[b].tag == Used && c in l.hdr && c == b + l.hdr[b].n
      && 0 < l.hdr[b].n && e in l.hdr
    requires (e == c && l.hdr[c].tag != Free) || (e == c + l.hdr[c].n && 0 < l.hdr[c].n && l.hdr[c].tag == Free)
    ensures var f := Fused(l, b, e - b, Used);
      Blocks(f.hdr, Used) == Blocks(l.hdr, Used)[b := e - b] && Blocks(f.hdr, Free) == Blocks(l.hdr, Free) - {c}
  {
    hide NoOverlap, Blocks, Fused;
    RunMembers(l.hdr, b, b, e);
    FusedSame(l, b, e - b, Used, {});
    NoneOut(Blocks(l.hdr, Used));
    FusedOthers(l, b, e - b, Used, Free, {c});
  }

  // A used block freed and merged with its free neighbours.
  lemma {:induction false} MergedBlocks(l: Layout, b: nat, s: nat, e: nat)
    requires FreeRun(l, b, s, e) && l.hdr[b].tag == Used
    ensures var f := Fused(l, s, e - s, Free);
      && Blocks(f.hdr, Used) == Blocks(l.hdr, Used) - {b}
      && Blocks(f.hdr, Free) == (Blocks(l.hdr, Free) - {s, b + l.hdr[b].n})[s := e - s]
  {
    FusedOthers(l, s, e - s, Free, Used, {b});
    FusedSame(l, s, e - s, Free, {s, b + l.hdr[b].n});
  }

  // A used block freed and its segment with it.
  lemma {:induction false} ReleasedBlocks(l: Layout, b: nat, s: nat, e: nat)
    requires Tiled(l) && FreeRun(l, b, s, e) && l.hdr[b].tag == Used
    requires l.hdr[s].ptag == Guard && l.hdr[e].tag == Guard
    ensures SEGMENT_HEADER <= s && s - SEGMENT_HEADER in l.seg && l.own[b] == s - SEGMENT_HEADER
    ensures var r := Released(l, s - SEGMENT_HEADER);
      && Blocks(r.hdr, Used) == Blocks(l.hdr, Used) - {b}
      && Blocks(r.hdr, Free) == Blocks(l.hdr, Free) - {s, b + l.hdr[b].n}
  {
    assert TagOk(l, s) && TagOk(l, e) && TagOk(l, b);
    ReleasedRange(l, b, s, e, s - SEGMENT_HEADER);
    ReleasedViews(l, b, s, e, s - SEGMENT_HEADER);
  }

  lemma {:induction false} ReleasedViews(l: Layout, b: nat, s: nat, e: nat, g: nat)
    requires FreeRun(l, b, s, e) && l.hdr[b].tag == Used && l.hdr[e].tag == Guard
    requires forall k :: k in l.hdr <==> k in l.own
    requires forall k :: k in l.hdr && k in l.own ==> (l.own[k] == g <==> s <= k <= e)
    ensures Blocks(Released(l, g).hdr, Used) == Blocks(l.hdr, Used) - {b}
    ensures Blocks(Released(l, g).hdr, Free) == Blocks(l.hdr, Free) - {s, b + l.hdr[b].n}
  {
    ReleasedView(l, g, Used, {b});
    ReleasedView(l, g, Free, {s, b + l.hdr[b].n});
  }

  lemma {:induction false} ReleasedView(l: Layout, g: nat, t: Tag, out: set<nat>)
    requires forall k :: k in l.hdr <==> k in l.own
    requires forall k :: k in l.hdr && k in l.own && l.hdr[k].tag == t ==> (l.own[k] == g <==> k in out)
    ensures Blocks(Released(l, g).hdr, t) == Blocks(l.hdr, t) - out
  {
  }

  lemma {:induction false} ReleasedRange(l: Layout, b: nat, s: nat, e: nat, g: nat)
    requires Tiled(l) && FreeRun(l, b, s, e) && TagOk(l, s) && TagOk(l, e) && TagOk(l, b)
    requires l.hdr[s].ptag == Guard && l.hdr[e].tag == Guard && g + SEGMENT_HEADER == s
    ensures g in l.seg && l.own[b] == g
    ensures forall k :: k in l.hdr && k in l.own ==> (l.own[k] == g <==> s <= k <= e)
  {
    forall k | k in l.hdr && k in l.own
      ensures l.own[k] == g <==> s <= k <= e
    {
      SameSegment(l, s, e, k);
    }
  }

  // What lies between the first header and the guard of a segment is what the segment owns.
  lemma {:induction false} SameSegment(l: Layout, s: nat, e: nat, k: nat)
    requires Tiled(l) && TagOk(l, s) && TagOk(l, e) && l.own[s] == l.own[e] && l.hdr[s].ptag == Guard
      && l.hdr[e].tag == Guard && k in l.hdr
    ensures k in l.own && (l.own[k] == l.own[s] <==> s <= k <= e)
  {
    assert TagOk(l, k);
    hide NoOverlap;
  }

  // ---------- freeing a block: the run it joins ----------

  // Where the free block starts that freeing b makes, and how long it is.
  function RunStart(hdr: map<nat, Header>, b: nat): nat
    requires b in hdr && hdr[b].pn <= b
  {
    if hdr[b].ptag == Free then b - hdr[b].pn else b
  }

  function RunEnd(hdr: map<nat, Header>, b: nat): nat
    requires b in hdr && b + hdr[b].n in hdr
  {
    var e := b + hdr[b].n;
    if hdr[e].tag == Free then e + hdr[e].n else e
  }

  // The run is free blocks around b, its neighbours are not free, and nothing else lies in it.
  ghost predicate FreeRun(l: Layout, b: nat, s: nat, e: nat) {
    && b in l.hdr && l.hdr[b].pn <= b && b + l.hdr[b].n in l.hdr
    && s == RunStart(l.hdr, b) && e == RunEnd(l.hdr, b)
    && s <= b < b + l.hdr[b].n <= e
    && Run(l, s, e - s)
    && l.hdr[s].ptag != Free && l.hdr[e].tag != Free
    && (forall k :: k in l.hdr && s <= k < e ==> k == s || k == b || k == b + l.hdr[b].n)
    && (s != b ==> l.hdr[s].tag == Free && s + l.hdr[s].n == b)
    && (e != b + l.hdr[b].n ==> l.hdr[b + l.hdr[b].n].tag == Free)
  }

  // Left of b: a free block that starts the run, or b itself.
  lemma {:induction false} RunLeft(l: Layout, b: nat)
    requires Tiled(l) && Coalesced(l) && b in l.hdr && l.hdr[b].tag == Used
    ensures TagOk(l, b) && l.hdr[b].pn <= b
    ensures var s := RunStart(l.hdr, b);
      && s in l.hdr && s in l.own && l.own[s] == l.own[b] && l.hdr[s].tag != Guard && l.hdr[s].ptag != Free
      && s <= b && (s != b ==> l.hdr[s].tag == Free && s + l.hdr[s].n == b)
  {
    hide NoOverlap;
    assert TagOk(l, b);
    var s := RunStart(l.hdr, b);
    if s != b {
      assert TagOk(l, s);
      if l.hdr[s].ptag != Guard {
        assert Settled(l, s - l.hdr[s].pn);
      }
    }
  }

  // Right of b: the header after b, or the one after the free block after b.
  lemma {:induction false} RunRight(l: Layout, b: nat)
    requires Tiled(l) && Coalesced(l) && b in l.hdr && l.hdr[b].tag == Used
    ensures TagOk(l, b) && TagOk(l, b + l.hdr[b].n)
    ensures var c, e := b + l.hdr[b].n, RunEnd(l.hdr, b);
      && e in l.hdr && e in l.own && l.own[e] == l.own[b] && l.hdr[e].tag != Free
      && c <= e && (e != c ==> l.hdr[c].tag == Free && c + l.hdr[c].n == e && TagOk(l, e))
  {
    hide NoOverlap;
    assert TagOk(l, b);
    var c := b + l.hdr[b].n;
    assert TagOk(l, c);
    assert Settled(l, c);
    if l.hdr[c].tag == Free { assert TagOk(l, c + l.hdr[c].n); }
  }

  lemma {:induction false} FindRun(l: Layout, b: nat) returns (s: nat, e: nat)
    requires Tiled(l) && Coalesced(l) && b in l.hdr && l.hdr[b].tag == Used
    ensures FreeRun(l, b, s, e)
  {
    hide Tiled, Coalesced, NoOverlap;
    RunLeft(l, b);
    RunRight(l, b);
    assert b in l.own && 0 < l.hdr[b].n && b + l.hdr[b].n in l.hdr && MIN_BLOCK <= l.hdr[b].n;
    hide TagOk;
    s, e := RunStart(l.hdr, b), RunEnd(l.hdr, b);
    TiledApart(l);
    RunMembers(l.hdr, s, b, e);
  }

  lemma {:induction false} RunMembers(hdr: map<nat, Header>, s: nat, b: nat, e: nat)
    requires NoOverlap(hdr) && s in hdr && b in hdr && b + hdr[b].n in hdr
    requires s == b || s + hdr[s].n == b
    requires e == b + hdr[b].n || e == b + hdr[b].n + hdr[b + hdr[b].n].n
    ensures forall k :: k in hdr && s <= k < e ==> k == s || k == b || k == b + hdr[b].n
  {
    hide NoOverlap;
    forall k | k in hdr && s <= k < e
      ensures k == s || k == b || k == b + hdr[b].n
    {
      InRun(hdr, s, b, e, k);
    }
  }

  lemma {:induction false} TiledApart(l: Layout)
    requires Tiled(l)
    ensures NoOverlap(l.hdr)
  {
  }

  lemma {:induction false} InRun(hdr: map<nat, Header>, s: nat, b: nat, e: nat, k: nat)
    requires NoOverlap(hdr) && s in hdr && b in hdr && b + hdr[b].n in hdr && k in hdr && s <= k < e
    requires s == b || s + hdr[s].n == b
    requires e == b + hdr[b].n || e == b + hdr[b].n + hdr[b + hdr[b].n].n
    ensures k == s || k == b || k == b + hdr[b].n
  {
  }

  // ---------- the layout after a block is freed ----------

  // Merging a freed block with its free neighbours, when they are not the whole segment.
  lemma {:induction false} MergedTags(l: Layout, b: nat, s: nat, e: nat)
    requires Tiled(l) && Coalesced(l) && FreeRun(l, b, s, e) && l.hdr[b].tag == Used
    requires !(l.hdr[s].ptag == Guard && l.hdr[e].tag == Guard)
    ensures Tiled(Fused(l, s, e - s, Free)) && Coalesced(Fused(l, s, e - s, Free))
  {
    FusedTiled(l, s, e - s, Free);
    FusedCoalesced(l, s, e - s, Free);
  }

  // The size of the merged block fits the index.
  lemma {:induction false} FreedSize(h: Heap, b: nat, s: nat, e: nat)
    requires TagsOk(h.l) && ParamsOk(h.unit, h.limit) && SegmentsOk(h.list, h.l.seg, h.unit) && FreeRun(h.l, b, s, e)
    ensures Indexable(e - s)
  {
    hide Tiled, HeadersAligned, Coalesced;
    RunBound(h.l, s, e - s);
    BelowWord(e - s);
  }

  // ---------- payloads ----------

  // The two memories agree on the bytes from lo to hi.
  ghost predicate SameBytes(m: map<nat, int>, m': map<nat, int>, lo: nat, hi: nat) {
    forall a :: lo <= a < hi ==> (a in m <==> a in m') && (a in m && a in m' ==> m[a] == m'[a])
  }

  // The bytes from lo to hi become indeterminate.
  function Erased(m: map<nat, int>, lo: nat, hi: nat): map<nat, int> {
    map a | a in m && !(lo <= a < hi) :: m[a]
  }

  // memcpy of n bytes
  function Copied(m: map<nat, int>, src: nat, dst: nat, n: nat): map<nat, int> {
    if n == 0 then m
    else
      var c, k := Copied(m, src, dst, n - 1), n - 1;
      if src + k in m then c[dst + k := m[src + k]] else c - {dst + k}
  }

  lemma {:induction false} CopiedBytes(m: map<nat, int>, src: nat, dst: nat, n: nat, k: nat)
    requires k < n
    ensures dst + k in Copied(m, src, dst, n) <==> src + k in m
    ensures src + k in m ==> Copied(m, src, dst, n)[dst + k] == m[src + k]
  {
    if k < n - 1 { CopiedBytes(m, src, dst, n - 1, k); }
  }

  lemma {:induction false} CopiedElsewhere(m: map<nat, int>, src: nat, dst: nat, n: nat, lo: nat, hi: nat)
    requires hi <= dst || dst + n <= lo
    ensures SameBytes(m, Copied(m, src, dst, n), lo, hi)
  {
    if n != 0 { CopiedElsewhere(m, src, dst, n - 1, lo, hi); }
  }

  // The held blocks other than b keep their place, size and contents.
  ghost predicate Kept(h: Heap, g: Heap, b: nat) {
    forall c :: c in h.live && c != b ==>
      && c in g.live && g.live[c] == h.live[c]
      && c in UsedBlocks(h) && c in UsedBlocks(g) && UsedBlocks(g)[c] == UsedBlocks(h)[c]
      && SameBytes(h.mem, g.mem, c + HEADER, c + UsedBlocks(h)[c])
  }

  lemma {:induction false} KeptTransitive(h: Heap, g: Heap, f: Heap, b: nat)
    requires Kept(h, g, b) && Kept(g, f, b)
    ensures Kept(h, f, b)
  {
    forall c | c in h.live && c != b
      ensures c in f.live && f.live[c] == h.live[c]
      ensures c in UsedBlocks(h) && c in UsedBlocks(f) && UsedBlocks(f)[c] == UsedBlocks(h)[c]
      ensures SameBytes(h.mem, f.mem, c + HEADER, c + UsedBlocks(h)[c])
    {
    }
  }

  // Payloads of different used blocks are disjoint.
  lemma {:induction false} PayloadsDisjoint(h: Heap, b: nat, c: nat)
    requires TagsOk(h.l) && b in UsedBlocks(h) && c in UsedBlocks(h) && b != c
    ensures b + UsedBlocks(h)[b] <= c || c + UsedBlocks(h)[c] <= b
  {
  }

  // Erasing the payload of b leaves the other held blocks alone.
  lemma {:induction false} EraseKeeps(h: Heap, g: Heap, b: nat, n: nat)
    requires TagsOk(h.l) && LiveOk(UsedBlocks(h), h.live) && b in UsedBlocks(h) && n <= UsedBlocks(h)[b]
    requires g.mem == Erased(h.mem, b + HEADER, b + n)
    requires forall c :: c in h.live && c != b ==>
      c in g.live && g.live[c] == h.live[c] && c in UsedBlocks(g) && UsedBlocks(g)[c] == UsedBlocks(h)[c]
    ensures Kept(h, g, b)
  {
    forall c | c in h.live && c != b
      ensures SameBytes(h.mem, g.mem, c + HEADER, c + UsedBlocks(h)[c])
    {
      PayloadsDisjoint(h, b, c);
    }
  }
}
