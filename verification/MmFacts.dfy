// What the invariant of a heap means: consequences that hold in every reachable state.
module MmFacts {
  import opened MmSize
  import opened MmTags
  import opened MmSum
  import opened MmCache
  import opened MmHeap

  // Block b covers address a of segment s.
  ghost predicate Covers(l: Layout, s: nat, b: nat, a: nat) {
    b in l.hdr && b in l.own && l.own[b] == s && l.hdr[b].tag != Guard && b <= a < b + l.hdr[b].n
  }

  // From its first block to its guard, a segment is tiled exactly: every address lies in one block
  // and in only one.
  lemma {:induction false} ExactlyOneBlock(l: Layout, s: nat, a: nat) returns (b: nat)
    requires Tiled(l) && s in l.seg && HEADER <= l.seg[s] && First(s) <= a < Last(l, s)
    ensures Covers(l, s, b, a) && forall c :: Covers(l, s, c, a) ==> c == b
  {
    assert SegmentOk(l, s);
    b := First(s);
    while b + l.hdr[b].n <= a
      invariant b in l.hdr && b in l.own && l.own[b] == s && l.hdr[b].tag != Guard && b <= a
      decreases a - b
    {
      b := NextBlock(l, s, b);
    }
    OnlyOne(l, s, b, a);
  }

  lemma {:induction false} NextBlock(l: Layout, s: nat, b: nat) returns (c: nat)
    requires Tiled(l) && s in l.seg && HEADER <= l.seg[s] && b in l.hdr && b in l.own && l.own[b] == s
      && l.hdr[b].tag != Guard
    ensures c == b + l.hdr[b].n && b < c && c in l.hdr && c in l.own && l.own[c] == s
    ensures l.hdr[c].tag == Guard <==> c == Last(l, s)
  {
    hide NoOverlap;
    assert TagOk(l, b);
    c := b + l.hdr[b].n;
    assert TagOk(l, c) && SegmentOk(l, s);
  }

  lemma {:induction false} OnlyOne(l: Layout, s: nat, b: nat, a: nat)
    requires Tiled(l) && Covers(l, s, b, a)
    ensures forall c :: Covers(l, s, c, a) ==> c == b
  {
    TiledApart(l);
    hide Tiled;
  }

  // Every block is aligned, has a size a block can have, and is mirrored in the header behind it.
  lemma {:induction false} BlockIsMirrored(l: Layout, b: nat)
    requires TagsOk(l) && b in l.hdr && l.hdr[b].tag != Guard
    ensures b % ALIGNMENT == 0 && BlockSize(l.hdr[b].n)
    ensures b + l.hdr[b].n in l.hdr && l.hdr[b + l.hdr[b].n].pn == l.hdr[b].n
      && l.hdr[b + l.hdr[b].n].ptag == l.hdr[b].tag
  {
    hide NoOverlap;
    assert TagOk(l, b) && TagOk(l, b + l.hdr[b].n);
    AlignedDifference(b, l.hdr[b].n);
  }

  // No two neighbouring blocks are both free, and a free block is not alone in its segment.
  lemma {:induction false} FreeIsSettled(l: Layout, b: nat)
    requires TagsOk(l) && b in l.hdr && l.hdr[b].tag == Free
    ensures l.hdr[b].ptag != Free && b + l.hdr[b].n in l.hdr && l.hdr[b + l.hdr[b].n].tag != Free
    ensures l.hdr[b].ptag == Used || l.hdr[b + l.hdr[b].n].tag == Used
  {
    hide NoOverlap;
    assert TagOk(l, b) && Settled(l, b);
    if l.hdr[b].ptag != Guard {
      assert Settled(l, b - l.hdr[b].pn);
    }
  }

  // zend_memory_usage: the bytes of the blocks the program holds and the bytes lost to flushes of
  // the cache. It is what the program holds if and only if nothing was ever flushed.
  lemma {:induction false} UsageIsHeld(h: Heap, held: map<nat, nat>)
    requires HeapOk(h) && held == UsedBlocks(h) - (UsedBlocks(h).Keys - h.live.Keys)
    ensures held.Keys == h.live.Keys && h.cached <= h.size
    ensures h.size - h.cached == Sum(held) + h.lost
    ensures h.size - h.cached == Sum(held) <==> h.lost == 0
    ensures h.size <= h.peak && h.realSize <= h.realPeak
  {
    hide TagsOk, CacheOk, SegmentsOk, Sum;
    SumSplit(UsedBlocks(h), UsedBlocks(h) - h.live.Keys, held);
  }

  // Two parts of a map add up to it.
  ghost predicate Parts(m: map<nat, nat>, a: map<nat, nat>, b: map<nat, nat>) {
    forall k :: (k in m <==> k in a || k in b) && !(k in a && k in b) && (k in a ==> m[k] == a[k])
      && (k in b ==> m[k] == b[k])
  }

  lemma {:induction false} SumSplit(m: map<nat, nat>, a: map<nat, nat>, b: map<nat, nat>)
    requires Parts(m, a, b)
    ensures Sum(m) == Sum(a) + Sum(b)
    decreases |m.Keys|
  {
    hide Sum;
    if k :| k in m {
      Less(m, k);
      SumWithout(m, k);
      if k in a {
        SumWithout(a, k);
        SumSplit(m - {k}, a - {k}, b);
      } else {
        SumWithout(b, k);
        SumSplit(m - {k}, a, b - {k});
      }
    } else {
      assert m == map[] && a == map[] && b == map[];
      SumEmpty();
    }
  }
}
