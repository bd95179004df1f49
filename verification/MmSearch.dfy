// zend_mm_search_large_block: the good-fit search of the tries.
module MmSearch {
  import opened MmSize
  import opened MmBits
  import opened Seqs
  import opened MmRing
  import opened MmTrie
  import opened MmFit
  import opened MmRings
  import opened MmIndex

  // The first walk: along the path of n. It ends at the node of size n, if there is one;
  // otherwise best is the best fit on the path, rst the last subtree of larger sizes that hangs
  // off the path, and every fit is best or larger, or in rst or larger than it.
  method WalkPath(t: Forest, n: nat, index: nat) returns (best: Ref, rst: Ref)
    requires Trie(t) && LargeSize(n) && index == Bucket(n) && Root(index) in t.slot && t.slot[Root(index)] != Nil
    ensures best != Nil ==> InBucket(t, index, best) && n <= t.size[best.addr] && Visited(t, n, best.addr)
    ensures Reserved(t, n, index, rst)
    ensures (best != Nil && t.size[best.addr] == n) || forall c :: c in t.depth && c in t.size ==> t.size[c] != n
    ensures (best != Nil && t.size[best.addr] == n) || forall c :: Enough(t, n, c) ==> Covered(t, best, rst, c)
  {
    WalkStarts(t, n);
    SteersStart(n);
    hide Steers, Justified, Shl1, TopBit, Trie, OnPath, Hangs, Covered, Enough, Ahead;
    best, rst := Nil, Nil;
    var p, m := t.slot[Root(index)].addr, Justified(n, index);
    ghost var d := 0;
    WalkBounds(t, n, p, d, best, rst);
    while t.size[p] != n
      invariant Walking(t, n, p, d, best, rst) && Steers(m, n, index - d)
      invariant d <= index && NodeOk(t, p) && p in t.depth && t.depth[p] == d
      decreases index - d
    {
      PathEnds(t, n, p, d);
      SteersStep(m, n, index - d);
      WalkSteps(t, n, p, d, best, rst);
      best := Better(t, n, best, p);
      if TopBit(m) == 0 && t.slot[Child(p, 1)] != Nil {
        rst := t.slot[Child(p, 1)];
      }
      var q := t.slot[Child(p, TopBit(m))];
      if q == Nil {
        return;
      }
      p := q.addr;
      m := Shl1(m);
      d := d + 1;
      WalkBounds(t, n, p, d, best, rst);
    }
    best := Block(p);
  }

  lemma {:induction false} WalkBounds(t: Forest, n: nat, p: nat, d: nat, best: Ref, rst: Ref)
    requires Trie(t) && Walking(t, n, p, d, best, rst)
    ensures d <= Bucket(n) && NodeOk(t, p) && p in t.depth && t.depth[p] == d && Visited(t, n, p)
    ensures InBucket(t, Bucket(n), Block(p))
  {
    assert NodeOk(t, p);
  }

  // The second walk: through the kept subtree. It takes the smallest of the nodes it comes to and the
  // best fit so far. A node it takes below the root of that subtree is not the smallest that fits.
  method WalkKept(t: Forest, n: nat, index: nat, rst: Ref, best0: Ref) returns (best: Ref)
    requires Trie(t) && LargeSize(n) && index == Bucket(n)
    requires best0 != Nil ==> InBucket(t, index, best0) && n < t.size[best0.addr]
    requires rst != Nil ==> rst.Block? && Right(t, n, rst.addr)
    ensures best0 == Nil && rst == Nil ==> best == Nil
    ensures best0 != Nil || rst != Nil ==> FoundInBucket(t, n, best0, rst, best)
  {
    hide Trie, Beaten, DownBy, OnChain, LeastUpto, LeastOnChain;
    best := best0;
    var p := rst;
    ghost var k := 0;
    ChainStarts(t, rst);
    while p != Nil
      invariant p == DownBy(t, rst, k) && (rst != Nil && k == 0 ==> p == rst)
      invariant best != Nil ==> InBucket(t, index, best) && n < t.size[best.addr] && LeastUpto(t, rst, k, best.addr)
      invariant best == best0 || (best != Nil && OnChain(t, rst, best.addr))
      invariant 0 < k ==> best != Nil
      invariant best0 != Nil ==> best != Nil && t.size[best.addr] <= t.size[best0.addr]
      invariant p != Nil ==> p.Block? && Right(t, n, p.addr) && (p == rst || Beaten(t, index, n, p.addr))
      invariant rst == Nil ==> p == Nil && best == best0
      invariant rst == Nil || p == rst || (best != Nil && t.size[best.addr] <= t.size[rst.addr])
      invariant best == best0 || best == rst || Beaten(t, index, n, best.addr)
      decreases if p == Nil then 0 else 1 + index - t.depth[p.addr]
    {
      RightIsAbove(t, n, p.addr);
      ghost var was := best;
      if t.size[p.addr] == n {
        best := p;
        return;
      } else if t.size[p.addr] > n && (best == Nil || t.size[p.addr] < t.size[best.addr]) {
        best := p;
      }
      DownStays(t, index, p.addr);
      BucketNode(t, index, p.addr);
      ChainStep(t, rst, k, if was == Nil then best.addr else was.addr, p.addr, best.addr);
      k := k + 1;
      if Down(t, p.addr) != Nil { DownRight(t, n, p.addr); }
      p := Down(t, p.addr);
    }
    if best != Nil { ChainEnds(t, rst, k, best.addr); }
  }

  lemma {:induction false} ChainStarts(t: Forest, start: Ref)
    ensures DownBy(t, start, 0) == start && forall p :: p in t.size ==> LeastUpto(t, start, 0, p)
    ensures start.Block? ==> OnChain(t, start, start.addr)
  {
    assert DownBy(t, start, 0) == start;
  }

  lemma {:induction false} BucketNode(t: Forest, i: nat, p: nat)
    requires Trie(t) && InBucket(t, i, Block(p))
    ensures NodeOk(t, p)
  {
    assert NodeOk(t, p);
  }

  lemma {:induction false} RootNode(t: Forest, i: nat)
    requires Trie(t) && i < NUM_BUCKETS && Root(i) in t.slot && t.slot[Root(i)] != Nil
    ensures InBucket(t, i, t.slot[Root(i)]) && NodeOk(t, t.slot[Root(i)].addr)
  {
    assert SlotOk(t, Root(i));
    assert NodeOk(t, t.slot[Root(i)].addr);
  }

  // The third walk: from the root of a bucket. It takes the smallest of the nodes it comes to, which
  // is the smallest of the bucket if and only if that is the root.
  method WalkRoot(t: Forest, i: nat) returns (best: Ref)
    requires Trie(t) && i < NUM_BUCKETS && Root(i) in t.slot && t.slot[Root(i)] != Nil
    ensures InBucket(t, i, best) && t.slot[Root(i)].Block? && t.slot[Root(i)].addr in t.size
    ensures OnChain(t, t.slot[Root(i)], best.addr) && LeastOnChain(t, t.slot[Root(i)], best.addr)
    ensures t.size[best.addr] <= t.size[t.slot[Root(i)].addr]
    ensures LeastOf(t, i, best.addr) <==> LeastOf(t, i, t.slot[Root(i)].addr)
  {
    hide Trie, DownBy, OnChain, LeastUpto, LeastOnChain;
    RootNode(t, i);
    best := t.slot[Root(i)];
    ghost var root := best.addr;
    DownStays(t, i, root);
    if Down(t, root) != Nil { ghost var c := SiblingIsSmaller(t, i, root); }
    ChainStarts(t, Block(root));
    ChainStep(t, Block(root), 0, root, root, root);
    var p := Down(t, best.addr);
    ghost var k := 1;
    while p != Nil
      invariant InBucket(t, i, best) && t.size[best.addr] <= t.size[root]
      invariant p == DownBy(t, Block(root), k) && OnChain(t, Block(root), best.addr)
      invariant LeastUpto(t, Block(root), k, best.addr)
      invariant p != Nil ==> InBucket(t, i, p) && Beaten(t, i, 0, p.addr)
      invariant best == Block(root) || Beaten(t, i, 0, best.addr)
      decreases if p == Nil then 0 else 1 + i - t.depth[p.addr]
    {
      ghost var was := best;
      if t.size[p.addr] < t.size[best.addr] {
        best := p;
      }
      DownStays(t, i, p.addr);
      BucketNode(t, i, p.addr);
      ChainStep(t, Block(root), k, was.addr, p.addr, best.addr);
      k := k + 1;
      if Down(t, p.addr) != Nil { ghost var c := SiblingIsSmaller(t, i, p.addr); }
      p := Down(t, p.addr);
    }
    ChainEnds(t, Block(root), k, best.addr);
  }

  // ---------- the whole search ----------

  // The blocks of the tries: nodes and their peers.
  ghost predicate InTrie(x: Index, b: nat) {
    b in x.t.size && b in x.r.home && x.r.home[b].PeerRing?
  }

  // r is what a search for n may return.
  ghost predicate GoodFit(x: Index, n: nat, r: Ref) {
    if r == Nil then
      forall b :: InTrie(x, b) ==> x.t.size[b] < n
    else
      && r.Block? && InTrie(x, r.addr) && n <= x.t.size[r.addr]
      && (forall b :: InTrie(x, b) && x.t.size[b] == n ==> x.t.size[r.addr] == n)
      && (forall b :: InTrie(x, b) && n <= x.t.size[b] && x.t.size[b] != 0 ==>
            x.t.size[r.addr] != 0 && Bucket(x.t.size[r.addr]) <= Bucket(x.t.size[b]))
  }

  // No block of the tries that serves n is smaller than r.
  ghost predicate BestFit(x: Index, n: nat, r: Ref) {
    r.Block? && r.addr in x.t.size && forall b :: InTrie(x, b) && n <= x.t.size[b] ==> x.t.size[r.addr] <= x.t.size[b]
  }

  // No node at hand that serves n is smaller than r; and in a higher bucket, none of the nodes that the
  // walk from the root comes to, of which r is one or a peer of one.
  ghost predicate Nearest(x: Index, n: nat, r: Ref)
    requires n != 0
  {
    && r.Block? && r.addr in x.t.size && x.t.size[r.addr] != 0
    && (forall c :: AtHand(x.t, n, c) && n <= x.t.size[c] ==> x.t.size[r.addr] <= x.t.size[c])
    && (Bucket(n) != Bucket(x.t.size[r.addr]) ==> TakenFromRoot(x.t, Bucket(x.t.size[r.addr]), x.t.size[r.addr]))
    && BehindFirst(x, r)
  }

  // r is the block behind the node of its size in their ring: the newest peer, or the node if it has
  // none.
  ghost predicate BehindFirst(x: Index, r: Ref) {
    && r.Block? && r.addr in x.t.size && PeerRing(x.t.size[r.addr]) in x.r.ring
    && var c := x.r.ring[PeerRing(x.t.size[r.addr])]; c != [] && r == if |c| == 1 then c[0] else c[1]
  }

  // n is the least size of the nodes that the walk from the root of bucket i comes to.
  ghost predicate TakenFromRoot(t: Forest, i: nat, n: nat) {
    && Root(i) in t.slot
    && exists p :: OnChain(t, t.slot[Root(i)], p) && LeastOnChain(t, t.slot[Root(i)], p) && t.size[p] == n
  }

  lemma {:induction false} NearestBehind(x: Index, n: nat, p: nat)
    requires IndexOk(x) && p in x.t.depth && n != 0 && p in x.t.size && NoneNearer(x.t, n, p)
    requires x.t.size[p] != 0
    requires Bucket(n) == Bucket(x.t.size[p]) || TakenFromRoot(x.t, Bucket(x.t.size[p]), x.t.size[p])
    ensures Block(p) in x.r.next && Nearest(x, n, x.r.next[Block(p)])
  {
    hide AtHand, TakenFromRoot, Bucket;
    NodeAndBehind(x, p);
    hide IndexOk;
  }

  // Every trie block has a node of its size.
  lemma {:induction false} NodeFor(x: Index, b: nat) returns (c: nat)
    requires IndexOk(x) && InTrie(x, b)
    ensures c in x.t.depth && c in x.t.size && x.t.size[c] == x.t.size[b] && LargeSize(x.t.size[c])
  {
    assert BlockOk(x, b);
    c := PeerNode(x, x.t.size[b]);
  }

  // The block behind a node in its ring has the size of the node.
  lemma {:induction false} NodeAndBehind(x: Index, c: nat)
    requires IndexOk(x) && c in x.t.depth
    ensures Block(c) in x.r.next && x.r.next[Block(c)].Block?
    ensures InTrie(x, x.r.next[Block(c)].addr) && x.t.size[x.r.next[Block(c)].addr] == x.t.size[c]
    ensures BehindFirst(x, x.r.next[Block(c)])
  {
    assert BlockOk(x, c);
    var k := x.r.home[c];
    assert RingOk(x.r, k);
    Neighbours(x.r, k, 0);
    assert BlockOk(x, x.r.next[Block(c)].addr);
  }

  // The block behind a node is the best fit if no node is better.
  lemma {:induction false} BestOfNodes(x: Index, n: nat, p: nat)
    requires IndexOk(x) && p in x.t.depth && p in x.t.size
    ensures Block(p) in x.r.next && (BestFit(x, n, x.r.next[Block(p)]) <==> NodeBest(x.t, n, p))
  {
    NodeAndBehind(x, p);
    hide IndexOk;
    if NodeBest(x.t, n, p) {
      forall b | InTrie(x, b) && n <= x.t.size[b]
        ensures x.t.size[p] <= x.t.size[b]
      {
        var c := NodeFor(x, b);
      }
    }
    if BestFit(x, n, x.r.next[Block(p)]) {
      forall c | c in x.t.depth && c in x.t.size && n <= x.t.size[c]
        ensures x.t.size[p] <= x.t.size[c]
      {
        NodeInTrie(x, c);
      }
    }
  }

  lemma {:induction false} NodeInTrie(x: Index, c: nat)
    requires IndexOk(x) && c in x.t.depth
    ensures InTrie(x, c)
  {
    assert BlockOk(x, c);
  }

  // A node of the bucket that is an exact fit, or a fit when there is no exact one, will do.
  lemma {:induction false} SameBucketFit(x: Index, n: nat, best: Ref)
    requires IndexOk(x) && LargeSize(n) && InBucket(x.t, Bucket(n), best) && n <= x.t.size[best.addr]
    requires x.t.size[best.addr] == n || forall c :: c in x.t.depth && c in x.t.size ==> x.t.size[c] != n
    ensures best in x.r.next && GoodFit(x, n, x.r.next[best])
  {
    NodeAndBehind(x, best.addr);
    forall b | InTrie(x, b)
      ensures x.t.size[b] == n ==> x.t.size[best.addr] == n
    {
      var c := NodeFor(x, b);
    }
    forall b | InTrie(x, b) && n <= x.t.size[b] && x.t.size[b] != 0
      ensures Bucket(n) <= Bucket(x.t.size[b])
    {
      HighBitMonotone(n, x.t.size[b]);
    }
  }

  // A node of bucket i, above that of n, will do if nothing fits below i.
  lemma {:induction false} HigherBucketFit(x: Index, n: nat, i: nat, best: Ref)
    requires IndexOk(x) && n != 0 && InBucket(x.t, i, best) && Bucket(n) < i && NothingBelow(x.t, n, i)
    ensures best in x.r.next && GoodFit(x, n, x.r.next[best])
  {
    NodeAndBehind(x, best.addr);
    if x.t.size[best.addr] < n { HighBitMonotone(x.t.size[best.addr], n); }
    forall b | InTrie(x, b) && n <= x.t.size[b] && x.t.size[b] != 0
      ensures i <= Bucket(x.t.size[b])
    {
      var c := NodeFor(x, b);
    }
  }

  lemma {:induction false} StartsNothingBelow(x: Index, n: nat)
    requires n != 0
    ensures NothingBelow(x.t, n, Bucket(n))
  {
    forall c | c in x.t.depth && c in x.t.size && n <= x.t.size[c] && x.t.size[c] != 0
      ensures Bucket(n) <= Bucket(x.t.size[c])
    {
      HighBitMonotone(n, x.t.size[c]);
    }
  }

  // Buckets whose bits are clear are empty.
  lemma {:induction false} ClearBitsEmpty(x: Index, n: nat, i: nat, j: nat)
    requires IndexOk(x) && NothingBelow(x.t, n, i) && i <= j
    requires forall k: nat :: i <= k < j ==> !Bit(x.large, k)
    ensures NothingBelow(x.t, n, j)
  {
    forall c | c in x.t.depth && c in x.t.size && n <= x.t.size[c] && x.t.size[c] != 0
      ensures j <= Bucket(x.t.size[c])
    {
      assert BlockOk(x, c);
      var k := Bucket(x.t.size[c]);
      assert SlotOk(x.t, Root(k));
      if k < j {
        assert !Bit(x.large, k);
        EmptyBucket(x.t, x.t.size[c]);
      }
    }
  }

  // If no bit is left, nothing fits.
  lemma {:induction false} NothingLeft(x: Index, n: nat, i: nat)
    requires IndexOk(x) && NothingBelow(x.t, n, i) && n != 0 && Shr(x.large, i) == 0
    ensures GoodFit(x, n, Nil)
  {
    forall b | InTrie(x, b)
      ensures x.t.size[b] < n
    {
      var c := NodeFor(x, b);
      var k := Bucket(x.t.size[c]);
      if n <= x.t.size[c] {
        NoBitsFrom(x.large, i, k);
        assert SlotOk(x.t, Root(k));
        EmptyBucket(x.t, x.t.size[c]);
      }
    }
  }

  // A set large bit leads to the root of a trie.
  lemma {:induction false} RootOf(x: Index, i: nat)
    requires IndexOk(x) && Bit(x.large, i)
    ensures i < NUM_BUCKETS && Trie(x.t) && Root(i) in x.t.slot && x.t.slot[Root(i)] != Nil
  {
    assert SlotOk(x.t, Root(i));
  }

  // The third part: the first non-empty bucket from index on.
  method SearchAbove(x: Index, n: nat, index: nat, bitmap: nat) returns (r: Ref)
    requires IndexOk(x) && n != 0 && NothingBelow(x.t, n, index)
    requires bitmap == Shr(x.large, index) != 0 && (Bucket(n) < index || (Bucket(n) == index && bitmap % 2 == 0))
    ensures GoodFit(x, n, r) && (r != Nil ==> (BestFit(x, n, r) <==> BestAtHand(x.t, n)) && Nearest(x, n, r))
  {
    hide IndexOk, Trie, NothingBelow, GoodFit, BestFit, BestAtHand, LeastOf, NodeBest, Bucket;
    hide Nearest, NoneNearer, OnChain, LeastOnChain;
    var i := LowBitScan(bitmap);
    forall k: nat | index <= k < index + i
      ensures !Bit(x.large, k)
    {
      NextBit(x.large, index, k);
    }
    NextBit(x.large, index, index);
    ClearBitsEmpty(x, n, index, index + i);
    RootOf(x, index + i);
    var best := WalkRoot(x.t, index + i);
    HigherBucketFit(x, n, index + i, best);
    RootIsBest(x.t, n, index + i, best.addr);
    RootIsNearest(x.t, n, index + i, best.addr);
    NearestBehind(x, n, best.addr);
    BestOfNodes(x, n, best.addr);
    r := x.r.next[best];
  }

  // Nothing in the bucket of n fits.
  lemma {:induction false} BucketTooSmall(x: Index, n: nat)
    requires n != 0 && IndexOk(x) && (forall c :: !Enough(x.t, n, c))
    ensures NothingBelow(x.t, n, Bucket(n) + 1)
  {
    forall c | c in x.t.depth && c in x.t.size && n <= x.t.size[c] && x.t.size[c] != 0
      ensures Bucket(n) + 1 <= Bucket(x.t.size[c])
    {
      HighBitMonotone(n, x.t.size[c]);
      assert !Enough(x.t, n, c);
    }
  }

  // zend_mm_search_large_block: a good fit, the best one that is at hand, and the best of all if and
  // only if that is at hand.
  method SearchLarge(x: Index, n: nat) returns (r: Ref)
    requires IndexOk(x) && n != 0
    ensures GoodFit(x, n, r)
    ensures r != Nil ==> (BestFit(x, n, r) <==> BestAtHand(x.t, n)) && Nearest(x, n, r)
  {
    hide IndexOk, Trie, NothingBelow, GoodFit, BestFit, BestAtHand, NodeBest, OnPath;
    hide Nearest, NoneNearer, OnChain, LeastOnChain;
    var index := HighBitScan(n);
    var bitmap := Shr(x.large, index);
    StartsNothingBelow(x, n);
    if bitmap == 0 {
      NothingLeft(x, n, index);
      return Nil;
    }
    if bitmap % 2 == 1 {
      RootOf(x, index);
      var best, rst := WalkPath(x.t, n, index);
      if best == Nil || x.t.size[best.addr] != n {
        ghost var best0 := best;
        best := WalkKept(x.t, n, index, rst, best);
        if best != Nil {
          KeptIsBest(x.t, n, best0, rst, best);
          KeptIsNearest(x.t, n, best0, rst, best);
        }
      } else {
        ExactIsBest(x.t, n, best.addr);
      }
      if best != Nil {
        SameBucketFit(x, n, best);
        NearestBehind(x, n, best.addr);
        BestOfNodes(x, n, best.addr);
        return x.r.next[best];
      }
      BucketTooSmall(x, n);
      ShrStep(x.large, index);
      bitmap := bitmap / 2;
      index := index + 1;
      if bitmap == 0 {
        NothingLeft(x, n, index);
        return Nil;
      }
    }
    r := SearchAbove(x, n, index, bitmap);
  }

  // A good fit is less than twice the size of any block that fits.
  lemma {:induction false} GoodFitWithinTwice(x: Index, n: nat, r: Ref, b: nat)
    requires IndexOk(x) && n != 0 && GoodFit(x, n, r) && InTrie(x, b) && n <= x.t.size[b]
    ensures r != Nil && x.t.size[r.addr] < 2 * x.t.size[b]
  {
    WithinTwice(x.t.size[r.addr], x.t.size[b]);
  }

  // ---------- small rings and the rest list ----------

  ghost predicate LastIn(x: Index, k: RingId, r: Ref) {
    k in x.r.ring && x.r.ring[k] != [] && x.r.ring[k][|x.r.ring[k]| - 1] == r
  }

  // No small bit is set from the class of n on.
  ghost predicate NoSmall(x: Index, n: nat) {
    Small(n) && MIN_BLOCK <= n ==> forall i: nat :: BucketIndex(n) <= i ==> !Bit(x.free, i)
  }

  // r is the oldest block of the first small class from that of n on whose bit is set.
  ghost predicate SmallFit(x: Index, n: nat, r: Ref) {
    && MIN_BLOCK <= n && r.Block? && r.addr in x.t.size && r.addr in x.r.home && x.r.home[r.addr].SmallRing?
    && n <= x.t.size[r.addr] && BlockSize(x.t.size[r.addr]) && Bit(x.free, BucketIndex(x.t.size[r.addr]))
    && LastIn(x, SmallRing(BucketIndex(x.t.size[r.addr])), r)
    && (forall i: nat :: BucketIndex(n) <= i < BucketIndex(x.t.size[r.addr]) ==> !Bit(x.free, i))
  }

  // r is member j of the rest list, and no newer member has its size.
  ghost predicate NewestAt(x: Index, j: nat, r: Ref)
    requires RestRing in x.r.ring && j < |x.r.ring[RestRing]|
  {
    var c := x.r.ring[RestRing];
    && c[j] == r && r.Block? && r.addr in x.t.size
    && forall i :: j < i < |c| ==> c[i].Block? && c[i].addr in x.t.size && x.t.size[c[i].addr] != x.t.size[r.addr]
  }

  // r is the best fit of the rest list, the newest of its size, or Nil if no block of it fits.
  ghost predicate RestFit(x: Index, n: nat, r: Ref) {
    if r == Nil then
      forall b :: InRest(x, b) ==> x.t.size[b] < n
    else
      && r.Block? && InRest(x, r.addr) && n <= x.t.size[r.addr]
      && (forall b :: InRest(x, b) && n <= x.t.size[b] ==> x.t.size[r.addr] <= x.t.size[b])
      && RestRing in x.r.ring && exists j :: 0 < j < |x.r.ring[RestRing]| && NewestAt(x, j, r)
  }

  // What a search for n may return: a small block; only if there is none, a block of the tries;
  // only if there is none and the heap is near its limit, a block of the rest list.
  ghost predicate FitFor(x: Index, n: nat, nearLimit: bool, r: Ref) {
    || SmallFit(x, n, r)
    || (NoSmall(x, n) && r != Nil && GoodFit(x, n, r) && n != 0 && Nearest(x, n, r))
    || (NoSmall(x, n) && GoodFit(x, n, Nil) && if nearLimit then RestFit(x, n, r) else r == Nil)
  }

  // The first small bucket from index on whose bit is set, and the oldest block of its ring.
  method SearchSmall(x: Index, n: nat) returns (r: Ref)
    requires IndexOk(x) && BlockSize(n) && Small(n)
    ensures if r == Nil then NoSmall(x, n) else SmallFit(x, n, r)
  {
    var found, i := FirstSet(x.free, BucketIndex(n));
    if !found {
      return Nil;
    }
    OldestSmall(x, i);
    r := x.r.prev[SmallHead(i)];
  }

  // A set small bit leads to a block of exactly that class.
  lemma {:induction false} OldestSmall(x: Index, i: nat)
    requires IndexOk(x) && Bit(x.free, i)
    ensures SmallHead(i) in x.r.prev && x.r.prev[SmallHead(i)].Block? && LastIn(x, SmallRing(i), x.r.prev[SmallHead(i)])
    ensures var b := x.r.prev[SmallHead(i)].addr;
      b in x.t.size && b in x.r.home && x.r.home[b] == SmallRing(i) && BlockSize(x.t.size[b])
        && BucketIndex(x.t.size[b]) == i
  {
    assert RingOk(x.r, SmallRing(i));
    var c := x.r.ring[SmallRing(i)];
    assert x.r.prev[c[0]] == c[|c| - 1];
    assert BlockOk(x, c[|c| - 1].addr);
  }

  ghost predicate InRest(x: Index, b: nat) {
    b in x.t.size && b in x.r.home && x.r.home[b] == RestRing
  }

  // Member j of the rest ring.
  lemma {:induction false} RestMember(x: Index, j: nat)
    requires IndexOk(x) && RestRing in x.r.ring && 0 < j < |x.r.ring[RestRing]|
    ensures var c := x.r.ring[RestRing];
      c[j].Block? && InRest(x, c[j].addr) && c[j] in x.r.prev && x.r.prev[c[j]] == c[j - 1]
  {
    assert RingOk(x.r, RestRing);
    assert BlockOk(x, x.r.ring[RestRing][j].addr);
  }

  lemma {:induction false} RestRingIs(x: Index)
    requires IndexOk(x)
    ensures RestRing in x.r.ring && RestHead in x.r.prev
    ensures var c := x.r.ring[RestRing];
      && c != [] && c[0] == RestHead && x.r.prev[RestHead] == c[|c| - 1]
      && forall i :: 0 < i < |c| ==> c[i] != RestHead
  {
    assert RingOk(x.r, RestRing);
  }

  lemma {:induction false} RestHas(x: Index, b: nat) returns (i: nat)
    requires IndexOk(x) && InRest(x, b) && RestRing in x.r.ring
    ensures 0 < i < |x.r.ring[RestRing]| && x.r.ring[RestRing][i] == Block(b)
  {
    assert RingOk(x.r, RestRing) && BlockOk(x, b);
    assert Block(b) in x.r.ring[RestRing];
    i :| 0 <= i < |x.r.ring[RestRing]| && x.r.ring[RestRing][i] == Block(b);
  }

  // The walk of the rest list, newest first: an exact fit or the best one.
  method SearchRest(x: Index, n: nat) returns (r: Ref)
    requires IndexOk(x)
    ensures RestFit(x, n, r)
  {
    hide IndexOk;
    RestRingIs(x);
    ghost var c := x.r.ring[RestRing];
    ghost var j := |c| - 1;
    r := Nil;
    ghost var at := 0;
    var p := x.r.prev[RestHead];
    while p != RestHead
      invariant 0 <= j < |c| && p == c[j]
      invariant r != Nil ==> r.Block? && InRest(x, r.addr) && n < x.t.size[r.addr]
      invariant forall i :: j < i < |c| ==> c[i].Block? && c[i].addr in x.t.size && x.t.size[c[i].addr] != n
      invariant forall i :: j < i < |c| && n < x.t.size[c[i].addr] ==>
        r != Nil && x.t.size[r.addr] <= x.t.size[c[i].addr]
      invariant r != Nil ==> j < at < |c| && NewestAt(x, at, r)
      decreases j
    {
      RestMember(x, j);
      if x.t.size[p.addr] == n {
        r := p;
        assert NewestAt(x, j, r);
        return;
      } else if x.t.size[p.addr] > n && (r == Nil || x.t.size[p.addr] < x.t.size[r.addr]) {
        r, at := p, j;
      }
      p := x.r.prev[p];
      j := j - 1;
    }
    forall b | InRest(x, b)
      ensures r == Nil ==> x.t.size[b] < n
      ensures r != Nil && n <= x.t.size[b] ==> x.t.size[r.addr] <= x.t.size[b]
    {
      var i := RestHas(x, b);
    }
  }
}
