// The free-block index of a heap, updated in place: every method body is the sequence of field
// writes of the allocator. The record x also carries what the allocator does not store: the
// level of each trie node (t.depth) and the contents and membership of the rings (r.ring, r.home).
module MmFreeIndex {
  import opened MmSize
  import opened MmBits
  import opened Seqs
  import opened MmRing
  import opened MmTrie
  import opened MmRings
  import opened MmIndex

  class FreeIndex {
    var x: Index

    ghost predicate Valid()
      reads this
    {
      IndexOk(x)
    }

    // zend_mm_init: empty rings, empty tries.
    constructor ()
      ensures Valid() && x.t.size == map[] && SmallBitsExact(x) && x.rest == 0
      ensures forall k :: k in x.r.ring ==> x.r.ring[k] == [Anchor(k)]
    {
      var slot: map<Slot, Ref>, next: Links := map[], map[RestHead := RestHead];
      ghost var ring := map[RestRing := [RestHead]];
      var i := 0;
      while i < NUM_BUCKETS
        invariant i <= NUM_BUCKETS
        invariant forall p :: p in slot <==> p.Root? && p.index < i
        invariant forall p :: p in slot ==> slot[p] == Nil
        invariant forall r :: r in next <==> r == RestHead || (r.SmallHead? && r.index < i)
        invariant forall r :: r in next ==> next[r] == r
        invariant forall k :: k in ring <==> k == RestRing || (k.SmallRing? && k.index < i)
        invariant forall k :: k in ring ==> ring[k] == [Anchor(k)]
      {
        next := next[SmallHead(i) := SmallHead(i)];
        slot := slot[Root(i) := Nil];
        ring := ring[SmallRing(i) := [SmallHead(i)]];
        i := i + 1;
      }
      x := Index(Forest(map[], map[], slot, map[]), Rings(next, next, ring, map[]), 0, 0, 0);
      new;
      EmptyIndex(x);
    }

    // ---------- zend_mm_add_to_free_list ----------

    method AddSmall(b: nat, n: nat)
      requires Valid() && b !in x.t.size && Indexable(n) && Small(n)
      modifies this
      ensures Valid() && RingOk(old(x).r, SmallRing(BucketIndex(n)))
      ensures x == AddedSmall(old(x), b, n)
    {
      var index := BucketIndex(n);
      var k, p := SmallRing(index), SmallHead(index);
      assert RingOk(x.r, k);
      SameNeighbours(x.r.next, x.r.prev, x.r.ring[k], 0);
      AddedSmallOk(x, b, n);
      if x.r.prev[p] == p {
        x := x.(free := SetBit(x.free, index));
      }
      var q := x.r.next[p];
      x := x.(r := x.r.(prev := x.r.prev[Block(b) := p]));
      x := x.(r := x.r.(next := x.r.next[Block(b) := q]));
      x := x.(r := x.r.(next := x.r.next[p := Block(b)]));
      x := x.(r := x.r.(prev := x.r.prev[q := Block(b)]));
      x := x.(t := x.t.(size := x.t.size[b := n]),
              r := x.r.(ring := x.r.ring[k := Inserted(x.r.ring[k], 0, Block(b))], home := x.r.home[b := k]));
    }

    // Linking b behind the trie node q of its size.
    method LinkPeer(b: nat, n: nat, q: nat)
      requires Valid() && b !in x.t.size && Indexable(n) && !Small(n) && q in x.t.depth && x.t.size[q] == n
      modifies this
      ensures Valid() && RingOk(old(x).r, PeerRing(n))
      ensures x == AddedPeer(old(x), b, n)
    {
      var k := PeerRing(n);
      assert BlockOk(x, q);
      assert RingOk(x.r, k);
      AddedPeerOk(x, b, n);
      x := x.(t := x.t.(slot := x.t.slot[Child(b, 0) := Nil][Child(b, 1) := Nil]));
      var r := x.r.next[Block(q)];
      x := x.(r := x.r.(next := x.r.next[Block(b) := r]));
      x := x.(r := x.r.(prev := x.r.prev[Block(b) := Block(q)]));
      x := x.(r := x.r.(next := x.r.next[Block(q) := Block(b)]));
      x := x.(r := x.r.(prev := x.r.prev[r := Block(b)]));
      x := x.(t := x.t.(parent := x.t.parent[b := NoSlot]));
      x := x.(t := x.t.(size := x.t.size[b := n]),
              r := x.r.(ring := x.r.ring[k := Inserted(x.r.ring[k], 0, Block(b))], home := x.r.home[b := k]));
    }

    // Hanging b into a free slot of a trie, d levels down.
    method HangNode(b: nat, n: nat, p: Slot, ghost d: nat)
      requires Valid() && Hangable(x, b, n, p, d)
      modifies this
      ensures Valid() && x == AddedNode(old(x), b, n, p, d)
    {
      AddedNodeOk(x, b, n, p, d);
      x := x.(t := x.t.(slot := x.t.slot[Child(b, 0) := Nil][Child(b, 1) := Nil]));
      x := x.(t := x.t.(slot := x.t.slot[p := Block(b)]));
      x := x.(t := x.t.(parent := x.t.parent[b := p]));
      x := x.(r := x.r.(next := x.r.next[Block(b) := Block(b)], prev := x.r.prev[Block(b) := Block(b)]));
      if p.Root? {
        x := x.(large := SetBit(x.large, p.index));
      }
      x := x.(t := x.t.(size := x.t.size[b := n], depth := x.t.depth[b := d]),
              r := x.r.(ring := x.r.ring[PeerRing(n) := [Block(b)]], home := x.r.home[b := PeerRing(n)]));
    }

    // The descent from the root of the bucket: it ends at the node of size n or, if there is
    // none, at the empty slot where that node belongs, at most HighBit(n) levels down.
    method Descend(n: nat) returns (p: Slot, ghost d: nat)
      requires Valid() && LargeSize(n)
      ensures p in x.t.slot && d <= HighBit(n)
      ensures x.t.slot[p] == Nil ==> Fits(x.t, n, p, d)
      ensures x.t.slot[p] == Nil ==> forall c :: c in x.t.depth && c in x.t.size ==> x.t.size[c] != n
      ensures x.t.slot[p] != Nil ==>
        x.t.slot[p].Block? && x.t.slot[p].addr in x.t.depth && x.t.size[x.t.slot[p].addr] == n
    {
      ghost var t := x.t;
      var index := HighBitScan(n);
      p, d := Root(index), 0;
      assert SlotOk(t, p);
      if x.t.slot[p] == Nil {
        EmptyBucket(t, n);
        return;
      }
      var m := Justified(n, index);
      SteersStart(n);
      RootOnPath(t, n);
      hide Steers, Justified, Shl1, TopBit, HighBit;
      while x.t.size[x.t.slot[p].addr] != n
        invariant p in t.slot && t.slot[p].Block? && OnPath(t, n, t.slot[p].addr, d)
        invariant Steers(m, n, index - d)
        decreases index - d
      {
        var q := x.t.slot[p].addr;
        PathEnds(t, n, q, d);
        SteersStep(m, n, index - d);
        assert NodeOk(t, q);
        p := Child(q, TopBit(m));
        if x.t.slot[p] == Nil {
          PathIsFree(t, n, q, d);
          d := d + 1;
          return;
        }
        assert NodeOk(t, t.slot[p].addr);
        ChildOnPath(t, n, q, d, t.slot[p].addr);
        m := Shl1(m);
        d := d + 1;
      }
    }

    method AddLarge(b: nat, n: nat)
      requires Valid() && b !in x.t.size && Indexable(n) && !Small(n)
      modifies this
      ensures Valid() && Filed(old(x), x, b, n)
    {
      var p, d := Descend(n);
      hide IndexOk, Filed;
      if x.t.slot[p] == Nil {
        NodeFiled(x, b, n, p, d);
        HangNode(b, n, p, d);
      } else {
        PeerFiled(x, b, n, x.t.slot[p].addr);
        LinkPeer(b, n, x.t.slot[p].addr);
      }
    }

    method AddToFreeList(b: nat, n: nat)
      requires Valid() && b !in x.t.size && Indexable(n)
      modifies this
      ensures Valid() && Filed(old(x), x, b, n)
    {
      hide IndexOk, Filed;
      if !Small(n) {
        AddLarge(b, n);
      } else {
        SmallFiled(x, b, n);
        AddSmall(b, n);
      }
    }

    // ---------- zend_mm_remove_from_free_list ----------

    // The code at subst_block: p takes over the slot and the children of node b.
    method Substitute(b: nat, p: nat)
      requires NodeOk(x.t, b) && p != b
      modifies this
      ensures x == old(x).(t := Substituted(old(x).t, b, p))
    {
      x := x.(t := x.t.(slot := x.t.slot[x.t.parent[b] := Block(p)]));
      x := x.(t := x.t.(parent := x.t.parent[p := x.t.parent[b]], depth := (x.t.depth - {b})[p := x.t.depth[b]]));
      x := x.(t := x.t.(slot := x.t.slot[Child(p, 0) := x.t.slot[Child(b, 0)]]));
      if x.t.slot[Child(p, 0)] != Nil {
        x := x.(t := x.t.(parent := x.t.parent[x.t.slot[Child(p, 0)].addr := Child(p, 0)]));
      }
      x := x.(t := x.t.(slot := x.t.slot[Child(p, 1) := x.t.slot[Child(b, 1)]]));
      if x.t.slot[Child(p, 1)] != Nil {
        x := x.(t := x.t.(parent := x.t.parent[x.t.slot[Child(p, 1)].addr := Child(p, 1)]));
      }
    }

    // The walk from a node with children to a leaf below it, always to child 1 if there is one.
    method LeafUnder(b: nat) returns (rp: Slot, p: nat)
      requires Valid() && b in x.t.depth
      requires NodeOk(x.t, b) && (x.t.slot[Child(b, 0)] != Nil || x.t.slot[Child(b, 1)] != Nil)
      ensures LeafBelow(x.t, b, p) && rp == x.t.parent[p]
    {
      ghost var t := x.t;
      rp := Child(b, if x.t.slot[Child(b, 1)] != Nil then 1 else 0);
      p := x.t.slot[rp].addr;
      assert NodeOk(t, p);
      var cp := Child(p, if x.t.slot[Child(p, 1)] != Nil then 1 else 0);
      while x.t.slot[cp] != Nil
        invariant NodeOk(t, p) && t.parent[p] == rp && Under(t, b, p)
        invariant cp == Child(p, if t.slot[Child(p, 1)] != Nil then 1 else 0)
        decreases Bucket(t.size[p]) - t.depth[p]
      {
        assert NodeOk(t, t.slot[cp].addr);
        UnderStep(t, b, p, t.slot[cp].addr);
        p := x.t.slot[cp].addr;
        rp := cp;
        cp := Child(p, if x.t.slot[Child(p, 1)] != Nil then 1 else 0);
      }
    }

    // The only block of its size, a leaf.
    method Prune(b: nat, n: nat)
      requires Valid() && Alone(x, b, n) && x.t.slot[Child(b, 0)] == x.t.slot[Child(b, 1)] == Nil
      modifies this
      ensures Valid() && Dropped(old(x), x, b)
    {
      PrunedOk(x, b, n);
      PrunedDrops(x, b, n);
      var index := HighBitScan(n);
      var up := x.t.parent[b];
      x := x.(t := x.t.(slot := x.t.slot[up := Nil]));
      if up == Root(index) {
        x := x.(large := ClearBit(x.large, index));
      }
      x := x.(t := x.t.(size := x.t.size - {b}, depth := x.t.depth - {b}),
              r := x.r.(ring := x.r.ring - {PeerRing(n)}, home := x.r.home - {b}));
    }

    // The only block of its size, an inner node.
    method Promote(b: nat, n: nat, rp: Slot, p: nat)
      requires Valid() && Alone(x, b, n) && LeafBelow(x.t, b, p) && rp == x.t.parent[p]
      modifies this
      ensures Valid() && Dropped(old(x), x, b)
    {
      PromotedOk(x, b, n, p);
      PromotedDrops(x, b, n, p);
      assert NodeOk(Detached(x.t, p), b) by { TrieDetach(x.t, p); }
      x := x.(t := x.t.(slot := x.t.slot[rp := Nil], depth := x.t.depth - {p}));
      Substitute(b, p);
      x := x.(t := x.t.(size := x.t.size - {b}),
              r := x.r.(ring := x.r.ring - {PeerRing(n)}, home := x.r.home - {b}));
    }

    method RemoveAlone(b: nat)
      requires Valid() && b in x.t.size && Block(b) in x.r.prev && x.r.prev[Block(b)] == Block(b)
      modifies this
      ensures Valid() && Dropped(old(x), x, b)
    {
      var n := x.t.size[b];
      LoneBlock(x, b);
      if x.t.slot[Child(b, if x.t.slot[Child(b, 1)] != Nil then 1 else 0)] == Nil {
        Prune(b, n);
      } else {
        var rp, p := LeafUnder(b);
        Promote(b, n, rp, p);
      }
    }

    // A block of a small ring or of the rest list.
    method RemoveListed(b: nat, ghost k: RingId, ghost j: nat)
      requires Valid() && Listed(x, k, j) && x.r.ring[k][j] == Block(b) && !k.PeerRing?
      modifies this
      ensures Valid() && Dropped(old(x), x, b)
    {
      hide IndexOk, Dropped, RingOk, BlockOk, Listed, Removed, FreeBitsWithout, ClearBit;
      ListedFields(x, b, k, j);
      UnlistedOk(x, k, j);
      UnlistedDrops(x, k, j);
      ListedTests(x, b, k, j);
      BitTest(x, b, k, j);
      var n, p, q := x.t.size[b], x.r.prev[Block(b)], x.r.next[Block(b)];
      x := x.(r := x.r.(next := x.r.next[p := q]));
      x := x.(r := x.r.(prev := x.r.prev[q := p]));
      if Small(n) {
        if p == q {
          var index := BucketIndex(n);
          if x.r.prev[SmallHead(index)] == x.r.next[SmallHead(index)] {
            x := x.(free := ClearBit(x.free, index));
          }
        }
      } else if x.t.parent[b] == RestMark {
        x := x.(rest := x.rest - 1);
      }
      x := x.(t := x.t.(size := x.t.size - {b}),
              r := x.r.(ring := x.r.ring[k := Removed(x.r.ring[k], j)], home := x.r.home - {b}));
    }

    // The trie node of a size with peers.
    method RemoveHead(b: nat, n: nat)
      requires Valid() && HeadWithPeers(x, b, n)
      modifies this
      ensures Valid() && Dropped(old(x), x, b)
    {
      SucceededOk(x, b, n);
      SucceededDrops(x, b, n);
      var k, p, q := PeerRing(n), x.r.prev[Block(b)], x.r.next[Block(b)];
      x := x.(r := x.r.(next := x.r.next[p := q]));
      x := x.(r := x.r.(prev := x.r.prev[q := p]));
      Substitute(b, p.addr);
      x := x.(t := x.t.(size := x.t.size - {b}),
              r := x.r.(ring := x.r.ring[k := Removed(x.r.ring[k], 0)], home := x.r.home - {b}));
      x := x.(r := x.r.(ring := x.r.ring[k := Rotated(x.r.ring[k])]));
    }

    // A peer that is not the trie node.
    method RemovePeer(b: nat, n: nat, ghost j: nat)
      requires Valid() && Listed(x, PeerRing(n), j) && x.r.ring[PeerRing(n)][j] == Block(b) && 0 < j
      modifies this
      ensures Valid() && Dropped(old(x), x, b)
    {
      PeerParent(x, b, n, j);
      UnlistedPeerOk(x, n, j);
      UnlistedDrops(x, PeerRing(n), j);
      var k, p, q := PeerRing(n), x.r.prev[Block(b)], x.r.next[Block(b)];
      x := x.(r := x.r.(next := x.r.next[p := q]));
      x := x.(r := x.r.(prev := x.r.prev[q := p]));
      x := x.(t := x.t.(size := x.t.size - {b}),
              r := x.r.(ring := x.r.ring[k := Removed(x.r.ring[k], j)], home := x.r.home - {b}));
    }

    // A block that is not alone in its ring.
    method RemoveLinked(b: nat)
      requires Valid() && b in x.t.size && Block(b) in x.r.prev && x.r.prev[Block(b)] != Block(b)
      modifies this
      ensures Valid() && Dropped(old(x), x, b)
    {
      ghost var k, j := Locate(x, b);
      SameNeighbours(x.r.next, x.r.prev, x.r.ring[k], j);
      LinkedTests(x, b, k, j);
      if Small(x.t.size[b]) || x.t.parent[b] == RestMark {
        RemoveListed(b, k, j);
      } else if x.t.parent[b] != NoSlot {
        RemoveHead(b, x.t.size[b]);
      } else {
        RemovePeer(b, x.t.size[b], j);
      }
    }

    method RemoveFromFreeList(b: nat)
      requires Valid() && b in x.t.size
      modifies this
      ensures Valid() && Dropped(old(x), x, b)
    {
      ghost var k, j := Locate(x, b);
      SameNeighbours(x.r.next, x.r.prev, x.r.ring[k], j);
      if x.r.prev[Block(b)] == Block(b) {
        RemoveAlone(b);
      } else {
        RemoveLinked(b);
      }
    }

    // ---------- zend_mm_add_to_rest_list ----------

    // Unlinking the oldest rest block.
    method TakeOldest() returns (p: nat, n: nat)
      requires Valid() && 0 < x.rest
      modifies this
      ensures Valid() && Listed(old(x), RestRing, 1) && x == Evicted(old(x))
      ensures Block(p) == old(x).r.ring[RestRing][1] && n == old(x).t.size[p]
    {
      OldestRest(x);
      EvictedOk(x);
      p := x.r.next[RestHead].addr;
      n := x.t.size[p];
      if !Small(n) {
        x := x.(rest := x.rest - 1);
      }
      var q, r := x.r.prev[Block(p)], x.r.next[Block(p)];
      x := x.(r := x.r.(next := x.r.next[q := r]));
      x := x.(r := x.r.(prev := x.r.prev[r := q]));
      x := x.(t := x.t.(size := x.t.size - {p}),
              r := x.r.(ring := x.r.ring[RestRing := Removed(x.r.ring[RestRing], 1)], home := x.r.home - {p}));
    }

    // Moving the oldest rest block to the free list of its size.
    method Evict()
      requires Valid() && 0 < x.rest
      modifies this
      ensures Valid() && EvictedTo(old(x), x)
      ensures SmallBitsExact(old(x)) ==> SmallBitsExact(x)
    {
      var p, n := TakeOldest();
      ghost var y := x;
      AddToFreeList(p, n);
      EvictedAndFiled(old(x), y, x, p, n);
      HasRings(old(x));
      if SmallBitsExact(old(x)) { EvictedExact(old(x), x); }
    }

    method AddToRestList(b: nat, n: nat)
      requires Valid() && b !in x.t.size && Indexable(n)
      modifies this
      ensures Valid() && exists e :: RestedAfter(old(x), x, b, n, e)
      ensures SmallBitsExact(old(x)) ==> SmallBitsExact(x)
    {
      ghost var e := 0;
      hide IndexOk, EvictedSome, RestedAfter, EvictedTo;
      EvictedNone(x);
      while x.rest >= MAX_REST_BLOCKS
        invariant Valid() && EvictedSome(old(x), x, e) && RestRing in x.r.ring && x.t.size == old(x).t.size
        decreases |x.r.ring[RestRing]|
      {
        ghost var y := x;
        Evict();
        EvictedShrinks(y, x);
        EvictedOneMore(old(x), y, x, e);
        e := e + 1;
      }
      ghost var y := x;
      LinkRest(b, n);
      RestedLast(old(x), y, x, b, n, e);
      if SmallBitsExact(old(x)) { RestedExact(old(x), x, b, n, e); }
    }

    // Linking b in at the end of the rest list.
    method LinkRest(b: nat, n: nat)
      requires Valid() && b !in x.t.size && Indexable(n) && x.rest < MAX_REST_BLOCKS
      modifies this
      ensures Valid() && RingOk(old(x).r, RestRing) && x == AddedRest(old(x), b, n)
    {
      assert RingOk(x.r, RestRing);
      AddedRestOk(x, b, n);
      if !Small(n) {
        x := x.(t := x.t.(parent := x.t.parent[b := RestMark]));
        x := x.(rest := x.rest + 1);
      }
      var p := x.r.prev[RestHead];
      var q := x.r.next[p];
      x := x.(r := x.r.(prev := x.r.prev[Block(b) := p]));
      x := x.(r := x.r.(next := x.r.next[Block(b) := q]));
      x := x.(r := x.r.(next := x.r.next[p := Block(b)]));
      x := x.(r := x.r.(prev := x.r.prev[q := Block(b)]));
      x := x.(t := x.t.(size := x.t.size[b := n]),
              r := x.r.(ring := x.r.ring[RestRing := Inserted(x.r.ring[RestRing], |x.r.ring[RestRing]| - 1, Block(b))],
                        home := x.r.home[b := RestRing]));
    }
  }

  // y is x with the oldest rest block moved from the rest list to the free list of its size; the
  // other rings are as before.
  ghost predicate EvictedTo(x: Index, y: Index) {
    && RestRing in x.r.ring && 2 <= |x.r.ring[RestRing]| && x.r.ring[RestRing][1].Block?
    && var b := x.r.ring[RestRing][1].addr;
    && b in x.t.size && BlockSize(x.t.size[b])
    && y.t.size == x.t.size
    && RestRing in y.r.ring && y.r.ring[RestRing] == Removed(x.r.ring[RestRing], 1)
    && y.rest == (if Small(x.t.size[b]) then x.rest else x.rest - 1)
    && Rehomed(x, y, b, x.t.size[b])
  }

  // b, of size n, is at home in the free list of its size; the rings of other sizes are as before.
  ghost predicate Rehomed(x: Index, y: Index, b: nat, n: nat)
    requires BlockSize(n)
  {
    && y.r.home == x.r.home[b := HomeOf(n)]
    && (forall k :: k in x.r.ring && k != HomeOf(n) && k != RestRing ==> k in y.r.ring && y.r.ring[k] == x.r.ring[k])
    && if Small(n) then InFront(x, y, b, n) else y.free == x.free && BehindNode(x, y, b, n)
  }

  lemma {:induction false} EvictedAndFiled(x: Index, y: Index, z: Index, p: nat, n: nat)
    requires Listed(x, RestRing, 1) && 0 < x.rest && y == Evicted(x)
    requires Block(p) == x.r.ring[RestRing][1] && n == x.t.size[p] && Filed(y, z, p, n)
    ensures EvictedTo(x, z)
  {
    assert (x.t.size - {p})[p := n] == x.t.size;
    assert HomeOf(n) != RestRing;
    assert (x.r.home - {p})[p := HomeOf(n)] == x.r.home[p := HomeOf(n)];
  }

  // y is x after e such moves.
  ghost predicate EvictedVia(x: Index, y: Index, e: nat)
    decreases e
  {
    if e == 0 then y == x else exists z :: EvictedVia(x, z, e - 1) && EvictedTo(z, y)
  }

  // y is x with the e oldest rest blocks moved to the free lists of their sizes; blocks are moved
  // only from a full list, and only the last of them is large.
  ghost predicate EvictedSome(x: Index, y: Index, e: nat) {
    && RestRing in x.r.ring && RestRing in y.r.ring && e < |x.r.ring[RestRing]|
    && var c := x.r.ring[RestRing];
    && y.t.size == x.t.size
    && y.r.ring[RestRing] == c[..1] + c[e + 1..]
    && (if e == 0 then y == x else x.rest == MAX_REST_BLOCKS)
    && (forall i :: 1 <= i < e ==> LargeOne(x.t.size, c[i]) == 0)
    && y.rest == x.rest - (if e == 0 then 0 else LargeOne(x.t.size, c[e]))
    && EvictedVia(x, y, e) && Moved(x, y, c[1..e + 1])
  }

  // The blocks out are at home in the free lists of their sizes, the others where they were.
  ghost predicate Moved(x: Index, y: Index, out: seq<Ref>) {
    && y.r.home.Keys == x.r.home.Keys
    && forall b :: b in x.r.home && b in x.t.size && BlockSize(x.t.size[b]) ==>
         y.r.home[b] == if Block(b) in out then HomeOf(x.t.size[b]) else x.r.home[b]
  }

  // All small rings exist.
  ghost predicate AllSmall(x: Index) {
    forall i: nat {:trigger SmallRing(i)} :: i < NUM_BUCKETS ==> SmallRing(i) in x.r.ring
  }

  // A move keeps the small bitmap exact.
  lemma {:induction false} EvictedExact(x: Index, y: Index)
    requires AllSmall(x) && SmallBitsExact(x) && EvictedTo(x, y)
    ensures AllSmall(y) && SmallBitsExact(y)
  {
    var n := x.t.size[x.r.ring[RestRing][1].addr];
    forall i: nat | i < NUM_BUCKETS
      ensures SmallRing(i) in y.r.ring && (Bit(y.free, i) <==> 2 <= |y.r.ring[SmallRing(i)]|)
    {
      assert SmallRing(i) in x.r.ring;
      assert Bit(x.free, i) <==> 2 <= |x.r.ring[SmallRing(i)]|;
      if Small(n) { SetBitAt(x.free, BucketIndex(n), i); }
    }
  }

  lemma {:induction false} EvictedViaExact(x: Index, y: Index, e: nat)
    requires AllSmall(x) && SmallBitsExact(x) && EvictedVia(x, y, e)
    ensures AllSmall(y) && SmallBitsExact(y)
    decreases e
  {
    hide AllSmall, SmallBitsExact, EvictedTo;
    if e != 0 {
      var z :| EvictedVia(x, z, e - 1) && EvictedTo(z, y);
      EvictedViaExact(x, z, e - 1);
      EvictedExact(z, y);
    }
  }

  lemma {:induction false} EvictedShrinks(x: Index, y: Index)
    requires EvictedTo(x, y)
    ensures RestRing in x.r.ring && RestRing in y.r.ring && |y.r.ring[RestRing]| < |x.r.ring[RestRing]|
      && y.t.size == x.t.size
  {
  }

  lemma {:induction false} EvictedNone(x: Index)
    requires IndexOk(x)
    ensures EvictedSome(x, x, 0) && RestRing in x.r.ring
  {
    assert RingOk(x.r, RestRing);
    var c := x.r.ring[RestRing];
    assert c == c[..1] + c[1..];
    assert c[1..1] == [];
  }

  lemma {:induction false} EvictedOneMore(x: Index, y: Index, z: Index, e: nat)
    requires IndexOk(x) && EvictedSome(x, y, e) && EvictedTo(y, z) && y.rest >= MAX_REST_BLOCKS && IndexOk(y)
    ensures EvictedSome(x, z, e + 1)
  {
    hide IndexOk, EvictedVia, Moved, Rehomed;
    var c := x.r.ring[RestRing];
    var d := y.r.ring[RestRing];
    assert d[1] == c[e + 1];
    RehomedHome(y, z, d[1].addr, x.t.size[d[1].addr]);
    RestBound(y);
    ViaOneMore(x, y, z, e);
    assert Removed(d, 1) == c[..1] + c[e + 2..];
    MovedOneMore(x, y, z, c[1..e + 1], d[1].addr);
    assert c[1..e + 1] + [d[1]] == c[1..e + 2];
  }

  lemma {:induction false} RehomedHome(x: Index, y: Index, b: nat, n: nat)
    requires BlockSize(n) && Rehomed(x, y, b, n)
    ensures y.r.home == x.r.home[b := HomeOf(n)]
  {
  }

  lemma {:induction false} RestBound(x: Index)
    requires IndexOk(x)
    ensures x.rest <= MAX_REST_BLOCKS
  {
  }

  lemma {:induction false} ViaOneMore(x: Index, y: Index, z: Index, e: nat)
    requires EvictedVia(x, y, e) && EvictedTo(y, z)
    ensures EvictedVia(x, z, e + 1)
  {
    hide EvictedTo;
  }

  lemma {:induction false} MovedOneMore(x: Index, y: Index, z: Index, out: seq<Ref>, b: nat)
    requires IndexOk(x) && Moved(x, y, out) && b in x.t.size && BlockSize(x.t.size[b])
      && z.r.home == y.r.home[b := HomeOf(x.t.size[b])]
    ensures Moved(x, z, out + [Block(b)])
  {
    assert BlockOk(x, b);
  }

  // y is x with b at the end of the rest list, after e evictions.
  ghost predicate RestedAfter(x: Index, y: Index, b: nat, n: nat, e: nat) {
    exists z :: EvictedSome(x, z, e) && z.rest < MAX_REST_BLOCKS && b !in z.t.size && RestAppended(z, y, b, n)
  }

  ghost predicate RestAppended(z: Index, y: Index, b: nat, n: nat) {
    && RestRing in z.r.ring && RestRing in y.r.ring
    && y.t.size == z.t.size[b := n]
    && y.r.ring[RestRing] == z.r.ring[RestRing] + [Block(b)]
    && y.rest == (if Small(n) then z.rest else z.rest + 1)
    && y.free == z.free && y.r.home == z.r.home[b := RestRing]
    && (forall k :: k in z.r.ring && k != RestRing ==> k in y.r.ring && y.r.ring[k] == z.r.ring[k])
  }

  lemma {:induction false} RestedLast(x: Index, z: Index, y: Index, b: nat, n: nat, e: nat)
    requires EvictedSome(x, z, e) && z.rest < MAX_REST_BLOCKS && b !in z.t.size && RingOk(z.r, RestRing)
    requires y == AddedRest(z, b, n)
    ensures RestedAfter(x, y, b, n, e)
  {
    var c := z.r.ring[RestRing];
    assert Inserted(c, |c| - 1, Block(b)) == c + [Block(b)];
    assert RestAppended(z, y, b, n);
  }

  lemma {:induction false} EmptyIndex(x: Index)
    requires x.t.size == map[] && x.t.depth == map[] && x.r.home == map[] && x.free == x.large == x.rest == 0
    requires forall i :: 0 <= i < NUM_BUCKETS ==> Root(i) in x.t.slot && x.t.slot[Root(i)] == Nil
    requires forall k :: k in x.r.ring <==> k == RestRing || (k.SmallRing? && k.index < NUM_BUCKETS)
    requires forall k :: k in x.r.ring ==> x.r.ring[k] == [Anchor(k)]
    requires forall k :: k in x.r.ring ==> Anchor(k) in x.r.next && x.r.next[Anchor(k)] == Anchor(k)
    requires forall k :: k in x.r.ring ==> Anchor(k) in x.r.prev && x.r.prev[Anchor(k)] == Anchor(k)
    ensures IndexOk(x) && SmallBitsExact(x)
  {
    forall i: nat
      ensures !Bit(0, i)
    {
      ZeroHasNoBit(i);
    }
    assert LargeCount(x.t.size, [RestHead]) == 0 by { LargeCountOne(x.t.size, RestHead); }
  }

  // The position of an indexed block in its ring.
  lemma {:induction false} Locate(x: Index, b: nat) returns (k: RingId, j: nat)
    requires IndexOk(x) && b in x.t.size
    ensures k == x.r.home[b] && Listed(x, k, j) && x.r.ring[k][j] == Block(b)
  {
    assert BlockOk(x, b);
    k := x.r.home[b];
    assert RingOk(x.r, k);
    j :| 0 <= j < |x.r.ring[k]| && x.r.ring[k][j] == Block(b);
  }

  // What the tests on links and parent fields mean for a listed block.
  lemma {:induction false} ListedTests(x: Index, b: nat, k: RingId, j: nat)
    requires IndexOk(x) && Listed(x, k, j) && x.r.ring[k][j] == Block(b) && !k.PeerRing?
    ensures x.r.prev[Block(b)] == x.r.next[Block(b)] <==> |x.r.ring[k]| == 2
    ensures !Small(x.t.size[b]) ==> k == RestRing && b in x.t.parent && x.t.parent[b] == RestMark && 0 < x.rest
  {
    SameNeighbours(x.r.next, x.r.prev, x.r.ring[k], j);
    LargeCountRemoved(x.t.size, x.r.ring[k], j);
  }

  lemma {:induction false} ListedFields(x: Index, b: nat, k: RingId, j: nat)
    requires Listed(x, k, j) && x.r.ring[k][j] == Block(b)
    ensures b in x.t.size && BlockSize(x.t.size[b]) && Block(b) in x.r.next && Block(b) in x.r.prev
    ensures k in x.r.ring && j < |x.r.ring[k]|
  {
  }

  // The test for clearing the small bit, on the links after the block is unlinked.
  lemma {:induction false} BitTest(x: Index, b: nat, k: RingId, j: nat)
    requires IndexOk(x) && Listed(x, k, j) && x.r.ring[k][j] == Block(b) && !k.PeerRing?
    ensures !Small(x.t.size[b]) ==> FreeBitsWithout(x, b) == x.free
    ensures Small(x.t.size[b]) ==>
      var h, y := SmallHead(BucketIndex(x.t.size[b])), Left(x.r, k, j);
      && h in y.prev && h in y.next
      && FreeBitsWithout(x, b) ==
         if x.r.prev[Block(b)] == x.r.next[Block(b)] && y.prev[h] == y.next[h] then ClearBit(x.free, h.index)
           else x.free
  {
    if Small(x.t.size[b]) {
      var i, y := BucketIndex(x.t.size[b]), Left(x.r, k, j);
      SameNeighbours(x.r.next, x.r.prev, x.r.ring[k], j);
      SmallAfter(x, k, j, i);
    }
  }

  // The head of a small ring after a block is unlinked.
  lemma {:induction false} SmallAfter(x: Index, k: RingId, j: nat, i: nat)
    requires IndexOk(x) && Listed(x, k, j) && !k.PeerRing? && i < NUM_BUCKETS
    ensures var h, y := SmallHead(i), Left(x.r, k, j);
      && h in y.prev && h in y.next && SmallRing(i) in y.ring
      && (y.prev[h] == y.next[h] <==> |y.ring[SmallRing(i)]| <= 2)
      && |y.ring[SmallRing(i)]| == if k == SmallRing(i) then |x.r.ring[k]| - 1 else |x.r.ring[SmallRing(i)]|
  {
    var y := Left(x.r, k, j);
    assert RingOk(x.r, SmallRing(i));
    RingsLeave(x.r, k, j);
    assert RingOk(y, SmallRing(i));
    SameNeighbours(y.next, y.prev, y.ring[SmallRing(i)], 0);
  }

  // The parent field of a linked large block tells where it is.
  lemma {:induction false} LinkedTests(x: Index, b: nat, k: RingId, j: nat)
    requires IndexOk(x) && Listed(x, k, j) && x.r.ring[k][j] == Block(b) && 2 <= |x.r.ring[k]|
    ensures Small(x.t.size[b]) ==> !k.PeerRing?
    ensures !Small(x.t.size[b]) ==> b in x.t.parent
    ensures !Small(x.t.size[b]) && x.t.parent[b] == RestMark ==> !k.PeerRing?
    ensures !Small(x.t.size[b]) && x.t.parent[b] == NoSlot ==> k == PeerRing(x.t.size[b]) && 0 < j
    ensures !Small(x.t.size[b]) && x.t.parent[b] != NoSlot && x.t.parent[b] != RestMark ==>
      HeadWithPeers(x, b, x.t.size[b])
  {
    if k.PeerRing? {
      if j == 0 {
        HeadHasPeers(x, b, x.t.size[b]);
      } else {
        assert x.r.ring[k][0] != Block(b);
      }
    }
  }

  // A peer that is not first has no parent.
  lemma {:induction false} PeerParent(x: Index, b: nat, n: nat, j: nat)
    requires IndexOk(x) && Listed(x, PeerRing(n), j) && x.r.ring[PeerRing(n)][j] == Block(b) && 0 < j
    ensures b in x.t.parent && x.t.parent[b] == NoSlot && n == x.t.size[b] && !Small(n)
  {
    assert x.r.ring[PeerRing(n)][0] != Block(b);
  }

  // Only the only block of a large size is a ring by itself.
  lemma {:induction false} LoneBlock(x: Index, b: nat)
    requires IndexOk(x) && b in x.t.size && Block(b) in x.r.prev && x.r.prev[Block(b)] == Block(b)
    ensures Alone(x, b, x.t.size[b])
  {
    assert BlockOk(x, b);
    var k := x.r.home[b];
    assert RingOk(x.r, k);
    var j :| 0 <= j < |x.r.ring[k]| && x.r.ring[k][j] == Block(b);
    SameNeighbours(x.r.next, x.r.prev, x.r.ring[k], j);
    AloneIs(x, b, x.t.size[b]);
  }

  // A run that loses a bit: two free blocks of 40 bytes, one in the ring of its size and one in
  // the rest list. Removing the second clears the bit of the first.
  method LoseBit() returns (ix: FreeIndex)
    ensures fresh(ix) && ix.Valid() && !SmallBitsExact(ix.x)
    ensures ix.x.t.size == map[1024 := 40]
  {
    hide IndexOk, SmallBitsExact, NodesStay, BehindNode, PeerGone, EvictedSome;
    Forty();
    hide Bucket;
    ix := new FreeIndex();
    ghost var x0 := ix.x;
    HasRings(x0);
    ix.AddToFreeList(1024, 40);
    ghost var x1 := ix.x;
    FiledExact(x0, x1, 1024, 40);
    ix.AddToRestList(2048, 40);
    ghost var x2 := ix.x;
    FirstRested(x1, x2, 2048, 40);
    ix.RemoveFromFreeList(2048);
    assert x2.r.ring[RestRing] == [RestHead, Block(2048)] && LosesBit(x2, 2048);
    DroppedExact(x2, ix.x, 2048);
  }

  lemma {:induction false} HasRings(x: Index)
    requires IndexOk(x)
    ensures RestRing in x.r.ring && AllSmall(x)
  {
    assert RingOk(x.r, RestRing);
    forall i: nat | i < NUM_BUCKETS
      ensures SmallRing(i) in x.r.ring
    {
      assert RingOk(x.r, SmallRing(i));
    }
  }

  lemma {:induction false} Forty()
    ensures Indexable(40) && Small(40) && BucketIndex(40) == 1
  {
    HighBitBelow(40, 6);
  }

  // Adding a block to the rest list keeps the small bitmap exact.
  lemma {:induction false} RestedExact(x: Index, y: Index, b: nat, n: nat, e: nat)
    requires IndexOk(x) && SmallBitsExact(x) && RestedAfter(x, y, b, n, e)
    ensures SmallBitsExact(y)
  {
    hide IndexOk, SmallBitsExact, EvictedSome, EvictedVia, RestAppended;
    HasRings(x);
    var z :| EvictedSome(x, z, e) && z.rest < MAX_REST_BLOCKS && b !in z.t.size && RestAppended(z, y, b, n);
    EvictedByMoves(x, z, e);
    EvictedViaExact(x, z, e);
    AppendedExact(z, y, b, n);
  }

  lemma {:induction false} AppendedExact(z: Index, y: Index, b: nat, n: nat)
    requires AllSmall(z) && SmallBitsExact(z) && RestAppended(z, y, b, n)
    ensures SmallBitsExact(y)
  {
    forall i: nat | i < NUM_BUCKETS && SmallRing(i) in y.r.ring
      ensures Bit(y.free, i) <==> 2 <= |y.r.ring[SmallRing(i)]|
    {
      assert Bit(z.free, i) <==> 2 <= |z.r.ring[SmallRing(i)]|;
    }
  }

  lemma {:induction false} EvictedByMoves(x: Index, y: Index, e: nat)
    requires EvictedSome(x, y, e)
    ensures EvictedVia(x, y, e)
  {
    hide EvictedVia, Moved;
  }

  // With no large rest block nothing is evicted.
  lemma {:induction false} FirstRested(x: Index, y: Index, b: nat, n: nat)
    requires x.rest == 0 && exists e :: RestedAfter(x, y, b, n, e)
    ensures RestAppended(x, y, b, n)
  {
  }
}
