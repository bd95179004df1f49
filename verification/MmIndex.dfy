// The whole free-block index: tries, rings, bitmaps and the rest count, with its invariant and
// the effect of each list operation on it.
module MmIndex {
  import opened MmSize
  import opened MmBits
  import opened Seqs
  import opened MmRing
  import opened MmTrie
  import opened MmRings

  datatype Index = Index(t: Forest, r: Rings, free: nat, large: nat, rest: nat)

  // A block size that fits the 64 buckets.
  predicate Indexable(n: nat) {
    BlockSize(n) && Bucket(n) < NUM_BUCKETS
  }

  // The ring zend_mm_add_to_free_list puts a block of this size into.
  function HomeOf(n: nat): RingId
    requires BlockSize(n)
  {
    if Small(n) then SmallRing(BucketIndex(n)) else PeerRing(n)
  }

  // An indexed block is in the small ring of its exact size, in the peer ring of its size (as
  // the trie node if it is first, else as a peer without a parent), or in the rest list.
  ghost predicate BlockOk(x: Index, b: nat) {
    && b in x.t.size && Indexable(x.t.size[b])
    && b in x.r.home && x.r.home[b] in x.r.ring && x.r.ring[x.r.home[b]] != []
    && match x.r.home[b]
       case SmallRing(i) => Small(x.t.size[b]) && BucketIndex(x.t.size[b]) == i && b !in x.t.depth
       case RestRing => b !in x.t.depth && (!Small(x.t.size[b]) ==> b in x.t.parent && x.t.parent[b] == RestMark)
       case PeerRing(n) =>
         && n == x.t.size[b] && !Small(n)
         && (b in x.t.depth <==> x.r.ring[PeerRing(n)][0] == Block(b))
         && (b !in x.t.depth ==> b in x.t.parent && x.t.parent[b] == NoSlot)
  }

  ghost predicate LargeBits(x: Index) {
    forall i: nat {:trigger Bit(x.large, i)} ::
      Bit(x.large, i) <==> i < NUM_BUCKETS && Root(i) in x.t.slot && x.t.slot[Root(i)] != Nil
  }

  // A set small bit promises a block; a clear one promises nothing.
  ghost predicate SmallBits(x: Index) {
    forall i: nat {:trigger Bit(x.free, i)} ::
      Bit(x.free, i) ==> i < NUM_BUCKETS && SmallRing(i) in x.r.ring && 2 <= |x.r.ring[SmallRing(i)]|
  }

  // How many large blocks a list of references has.
  function LargeCount(size: map<nat, nat>, c: seq<Ref>): nat {
    if c == [] then 0
    else LargeCount(size, c[..|c| - 1]) + LargeOne(size, c[|c| - 1])
  }

  function LargeOne(size: map<nat, nat>, x: Ref): nat {
    if x.Block? && x.addr in size && !Small(size[x.addr]) then 1 else 0
  }

  ghost predicate RestOk(x: Index) {
    && RestRing in x.r.ring
    && x.rest == LargeCount(x.t.size, x.r.ring[RestRing])
    && x.rest <= MAX_REST_BLOCKS
  }

  ghost predicate BlocksOk(x: Index) {
    && x.t.size.Keys == x.r.home.Keys
    && (forall b {:trigger BlockOk(x, b)} :: b in x.t.size ==> BlockOk(x, b))
  }

  ghost predicate IndexOk(x: Index) {
    && Trie(x.t)
    && RingsOk(x.r)
    && BlocksOk(x)
    && LargeBits(x)
    && SmallBits(x)
    && RestOk(x)
  }

  // ---------- counting large blocks ----------

  lemma {:induction false} LargeCountConcat(size: map<nat, nat>, c: seq<Ref>, d: seq<Ref>)
    ensures LargeCount(size, c + d) == LargeCount(size, c) + LargeCount(size, d)
  {
    if d == [] {
      assert c + d == c;
    } else {
      assert (c + d)[..|c + d| - 1] == c + d[..|d| - 1];
      LargeCountConcat(size, c, d[..|d| - 1]);
    }
  }

  lemma {:induction false} LargeCountOne(size: map<nat, nat>, x: Ref)
    ensures LargeCount(size, [x]) == LargeOne(size, x)
  {
    assert [x][..0] == [];
  }

  lemma {:induction false} LargeCountFrame(size: map<nat, nat>, size': map<nat, nat>, c: seq<Ref>)
    requires forall x :: x in c && x.Block? ==>
      (x.addr in size <==> x.addr in size') && (x.addr in size ==> size[x.addr] == size'[x.addr])
    ensures LargeCount(size', c) == LargeCount(size, c)
  {
    if c != [] {
      assert c[|c| - 1] in c;
      LargeCountFrame(size, size', c[..|c| - 1]);
    }
  }

  lemma {:induction false} LargeCountRemoved(size: map<nat, nat>, c: seq<Ref>, k: nat)
    requires k < |c|
    ensures LargeCount(size, Removed(c, k)) == LargeCount(size, c) - LargeOne(size, c[k])
  {
    assert c == c[..k] + [c[k]] + c[k + 1..];
    LargeCountConcat(size, c[..k] + [c[k]], c[k + 1..]);
    LargeCountConcat(size, c[..k], [c[k]]);
    LargeCountOne(size, c[k]);
    LargeCountConcat(size, c[..k], c[k + 1..]);
  }

  // Large blocks in the list, if any are counted.
  lemma {:induction false} LargeCountPositive(size: map<nat, nat>, c: seq<Ref>)
    ensures LargeCount(size, c) <= |c|
    ensures c != [] && !c[0].Block? ==> LargeCount(size, c) < |c|
  {
    if c != [] {
      LargeCountPositive(size, c[..|c| - 1]);
    }
  }

  // A block whose own fields and whose ring's first member stay is still indexed right.
  lemma {:induction false} BlockKept(x: Index, y: Index, c: nat)
    requires BlockOk(x, c)
    requires c in y.t.size && y.t.size[c] == x.t.size[c]
    requires c in y.r.home && y.r.home[c] == x.r.home[c]
    requires c in y.t.depth <==> c in x.t.depth
    requires c in x.t.parent && c !in x.t.depth ==> c in y.t.parent && y.t.parent[c] == x.t.parent[c]
    requires x.r.home[c] in y.r.ring && y.r.ring[x.r.home[c]] != []
    requires x.r.home[c].PeerRing? ==> y.r.ring[x.r.home[c]][0] == x.r.ring[x.r.home[c]][0]
    ensures BlockOk(y, c)
  {
  }

  // ---------- adding a small block ----------

  ghost function AddedSmall(x: Index, b: nat, n: nat): Index
    requires BlockSize(n) && SmallRing(BucketIndex(n)) in x.r.ring && x.r.ring[SmallRing(BucketIndex(n))] != []
    requires x.r.ring[SmallRing(BucketIndex(n))][0] in x.r.next
  {
    var k := SmallRing(BucketIndex(n));
    Index(x.t.(size := x.t.size[b := n]), Joined(x.r, k, 0, b),
          if |x.r.ring[k]| == 1 then SetBit(x.free, k.index) else x.free, x.large, x.rest)
  }

  lemma {:induction false} AddedSmallBits(x: Index, b: nat, n: nat)
    requires IndexOk(x) && b !in x.t.size && Indexable(n) && Small(n) && RingOk(x.r, SmallRing(BucketIndex(n)))
    ensures SmallBits(AddedSmall(x, b, n)) && LargeBits(AddedSmall(x, b, n)) && RestOk(AddedSmall(x, b, n))
  {
    var y, k := AddedSmall(x, b, n), SmallRing(BucketIndex(n));
    forall i: nat | Bit(y.free, i)
      ensures i < NUM_BUCKETS && SmallRing(i) in y.r.ring && 2 <= |y.r.ring[SmallRing(i)]|
    {
      SetBitAt(x.free, k.index, i);
      if i != k.index { assert Bit(x.free, i); }
    }
    forall i: nat
      ensures Bit(y.large, i) <==> i < NUM_BUCKETS && Root(i) in y.t.slot && y.t.slot[Root(i)] != Nil
    {
      assert Bit(x.large, i) <==> i < NUM_BUCKETS && Root(i) in x.t.slot && x.t.slot[Root(i)] != Nil;
    }
    NotIn(x, RestRing, b);
    LargeCountFrame(x.t.size, y.t.size, x.r.ring[RestRing]);
  }

  // An unindexed block is in no ring.
  lemma {:induction false} NotIn(x: Index, k: RingId, b: nat)
    requires IndexOk(x) && b !in x.t.size && k in x.r.ring
    ensures Block(b) !in x.r.ring[k]
  {
    assert RingOk(x.r, k);
  }

  lemma {:induction false} AddedSmallBlocks(x: Index, b: nat, n: nat)
    requires IndexOk(x) && b !in x.t.size && Indexable(n) && Small(n) && RingOk(x.r, SmallRing(BucketIndex(n)))
    ensures BlocksOk(AddedSmall(x, b, n))
  {
    var y := AddedSmall(x, b, n);
    forall c | c in y.t.size
      ensures BlockOk(y, c)
    {
      if c != b { assert BlockOk(x, c); BlockKept(x, y, c); }
    }
  }

  lemma {:induction false} AddedSmallOk(x: Index, b: nat, n: nat)
    requires IndexOk(x) && b !in x.t.size && Indexable(n) && Small(n) && RingOk(x.r, SmallRing(BucketIndex(n)))
    ensures IndexOk(AddedSmall(x, b, n))
  {
    var y, k := AddedSmall(x, b, n), SmallRing(BucketIndex(n));
    TrieFrame(x.t, y.t);
    RingsJoin(x.r, k, 0, b);
    AddedSmallBits(x, b, n);
    AddedSmallBlocks(x, b, n);
  }

  // ---------- adding a large block ----------

  // The block goes behind the trie node of its size.
  ghost function AddedPeer(x: Index, b: nat, n: nat): Index
    requires PeerRing(n) in x.r.ring && x.r.ring[PeerRing(n)] != [] && x.r.ring[PeerRing(n)][0] in x.r.next
  {
    var t := Blanked(x.t, b);
    x.(t := t.(size := t.size[b := n], parent := t.parent[b := NoSlot]), r := Joined(x.r, PeerRing(n), 0, b))
  }

  lemma {:induction false} AddedPeerBits(x: Index, b: nat, n: nat)
    requires IndexOk(x) && b !in x.t.size && Indexable(n) && !Small(n) && RingOk(x.r, PeerRing(n))
    ensures SmallBits(AddedPeer(x, b, n)) && LargeBits(AddedPeer(x, b, n)) && RestOk(AddedPeer(x, b, n))
  {
    var y := AddedPeer(x, b, n);
    KeepBits(x, y);
    NotIn(x, RestRing, b);
    LargeCountFrame(x.t.size, y.t.size, x.r.ring[RestRing]);
  }

  lemma {:induction false} AddedPeerBlocks(x: Index, b: nat, n: nat)
    requires IndexOk(x) && b !in x.t.size && Indexable(n) && !Small(n) && RingOk(x.r, PeerRing(n))
    ensures BlocksOk(AddedPeer(x, b, n))
  {
    var y := AddedPeer(x, b, n);
    forall c | c in y.t.size
      ensures BlockOk(y, c)
    {
      if c != b { assert BlockOk(x, c); BlockKept(x, y, c); }
    }
  }

  lemma {:induction false} AddedPeerOk(x: Index, b: nat, n: nat)
    requires IndexOk(x) && b !in x.t.size && Indexable(n) && !Small(n) && RingOk(x.r, PeerRing(n))
    ensures IndexOk(AddedPeer(x, b, n))
  {
    var y := AddedPeer(x, b, n);
    TrieBlank(x.t, b);
    TrieFrame(Blanked(x.t, b), y.t);
    RingsJoin(x.r, PeerRing(n), 0, b);
    AddedPeerBits(x, b, n);
    AddedPeerBlocks(x, b, n);
  }

  // Bits, roots and small rings left alone.
  lemma {:induction false} KeepBits(x: Index, y: Index)
    requires SmallBits(x) && LargeBits(x) && y.free == x.free && y.large == x.large
    requires forall i: nat :: i < NUM_BUCKETS && SmallRing(i) in x.r.ring ==>
      SmallRing(i) in y.r.ring && y.r.ring[SmallRing(i)] == x.r.ring[SmallRing(i)]
    requires forall i: nat :: i < NUM_BUCKETS ==> (Root(i) in x.t.slot <==> Root(i) in y.t.slot)
    requires forall i: nat :: i < NUM_BUCKETS && Root(i) in x.t.slot ==>
      (y.t.slot[Root(i)] == Nil <==> x.t.slot[Root(i)] == Nil)
    ensures SmallBits(y) && LargeBits(y)
  {
    forall i: nat | Bit(y.free, i)
      ensures i < NUM_BUCKETS && SmallRing(i) in y.r.ring && 2 <= |y.r.ring[SmallRing(i)]|
    {
      assert Bit(x.free, i);
    }
    forall i: nat
      ensures Bit(y.large, i) <==> i < NUM_BUCKETS && Root(i) in y.t.slot && y.t.slot[Root(i)] != Nil
    {
      assert Bit(x.large, i) <==> i < NUM_BUCKETS && Root(i) in x.t.slot && x.t.slot[Root(i)] != Nil;
    }
  }

  // The block becomes the trie node of its size, in slot p at level d.
  ghost function AddedNode(x: Index, b: nat, n: nat, p: Slot, d: nat): Index {
    x.(t := Hung(x.t, b, n, p, d), r := Opened(x.r, n, b),
       large := if p.Root? then SetBit(x.large, p.index) else x.large)
  }

  // b can be hung into slot p: the slot is free, right for the size, and no node has the size.
  ghost predicate Hangable(x: Index, b: nat, n: nat, p: Slot, d: nat) {
    && b !in x.t.size && Indexable(n) && !Small(n)
    && Fits(x.t, n, p, d) && p in x.t.slot && x.t.slot[p] == Nil
    && (forall c :: c in x.t.depth && c in x.t.size ==> x.t.size[c] != n)
  }

  lemma {:induction false} AddedNodeBits(x: Index, b: nat, n: nat, p: Slot, d: nat)
    requires IndexOk(x) && Hangable(x, b, n, p, d)
    ensures SmallBits(AddedNode(x, b, n, p, d)) && LargeBits(AddedNode(x, b, n, p, d))
      && RestOk(AddedNode(x, b, n, p, d))
  {
    var y := AddedNode(x, b, n, p, d);
    KeepBits(x, x);
    forall i: nat | Bit(y.free, i)
      ensures i < NUM_BUCKETS && SmallRing(i) in y.r.ring && 2 <= |y.r.ring[SmallRing(i)]|
    {
      assert Bit(x.free, i);
    }
    forall i: nat
      ensures Bit(y.large, i) <==> i < NUM_BUCKETS && Root(i) in y.t.slot && y.t.slot[Root(i)] != Nil
    {
      assert Bit(x.large, i) <==> i < NUM_BUCKETS && Root(i) in x.t.slot && x.t.slot[Root(i)] != Nil;
      if p.Root? { SetBitAt(x.large, p.index, i); }
    }
    NotIn(x, RestRing, b);
    LargeCountFrame(x.t.size, y.t.size, x.r.ring[RestRing]);
  }

  // The first member of a peer ring is the trie node of its size.
  lemma {:induction false} PeerNode(x: Index, n: nat) returns (c: nat)
    requires IndexOk(x) && PeerRing(n) in x.r.ring
    ensures RingOk(x.r, PeerRing(n)) && x.r.ring[PeerRing(n)][0] == Block(c)
    ensures c in x.t.depth && c in x.t.size && x.t.size[c] == n
  {
    assert RingOk(x.r, PeerRing(n));
    c := x.r.ring[PeerRing(n)][0].addr;
    assert BlockOk(x, c);
  }

  lemma {:induction false} AddedNodeBlocks(x: Index, b: nat, n: nat, p: Slot, d: nat)
    requires IndexOk(x) && Hangable(x, b, n, p, d) && PeerRing(n) !in x.r.ring
    ensures BlocksOk(AddedNode(x, b, n, p, d))
  {
    var y := AddedNode(x, b, n, p, d);
    forall c | c in y.t.size
      ensures BlockOk(y, c)
    {
      if c != b { assert BlockOk(x, c); BlockKept(x, y, c); }
    }
  }

  lemma {:induction false} AddedNodeOk(x: Index, b: nat, n: nat, p: Slot, d: nat)
    requires IndexOk(x) && Hangable(x, b, n, p, d)
    ensures IndexOk(AddedNode(x, b, n, p, d))
  {
    var y := AddedNode(x, b, n, p, d);
    if PeerRing(n) in x.r.ring { var c := PeerNode(x, n); }
    TrieInsert(x.t, b, n, p, d);
    RingsOpen(x.r, n, b);
    AddedNodeBits(x, b, n, p, d);
    AddedNodeBlocks(x, b, n, p, d);
  }

  // ---------- adding to the rest list ----------

  ghost function AddedRest(x: Index, b: nat, n: nat): Index
    requires RestRing in x.r.ring && x.r.ring[RestRing] != []
      && x.r.ring[RestRing][|x.r.ring[RestRing]| - 1] in x.r.next
  {
    Index(x.t.(size := x.t.size[b := n], parent := if Small(n) then x.t.parent else x.t.parent[b := RestMark]),
          Joined(x.r, RestRing, |x.r.ring[RestRing]| - 1, b),
          x.free, x.large, if Small(n) then x.rest else x.rest + 1)
  }

  lemma {:induction false} AddedRestCount(x: Index, b: nat, n: nat)
    requires IndexOk(x) && b !in x.t.size && Indexable(n) && x.rest < MAX_REST_BLOCKS && RingOk(x.r, RestRing)
    ensures RestOk(AddedRest(x, b, n))
  {
    var y, c := AddedRest(x, b, n), x.r.ring[RestRing];
    NotIn(x, RestRing, b);
    LargeCountFrame(x.t.size, y.t.size, c);
    assert y.r.ring[RestRing] == c + [Block(b)];
    LargeCountConcat(y.t.size, c, [Block(b)]);
    LargeCountOne(y.t.size, Block(b));
  }

  lemma {:induction false} AddedRestBlocks(x: Index, b: nat, n: nat)
    requires IndexOk(x) && b !in x.t.size && Indexable(n) && x.rest < MAX_REST_BLOCKS && RingOk(x.r, RestRing)
    ensures BlocksOk(AddedRest(x, b, n))
  {
    var y := AddedRest(x, b, n);
    forall c | c in y.t.size
      ensures BlockOk(y, c)
    {
      if c != b { assert BlockOk(x, c); BlockKept(x, y, c); }
    }
  }

  lemma {:induction false} AddedRestOk(x: Index, b: nat, n: nat)
    requires IndexOk(x) && b !in x.t.size && Indexable(n) && x.rest < MAX_REST_BLOCKS && RingOk(x.r, RestRing)
    ensures IndexOk(AddedRest(x, b, n))
  {
    var y := AddedRest(x, b, n);
    TrieFrame(x.t, y.t);
    RingsJoin(x.r, RestRing, |x.r.ring[RestRing]| - 1, b);
    AddedRestCount(x, b, n);
    KeepBits(x, y);
    AddedRestBlocks(x, b, n);
  }

  // ---------- removing from a small ring or the rest list ----------

  // The test before the small bit is cleared: the block had one neighbour on both sides, and
  // the list head of the bucket of its size now has one neighbour on both sides.
  ghost predicate ClearsBit(x: Index, b: nat) {
    && b in x.t.size && Small(x.t.size[b]) && BlockSize(x.t.size[b])
    && b in x.r.home && x.r.home[b] in x.r.ring && |x.r.ring[x.r.home[b]]| == 2
    && var own := SmallRing(BucketIndex(x.t.size[b]));
       own == x.r.home[b] || (own in x.r.ring && |x.r.ring[own]| <= 2)
  }

  ghost function FreeBitsWithout(x: Index, b: nat): nat {
    if ClearsBit(x, b) then ClearBit(x.free, BucketIndex(x.t.size[b])) else x.free
  }

  ghost function Unlisted(x: Index, k: RingId, j: nat): Index
    requires k in x.r.ring && j < |x.r.ring[k]| && x.r.ring[k][j].Block? && x.r.ring[k][j].addr in x.t.size
    requires x.r.ring[k][j] in x.r.next && x.r.ring[k][j] in x.r.prev
  {
    var b := x.r.ring[k][j].addr;
    var n := x.t.size[b];
    Index(x.t.(size := x.t.size - {b}), Left(x.r, k, j),
          FreeBitsWithout(x, b), x.large, if k.RestRing? && !Small(n) && 0 < x.rest then x.rest - 1 else x.rest)
  }

  // Member j of ring k is an indexed block.
  ghost predicate Listed(x: Index, k: RingId, j: nat) {
    && RingOk(x.r, k) && j < |x.r.ring[k]| && x.r.ring[k][j].Block?
    && BlockOk(x, x.r.ring[k][j].addr)
  }

  lemma {:induction false} UnlistedSmallBits(x: Index, k: RingId, j: nat)
    requires IndexOk(x) && Listed(x, k, j) && !k.PeerRing?
    ensures SmallBits(Unlisted(x, k, j))
  {
    var y, n := Unlisted(x, k, j), x.t.size[x.r.ring[k][j].addr];
    forall i: nat | Bit(y.free, i)
      ensures i < NUM_BUCKETS && SmallRing(i) in y.r.ring && 2 <= |y.r.ring[SmallRing(i)]|
    {
      ClearBitAt(x.free, BucketIndex(n), i);
      assert Bit(x.free, i);
    }
  }

  // The roots and the large bitmap left alone.
  lemma {:induction false} KeepLargeBits(x: Index, y: Index)
    requires LargeBits(x) && y.large == x.large && y.t.slot == x.t.slot
    ensures LargeBits(y)
  {
    forall i: nat
      ensures Bit(y.large, i) <==> i < NUM_BUCKETS && Root(i) in y.t.slot && y.t.slot[Root(i)] != Nil
    {
      assert Bit(x.large, i) <==> i < NUM_BUCKETS && Root(i) in x.t.slot && x.t.slot[Root(i)] != Nil;
    }
  }

  lemma {:induction false} UnlistedCount(x: Index, k: RingId, j: nat, y: Index)
    requires IndexOk(x) && Listed(x, k, j) && !k.PeerRing?
    requires y.t.size == x.t.size - {x.r.ring[k][j].addr} && y.r == Left(x.r, k, j)
    requires y.rest == if k.RestRing? && !Small(x.t.size[x.r.ring[k][j].addr]) && 0 < x.rest then x.rest - 1 else x.rest
    ensures RestOk(y)
  {
    var c, b := x.r.ring[RestRing], x.r.ring[k][j];
    assert RingOk(x.r, RestRing);
    if k.RestRing? {
      LargeCountRemoved(x.t.size, c, j);
      RemovedHas(c, j, b);
    } else if b in c {
      OneRing(x.r, k, RestRing, b);
    }
    LargeCountFrame(x.t.size, y.t.size, y.r.ring[RestRing]);
  }

  lemma {:induction false} UnlistedBlocks(x: Index, k: RingId, j: nat)
    requires IndexOk(x) && Listed(x, k, j) && (k.PeerRing? ==> j != 0) && 2 <= |x.r.ring[k]|
    ensures BlocksOk(Unlisted(x, k, j))
  {
    var y := Unlisted(x, k, j);
    forall c | c in y.t.size
      ensures BlockOk(y, c)
    {
      assert BlockOk(x, c);
      UnlistedBlock(x, k, j, c);
    }
  }

  lemma {:induction false} UnlistedBlock(x: Index, k: RingId, j: nat, c: nat)
    requires Listed(x, k, j) && (k.PeerRing? ==> j != 0) && 2 <= |x.r.ring[k]| && BlockOk(x, c)
      && c in Unlisted(x, k, j).t.size
    ensures BlockOk(Unlisted(x, k, j), c)
  {
    BlockKept(x, Unlisted(x, k, j), c);
  }

  lemma {:induction false} UnlistedOk(x: Index, k: RingId, j: nat)
    requires IndexOk(x) && Listed(x, k, j) && !k.PeerRing?
    ensures IndexOk(Unlisted(x, k, j))
  {
    TrieForget(x.t, x.r.ring[k][j].addr);
    RingsLeave(x.r, k, j);
    UnlistedSmallBits(x, k, j);
    UnlistedCount(x, k, j, Unlisted(x, k, j));
    KeepLargeBits(x, Unlisted(x, k, j));
    UnlistedBlocks(x, k, j);
  }

  // ---------- removing a large block ----------

  // A peer that is not the trie node.
  lemma {:induction false} UnlistedPeerOk(x: Index, n: nat, j: nat)
    requires IndexOk(x) && Listed(x, PeerRing(n), j) && 0 < j
    ensures IndexOk(Unlisted(x, PeerRing(n), j))
  {
    var y, b := Unlisted(x, PeerRing(n), j), x.r.ring[PeerRing(n)][j];
    assert b != x.r.ring[PeerRing(n)][0];
    TrieForget(x.t, b.addr);
    RingsLeave(x.r, PeerRing(n), j);
    KeepBits(x, y);
    RestUntouched(x, y, PeerRing(n), b.addr);
    UnlistedBlocks(x, PeerRing(n), j);
  }

  // Dropping a block that is not in the rest list keeps the rest count.
  lemma {:induction false} RestUntouched(x: Index, y: Index, k: RingId, b: nat)
    requires IndexOk(x) && RingOk(x.r, k) && !k.RestRing? && Block(b) in x.r.ring[k]
    requires RestRing in y.r.ring && y.r.ring[RestRing] == x.r.ring[RestRing] && y.rest == x.rest
    requires y.t.size == x.t.size - {b}
    ensures RestOk(y)
  {
    assert RingOk(x.r, RestRing);
    if Block(b) in x.r.ring[RestRing] { OneRing(x.r, k, RestRing, Block(b)); }
    LargeCountFrame(x.t.size, y.t.size, y.r.ring[RestRing]);
  }

  // The trie node of a size with peers: its predecessor in the ring takes its place.
  ghost function Succeeded(x: Index, b: nat, n: nat): Index
    requires PeerRing(n) in x.r.ring && 2 <= |x.r.ring[PeerRing(n)]| && x.r.ring[PeerRing(n)][0] == Block(b)
    requires Block(b) in x.r.next && Block(b) in x.r.prev && x.r.prev[Block(b)].Block?
    requires Child(b, 0) in x.t.slot && Child(b, 1) in x.t.slot && b in x.t.parent && b in x.t.depth
  {
    var t := Substituted(x.t, b, x.r.prev[Block(b)].addr);
    x.(t := t.(size := t.size - {b}), r := Turned(Left(x.r, PeerRing(n), 0), PeerRing(n)))
  }

  // b is the first of two or more blocks of size n.
  ghost predicate HeadWithPeers(x: Index, b: nat, n: nat) {
    && RingOk(x.r, PeerRing(n)) && 2 <= |x.r.ring[PeerRing(n)]| && x.r.ring[PeerRing(n)][0] == Block(b)
    && NodeOk(x.t, b) && BlockOk(x, b) && x.t.size[b] == n
    && x.r.prev[Block(b)].Block? && x.r.prev[Block(b)].addr != b
    && BlockOk(x, x.r.prev[Block(b)].addr)
    && x.r.home[x.r.prev[Block(b)].addr] == PeerRing(n)
    && x.r.prev[Block(b)] == x.r.ring[PeerRing(n)][|x.r.ring[PeerRing(n)]| - 1]
  }

  lemma {:induction false} HeadHasPeers(x: Index, b: nat, n: nat)
    requires IndexOk(x) && RingOk(x.r, PeerRing(n)) && 2 <= |x.r.ring[PeerRing(n)]|
      && x.r.ring[PeerRing(n)][0] == Block(b)
    ensures HeadWithPeers(x, b, n)
  {
    var c := x.r.ring[PeerRing(n)];
    assert BlockOk(x, b);
    assert NodeOk(x.t, b);
    assert c[|c| - 1] != c[0];
    assert BlockOk(x, c[|c| - 1].addr);
  }

  lemma {:induction false} SucceededTrie(x: Index, b: nat, n: nat)
    requires IndexOk(x) && HeadWithPeers(x, b, n)
    ensures Trie(Succeeded(x, b, n).t)
  {
    var p := x.r.prev[Block(b)].addr;
    assert StandIn(x.t, b, p);
    TrieSubst(x.t, b, p);
    TrieForget(Substituted(x.t, b, p), b);
  }

  lemma {:induction false} SucceededBits(x: Index, b: nat, n: nat)
    requires IndexOk(x) && HeadWithPeers(x, b, n)
    ensures LargeBits(Succeeded(x, b, n)) && SmallBits(Succeeded(x, b, n))
  {
    var y := Succeeded(x, b, n);
    forall i: nat | i < NUM_BUCKETS && Root(i) in x.t.slot
      ensures y.t.slot[Root(i)] == Nil <==> x.t.slot[Root(i)] == Nil
    {
      assert y.t.slot[Root(i)] == if Root(i) == x.t.parent[b] then x.r.prev[Block(b)] else x.t.slot[Root(i)];
    }
    KeepBits(x, y);
  }

  lemma {:induction false} SucceededBlocks(x: Index, b: nat, n: nat)
    requires IndexOk(x) && HeadWithPeers(x, b, n)
    ensures BlocksOk(Succeeded(x, b, n))
  {
    var y, p := Succeeded(x, b, n), x.r.prev[Block(b)].addr;
    assert SlotOk(x.t, Child(b, 0)) && SlotOk(x.t, Child(b, 1));
    assert y.r.ring[PeerRing(n)][0] == Block(p);
    forall c | c in y.t.size
      ensures BlockOk(y, c)
    {
      assert BlockOk(x, c);
      SucceededBlock(x, b, n, c);
    }
  }

  lemma {:induction false} SucceededBlock(x: Index, b: nat, n: nat, c: nat)
    requires IndexOk(x) && HeadWithPeers(x, b, n) && c in Succeeded(x, b, n).t.size && BlockOk(x, c)
    requires x.r.prev[Block(b)].Block? && Succeeded(x, b, n).r.ring[PeerRing(n)][0] == x.r.prev[Block(b)]
    requires SlotOk(x.t, Child(b, 0)) && SlotOk(x.t, Child(b, 1))
    ensures BlockOk(Succeeded(x, b, n), c)
  {
    hide IndexOk;
    var y := Succeeded(x, b, n);
    if x.r.home[c] != PeerRing(n) { BlockKept(x, y, c); }
  }

  lemma {:induction false} SucceededOk(x: Index, b: nat, n: nat)
    requires IndexOk(x) && HeadWithPeers(x, b, n)
    ensures IndexOk(Succeeded(x, b, n))
  {
    RingsLeave(x.r, PeerRing(n), 0);
    assert RingOk(Left(x.r, PeerRing(n), 0), PeerRing(n));
    RingsTurn(Left(x.r, PeerRing(n), 0), PeerRing(n));
    SucceededTrie(x, b, n);
    SucceededBits(x, b, n);
    RestUntouched(x, Succeeded(x, b, n), PeerRing(n), b);
    SucceededBlocks(x, b, n);
  }

  // b is the only block of size n.
  ghost predicate Alone(x: Index, b: nat, n: nat) {
    && RingOk(x.r, PeerRing(n)) && x.r.ring[PeerRing(n)] == [Block(b)]
    && NodeOk(x.t, b) && BlockOk(x, b) && x.t.size[b] == n
  }

  lemma {:induction false} AloneIs(x: Index, b: nat, n: nat)
    requires IndexOk(x) && RingOk(x.r, PeerRing(n)) && |x.r.ring[PeerRing(n)]| == 1
      && x.r.ring[PeerRing(n)][0] == Block(b)
    ensures Alone(x, b, n)
  {
    assert BlockOk(x, b);
    assert NodeOk(x.t, b);
  }

  // A node without children is cut off.
  ghost function Pruned(x: Index, b: nat, n: nat): Index
    requires b in x.t.parent
  {
    var t := Detached(x.t, b);
    x.(t := t.(size := t.size - {b}), r := Closed(x.r, n, b),
       large := if x.t.parent[b].Root? then ClearBit(x.large, x.t.parent[b].index) else x.large)
  }

  lemma {:induction false} PrunedBits(x: Index, b: nat, n: nat)
    requires IndexOk(x) && Alone(x, b, n)
    ensures LargeBits(Pruned(x, b, n)) && SmallBits(Pruned(x, b, n))
  {
    var y := Pruned(x, b, n);
    forall i: nat
      ensures Bit(y.large, i) <==> i < NUM_BUCKETS && Root(i) in y.t.slot && y.t.slot[Root(i)] != Nil
    {
      assert Bit(x.large, i) <==> i < NUM_BUCKETS && Root(i) in x.t.slot && x.t.slot[Root(i)] != Nil;
      if x.t.parent[b].Root? { ClearBitAt(x.large, x.t.parent[b].index, i); }
    }
    forall i: nat | Bit(y.free, i)
      ensures i < NUM_BUCKETS && SmallRing(i) in y.r.ring && 2 <= |y.r.ring[SmallRing(i)]|
    {
      assert Bit(x.free, i);
    }
  }

  lemma {:induction false} PrunedBlocks(x: Index, b: nat, n: nat)
    requires IndexOk(x) && Alone(x, b, n)
    ensures BlocksOk(Pruned(x, b, n))
  {
    var y := Pruned(x, b, n);
    forall c | c in y.t.size
      ensures BlockOk(y, c)
    {
      assert BlockOk(x, c);
      assert Block(c) in x.r.ring[x.r.home[c]];
      BlockKept(x, y, c);
    }
  }

  lemma {:induction false} PrunedOk(x: Index, b: nat, n: nat)
    requires IndexOk(x) && Alone(x, b, n) && x.t.slot[Child(b, 0)] == x.t.slot[Child(b, 1)] == Nil
    ensures IndexOk(Pruned(x, b, n))
  {
    TrieDetach(x.t, b);
    TrieForget(Detached(x.t, b), b);
    RingsClose(x.r, n, b);
    PrunedBits(x, b, n);
    RestUntouched(x, Pruned(x, b, n), PeerRing(n), b);
    PrunedBlocks(x, b, n);
  }

  // A node with children: a leaf p below it takes its place.
  ghost function Promoted(x: Index, b: nat, n: nat, p: nat): Index
    requires p in x.t.parent && b in x.t.parent && b in x.t.depth && b != p
    requires Child(b, 0) in x.t.slot && Child(b, 1) in x.t.slot
  {
    var t := Substituted(Detached(x.t, p), b, p);
    x.(t := t.(size := t.size - {b}), r := Closed(x.r, n, b))
  }

  // p is a leaf below b.
  ghost predicate LeafBelow(t: Forest, b: nat, p: nat)
    requires NodeOk(t, b)
  {
    && NodeOk(t, p) && p != b && t.slot[Child(p, 0)] == t.slot[Child(p, 1)] == Nil
    && Bucket(t.size[p]) == Bucket(t.size[b]) && t.depth[b] < t.depth[p] && t.depth[b] <= Bucket(t.size[b])
    && Prefix(t.size[p], Bucket(t.size[b]), t.depth[b]) == Prefix(t.size[b], Bucket(t.size[b]), t.depth[b])
  }

  lemma {:induction false} PromotedTrie(x: Index, b: nat, n: nat, p: nat)
    requires IndexOk(x) && Alone(x, b, n) && LeafBelow(x.t, b, p)
    ensures Trie(Promoted(x, b, n, p).t)
  {
    var u := Detached(x.t, p);
    TrieDetach(x.t, p);
    assert NodeOk(u, b);
    assert StandIn(u, b, p);
    TrieSubst(u, b, p);
    TrieForget(Substituted(u, b, p), b);
  }

  lemma {:induction false} PromotedBits(x: Index, b: nat, n: nat, p: nat)
    requires IndexOk(x) && Alone(x, b, n) && LeafBelow(x.t, b, p)
    ensures LargeBits(Promoted(x, b, n, p)) && SmallBits(Promoted(x, b, n, p))
  {
    assert x.t.parent[p].Child?;
    KeepBits(x, Promoted(x, b, n, p));
  }

  lemma {:induction false} PromotedBlocks(x: Index, b: nat, n: nat, p: nat)
    requires IndexOk(x) && Alone(x, b, n) && LeafBelow(x.t, b, p)
    ensures BlocksOk(Promoted(x, b, n, p))
  {
    var y := Promoted(x, b, n, p);
    assert SlotOk(x.t, Child(b, 0)) && SlotOk(x.t, Child(b, 1));
    forall c | c in y.t.size
      ensures BlockOk(y, c)
    {
      assert BlockOk(x, c);
      assert Block(c) in x.r.ring[x.r.home[c]];
      BlockKept(x, y, c);
    }
  }

  lemma {:induction false} PromotedOk(x: Index, b: nat, n: nat, p: nat)
    requires IndexOk(x) && Alone(x, b, n) && LeafBelow(x.t, b, p)
    ensures IndexOk(Promoted(x, b, n, p))
  {
    PromotedTrie(x, b, n, p);
    RingsClose(x.r, n, b);
    PromotedBits(x, b, n, p);
    RestUntouched(x, Promoted(x, b, n, p), PeerRing(n), b);
    PromotedBlocks(x, b, n, p);
  }

  // ---------- what the list operations do, as their callers see it ----------

  // The nodes of t keep their places.
  ghost predicate NodesStay(t: Forest, u: Forest) {
    forall c :: c in t.depth ==> c in t.parent && c in u.depth && c in u.parent && u.parent[c] == t.parent[c]
  }

  // y is x with block b of size n filed under its size: a small block goes to the front of its
  // ring, a large one into the trie or the peer ring of its size; the other rings are as before.
  ghost predicate Filed(x: Index, y: Index, b: nat, n: nat) {
    && BlockSize(n)
    && y.t.size == x.t.size[b := n]
    && y.r.home == x.r.home[b := HomeOf(n)]
    && y.rest == x.rest && NodesStay(x.t, y.t)
    && (forall k :: k in x.r.ring && k != HomeOf(n) ==> k in y.r.ring && y.r.ring[k] == x.r.ring[k])
    && if Small(n) then InFront(x, y, b, n) else y.free == x.free && BehindNode(x, y, b, n)
  }

  // A large block goes behind the node of its size in their ring, or is alone there.
  ghost predicate BehindNode(x: Index, y: Index, b: nat, n: nat) {
    && PeerRing(n) in y.r.ring
    && if PeerRing(n) in x.r.ring then
         x.r.ring[PeerRing(n)] != [] && y.r.ring[PeerRing(n)] == Inserted(x.r.ring[PeerRing(n)], 0, Block(b))
       else
         y.r.ring[PeerRing(n)] == [Block(b)]
  }

  // A small block goes to the front of the ring of its size, and the bit is set if it is the first.
  ghost predicate InFront(x: Index, y: Index, b: nat, n: nat)
    requires BlockSize(n)
  {
    && HomeOf(n) in x.r.ring && x.r.ring[HomeOf(n)] != [] && HomeOf(n) in y.r.ring
    && y.r.ring[HomeOf(n)] == Inserted(x.r.ring[HomeOf(n)], 0, Block(b))
    && y.free == if |x.r.ring[HomeOf(n)]| == 1 then SetBit(x.free, BucketIndex(n)) else x.free
  }

  lemma {:induction false} NodesAreBlocks(x: Index, b: nat)
    requires IndexOk(x) && b !in x.t.size
    ensures b !in x.t.depth && forall c :: c in x.t.depth ==> c in x.t.parent
  {
    forall c | c in x.t.depth
      ensures c in x.t.parent
    {
      assert NodeOk(x.t, c);
    }
  }

  lemma {:induction false} NoRingYet(x: Index, n: nat)
    requires IndexOk(x) && forall c :: c in x.t.depth && c in x.t.size ==> x.t.size[c] != n
    ensures PeerRing(n) !in x.r.ring
  {
    hide IndexOk;
    if PeerRing(n) in x.r.ring { var c := PeerNode(x, n); }
  }

  lemma {:induction false} NodeFiled(x: Index, b: nat, n: nat, p: Slot, d: nat)
    requires IndexOk(x) && Hangable(x, b, n, p, d)
    ensures Filed(x, AddedNode(x, b, n, p, d), b, n)
  {
    hide IndexOk;
    NodesAreBlocks(x, b);
    NoRingYet(x, n);
  }

  lemma {:induction false} PeerFiled(x: Index, b: nat, n: nat, q: nat)
    requires IndexOk(x) && b !in x.t.size && Indexable(n) && !Small(n) && q in x.t.depth && x.t.size[q] == n
    ensures RingOk(x.r, PeerRing(n)) && Filed(x, AddedPeer(x, b, n), b, n)
  {
    hide IndexOk, RingOk, Inserted, LinkNext, LinkPrev;
    PeerRingOk(x, q);
    RingStarts(x.r, PeerRing(n));
    NodesAreBlocks(x, b);
  }

  lemma {:induction false} RingStarts(r: Rings, k: RingId)
    requires RingOk(r, k)
    ensures k in r.ring && r.ring[k] != [] && r.ring[k][0] in r.next
  {
  }

  lemma {:induction false} PeerRingOk(x: Index, q: nat)
    requires IndexOk(x) && q in x.t.depth
    ensures RingOk(x.r, PeerRing(x.t.size[q]))
  {
    assert BlockOk(x, q);
    assert RingOk(x.r, PeerRing(x.t.size[q]));
  }

  lemma {:induction false} SmallRingOk(x: Index, i: nat)
    requires IndexOk(x) && i < NUM_BUCKETS
    ensures RingOk(x.r, SmallRing(i))
  {
    assert RingOk(x.r, SmallRing(i));
  }

  lemma {:induction false} SmallFiled(x: Index, b: nat, n: nat)
    requires IndexOk(x) && b !in x.t.size && Indexable(n) && Small(n)
    ensures RingOk(x.r, SmallRing(BucketIndex(n))) && Filed(x, AddedSmall(x, b, n), b, n)
  {
    hide IndexOk, RingOk, Inserted, LinkNext, LinkPrev, SetBit;
    SmallRingOk(x, BucketIndex(n));
    RingStarts(x.r, SmallRing(BucketIndex(n)));
    NodesAreBlocks(x, b);
  }

  // y is x without block b: taken out of its ring, the other rings as before.
  ghost predicate Dropped(x: Index, y: Index, b: nat) {
    && b in x.r.home
    && y.t.size == x.t.size - {b}
    && y.r.home == x.r.home - {b}
    && (forall k :: k in x.r.ring && k != x.r.home[b] ==> k in y.r.ring && y.r.ring[k] == x.r.ring[k])
    && y.free == FreeBitsWithout(x, b)
    && if x.r.home[b].PeerRing? then PeerGone(x, y, x.r.home[b], b) else ShortenedBy(x, y, x.r.home[b], b)
  }

  // A ring of peers without b: the place of the node is taken by the block in front of it, the oldest.
  ghost predicate PeerGone(x: Index, y: Index, k: RingId, b: nat) {
    && k in x.r.ring && x.r.ring[k] != []
    && var c := x.r.ring[k];
    && if c == [Block(b)] then k !in y.r.ring
       else if c[0] == Block(b) then k in y.r.ring && y.r.ring[k] == [c[|c| - 1]] + c[1..|c| - 1]
       else ShortenedBy(x, y, k, b)
  }

  ghost predicate ShortenedBy(x: Index, y: Index, k: RingId, b: nat) {
    && k in x.r.ring && k in y.r.ring
    && exists j :: 0 <= j < |x.r.ring[k]| && x.r.ring[k][j] == Block(b) && y.r.ring[k] == Removed(x.r.ring[k], j)
  }

  lemma {:induction false} UnlistedDrops(x: Index, k: RingId, j: nat)
    requires IndexOk(x) && Listed(x, k, j) && (k.PeerRing? ==> 0 < j)
    ensures Dropped(x, Unlisted(x, k, j), x.r.ring[k][j].addr)
  {
    var y, b := Unlisted(x, k, j), x.r.ring[k][j].addr;
    assert x.r.home[b] == k;
    if !k.PeerRing? {
      assert x.r.ring[k][j] == Block(b) && y.r.ring[k] == Removed(x.r.ring[k], j);
    }
  }

  lemma {:induction false} SucceededDrops(x: Index, b: nat, n: nat)
    requires IndexOk(x) && HeadWithPeers(x, b, n)
    ensures Dropped(x, Succeeded(x, b, n), b)
  {
    hide IndexOk, RingOk, NodeOk, Substituted, Removed, Rotated, ShortenedBy, LinkNext, LinkPrev;
    HeadFacts(x, b, n);
    OldestFirst(x.r.ring[PeerRing(n)]);
  }

  lemma {:induction false} HeadFacts(x: Index, b: nat, n: nat)
    requires IndexOk(x) && HeadWithPeers(x, b, n)
    ensures b in x.r.home && x.r.home[b] == PeerRing(n) && b in x.t.size && !Small(x.t.size[b])
    ensures Block(b) in x.r.next && Block(b) in x.r.prev
    ensures Child(b, 0) in x.t.slot && Child(b, 1) in x.t.slot && b in x.t.parent && b in x.t.depth
    ensures Substituted(x.t, b, x.r.prev[Block(b)].addr).size == x.t.size
    ensures FreeBitsWithout(x, b) == x.free
  {
    assert BlockOk(x, b);
  }

  lemma {:induction false} OldestFirst<T>(c: seq<T>)
    requires 2 <= |c|
    ensures Removed(c, 0) != [] && Rotated(Removed(c, 0)) == [c[|c| - 1]] + c[1..|c| - 1]
  {
    assert Removed(c, 0) == c[1..];
  }

  lemma {:induction false} PrunedDrops(x: Index, b: nat, n: nat)
    requires IndexOk(x) && Alone(x, b, n)
    ensures Dropped(x, Pruned(x, b, n), b)
  {
  }

  lemma {:induction false} PromotedDrops(x: Index, b: nat, n: nat, p: nat)
    requires IndexOk(x) && Alone(x, b, n) && LeafBelow(x.t, b, p)
    ensures Dropped(x, Promoted(x, b, n, p), b)
  {
    assert BlockOk(x, b);
    hide IndexOk;
  }

  // ---------- evicting the oldest rest block ----------

  ghost function Evicted(x: Index): Index
    requires RestRing in x.r.ring && 2 <= |x.r.ring[RestRing]| && x.r.ring[RestRing][1].Block?
      && x.r.ring[RestRing][1].addr in x.t.size
    requires x.r.ring[RestRing][1] in x.r.next && x.r.ring[RestRing][1] in x.r.prev
  {
    var b := x.r.ring[RestRing][1].addr;
    x.(t := x.t.(size := x.t.size - {b}), r := Left(x.r, RestRing, 1),
       rest := if !Small(x.t.size[b]) && 0 < x.rest then x.rest - 1 else x.rest)
  }

  lemma {:induction false} EvictedBlocks(x: Index)
    requires IndexOk(x) && Listed(x, RestRing, 1)
    ensures BlocksOk(Evicted(x))
  {
    var y := Evicted(x);
    forall c | c in y.t.size
      ensures BlockOk(y, c)
    {
      assert BlockOk(x, c);
      BlockKept(x, y, c);
    }
  }

  lemma {:induction false} EvictedOk(x: Index)
    requires IndexOk(x) && Listed(x, RestRing, 1)
    ensures IndexOk(Evicted(x))
  {
    TrieForget(x.t, x.r.ring[RestRing][1].addr);
    RingsLeave(x.r, RestRing, 1);
    KeepBits(x, Evicted(x));
    UnlistedCount(x, RestRing, 1, Evicted(x));
    EvictedBlocks(x);
  }

  // While large blocks are counted, the list has an oldest member.
  lemma {:induction false} OldestRest(x: Index)
    requires IndexOk(x) && 0 < x.rest
    ensures Listed(x, RestRing, 1) && x.r.next[RestHead] == x.r.ring[RestRing][1]
    ensures !Small(x.t.size[x.r.ring[RestRing][1].addr]) || 2 < |x.r.ring[RestRing]|
  {
    assert RingOk(x.r, RestRing);
    var c := x.r.ring[RestRing];
    LargeCountPositive(x.t.size, c);
    assert BlockOk(x, c[1].addr);
    if |c| == 2 {
      assert c == [c[0]] + [c[1]];
      LargeCountConcat(x.t.size, [c[0]], [c[1]]);
      LargeCountOne(x.t.size, c[0]);
      LargeCountOne(x.t.size, c[1]);
    }
  }

  // ---------- exactness of the small bitmap ----------

  // A small bit is set exactly when its ring holds a block.
  ghost predicate SmallBitsExact(x: Index) {
    forall i: nat {:trigger Bit(x.free, i)} ::
      i < NUM_BUCKETS && SmallRing(i) in x.r.ring ==> (Bit(x.free, i) <==> 2 <= |x.r.ring[SmallRing(i)]|)
  }

  // Filing a block keeps the bitmap exact.
  lemma {:induction false} FiledExact(x: Index, y: Index, b: nat, n: nat)
    requires IndexOk(x) && SmallBitsExact(x) && Indexable(n) && Filed(x, y, b, n)
    ensures SmallBitsExact(y)
  {
    forall i: nat | i < NUM_BUCKETS && SmallRing(i) in y.r.ring
      ensures Bit(y.free, i) <==> 2 <= |y.r.ring[SmallRing(i)]|
    {
      assert SmallRing(i) in x.r.ring;
      assert Bit(x.free, i) <==> 2 <= |x.r.ring[SmallRing(i)]|;
      if Small(n) { SetBitAt(x.free, BucketIndex(n), i); }
    }
  }

  // The removal that loses a bit: the only rest-list member is small, and the ring of its size
  // holds exactly one block.
  ghost predicate LosesBit(x: Index, b: nat) {
    && b in x.t.size && BlockSize(x.t.size[b]) && Small(x.t.size[b])
    && b in x.r.home && x.r.home[b] == RestRing
    && RestRing in x.r.ring && |x.r.ring[RestRing]| == 2
    && SmallRing(BucketIndex(x.t.size[b])) in x.r.ring && |x.r.ring[SmallRing(BucketIndex(x.t.size[b]))]| == 2
  }

  // Removing a block keeps the bitmap exact if and only if it is not that removal.
  lemma {:induction false} DroppedExact(x: Index, y: Index, b: nat)
    requires IndexOk(x) && SmallBitsExact(x) && b in x.t.size && Dropped(x, y, b)
    ensures SmallBitsExact(y) <==> !LosesBit(x, b)
  {
    assert BlockOk(x, b);
    var n := x.t.size[b];
    if LosesBit(x, b) {
      var i := BucketIndex(n);
      ClearBitAt(x.free, i, i);
      assert !Bit(y.free, i) && SmallRing(i) in y.r.ring && |y.r.ring[SmallRing(i)]| == 2;
    } else {
      forall i: nat | i < NUM_BUCKETS && SmallRing(i) in y.r.ring
        ensures Bit(y.free, i) <==> 2 <= |y.r.ring[SmallRing(i)]|
      {
        DroppedBit(x, y, b, i);
      }
    }
  }

  lemma {:induction false} DroppedBit(x: Index, y: Index, b: nat, i: nat)
    requires IndexOk(x) && SmallBitsExact(x) && b in x.t.size && Dropped(x, y, b) && !LosesBit(x, b)
    requires i < NUM_BUCKETS && SmallRing(i) in y.r.ring
    ensures Bit(y.free, i) <==> 2 <= |y.r.ring[SmallRing(i)]|
  {
    assert BlockOk(x, b);
    assert SmallRing(i) in x.r.ring;
    assert Bit(x.free, i) <==> 2 <= |x.r.ring[SmallRing(i)]|;
    assert RingOk(x.r, SmallRing(i));
    if Small(x.t.size[b]) { ClearBitAt(x.free, BucketIndex(x.t.size[b]), i); }
  }
}
