// The bitwise tries of large free blocks, at the level of their child slots and parent links.
module MmTrie {
  import opened MmSize
  import opened MmBits
  import opened Seqs
  import opened MmRing

  // What the parent field of a block can be: a pointer to the slot that points to the block
  // (a large_free_buckets entry or a child entry of another block), the mark of the rest
  // list, or NULL for a block that is only a ring peer of a node.
  datatype Slot = NoSlot | RestMark | Root(index: nat) | Child(node: nat, bit: nat)

  // The sizes of the free blocks, their parent fields, the contents of the slots, and the
  // level of every block that is a node of a trie.
  datatype Forest = Forest(size: map<nat, nat>, parent: map<nat, Slot>, slot: map<Slot, Ref>, ghost depth: map<nat,
      nat>)

  // The large bucket of a size.
  function Bucket(n: nat): nat
    requires n != 0
  {
    HighBit(n)
  }

  // The leading bit of n and the d bits after it, for n in bucket i.
  function Prefix(n: nat, i: nat, d: nat): nat
    requires d <= i
  {
    Shr(n, i - d)
  }

  // The bit after Prefix(n, i, d).
  function Branch(n: nat, i: nat, d: nat): (b: nat)
    requires d < i
    ensures b < 2
  {
    Prefix(n, i, d + 1) % 2
  }

  lemma {:induction false} PrefixStep(n: nat, i: nat, d: nat)
    requires d < i
    ensures Prefix(n, i, d + 1) == 2 * Prefix(n, i, d) + Branch(n, i, d)
  {
    ShrStep(n, i - d - 1);
  }

  lemma {:induction false} PrefixOfPrefix(m: nat, n: nat, i: nat, d: nat, e: nat)
    requires d <= e <= i && Prefix(m, i, e) == Prefix(n, i, e)
    ensures Prefix(m, i, d) == Prefix(n, i, d)
  {
    ShrShr(m, i - e, e - d);
    ShrShr(n, i - e, e - d);
  }

  predicate LargeSize(n: nat) {
    n != 0 && Bucket(n) < NUM_BUCKETS
  }

  // A slot is empty or points to a node that points back to it.
  ghost predicate SlotOk(t: Forest, p: Slot) {
    && p in t.slot
    && (t.slot[p] == Nil
        || (t.slot[p].Block? && t.slot[p].addr in t.depth && t.slot[p].addr in t.parent
          && t.parent[t.slot[p].addr] == p))
  }

  // A block of size n belongs at slot p, d levels down: at the root of its bucket, or one
  // level below a node of its bucket with the same path, on the side its next bit says.
  ghost predicate Fits(t: Forest, n: nat, p: Slot, d: nat)
    requires LargeSize(n)
  {
    if d == 0 then p == Root(Bucket(n))
    else
      && d <= Bucket(n)
      && p.Child? && p.node in t.depth && p.node in t.size && LargeSize(t.size[p.node])
      && Bucket(t.size[p.node]) == Bucket(n)
      && t.depth[p.node] == d - 1
      && Prefix(n, Bucket(n), d - 1) == Prefix(t.size[p.node], Bucket(n), d - 1)
      && p.bit == Branch(n, Bucket(n), d - 1)
  }

  ghost predicate NodeOk(t: Forest, b: nat) {
    && b in t.depth && b in t.size && LargeSize(t.size[b])
    && b in t.parent && t.parent[b] in t.slot && t.slot[t.parent[b]] == Block(b)
    && Fits(t, t.size[b], t.parent[b], t.depth[b])
    && SlotOk(t, Child(b, 0))
    && SlotOk(t, Child(b, 1))
  }

  // The trie invariant: the bits that follow the leading bit of a node's size spell its path,
  // parent links are exact, and each size has at most one node.
  ghost predicate Trie(t: Forest) {
    && (forall b :: b in t.depth ==> b in t.size && LargeSize(t.size[b]) && t.depth[b] <= Bucket(t.size[b]))
    && (forall i {:trigger SlotOk(t, Root(i))} :: 0 <= i < NUM_BUCKETS ==> SlotOk(t, Root(i)))
    && (forall b {:trigger NodeOk(t, b)} :: b in t.depth ==> NodeOk(t, b))
    && (forall b, c :: b in t.depth && c in t.depth && t.size[b] == t.size[c] ==> b == c)
  }

  // ---------- paths ----------

  // Two nodes on the same level with the same path are one.
  lemma {:induction false} PathIsUnique(t: Forest, x: nat, y: nat)
    requires Trie(t) && x in t.depth && y in t.depth
    requires Bucket(t.size[x]) == Bucket(t.size[y]) && t.depth[x] == t.depth[y]
    requires Prefix(t.size[x], Bucket(t.size[x]), t.depth[x]) == Prefix(t.size[y], Bucket(t.size[x]), t.depth[x])
    ensures x == y
    decreases t.depth[x]
  {
    assert NodeOk(t, x) && NodeOk(t, y);
    if t.depth[x] != 0 {
      var i, d := Bucket(t.size[x]), t.depth[x] - 1;
      PrefixStep(t.size[x], i, d);
      PrefixStep(t.size[y], i, d);
      PathIsUnique(t, t.parent[x].node, t.parent[y].node);
    }
  }

  // Every node has an ancestor with its own path on every level above it.
  lemma {:induction false} Ancestor(t: Forest, x: nat, d: nat) returns (y: nat)
    requires Trie(t) && x in t.depth && d <= t.depth[x]
    ensures y in t.depth && t.depth[y] == d && Bucket(t.size[y]) == Bucket(t.size[x])
    ensures Prefix(t.size[y], Bucket(t.size[x]), d) == Prefix(t.size[x], Bucket(t.size[x]), d)
    decreases t.depth[x]
  {
    assert NodeOk(t, x);
    if t.depth[x] == d {
      y := x;
    } else {
      var p := t.parent[x].node;
      y := Ancestor(t, p, d);
      PrefixOfPrefix(t.size[x], t.size[p], Bucket(t.size[x]), d, t.depth[p]);
    }
  }

  // One level below p, the path decides the slot.
  lemma {:induction false} OneBelow(t: Forest, p: nat, y: nat, i: nat, d: nat)
    requires Trie(t) && p in t.depth && y in t.depth
    requires Bucket(t.size[y]) == Bucket(t.size[p]) == i && d == t.depth[p] && t.depth[y] == d + 1
    requires Prefix(t.size[y], i, d) == Prefix(t.size[p], i, d)
    ensures NodeOk(t, y) && t.parent[y] == Child(p, Branch(t.size[y], i, d))
  {
    assert NodeOk(t, y);
    PathIsUnique(t, t.parent[y].node, p);
  }

  // A node whose size starts with the path of p is p or lies below the child of p that its
  // next bit selects; in particular that child exists.
  lemma {:induction false} BelowOrSame(t: Forest, p: nat, x: nat, i: nat, d: nat)
    requires Trie(t) && p in t.depth && x in t.depth && x != p
    requires Bucket(t.size[x]) == Bucket(t.size[p]) == i && t.depth[p] == d <= t.depth[x]
    requires Prefix(t.size[x], i, d) == Prefix(t.size[p], i, d)
    ensures d < t.depth[x] <= i
    ensures Child(p, Branch(t.size[x], i, d)) in t.slot && t.slot[Child(p, Branch(t.size[x], i, d))] != Nil
  {
    if t.depth[x] == d {
      PathIsUnique(t, x, p);
    } else {
      var y := Ancestor(t, x, d + 1);
      PrefixOfPrefix(t.size[y], t.size[x], i, d, d + 1);
      OneBelow(t, p, y, i, d);
    }
  }

  // ---------- descents ----------

  // q is on the path of size n, and a node of that size can only be q or below it.
  ghost predicate OnPath(t: Forest, n: nat, q: nat, d: nat) {
    && n != 0
    && q in t.depth && q in t.size && LargeSize(t.size[q]) && t.depth[q] == d
    && Bucket(t.size[q]) == Bucket(n) && d <= Bucket(n)
    && Prefix(t.size[q], Bucket(n), d) == Prefix(n, Bucket(n), d)
    && (forall x :: x in t.depth && x in t.size && t.size[x] == n ==> d <= t.depth[x])
  }

  // The root of a bucket is on the path of every size of the bucket.
  lemma {:induction false} RootOnPath(t: Forest, n: nat)
    requires Trie(t) && LargeSize(n) && SlotOk(t, Root(Bucket(n))) && t.slot[Root(Bucket(n))] != Nil
    ensures OnPath(t, n, t.slot[Root(Bucket(n))].addr, 0)
  {
    var q := t.slot[Root(Bucket(n))].addr;
    assert NodeOk(t, q);
    ShrHighBit(n);
    ShrHighBit(t.size[q]);
  }

  // A bucket with an empty root has no node.
  lemma {:induction false} EmptyBucket(t: Forest, n: nat)
    requires Trie(t) && LargeSize(n) && Root(Bucket(n)) in t.slot && t.slot[Root(Bucket(n))] == Nil
    ensures forall x :: x in t.depth && x in t.size ==> Bucket(t.size[x]) != Bucket(n)
  {
    forall x | x in t.depth && x in t.size
      ensures Bucket(t.size[x]) != Bucket(n)
    {
      var y := Ancestor(t, x, 0);
      assert NodeOk(t, y);
    }
  }

  // A node without a path left has the size itself.
  lemma {:induction false} PathEnds(t: Forest, n: nat, q: nat, d: nat)
    requires OnPath(t, n, q, d) && t.size[q] != n
    ensures d < Bucket(n)
  {
  }

  // A child of q on the side of the next bit of n is on the path of n.
  lemma {:induction false} ChildOnPath(t: Forest, n: nat, q: nat, d: nat, c: nat)
    requires Trie(t) && OnPath(t, n, q, d) && t.size[q] != n && d < Bucket(n)
    requires NodeOk(t, c) && t.parent[c] == Child(q, Branch(n, Bucket(n), d))
    ensures OnPath(t, n, c, d + 1)
  {
    var i := Bucket(n);
    PrefixStep(n, i, d);
    PrefixStep(t.size[c], i, d);
    forall x | x in t.depth && x in t.size && t.size[x] == n
      ensures d + 1 <= t.depth[x]
    {
      BelowOrSame(t, q, x, i, d);
    }
  }

  // If that child is missing, no node has size n and its slot is the place for one.
  lemma {:induction false} PathIsFree(t: Forest, n: nat, q: nat, d: nat)
    requires Trie(t) && OnPath(t, n, q, d) && t.size[q] != n && d < Bucket(n) && LargeSize(n)
    requires Child(q, Branch(n, Bucket(n), d)) in t.slot && t.slot[Child(q, Branch(n, Bucket(n), d))] == Nil
    ensures Fits(t, n, Child(q, Branch(n, Bucket(n), d)), d + 1)
    ensures forall x :: x in t.depth && x in t.size ==> t.size[x] != n
  {
    forall x | x in t.depth && x in t.size
      ensures t.size[x] != n
    {
      if t.size[x] == n { BelowOrSame(t, q, x, Bucket(n), d); }
    }
  }

  // A node of the bucket of n with at least that size.
  ghost predicate Enough(t: Forest, n: nat, c: nat) {
    && n != 0
    && c in t.depth && c in t.size && LargeSize(t.size[c])
    && Bucket(t.size[c]) == Bucket(n) && n <= t.size[c]
  }

  // c can only be on the path of n, d or more levels down.
  ghost predicate Ahead(t: Forest, n: nat, d: nat, c: nat)
    requires n != 0 && d <= Bucket(n)
  {
    && c in t.depth && c in t.size && d <= t.depth[c]
    && Prefix(t.size[c], Bucket(n), d) == Prefix(n, Bucket(n), d)
  }

  lemma {:induction false} RootAhead(t: Forest, n: nat, c: nat)
    requires Enough(t, n, c)
    ensures Ahead(t, n, 0, c)
  {
    ShrHighBit(n);
    ShrHighBit(t.size[c]);
  }

  // A fit that is ahead at p, but not p, is behind the kept child or ahead at the next level.
  lemma {:induction false} StillAhead(t: Forest, n: nat, p: nat, d: nat, c: nat)
    requires Trie(t) && OnPath(t, n, p, d) && d < Bucket(n)
    requires Enough(t, n, c) && Ahead(t, n, d, c) && c != p
    ensures Child(p, Branch(t.size[c], Bucket(n), d)) in t.slot
      && t.slot[Child(p, Branch(t.size[c], Bucket(n), d))] != Nil
    ensures Branch(n, Bucket(n), d) == 1 ==> Branch(t.size[c], Bucket(n), d) == 1
    ensures Branch(t.size[c], Bucket(n), d) == Branch(n, Bucket(n), d) ==> Ahead(t, n, d + 1, c)
  {
    var i := Bucket(n);
    BelowOrSame(t, p, c, i, d);
    PrefixStep(n, i, d);
    PrefixStep(t.size[c], i, d);
    ShrMonotone(n, t.size[c], i - (d + 1));
  }

  // Children stay in the bucket, one level further down.
  lemma {:induction false} ChildBucket(t: Forest, p: nat, c: nat)
    requires Trie(t) && NodeOk(t, c) && p in t.depth && p in t.size && t.parent[c].Child? && t.parent[c].node == p
    ensures LargeSize(t.size[p]) && Bucket(t.size[c]) == Bucket(t.size[p])
      && t.depth[c] == t.depth[p] + 1 <= Bucket(t.size[c])
  {
  }

  // p lies below b.
  ghost predicate Under(t: Forest, b: nat, p: nat) {
    && b in t.depth && b in t.size && LargeSize(t.size[b]) && t.depth[b] <= Bucket(t.size[b])
    && p in t.depth && p in t.size && LargeSize(t.size[p])
    && Bucket(t.size[p]) == Bucket(t.size[b]) && t.depth[b] < t.depth[p] <= Bucket(t.size[b])
    && Prefix(t.size[p], Bucket(t.size[b]), t.depth[b]) == Prefix(t.size[b], Bucket(t.size[b]), t.depth[b])
  }

  lemma {:induction false} UnderStep(t: Forest, b: nat, p: nat, c: nat)
    requires Trie(t) && NodeOk(t, c) && (t.parent[c] == Child(p, 0) || t.parent[c] == Child(p, 1)) && Under(t, b, p)
    ensures Under(t, b, c) && t.depth[c] == t.depth[p] + 1
  {
    PrefixOfPrefix(t.size[c], t.size[p], Bucket(t.size[b]), t.depth[b], t.depth[p]);
  }

  // ---------- updates ----------

  // Hanging b, of size n, into slot p at level d.
  ghost function Hung(t: Forest, b: nat, n: nat, p: Slot, d: nat): Forest {
    Forest(t.size[b := n], t.parent[b := p], t.slot[Child(b, 0) := Nil][Child(b, 1) := Nil][p := Block(b)],
      t.depth[b := d])
  }

  lemma {:induction false} HungSlot(t: Forest, b: nat, n: nat, p: Slot, d: nat, q: Slot)
    requires Trie(t) && b !in t.depth && LargeSize(n)
    requires Fits(t, n, p, d) && p in t.slot && t.slot[p] == Nil && SlotOk(t, q)
    requires q.Root? || (q.Child? && q.node in t.depth)
    ensures SlotOk(Hung(t, b, n, p, d), q)
  {
  }

  lemma {:induction false} HungNode(t: Forest, b: nat, n: nat, p: Slot, d: nat, x: nat)
    requires Trie(t) && b !in t.depth && LargeSize(n)
    requires Fits(t, n, p, d) && p in t.slot && t.slot[p] == Nil
    requires x in t.depth || x == b
    ensures NodeOk(Hung(t, b, n, p, d), x)
  {
    if x != b {
      assert NodeOk(t, x);
      HungSlot(t, b, n, p, d, Child(x, 0));
      HungSlot(t, b, n, p, d, Child(x, 1));
    }
  }

  // Hanging a block of a new size into its free slot keeps the invariant.
  lemma {:induction false} TrieInsert(t: Forest, b: nat, n: nat, p: Slot, d: nat)
    requires Trie(t) && b !in t.depth && LargeSize(n)
    requires Fits(t, n, p, d) && p in t.slot && t.slot[p] == Nil
    requires forall x :: x in t.depth ==> t.size[x] != n
    ensures Trie(Hung(t, b, n, p, d))
  {
    var u := Hung(t, b, n, p, d);
    forall i | 0 <= i < NUM_BUCKETS
      ensures SlotOk(u, Root(i))
    {
      assert SlotOk(t, Root(i));
      HungSlot(t, b, n, p, d, Root(i));
    }
    forall x | x in u.depth
      ensures NodeOk(u, x)
    {
      HungNode(t, b, n, p, d, x);
    }
  }

  // Cutting a leaf off.
  ghost function Detached(t: Forest, b: nat): Forest
    requires b in t.parent
  {
    t.(slot := t.slot[t.parent[b] := Nil], depth := t.depth - {b})
  }

  lemma {:induction false} TrieDetach(t: Forest, b: nat)
    requires Trie(t) && b in t.depth && NodeOk(t, b) && t.slot[Child(b, 0)] == t.slot[Child(b, 1)] == Nil
    ensures Trie(Detached(t, b))
  {
    var u := Detached(t, b);
    forall i | 0 <= i < NUM_BUCKETS
      ensures SlotOk(u, Root(i))
    {
      assert SlotOk(t, Root(i));
    }
    forall x | x in u.depth
      ensures NodeOk(u, x)
    {
      assert NodeOk(t, x);
    }
  }

  function Reparent(parent: map<nat, Slot>, c: Ref, p: Slot): map<nat, Slot> {
    if c.Block? then parent[c.addr := p] else parent
  }

  // The code at subst_block: p takes over the slot and the children of b.
  ghost function Substituted(t: Forest, b: nat, p: nat): Forest
    requires Child(b, 0) in t.slot && Child(b, 1) in t.slot && b in t.parent && b in t.depth
  {
    var l, r := t.slot[Child(b, 0)], t.slot[Child(b, 1)];
    Forest(t.size,
           Reparent(Reparent(t.parent[p := t.parent[b]], l, Child(p, 0)), r, Child(p, 1)),
           t.slot[t.parent[b] := Block(p)][Child(p, 0) := l][Child(p, 1) := r],
           (t.depth - {b})[p := t.depth[b]])
  }

  // p may stand for b: outside the trie, with the same path and a size no other node has.
  ghost predicate StandIn(t: Forest, b: nat, p: nat)
    requires NodeOk(t, b)
  {
    && p !in t.depth && p in t.size && LargeSize(t.size[p]) && Bucket(t.size[p]) == Bucket(t.size[b])
    && t.depth[b] <= Bucket(t.size[b])
    && Prefix(t.size[p], Bucket(t.size[b]), t.depth[b]) == Prefix(t.size[b], Bucket(t.size[b]), t.depth[b])
    && (forall x :: x in t.depth && x in t.size && x != b ==> t.size[x] != t.size[p])
  }

  lemma {:induction false} SubstitutedSlot(t: Forest, b: nat, p: nat, q: Slot)
    requires Trie(t) && NodeOk(t, b) && StandIn(t, b, p) && SlotOk(t, q)
    requires q.Root? || (q.Child? && q.node in t.depth && q.node != b)
    ensures SlotOk(Substituted(t, b, p), q)
  {
    if t.slot[q] == Block(b) { assert q == t.parent[b]; }
  }

  lemma {:induction false} SubstitutedNode(t: Forest, b: nat, p: nat, x: nat)
    requires Trie(t) && NodeOk(t, b) && StandIn(t, b, p) && x in t.depth && x != b
    ensures NodeOk(Substituted(t, b, p), x)
  {
    assert NodeOk(t, x);
    SubstitutedSlot(t, b, p, Child(x, 0));
    SubstitutedSlot(t, b, p, Child(x, 1));
    var u := Substituted(t, b, p);
    if t.parent[x] == Child(b, 0) {
      assert u.parent[x] == Child(p, 0);
    } else if t.parent[x] == Child(b, 1) {
      assert u.parent[x] == Child(p, 1);
    } else {
      assert u.parent[x] == t.parent[x];
    }
  }

  lemma {:induction false} SubstitutedSelf(t: Forest, b: nat, p: nat)
    requires Trie(t) && NodeOk(t, b) && StandIn(t, b, p)
    ensures NodeOk(Substituted(t, b, p), p)
  {
    var u := Substituted(t, b, p);
    var i, d := Bucket(t.size[b]), t.depth[b];
    if d != 0 {
      PrefixOfPrefix(t.size[p], t.size[b], i, d - 1, d);
      assert Fits(u, u.size[p], u.parent[p], d);
    }
    assert SlotOk(u, Child(p, 0));
    assert SlotOk(u, Child(p, 1));
  }

  // Replacing a node by a stand-in keeps the invariant.
  lemma {:induction false} TrieSubst(t: Forest, b: nat, p: nat)
    requires Trie(t) && NodeOk(t, b) && StandIn(t, b, p)
    ensures Trie(Substituted(t, b, p))
  {
    var u := Substituted(t, b, p);
    forall i | 0 <= i < NUM_BUCKETS
      ensures SlotOk(u, Root(i))
    {
      assert SlotOk(t, Root(i));
      SubstitutedSlot(t, b, p, Root(i));
    }
    forall x | x in u.depth
      ensures NodeOk(u, x)
    {
      if x != p { SubstitutedNode(t, b, p, x); } else { SubstitutedSelf(t, b, p); }
    }
  }

  // Sizes and parent fields of blocks outside the trie do not matter.
  lemma {:induction false} TrieFrame(t: Forest, u: Forest)
    requires Trie(t) && u.slot == t.slot && u.depth == t.depth
    requires forall b :: b in t.depth && b in t.size ==> b in u.size && u.size[b] == t.size[b]
    requires forall b :: b in t.depth && b in t.parent ==> b in u.parent && u.parent[b] == t.parent[b]
    ensures Trie(u)
  {
    forall i | 0 <= i < NUM_BUCKETS
      ensures SlotOk(u, Root(i))
    {
      assert SlotOk(t, Root(i));
    }
    forall x | x in u.depth
      ensures NodeOk(u, x)
    {
      assert NodeOk(t, x);
    }
  }

  lemma {:induction false} TrieForget(t: Forest, b: nat)
    requires Trie(t) && b !in t.depth
    ensures Trie(t.(size := t.size - {b}))
  {
    TrieFrame(t, t.(size := t.size - {b}));
  }

  // Writing the child slots of a block that is no node.
  ghost function Blanked(t: Forest, b: nat): Forest {
    t.(slot := t.slot[Child(b, 0) := Nil][Child(b, 1) := Nil])
  }

  lemma {:induction false} TrieBlank(t: Forest, b: nat)
    requires Trie(t) && b !in t.depth
    ensures Trie(Blanked(t, b))
  {
    var u := Blanked(t, b);
    forall i | 0 <= i < NUM_BUCKETS
      ensures SlotOk(u, Root(i))
    {
      assert SlotOk(t, Root(i));
    }
    forall x | x in u.depth
      ensures NodeOk(u, x)
    {
      assert NodeOk(t, x);
      if t.parent[x].Child? { assert t.parent[x].node in t.depth; }
    }
  }
}
