// When the search of the tries finds the smallest block that fits. Its walks do not visit every
// node, so this depends on where in the trie the smallest fitting node is.
module MmFit {
  import opened MmSize
  import opened MmBits
  import opened Seqs
  import opened MmRing
  import opened MmTrie

  // A node of bucket i.
  ghost predicate InBucket(t: Forest, i: nat, r: Ref) {
    && r.Block? && r.addr in t.depth && r.addr in t.size && LargeSize(t.size[r.addr])
    && Bucket(t.size[r.addr]) == i
  }

  // No node of n bytes or more is smaller than p.
  ghost predicate NodeBest(t: Forest, n: nat, p: nat)
    requires p in t.size
  {
    forall c :: c in t.depth && c in t.size && n <= t.size[c] ==> t.size[p] <= t.size[c]
  }

  // q is the smallest node of n bytes or more.
  ghost predicate LeastFit(t: Forest, n: nat, q: nat) {
    q in t.depth && q in t.size && n <= t.size[q] && NodeBest(t, n, q)
  }

  // The walk along the bits of n comes to p.
  ghost predicate Visited(t: Forest, n: nat, p: nat) {
    p in t.depth && OnPath(t, n, p, t.depth[p])
  }

  // q is in the bucket of n and on the path of n or a child of a node there, or it is the root of
  // another bucket.
  ghost predicate AtHand(t: Forest, n: nat, q: nat)
    requires n != 0
  {
    && q in t.depth && q in t.size && t.size[q] != 0 && q in t.parent
    && if Bucket(t.size[q]) == Bucket(n) then
         Visited(t, n, q) || (t.parent[q].Child? && Visited(t, n, t.parent[q].node))
       else
         t.parent[q] == Root(Bucket(t.size[q]))
  }

  // The smallest node that serves n is at hand.
  ghost predicate BestAtHand(t: Forest, n: nat)
    requires n != 0
  {
    exists q :: LeastFit(t, n, q) && AtHand(t, n, q)
  }

  // ---------- the walk along the path of n ----------

  // q branches off the path of n to the larger side, at its own level or above.
  ghost predicate Right(t: Forest, n: nat, q: nat) {
    && n != 0 && InBucket(t, Bucket(n), Block(q)) && t.depth[q] <= Bucket(n)
    && Prefix(n, Bucket(n), t.depth[q]) < Prefix(t.size[q], Bucket(n), t.depth[q])
  }

  lemma {:induction false} RightIsAbove(t: Forest, n: nat, q: nat)
    requires Right(t, n, q)
    ensures n < t.size[q]
  {
    if t.size[q] <= n { ShrMonotone(t.size[q], n, Bucket(n) - t.depth[q]); }
  }

  lemma {:induction false} RightChild(t: Forest, n: nat, q: nat, c: nat)
    requires Trie(t) && Right(t, n, q) && NodeOk(t, c) && t.parent[c].Child? && t.parent[c].node == q
    ensures Right(t, n, c)
  {
    var i, d := Bucket(n), t.depth[q];
    PrefixStep(n, i, d);
    PrefixStep(t.size[c], i, d);
  }

  // q is a child of a node on the path of n, on the larger side.
  ghost predicate Hangs(t: Forest, n: nat, q: nat) {
    Right(t, n, q) && q in t.parent && t.parent[q].Child? && Visited(t, n, t.parent[q].node)
  }

  lemma {:induction false} KeptHangs(t: Forest, n: nat, p: nat, d: nat, q: nat)
    requires Trie(t) && OnPath(t, n, p, d) && d < Bucket(n) && Branch(n, Bucket(n), d) == 0
    requires NodeOk(t, q) && t.parent[q] == Child(p, 1)
    ensures Hangs(t, n, q) && t.depth[q] == d + 1
  {
    PrefixStep(n, Bucket(n), d);
    PrefixStep(t.size[q], Bucket(n), d);
  }

  // Of two subtrees that hang off the path, the one further down holds the smaller sizes.
  lemma {:induction false} LowerIsSmaller(t: Forest, n: nat, q: nat, q': nat, c: nat)
    requires Trie(t) && Right(t, n, q) && Right(t, n, q') && t.depth[q] < t.depth[q']
    requires Prefix(t.size[q'], Bucket(n), t.depth[q]) == Prefix(n, Bucket(n), t.depth[q])
    requires c in t.size && (t.size[q] <= t.size[c] || Under(t, q, c))
    ensures t.size[q'] < t.size[c]
  {
    var k := Bucket(n) - t.depth[q];
    if t.size[q] <= t.size[c] { ShrMonotone(t.size[q], t.size[c], k); }
    if t.size[c] <= t.size[q'] { ShrMonotone(t.size[c], t.size[q'], k); }
  }

  // c is no smaller than the best fit so far or than the subtree kept for later, or is inside it.
  ghost predicate Covered(t: Forest, best: Ref, rst: Ref, c: nat) {
    && c in t.size
    && (|| (best.Block? && best.addr in t.size && t.size[best.addr] <= t.size[c])
        || (rst.Block? && rst.addr in t.size && (t.size[rst.addr] <= t.size[c] || Under(t, rst.addr, c))))
  }

  // A fit that leaves the path at p is in the subtree that is kept there.
  lemma {:induction false} KeptCovers(t: Forest, n: nat, p: nat, d: nat, q: nat, c: nat)
    requires Trie(t) && OnPath(t, n, p, d) && d < Bucket(n) && Branch(n, Bucket(n), d) == 0
    requires NodeOk(t, q) && t.parent[q] == Child(p, 1)
    requires Enough(t, n, c) && Ahead(t, n, d, c) && c != p && Branch(t.size[c], Bucket(n), d) == 1
    ensures c == q || Under(t, q, c)
  {
    var i := Bucket(n);
    BelowOrSame(t, p, c, i, d);
    PrefixStep(t.size[q], i, d);
    PrefixStep(t.size[c], i, d);
    if t.depth[c] == d + 1 { PathIsUnique(t, c, q); }
  }

  // The smaller of the best fit so far and p, if p is large enough.
  function Better(t: Forest, n: nat, best: Ref, p: nat): Ref
    requires p in t.size && (best.Block? ==> best.addr in t.size)
  {
    if t.size[p] >= n && (!best.Block? || t.size[p] < t.size[best.addr]) then Block(p) else best
  }

  // The subtree kept after p: its larger child, if the path goes to the smaller side.
  function Keep(t: Forest, p: nat, bit: nat, rst: Ref): Ref
    requires Child(p, 1) in t.slot
  {
    if bit == 0 && t.slot[Child(p, 1)] != Nil then t.slot[Child(p, 1)] else rst
  }

  // The state of the walk along the path of n, at p, d levels down: what fits is ahead or covered.
  ghost predicate Walking(t: Forest, n: nat, p: nat, d: nat, best: Ref, rst: Ref) {
    && OnPath(t, n, p, d) && Seen(t, n, best) && Reserved(t, n, d, rst)
    && (forall c :: Enough(t, n, c) ==> Ahead(t, n, d, c) || Covered(t, best, rst, c))
  }

  // The best fit so far is on the path.
  ghost predicate Seen(t: Forest, n: nat, best: Ref) {
    best != Nil ==> n != 0 && InBucket(t, Bucket(n), best) && n < t.size[best.addr] && Visited(t, n, best.addr)
  }

  // The subtree kept for later hangs off the path.
  ghost predicate Reserved(t: Forest, n: nat, d: nat, rst: Ref) {
    rst != Nil ==> rst.Block? && Hangs(t, n, rst.addr) && t.depth[rst.addr] <= d
  }

  lemma {:induction false} WalkStarts(t: Forest, n: nat)
    requires Trie(t) && LargeSize(n) && Root(Bucket(n)) in t.slot && t.slot[Root(Bucket(n))] != Nil
    ensures t.slot[Root(Bucket(n))].Block? && Walking(t, n, t.slot[Root(Bucket(n))].addr, 0, Nil, Nil)
  {
    assert SlotOk(t, Root(Bucket(n)));
    RootOnPath(t, n);
    forall c | Enough(t, n, c)
      ensures Ahead(t, n, 0, c)
    {
      RootAhead(t, n, c);
    }
  }

  // What fits stays covered, or is ahead of the next step; then there is a next step.
  lemma {:induction false} StepCovers(t: Forest, n: nat, p: nat, d: nat, best: Ref, rst: Ref, c: nat)
    requires Trie(t) && NodeOk(t, p) && OnPath(t, n, p, d) && Seen(t, n, best) && Reserved(t, n, d, rst)
      && d < Bucket(n)
    requires Enough(t, n, c) && (Ahead(t, n, d, c) || Covered(t, best, rst, c))
    ensures
      || Covered(t, Better(t, n, best, p), Keep(t, p, Branch(n, Bucket(n), d), rst), c)
      || (Ahead(t, n, d + 1, c) && t.slot[Child(p, Branch(n, Bucket(n), d))] != Nil)
  {
    hide Trie, OnPath;
    var bit := Branch(n, Bucket(n), d);
    var q := t.slot[Child(p, 1)];
    if Covered(t, best, rst, c) {
      if Keep(t, p, bit, rst) != rst { StaysCovered(t, n, p, d, rst, q.addr, c); }
    } else if c != p {
      StillAhead(t, n, p, d, c);
      if Branch(t.size[c], Bucket(n), d) != bit {
        KeptNode(t, p);
        KeptCovers(t, n, p, d, q.addr, c);
      }
    }
  }

  lemma {:induction false} KeptNode(t: Forest, p: nat)
    requires Trie(t) && NodeOk(t, p) && t.slot[Child(p, 1)] != Nil
    ensures t.slot[Child(p, 1)].Block? && NodeOk(t, t.slot[Child(p, 1)].addr)
    ensures t.parent[t.slot[Child(p, 1)].addr] == Child(p, 1)
  {
    assert NodeOk(t, t.slot[Child(p, 1)].addr);
  }

  // What the subtree kept so far covers is larger than the subtree kept now.
  lemma {:induction false} StaysCovered(t: Forest, n: nat, p: nat, d: nat, rst: Ref, q: nat, c: nat)
    requires Trie(t) && NodeOk(t, p) && OnPath(t, n, p, d) && Reserved(t, n, d, rst) && d < Bucket(n)
      && Branch(n, Bucket(n), d) == 0
    requires t.slot[Child(p, 1)] == Block(q)
    ensures NodeOk(t, q) && (Covered(t, Nil, rst, c) ==> t.size[q] < t.size[c])
  {
    KeptNode(t, p);
    KeptHangs(t, n, p, d, q);
    if Covered(t, Nil, rst, c) {
      var i := Bucket(n);
      PrefixStep(t.size[q], i, d);
      PrefixOfPrefix(t.size[p], n, i, t.depth[rst.addr], d);
      PrefixOfPrefix(t.size[q], t.size[p], i, t.depth[rst.addr], d);
      LowerIsSmaller(t, n, rst.addr, q, c);
    }
  }

  // One step: the better fit and the subtree to keep, and the walk goes on or is complete.
  lemma {:induction false} WalkSteps(t: Forest, n: nat, p: nat, d: nat, best: Ref, rst: Ref)
    requires Trie(t) && LargeSize(n) && NodeOk(t, p) && Walking(t, n, p, d, best, rst) && t.size[p] != n
      && d < Bucket(n)
    ensures var bit := Branch(n, Bucket(n), d);
      var q, best', rst' := t.slot[Child(p, bit)], Better(t, n, best, p), Keep(t, p, bit, rst);
      && Seen(t, n, best') && Reserved(t, n, d + 1, rst')
      && if q == Nil then
           && (forall c :: c in t.depth && c in t.size ==> t.size[c] != n)
           && (forall c :: Enough(t, n, c) ==> Covered(t, best', rst', c))
         else
           q.Block? && Walking(t, n, q.addr, d + 1, best', rst')
  {
    hide Enough, Ahead, Covered, Trie, Hangs;
    var bit := Branch(n, Bucket(n), d);
    var q, best', rst' := t.slot[Child(p, bit)], Better(t, n, best, p), Keep(t, p, bit, rst);
    if rst' != rst {
      KeptNode(t, p);
      KeptHangs(t, n, p, d, rst'.addr);
    }
    forall c | Enough(t, n, c)
      ensures Covered(t, best', rst', c) || (Ahead(t, n, d + 1, c) && q != Nil)
    {
      StepCovers(t, n, p, d, best, rst, c);
    }
    NextNode(t, n, p, d);
  }

  lemma {:induction false} NextNode(t: Forest, n: nat, p: nat, d: nat)
    requires Trie(t) && LargeSize(n) && NodeOk(t, p) && OnPath(t, n, p, d) && t.size[p] != n && d < Bucket(n)
    ensures var q := t.slot[Child(p, Branch(n, Bucket(n), d))];
      if q == Nil then forall c :: c in t.depth && c in t.size ==> t.size[c] != n
      else q.Block? && OnPath(t, n, q.addr, d + 1)
  {
    var q := t.slot[Child(p, Branch(n, Bucket(n), d))];
    if q == Nil {
      PathIsFree(t, n, p, d);
    } else {
      assert NodeOk(t, q.addr);
      ChildOnPath(t, n, p, d, q.addr);
    }
  }

  // ---------- the walks below a node ----------

  // The step of the other two walks: to child 1 if child 0 exists, else to child 0 (which is
  // then missing).
  function Down(t: Forest, p: nat): Ref
    requires Child(p, 0) in t.slot && Child(p, 1) in t.slot
  {
    t.slot[Child(p, if t.slot[Child(p, 0)] != Nil then 1 else 0)]
  }

  // Where k such steps lead.
  ghost function DownBy(t: Forest, start: Ref, k: nat): Ref {
    if k == 0 then start
    else
      var q := DownBy(t, start, k - 1);
      if q.Block? && Child(q.addr, 0) in t.slot && Child(q.addr, 1) in t.slot then Down(t, q.addr) else Nil
  }

  // p is one of the nodes that the steps from start lead to.
  ghost predicate OnChain(t: Forest, start: Ref, p: nat) {
    exists k: nat :: DownBy(t, start, k) == Block(p)
  }

  // None of the first k of them is smaller than p.
  ghost predicate LeastUpto(t: Forest, start: Ref, k: nat, p: nat) {
    && p in t.size
    && forall j: nat, c :: j < k && DownBy(t, start, j) == Block(c) && c in t.size ==> t.size[p] <= t.size[c]
  }

  // None of them is smaller than p.
  ghost predicate LeastOnChain(t: Forest, start: Ref, p: nat) {
    p in t.size && forall c :: OnChain(t, start, c) && c in t.size ==> t.size[p] <= t.size[c]
  }

  lemma {:induction false} ChainEnds(t: Forest, start: Ref, k: nat, p: nat)
    requires LeastUpto(t, start, k, p) && DownBy(t, start, k) == Nil
    ensures LeastOnChain(t, start, p)
  {
    forall c | OnChain(t, start, c) && c in t.size
      ensures t.size[p] <= t.size[c]
    {
      var j: nat :| DownBy(t, start, j) == Block(c);
      if k <= j { NilStays(t, start, k, j); }
    }
  }

  lemma {:induction false} NilStays(t: Forest, start: Ref, k: nat, j: nat)
    requires DownBy(t, start, k) == Nil && k <= j
    ensures DownBy(t, start, j) == Nil
  {
    if k < j { NilStays(t, start, k, j - 1); }
  }

  // One more step: the smaller of p and the node q that k steps lead to.
  lemma {:induction false} ChainStep(t: Forest, start: Ref, k: nat, p: nat, q: nat, p': nat)
    requires DownBy(t, start, k) == Block(q) && q in t.size && Child(q, 0) in t.slot && Child(q, 1) in t.slot
    requires p' in t.size && t.size[p'] <= t.size[q] && (LeastUpto(t, start, k, p) || k == 0)
    requires p in t.size && (k == 0 || t.size[p'] <= t.size[p])
    ensures LeastUpto(t, start, k + 1, p') && DownBy(t, start, k + 1) == Down(t, q) && OnChain(t, start, q)
  {
    hide DownBy;
    NextStep(t, start, k, q);
  }

  lemma {:induction false} NextStep(t: Forest, start: Ref, k: nat, q: nat)
    requires DownBy(t, start, k) == Block(q) && Child(q, 0) in t.slot && Child(q, 1) in t.slot
    ensures DownBy(t, start, k + 1) == Down(t, q)
  {
  }

  lemma {:induction false} DownStays(t: Forest, i: nat, p: nat)
    requires Trie(t) && InBucket(t, i, Block(p))
    ensures Child(p, 0) in t.slot && Child(p, 1) in t.slot
    ensures Down(t, p) != Nil ==> InBucket(t, i, Down(t, p)) && t.depth[p] < t.depth[Down(t, p).addr] <= i
  {
    assert NodeOk(t, p);
    if Down(t, p) != Nil {
      assert NodeOk(t, Down(t, p).addr);
      ChildBucket(t, p, Down(t, p).addr);
    }
  }

  // A node of bucket i with at least lo bytes is smaller than q.
  ghost predicate Beaten(t: Forest, i: nat, lo: nat, q: nat) {
    q in t.size && exists c :: InBucket(t, i, Block(c)) && lo <= t.size[c] < t.size[q]
  }

  // The walk only goes on to a child 1 that has a sibling, and all sizes there are smaller.
  lemma {:induction false} SiblingIsSmaller(t: Forest, i: nat, p: nat) returns (c: nat)
    requires Trie(t) && InBucket(t, i, Block(p)) && NodeOk(t, p) && Down(t, p) != Nil
    ensures InBucket(t, i, Block(c)) && NodeOk(t, c) && t.parent[c] == Child(p, 0)
    ensures Down(t, p).Block? && Down(t, p).addr in t.size && t.size[c] < t.size[Down(t, p).addr]
  {
    c := t.slot[Child(p, 0)].addr;
    var q, d := Down(t, p).addr, t.depth[p];
    assert NodeOk(t, c) && NodeOk(t, q);
    ChildBucket(t, p, c);
    PrefixStep(t.size[c], i, d);
    PrefixStep(t.size[q], i, d);
    if t.size[q] <= t.size[c] { ShrMonotone(t.size[q], t.size[c], i - (d + 1)); }
  }

  // The same in a subtree that hangs off the path of n: the smaller size fits.
  lemma {:induction false} DownRight(t: Forest, n: nat, p: nat)
    requires Trie(t) && Right(t, n, p) && NodeOk(t, p) && Down(t, p) != Nil
    ensures Down(t, p).Block? && Right(t, n, Down(t, p).addr) && Beaten(t, Bucket(n), n, Down(t, p).addr)
  {
    var c := SiblingIsSmaller(t, Bucket(n), p);
    RightChild(t, n, p, c);
    RightIsAbove(t, n, c);
    assert NodeOk(t, Down(t, p).addr);
    RightChild(t, n, p, Down(t, p).addr);
  }

  // ---------- when the result is the smallest ----------

  // A larger bucket holds larger sizes.
  lemma {:induction false} HigherIsLarger(m: nat, n: nat)
    requires m != 0 && n != 0 && Bucket(m) < Bucket(n)
    ensures m < n
  {
    if n <= m { HighBitMonotone(n, m); }
  }

  // No node at hand that serves n is smaller than p.
  ghost predicate NoneNearer(t: Forest, n: nat, p: nat)
    requires n != 0
  {
    p in t.size && forall c :: AtHand(t, n, c) && n <= t.size[c] ==> t.size[p] <= t.size[c]
  }

  // A node of exactly n bytes.
  lemma {:induction false} ExactIsBest(t: Forest, n: nat, p: nat)
    requires Trie(t) && n != 0 && Visited(t, n, p) && t.size[p] == n
    ensures NodeBest(t, n, p) && BestAtHand(t, n) && NoneNearer(t, n, p)
  {
    assert NodeOk(t, p);
    assert LeastFit(t, n, p) && AtHand(t, n, p);
  }

  // What is at hand in the bucket of n is not below the root of a subtree that was kept.
  lemma {:induction false} NotBelowKept(t: Forest, n: nat, q: nat, c: nat)
    requires Trie(t) && n != 0 && Right(t, n, q) && Under(t, q, c) && NodeOk(t, c)
    ensures !AtHand(t, n, c)
  {
    var i, d := Bucket(n), t.depth[q];
    if Visited(t, n, c) {
      PrefixOfPrefix(t.size[c], n, i, d, t.depth[c]);
    } else if t.parent[c].Child? && Visited(t, n, t.parent[c].node) {
      var p := t.parent[c].node;
      PrefixOfPrefix(t.size[c], t.size[p], i, d, t.depth[p]);
      PrefixOfPrefix(t.size[p], n, i, d, t.depth[p]);
    }
  }

  // What the first two walks find in the bucket of n.
  ghost predicate FoundInBucket(t: Forest, n: nat, best0: Ref, rst: Ref, best: Ref)
    requires n != 0
  {
    && InBucket(t, Bucket(n), best) && n <= t.size[best.addr]
    && (best0 != Nil ==> InBucket(t, Bucket(n), best0) && t.size[best.addr] <= t.size[best0.addr])
    && (rst != Nil ==> InBucket(t, Bucket(n), rst) && t.size[best.addr] <= t.size[rst.addr])
    && (best == best0 || best == rst || Beaten(t, Bucket(n), n, best.addr))
    && (best == best0 || OnChain(t, rst, best.addr)) && LeastOnChain(t, rst, best.addr)
  }

  lemma {:induction false} KeptIsBest(t: Forest, n: nat, best0: Ref, rst: Ref, best: Ref)
    requires Trie(t) && n != 0 && Seen(t, n, best0) && Reserved(t, n, Bucket(n), rst)
      && FoundInBucket(t, n, best0, rst, best)
    requires forall c :: Enough(t, n, c) ==> Covered(t, best0, rst, c)
    ensures NodeBest(t, n, best.addr) <==> BestAtHand(t, n)
  {
    assert NodeOk(t, best.addr);
    if NodeBest(t, n, best.addr) {
      assert !Beaten(t, Bucket(n), n, best.addr);
      assert LeastFit(t, n, best.addr) && AtHand(t, n, best.addr);
    }
    if BestAtHand(t, n) {
      var q :| LeastFit(t, n, q) && AtHand(t, n, q);
      AtHandIsFound(t, n, best0, rst, best, q);
    }
  }

  lemma {:induction false} KeptIsNearest(t: Forest, n: nat, best0: Ref, rst: Ref, best: Ref)
    requires Trie(t) && n != 0 && Reserved(t, n, Bucket(n), rst) && FoundInBucket(t, n, best0, rst, best)
    requires forall c :: Enough(t, n, c) ==> Covered(t, best0, rst, c)
    ensures NoneNearer(t, n, best.addr)
  {
    forall c | AtHand(t, n, c) && n <= t.size[c]
      ensures t.size[best.addr] <= t.size[c]
    {
      NotNearer(t, n, best0, rst, best, c);
    }
  }

  lemma {:induction false} NotNearer(t: Forest, n: nat, best0: Ref, rst: Ref, best: Ref, c: nat)
    requires Trie(t) && n != 0 && Reserved(t, n, Bucket(n), rst) && FoundInBucket(t, n, best0, rst, best)
    requires forall d :: Enough(t, n, d) ==> Covered(t, best0, rst, d)
    requires AtHand(t, n, c) && n <= t.size[c]
    ensures t.size[best.addr] <= t.size[c]
  {
    hide OnChain, LeastOnChain;
    assert NodeOk(t, c);
    HighBitMonotone(n, t.size[c]);
    if Bucket(n) < Bucket(t.size[c]) {
      HigherIsLarger(t.size[best.addr], t.size[c]);
    } else {
      assert Enough(t, n, c) && Covered(t, best0, rst, c);
      if rst != Nil && Under(t, rst.addr, c) { NotBelowKept(t, n, rst.addr, c); }
    }
  }

  lemma {:induction false} AtHandIsFound(t: Forest, n: nat, best0: Ref, rst: Ref, best: Ref, q: nat)
    requires Trie(t) && n != 0 && Reserved(t, n, Bucket(n), rst) && FoundInBucket(t, n, best0, rst, best)
    requires forall c :: Enough(t, n, c) ==> Covered(t, best0, rst, c)
    requires LeastFit(t, n, q) && AtHand(t, n, q)
    ensures NodeBest(t, n, best.addr)
  {
    assert NodeOk(t, q);
    HighBitMonotone(n, t.size[q]);
    HighBitMonotone(t.size[q], t.size[best.addr]);
    assert Enough(t, n, q) && Covered(t, best0, rst, q);
    if rst != Nil && Under(t, rst.addr, q) { NotBelowKept(t, n, rst.addr, q); }
  }

  // No node in a bucket below i is large enough for n.
  ghost predicate NothingBelow(t: Forest, n: nat, i: nat) {
    forall c :: c in t.depth && c in t.size && n <= t.size[c] && t.size[c] != 0 ==> i <= Bucket(t.size[c])
  }

  // No node of bucket i is smaller than p.
  ghost predicate LeastOf(t: Forest, i: nat, p: nat) {
    p in t.size && forall c :: InBucket(t, i, Block(c)) ==> t.size[p] <= t.size[c]
  }

  // What the third walk finds in bucket i, above that of n, when nothing fits below.
  lemma {:induction false} RootIsBest(t: Forest, n: nat, i: nat, best: nat)
    requires Trie(t) && n != 0 && Bucket(n) < i && InBucket(t, i, Block(best)) && Root(i) in t.slot
      && t.slot[Root(i)].Block?
    requires NothingBelow(t, n, i)
    requires LeastOf(t, i, best) <==> LeastOf(t, i, t.slot[Root(i)].addr)
    ensures NodeBest(t, n, best) <==> BestAtHand(t, n)
  {
    InBucketIsBest(t, n, i, best);
    hide LeastOf, NodeBest, LeastFit, AtHand;
    RootAtHand(t, n, i);
    if BestAtHand(t, n) {
      var q :| LeastFit(t, n, q) && AtHand(t, n, q);
      AtHandIsRoot(t, n, i, q);
    }
  }

  lemma {:induction false} RootIsNearest(t: Forest, n: nat, i: nat, best: nat)
    requires Trie(t) && n != 0 && Bucket(n) < i < NUM_BUCKETS && InBucket(t, i, Block(best)) && NothingBelow(t, n, i)
    requires Root(i) in t.slot && t.slot[Root(i)].Block? && t.slot[Root(i)].addr in t.size
    requires t.size[best] <= t.size[t.slot[Root(i)].addr]
    ensures NoneNearer(t, n, best)
  {
    forall c | AtHand(t, n, c) && n <= t.size[c]
      ensures t.size[best] <= t.size[c]
    {
      assert NodeOk(t, c);
      HighBitMonotone(n, t.size[c]);
      if i < Bucket(t.size[c]) { HigherIsLarger(t.size[best], t.size[c]); }
    }
  }

  lemma {:induction false} RootAtHand(t: Forest, n: nat, i: nat)
    requires Trie(t) && n != 0 && Bucket(n) < i < NUM_BUCKETS && Root(i) in t.slot && t.slot[Root(i)].Block?
    requires NothingBelow(t, n, i)
    ensures var root := t.slot[Root(i)].addr;
      && AtHand(t, n, root) && InBucket(t, i, Block(root)) && (LeastOf(t, i, root) <==> LeastFit(t, n, root))
  {
    var root := t.slot[Root(i)].addr;
    assert SlotOk(t, Root(i)) && NodeOk(t, root);
    InBucketIsBest(t, n, i, root);
    HigherIsLarger(n, t.size[root]);
  }

  // Only the root of bucket i can be the smallest fit and at hand.
  lemma {:induction false} AtHandIsRoot(t: Forest, n: nat, i: nat, q: nat)
    requires Trie(t) && n != 0 && Bucket(n) < i && Root(i) in t.slot && t.slot[Root(i)].Block?
    requires NothingBelow(t, n, i)
    requires LeastFit(t, n, q) && AtHand(t, n, q) && InBucket(t, i, t.slot[Root(i)])
    ensures t.slot[Root(i)] == Block(q)
  {
    var root := t.slot[Root(i)].addr;
    HigherIsLarger(n, t.size[root]);
    HighBitMonotone(t.size[q], t.size[root]);
    assert NodeOk(t, q);
  }

  lemma {:induction false} InBucketIsBest(t: Forest, n: nat, i: nat, p: nat)
    requires Trie(t) && n != 0 && Bucket(n) < i && InBucket(t, i, Block(p))
    requires NothingBelow(t, n, i)
    ensures NodeBest(t, n, p) <==> LeastOf(t, i, p)
  {
    forall c | InBucket(t, i, Block(c))
      ensures n <= t.size[c]
    {
      HigherIsLarger(n, t.size[c]);
    }
    if LeastOf(t, i, p) {
      forall c | c in t.depth && c in t.size && n <= t.size[c]
        ensures t.size[p] <= t.size[c]
      {
        if i < Bucket(t.size[c]) { HigherIsLarger(t.size[p], t.size[c]); } else { assert InBucket(t, i, Block(c)); }
      }
    }
  }
}
