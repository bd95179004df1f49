// All rings of the free-block index together: 64 small rings, the rest list and one ring of
// equal-sized peers for each size in a trie.
module MmRings {
  import opened MmSize
  import opened Seqs
  import opened MmRing

  datatype RingId = SmallRing(index: nat) | RestRing | PeerRing(size: nat)

  // The links, the rings they form (a list head or a trie node comes first), and the ring
  // each indexed block is in.
  datatype Rings = Rings(next: Links, prev: Links, ghost ring: map<RingId, seq<Ref>>, ghost home: map<nat, RingId>)

  function Anchor(k: RingId): Ref {
    match k
    case SmallRing(i) => SmallHead(i)
    case RestRing => RestHead
    case PeerRing(_) => Nil
  }

  // Members of ring k: its list head first (unless it is a peer ring), then only blocks at home in k.
  ghost predicate Members(r: Rings, k: RingId, c: seq<Ref>) {
    && (k.SmallRing? ==> k.index < NUM_BUCKETS)
    && (!k.PeerRing? ==> c != [] && c[0] == Anchor(k))
    && (forall j :: (if k.PeerRing? then 0 else 1) <= j < |c| ==>
      c[j].Block? && c[j].addr in r.home && r.home[c[j].addr] == k)
  }

  ghost predicate RingOk(r: Rings, k: RingId) {
    && k in r.ring
    && Ring(r.next, r.prev, r.ring[k])
    && Members(r, k, r.ring[k])
  }

  // Every ring is a cycle of its own members, and every indexed block is in exactly one ring.
  ghost predicate RingsOk(r: Rings) {
    && (forall k {:trigger RingOk(r, k)} :: k in r.ring ==> RingOk(r, k))
    && (forall i :: 0 <= i < NUM_BUCKETS ==> SmallRing(i) in r.ring)
    && RestRing in r.ring
    && (forall b :: b in r.home ==> r.home[b] in r.ring && Block(b) in r.ring[r.home[b]])
  }

  // A reference belongs to at most one ring.
  lemma {:induction false} OneRing(r: Rings, k: RingId, l: RingId, x: Ref)
    requires RingOk(r, k) && RingOk(r, l) && x in r.ring[k] && x in r.ring[l]
    ensures k == l
  {
    var i :| 0 <= i < |r.ring[k]| && r.ring[k][i] == x;
    var j :| 0 <= j < |r.ring[l]| && r.ring[l][j] == x;
  }

  // ---------- updates ----------

  ghost function Joined(r: Rings, k: RingId, j: nat, b: nat): Rings
    requires k in r.ring && j < |r.ring[k]| && r.ring[k][j] in r.next
  {
    var p := r.ring[k][j];
    Rings(LinkNext(r.next, p, r.next[p], Block(b)), LinkPrev(r.prev, p, r.next[p], Block(b)),
          r.ring[k := Inserted(r.ring[k], j, Block(b))], r.home[b := k])
  }

  // The neighbours of a member of a ring are members.
  lemma {:induction false} Neighbours(r: Rings, k: RingId, j: nat)
    requires RingOk(r, k) && j < |r.ring[k]|
    ensures r.next[r.ring[k][j]] in r.ring[k] && r.prev[r.ring[k][j]] in r.ring[k]
  {
    var c := r.ring[k];
    assert After(c, j) in c && Before(c, j) in c;
  }

  lemma {:induction false} JoinedOther(r: Rings, k: RingId, j: nat, b: nat, l: RingId)
    requires RingsOk(r) && RingOk(r, k) && j < |r.ring[k]| && b !in r.home
    requires l in r.ring && l != k
    ensures RingOk(Joined(r, k, j, b), l)
  {
    var s, c := Joined(r, k, j, b), r.ring[l];
    assert RingOk(r, l);
    Neighbours(r, k, j);
    assert Block(b) !in c;
    forall x | x in c
      ensures x != r.ring[k][j] && x != r.next[r.ring[k][j]]
    {
      if x in r.ring[k] { OneRing(r, k, l, x); }
    }
    RingFrame(r.next, r.prev, s.next, s.prev, c);
  }

  lemma {:induction false} JoinedMembers(r: Rings, k: RingId, j: nat, b: nat)
    requires RingOk(r, k) && j < |r.ring[k]| && b !in r.home
    ensures Members(Joined(r, k, j, b), k, Inserted(r.ring[k], j, Block(b)))
  {
    var c, d, home := r.ring[k], Inserted(r.ring[k], j, Block(b)), r.home[b := k];
    hide Inserted, Ring;
    InsertedAt(c, j, Block(b), 0);
    forall i | (if k.PeerRing? then 0 else 1) <= i < |d|
      ensures d[i].Block? && d[i].addr in home && home[d[i].addr] == k
    {
      InsertedAt(c, j, Block(b), i);
    }
  }

  lemma {:induction false} JoinedSelf(r: Rings, k: RingId, j: nat, b: nat)
    requires RingOk(r, k) && j < |r.ring[k]| && b !in r.home
    ensures RingOk(Joined(r, k, j, b), k)
  {
    assert Block(b) !in r.ring[k];
    RingInsert(r.next, r.prev, r.ring[k], j, Block(b));
    JoinedMembers(r, k, j, b);
  }

  // Linking an unindexed block behind a member of ring k puts it into ring k and no other.
  lemma {:induction false} RingsJoin(r: Rings, k: RingId, j: nat, b: nat)
    requires RingsOk(r) && RingOk(r, k) && j < |r.ring[k]| && b !in r.home
    ensures RingsOk(Joined(r, k, j, b))
  {
    var s := Joined(r, k, j, b);
    forall l | l in s.ring
      ensures RingOk(s, l)
    {
      if l == k { JoinedSelf(r, k, j, b); } else { JoinedOther(r, k, j, b, l); }
    }
    forall x | x in s.home
      ensures s.home[x] in s.ring && Block(x) in s.ring[s.home[x]]
    {
      InsertedHas(r.ring[k], j, Block(b), Block(x));
    }
  }

  ghost function Left(r: Rings, k: RingId, j: nat): Rings
    requires k in r.ring && j < |r.ring[k]| && r.ring[k][j].Block?
    requires r.ring[k][j] in r.next && r.ring[k][j] in r.prev
  {
    var x := r.ring[k][j];
    var p, n := r.prev[x], r.next[x];
    Rings(r.next[p := n], r.prev[n := p], r.ring[k := Removed(r.ring[k], j)], r.home - {x.addr})
  }

  lemma {:induction false} LeftOther(r: Rings, k: RingId, j: nat, l: RingId)
    requires RingsOk(r) && RingOk(r, k) && j < |r.ring[k]| && r.ring[k][j].Block?
    requires l in r.ring && l != k
    ensures RingOk(Left(r, k, j), l)
  {
    var s, c := Left(r, k, j), r.ring[l];
    assert RingOk(r, l);
    Neighbours(r, k, j);
    forall x | x in c
      ensures x != r.ring[k][j] && x != r.next[r.ring[k][j]] && x != r.prev[r.ring[k][j]]
    {
      if x in r.ring[k] { OneRing(r, k, l, x); }
    }
    RingFrame(r.next, r.prev, s.next, s.prev, c);
  }

  lemma {:induction false} LeftSelf(r: Rings, k: RingId, j: nat)
    requires RingOk(r, k) && j < |r.ring[k]| && 2 <= |r.ring[k]| && r.ring[k][j].Block?
    ensures RingOk(Left(r, k, j), k)
  {
    var s, c := Left(r, k, j), r.ring[k];
    RingRemove(r.next, r.prev, c, j);
    var d := s.ring[k];
    assert !k.PeerRing? ==> j != 0;
    forall i | (if k.PeerRing? then 0 else 1) <= i < |d|
      ensures d[i].Block? && d[i].addr in s.home && s.home[d[i].addr] == k
    {
      assert d[i] == c[if i < j then i else i + 1];
    }
  }

  // Unlinking a block from a ring of two or more takes it out of the index and disturbs no other.
  lemma {:induction false} RingsLeave(r: Rings, k: RingId, j: nat)
    requires RingsOk(r) && RingOk(r, k) && j < |r.ring[k]| && 2 <= |r.ring[k]| && r.ring[k][j].Block?
    ensures RingsOk(Left(r, k, j))
  {
    var s := Left(r, k, j);
    forall l | l in s.ring
      ensures RingOk(s, l)
    {
      if l == k { LeftSelf(r, k, j); } else { LeftOther(r, k, j, l); }
    }
    forall x | x in s.home
      ensures s.home[x] in s.ring && Block(x) in s.ring[s.home[x]]
    {
      RemovedHas(r.ring[k], j, Block(x));
    }
  }

  // A ring is still a ring when read from its last member on.
  ghost function Turned(r: Rings, k: RingId): Rings
    requires k in r.ring && r.ring[k] != []
  {
    r.(ring := r.ring[k := Rotated(r.ring[k])])
  }

  lemma {:induction false} RingsTurn(r: Rings, k: RingId)
    requires RingsOk(r) && RingOk(r, k) && k.PeerRing?
    ensures RingsOk(Turned(r, k))
  {
    var s, c := Turned(r, k), r.ring[k];
    var d := s.ring[k];
    RingRotate(r.next, r.prev, c);
    forall i | 0 <= i < |d|
      ensures d[i].Block? && d[i].addr in s.home && s.home[d[i].addr] == k
    {
      assert d[i] == c[if i == 0 then |c| - 1 else i - 1];
    }
    forall l | l in s.ring
      ensures RingOk(s, l)
    {
      if l != k { assert RingOk(r, l); }
    }
    forall x | x in s.home
      ensures s.home[x] in s.ring && Block(x) in s.ring[s.home[x]]
    {
      if r.home[x] == k {
        var i :| 0 <= i < |c| && c[i] == Block(x);
        assert d[if i == |c| - 1 then 0 else i + 1] == Block(x);
      }
    }
  }

  // A block that is a ring of its own.
  ghost function Opened(r: Rings, n: nat, b: nat): Rings {
    Rings(r.next[Block(b) := Block(b)], r.prev[Block(b) := Block(b)],
          r.ring[PeerRing(n) := [Block(b)]], r.home[b := PeerRing(n)])
  }

  lemma {:induction false} RingsOpen(r: Rings, n: nat, b: nat)
    requires RingsOk(r) && PeerRing(n) !in r.ring && b !in r.home
    ensures RingsOk(Opened(r, n, b))
  {
    var s := Opened(r, n, b);
    forall l | l in s.ring
      ensures RingOk(s, l)
    {
      if l != PeerRing(n) {
        assert RingOk(r, l);
        assert Block(b) !in r.ring[l];
        RingFrame(r.next, r.prev, s.next, s.prev, r.ring[l]);
      }
    }
  }

  // The last block of a peer ring gone.
  ghost function Closed(r: Rings, n: nat, b: nat): Rings {
    r.(ring := r.ring - {PeerRing(n)}, home := r.home - {b})
  }

  lemma {:induction false} RingsClose(r: Rings, n: nat, b: nat)
    requires RingsOk(r) && PeerRing(n) in r.ring && r.ring[PeerRing(n)] == [Block(b)]
    ensures RingsOk(Closed(r, n, b))
  {
    var s := Closed(r, n, b);
    assert RingOk(r, PeerRing(n));
    assert Block(b) == r.ring[PeerRing(n)][0];
    forall l | l in s.ring
      ensures RingOk(s, l)
    {
      assert RingOk(r, l);
      if Block(b) in r.ring[l] { OneRing(r, PeerRing(n), l, Block(b)); }
    }
    forall x | x in s.home
      ensures s.home[x] in s.ring && Block(x) in s.ring[s.home[x]]
    {
    }
  }
}
