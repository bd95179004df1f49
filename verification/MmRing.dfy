// The circular doubly linked lists that hold free blocks, at the level of their links.
module MmRing {
  import opened Seqs

  // What a free-block link can point to: a block by its address, the list head that is
  // overlaid on free_buckets[2*i], the list head overlaid on rest_buckets, or nothing.
  datatype Ref = Nil | Block(addr: nat) | SmallHead(index: nat) | RestHead

  type Links = map<Ref, Ref>

  // The links of the members of c are exactly the cycle c.
  ghost predicate Ring(next: Links, prev: Links, c: seq<Ref>) {
    && c != []
    && Distinct(c)
    && (forall i :: 0 <= i < |c| ==> c[i] in next && next[c[i]] == After(c, i))
    && (forall i :: 0 <= i < |c| ==> c[i] in prev && prev[c[i]] == Before(c, i))
  }

  function LinkNext(next: Links, p: Ref, n: Ref, b: Ref): Links {
    next[b := n][p := b]
  }

  function LinkPrev(prev: Links, p: Ref, n: Ref, b: Ref): Links {
    prev[b := p][n := b]
  }

  lemma {:induction false} InsertedNext(next: Links, prev: Links, c: seq<Ref>, k: nat, b: Ref, i: nat)
    requires Ring(next, prev, c) && k < |c| && b !in c && i <= |c|
    ensures var d, next' := Inserted(c, k, b), LinkNext(next, c[k], next[c[k]], b);
      d[i] in next' && next'[d[i]] == After(d, i)
  {
    hide Ring, Distinct, Inserted;
    MemberLinks(next, prev, c, k);
    if i != k + 1 { MemberLinks(next, prev, c, if i <= k then i else i - 1); }
    InsertedAt(c, k, b, i);
    InsertedAt(c, k, b, if i < |c| then i + 1 else 0);
    if i != k + 1 { OtherMember(c, k, if i <= k then i else i - 1); }
  }

  lemma {:induction false} InsertedAt<T>(c: seq<T>, k: nat, b: T, i: nat)
    requires k < |c| && i <= |c|
    ensures |Inserted(c, k, b)| == |c| + 1
    ensures Inserted(c, k, b)[i] == if i <= k then c[i] else if i == k + 1 then b else c[i - 1]
  {
  }

  lemma {:induction false} OtherMember<T(!new)>(c: seq<T>, k: nat, i: nat)
    requires Distinct(c) && k < |c| && i < |c|
    ensures c[i] == c[k] <==> i == k
  {
  }

  lemma {:induction false} InsertedPrev(next: Links, prev: Links, c: seq<Ref>, k: nat, b: Ref, i: nat)
    requires Ring(next, prev, c) && k < |c| && b !in c && i <= |c|
    ensures var d, prev' := Inserted(c, k, b), LinkPrev(prev, c[k], next[c[k]], b);
      d[i] in prev' && prev'[d[i]] == Before(d, i)
  {
    hide Ring, Distinct, Inserted;
    MemberLinks(next, prev, c, k);
    InsertedAt(c, k, b, i);
    InsertedAt(c, k, b, if i == 0 then |c| else i - 1);
    var n := if k + 1 < |c| then k + 1 else 0;
    assert next[c[k]] == c[n] && c[n] != b;
    if i != k + 1 {
      var j := if i <= k then i else i - 1;
      MemberLinks(next, prev, c, j);
      OtherMember(c, n, j);
      assert c[j] != b;
    }
  }

  lemma {:induction false} MemberLinks(next: Links, prev: Links, c: seq<Ref>, k: nat)
    requires Ring(next, prev, c) && k < |c|
    ensures c[k] in next && next[c[k]] == After(c, k) && c[k] in prev && prev[c[k]] == Before(c, k) && Distinct(c)
  {
  }

  // Linking b between c[k] and its successor inserts it there.
  lemma {:induction false} RingInsert(next: Links, prev: Links, c: seq<Ref>, k: nat, b: Ref)
    requires Ring(next, prev, c) && k < |c| && b !in c
    ensures Ring(LinkNext(next, c[k], next[c[k]], b), LinkPrev(prev, c[k], next[c[k]], b), Inserted(c, k, b))
  {
    var d := Inserted(c, k, b);
    var next', prev' := LinkNext(next, c[k], next[c[k]], b), LinkPrev(prev, c[k], next[c[k]], b);
    assert Distinct(d);
    forall i | 0 <= i < |d|
      ensures d[i] in next' && next'[d[i]] == After(d, i)
    {
      InsertedNext(next, prev, c, k, b, i);
    }
    forall i | 0 <= i < |d|
      ensures d[i] in prev' && prev'[d[i]] == Before(d, i)
    {
      InsertedPrev(next, prev, c, k, b, i);
    }
  }

  lemma {:induction false} RemovedNext(next: Links, prev: Links, c: seq<Ref>, k: nat, i: nat)
    requires Ring(next, prev, c) && k < |c| && i < |c| - 1
    ensures var d, next' := Removed(c, k), next[prev[c[k]] := next[c[k]]];
      d[i] in next' && next'[d[i]] == After(d, i)
  {
    hide Ring, Distinct, Removed;
    MemberLinks(next, prev, c, k);
    MemberLinks(next, prev, c, if i < k then i else i + 1);
    RemovedAt(c, k, i);
    RemovedAt(c, k, if i + 2 < |c| then i + 1 else 0);
    OtherMember(c, if k == 0 then |c| - 1 else k - 1, if i < k then i else i + 1);
  }

  lemma {:induction false} RemovedAt<T>(c: seq<T>, k: nat, i: nat)
    requires k < |c| && i < |c| - 1
    ensures |Removed(c, k)| == |c| - 1 && Removed(c, k)[i] == if i < k then c[i] else c[i + 1]
  {
  }

  lemma {:induction false} RemovedPrev(next: Links, prev: Links, c: seq<Ref>, k: nat, i: nat)
    requires Ring(next, prev, c) && k < |c| && i < |c| - 1
    ensures var d, prev' := Removed(c, k), prev[next[c[k]] := prev[c[k]]];
      d[i] in prev' && prev'[d[i]] == Before(d, i)
  {
    hide Ring, Distinct, Removed;
    MemberLinks(next, prev, c, k);
    MemberLinks(next, prev, c, if i < k then i else i + 1);
    RemovedAt(c, k, i);
    RemovedAt(c, k, if i == 0 then |c| - 2 else i - 1);
    OtherMember(c, if k + 1 < |c| then k + 1 else 0, if i < k then i else i + 1);
  }

  // Unlinking c[k] from a ring of two or more leaves the ring of the others.
  lemma {:induction false} RingRemove(next: Links, prev: Links, c: seq<Ref>, k: nat)
    requires Ring(next, prev, c) && k < |c| && 2 <= |c|
    ensures Ring(next[prev[c[k]] := next[c[k]]], prev[next[c[k]] := prev[c[k]]], Removed(c, k))
  {
    var p, n, d := prev[c[k]], next[c[k]], Removed(c, k);
    assert Distinct(d);
    forall i | 0 <= i < |d|
      ensures d[i] in next[p := n] && next[p := n][d[i]] == After(d, i)
    {
      RemovedNext(next, prev, c, k, i);
    }
    forall i | 0 <= i < |d|
      ensures d[i] in prev[n := p] && prev[n := p][d[i]] == Before(d, i)
    {
      RemovedPrev(next, prev, c, k, i);
    }
  }

  // A member has the same neighbour on both sides exactly in a ring of at most two.
  lemma {:induction false} SameNeighbours(next: Links, prev: Links, c: seq<Ref>, k: nat)
    requires Ring(next, prev, c) && k < |c|
    ensures prev[c[k]] == next[c[k]] <==> |c| <= 2
    ensures prev[c[k]] == c[k] <==> |c| == 1
    ensures next[c[k]] == c[k] <==> |c| == 1
  {
  }

  // A ring can be read from its last member on.
  function Rotated<T>(c: seq<T>): seq<T>
    requires c != []
  {
    [c[|c| - 1]] + c[..|c| - 1]
  }

  lemma {:induction false} RingRotate(next: Links, prev: Links, c: seq<Ref>)
    requires Ring(next, prev, c)
    ensures Ring(next, prev, Rotated(c))
  {
    var d := Rotated(c);
    forall i | 0 <= i < |d|
      ensures d[i] in next && next[d[i]] == After(d, i)
      ensures d[i] in prev && prev[d[i]] == Before(d, i)
    {
      if i == 0 { assert d[i] == c[|c| - 1]; } else { assert d[i] == c[i - 1]; }
    }
  }

  // Links outside a ring do not matter to it.
  lemma {:induction false} RingFrame(next: Links, prev: Links, next': Links, prev': Links, c: seq<Ref>)
    requires Ring(next, prev, c)
    requires forall r :: r in c && r in next ==> r in next' && next'[r] == next[r]
    requires forall r :: r in c && r in prev ==> r in prev' && prev'[r] == prev[r]
    ensures Ring(next', prev', c)
  {
    forall i | 0 <= i < |c|
      ensures c[i] in next' && next'[c[i]] == After(c, i)
      ensures c[i] in prev' && prev'[c[i]] == Before(c, i)
    {
      assert c[i] in c;
    }
  }
}
