// Segments and the boundary tags of their blocks, over absolute addresses.
module MmTags {
  import opened MmSize

  datatype Tag = Free | Used | Guard

  // A block header: the two parts of the word _size, then the two parts of the word _prev. The
  // first block of a segment has _prev == ZEND_MM_GUARD_BLOCK, which is size 0 and tag Guard.
  datatype Header = Header(n: nat, tag: Tag, pn: nat, ptag: Tag)

  // The headers of the current blocks and guards by address, the sizes of the segments by
  // address, and the segment each header lies in.
  datatype Layout = Layout(hdr: map<nat, Header>, seg: map<nat, nat>, ghost own: map<nat, nat>)

  // A header lies inside its segment.
  ghost predicate Inside(l: Layout, b: nat) {
    && b in l.hdr && b in l.own && l.own[b] in l.seg
    && l.own[b] + SEGMENT_HEADER <= b && b + HEADER <= l.own[b] + l.seg[l.own[b]]
  }

  // A guard ends its segment; any other block is followed at distance n by a header that
  // mirrors its size and tag.
  ghost predicate NextOk(l: Layout, b: nat)
    requires Inside(l, b)
  {
    var n, tag := l.hdr[b].n, l.hdr[b].tag;
    if tag == Guard then
      n == HEADER && b + HEADER == l.own[b] + l.seg[l.own[b]]
    else
      && MIN_BLOCK <= n && b + n in l.hdr && b + n in l.own && l.own[b + n] == l.own[b]
      && l.hdr[b + n].pn == n && l.hdr[b + n].ptag == tag
  }

  // A first block starts its segment; any other header is preceded by the block it mirrors.
  ghost predicate PrevOk(l: Layout, b: nat)
    requires Inside(l, b)
  {
    var pn, ptag := l.hdr[b].pn, l.hdr[b].ptag;
    if ptag == Guard then
      pn == 0 && b == l.own[b] + SEGMENT_HEADER
    else
      && MIN_BLOCK <= pn <= b && b - pn in l.hdr && b - pn in l.own && l.own[b - pn] == l.own[b]
      && l.hdr[b - pn].n == pn && l.hdr[b - pn].tag == ptag
  }

  // The tags of one header agree with those of both neighbours.
  ghost predicate TagOk(l: Layout, b: nat) {
    Inside(l, b) && NextOk(l, b) && PrevOk(l, b)
  }

  // A segment starts with a first block and ends with a guard.
  ghost predicate SegmentOk(l: Layout, s: nat) {
    && s in l.seg && 0 < s
    && SEGMENT_HEADER + MIN_BLOCK + HEADER <= l.seg[s]
    && First(s) in l.hdr && First(s) in l.own && l.own[First(s)] == s && l.hdr[First(s)].ptag == Guard
      && l.hdr[First(s)].tag != Guard
    && Last(l, s) in l.hdr && Last(l, s) in l.own && l.own[Last(l, s)] == s && l.hdr[Last(l, s)].tag == Guard
  }

  function First(s: nat): nat {
    s + SEGMENT_HEADER
  }

  function Last(l: Layout, s: nat): nat
    requires s in l.seg && HEADER <= l.seg[s]
  {
    s + l.seg[s] - HEADER
  }

  // All headers are aligned, so all block sizes are.
  ghost predicate HeadersAligned(l: Layout) {
    forall b :: b in l.hdr ==> b % ALIGNMENT == 0
  }

  ghost predicate NoOverlap(hdr: map<nat, Header>) {
    forall b, c :: b in hdr && c in hdr && b < c ==> b + hdr[b].n <= c
  }

  // Headers are those of blocks that tile the segments exactly: tags agree, no two blocks
  // overlap, segments are disjoint.
  ghost predicate Tiled(l: Layout) {
    && (forall b :: b in l.hdr <==> b in l.own)
    && (forall b {:trigger TagOk(l, b)} :: b in l.hdr ==> TagOk(l, b))
    && (forall s {:trigger SegmentOk(l, s)} :: s in l.seg ==> SegmentOk(l, s))
    && NoOverlap(l.hdr)
    && (forall s, t :: s in l.seg && t in l.seg && s < t ==> s + l.seg[s] <= t)
  }

  // No free block has a free neighbour, and no segment is one free block.
  ghost predicate Settled(l: Layout, b: nat) {
    b in l.hdr && l.hdr[b].tag == Free ==>
      && b + l.hdr[b].n in l.hdr
      && l.hdr[b + l.hdr[b].n].tag != Free
      && !(l.hdr[b].ptag == Guard && l.hdr[b + l.hdr[b].n].tag == Guard)
  }

  ghost predicate Coalesced(l: Layout) {
    forall b {:trigger Settled(l, b)} :: b in l.hdr ==> Settled(l, b)
  }

  function Blocks(hdr: map<nat, Header>, tag: Tag): map<nat, nat> {
    map b | b in hdr && hdr[b].tag == tag :: hdr[b].n
  }

  // ---------- one block over a run of blocks ----------

  // The blocks from b up to the header at b + total become one block.
  ghost function Fused(l: Layout, b: nat, total: nat, tag: Tag): Layout
    requires b in l.hdr && b + total in l.hdr
  {
    Layout(map k | k in l.hdr && !(b < k < b + total) ::
             if k == b then l.hdr[k].(n := total, tag := tag)
             else if k == b + total then l.hdr[k].(pn := total, ptag := tag)
             else l.hdr[k],
           l.seg,
           map k | k in l.own && !(b < k < b + total) :: l.own[k])
  }

  // b and the header at b + total lie in one segment, b is no guard.
  ghost predicate Run(l: Layout, b: nat, total: nat) {
    && b in l.hdr && b + total in l.hdr && b in l.own && b + total in l.own
    && l.own[b] == l.own[b + total] && l.hdr[b].tag != Guard && 0 < total
  }

  lemma {:induction false} RunSize(l: Layout, b: nat, total: nat)
    requires Tiled(l) && Run(l, b, total)
    ensures MIN_BLOCK <= total && l.hdr[b].n <= total && l.hdr[b + total].ptag != Guard
  {
    assert TagOk(l, b);
    assert TagOk(l, b + total);
  }

  lemma {:induction false} FusedNext(l: Layout, b: nat, total: nat, tag: Tag, k: nat)
    requires Tiled(l) && Run(l, b, total) && tag != Guard && k in l.hdr && !(b < k < b + total)
    ensures Inside(Fused(l, b, total, tag), k) && NextOk(Fused(l, b, total, tag), k)
  {
    RunSize(l, b, total);
    assert TagOk(l, k);
  }

  lemma {:induction false} FusedPrev(l: Layout, b: nat, total: nat, tag: Tag, k: nat)
    requires Tiled(l) && Run(l, b, total) && tag != Guard && k in l.hdr && !(b < k < b + total)
    requires Inside(Fused(l, b, total, tag), k)
    ensures PrevOk(Fused(l, b, total, tag), k)
  {
    RunSize(l, b, total);
    assert TagOk(l, k);
  }

  lemma {:induction false} FusedNoOverlap(l: Layout, b: nat, total: nat, tag: Tag)
    requires Tiled(l) && Run(l, b, total)
    ensures NoOverlap(Fused(l, b, total, tag).hdr)
  {
  }

  // A run does not reach over the ends of any segment.
  lemma {:induction false} RunInside(l: Layout, b: nat, total: nat, s: nat)
    requires Tiled(l) && Run(l, b, total) && s in l.seg && SegmentOk(l, s)
    ensures First(s) <= b || b + total < First(s)
    ensures First(s) == b ==> l.own[b] == s
    ensures First(s) != b + total
    ensures b + total <= Last(l, s) || Last(l, s) < b
  {
    RunSize(l, b, total);
    assert Inside(l, b) && Inside(l, b + total) by { assert TagOk(l, b) && TagOk(l, b + total); }
  }

  lemma {:induction false} FusedSegment(l: Layout, b: nat, total: nat, tag: Tag, s: nat)
    requires Tiled(l) && Run(l, b, total) && tag != Guard && s in l.seg
    ensures SegmentOk(Fused(l, b, total, tag), s)
  {
    assert SegmentOk(l, s);
    RunInside(l, b, total, s);
  }

  lemma {:induction false} FusedTags(l: Layout, b: nat, total: nat, tag: Tag, m: Layout)
    requires Tiled(l) && Run(l, b, total) && tag != Guard && m == Fused(l, b, total, tag)
    ensures forall k {:trigger TagOk(m, k)} :: k in m.hdr ==> TagOk(m, k)
  {
    forall k | k in m.hdr
      ensures TagOk(m, k)
    {
      FusedNext(l, b, total, tag, k);
      FusedPrev(l, b, total, tag, k);
    }
  }

  lemma {:induction false} FusedSegments(l: Layout, b: nat, total: nat, tag: Tag, m: Layout)
    requires Tiled(l) && Run(l, b, total) && tag != Guard && m == Fused(l, b, total, tag)
    ensures forall s {:trigger SegmentOk(m, s)} :: s in m.seg ==> SegmentOk(m, s)
  {
    forall s | s in m.seg
      ensures SegmentOk(m, s)
    {
      FusedSegment(l, b, total, tag, s);
    }
  }

  // Fusing a run keeps the segments tiled.
  lemma {:induction false} FusedTiled(l: Layout, b: nat, total: nat, tag: Tag)
    requires Tiled(l) && Run(l, b, total) && tag != Guard
    ensures Tiled(Fused(l, b, total, tag))
  {
    FusedTags(l, b, total, tag, Fused(l, b, total, tag));
    FusedSegments(l, b, total, tag, Fused(l, b, total, tag));
    FusedNoOverlap(l, b, total, tag);
  }

  lemma {:induction false} FusedCoalesced(l: Layout, b: nat, total: nat, tag: Tag)
    requires Tiled(l) && Run(l, b, total) && tag != Guard && Coalesced(l)
    requires tag == Free ==> l.hdr[b].ptag != Free && l.hdr[b + total].tag != Free
    requires tag == Free ==> !(l.hdr[b].ptag == Guard && l.hdr[b + total].tag == Guard)
    ensures Coalesced(Fused(l, b, total, tag))
  {
    var m := Fused(l, b, total, tag);
    RunSize(l, b, total);
    FusedTags(l, b, total, tag, m);
    hide Tiled;
    forall k | k in m.hdr
      ensures Settled(m, k)
    {
      assert TagOk(m, k);
      assert Settled(l, k);
    }
  }

  // ---------- two blocks out of one ----------

  // Block b becomes one of m bytes, and a new block holds the rest of it.
  ghost function Cut(l: Layout, b: nat, m: nat, tag: Tag, rest: Tag): Layout
    requires b in l.hdr && m <= l.hdr[b].n && b + l.hdr[b].n in l.hdr && b in l.own
  {
    var n := l.hdr[b].n;
    Layout(l.hdr[b := l.hdr[b].(n := m, tag := tag)]
                [b + n := l.hdr[b + n].(pn := n - m, ptag := rest)]
                [b + m := Header(n - m, rest, m, tag)],
           l.seg, l.own[b + m := l.own[b]])
  }

  ghost predicate Cuttable(l: Layout, b: nat, m: nat) {
    && b in l.hdr && l.hdr[b].tag != Guard
    && MIN_BLOCK <= m && m + MIN_BLOCK <= l.hdr[b].n
    && TagOk(l, b)
  }

  lemma {:induction false} CutNext(l: Layout, b: nat, m: nat, tag: Tag, rest: Tag, k: nat)
    requires Tiled(l) && Cuttable(l, b, m) && tag != Guard && rest != Guard && k in l.hdr
    ensures Inside(Cut(l, b, m, tag, rest), k) && NextOk(Cut(l, b, m, tag, rest), k)
  {
    assert TagOk(l, k);
    assert b + m !in l.hdr;
  }

  lemma {:induction false} CutPrev(l: Layout, b: nat, m: nat, tag: Tag, rest: Tag, k: nat)
    requires Tiled(l) && Cuttable(l, b, m) && tag != Guard && rest != Guard && k in l.hdr
    requires Inside(Cut(l, b, m, tag, rest), k)
    ensures PrevOk(Cut(l, b, m, tag, rest), k)
  {
    assert TagOk(l, k);
    assert b + m !in l.hdr;
    assert k != b + l.hdr[b].n && l.hdr[k].ptag != Guard ==> k - l.hdr[k].pn != b;
  }

  lemma {:induction false} CutNew(l: Layout, b: nat, m: nat, tag: Tag, rest: Tag)
    requires Tiled(l) && Cuttable(l, b, m) && tag != Guard && rest != Guard
    ensures TagOk(Cut(l, b, m, tag, rest), b + m)
  {
    assert TagOk(l, b + l.hdr[b].n);
  }

  lemma {:induction false} CutTags(l: Layout, b: nat, m: nat, tag: Tag, rest: Tag, c: Layout)
    requires Tiled(l) && Cuttable(l, b, m) && tag != Guard && rest != Guard && c == Cut(l, b, m, tag, rest)
    ensures forall k {:trigger TagOk(c, k)} :: k in c.hdr ==> TagOk(c, k)
  {
    forall k | k in c.hdr
      ensures TagOk(c, k)
    {
      if k == b + m { CutNew(l, b, m, tag, rest); } else { CutNext(l, b, m, tag, rest, k); CutPrev(l, b, m, tag, rest,
        k); }
    }
  }

  lemma {:induction false} CutSegments(l: Layout, b: nat, m: nat, tag: Tag, rest: Tag, c: Layout)
    requires Tiled(l) && Cuttable(l, b, m) && tag != Guard && rest != Guard && c == Cut(l, b, m, tag, rest)
    ensures forall s {:trigger SegmentOk(c, s)} :: s in c.seg ==> SegmentOk(c, s)
  {
    assert b + m !in l.hdr;
    assert TagOk(l, b + l.hdr[b].n);
    forall s | s in c.seg
      ensures SegmentOk(c, s)
    {
      assert SegmentOk(l, s);
    }
  }

  lemma {:induction false} CutNoOverlap(l: Layout, b: nat, m: nat, tag: Tag, rest: Tag)
    requires Tiled(l) && Cuttable(l, b, m)
    ensures NoOverlap(Cut(l, b, m, tag, rest).hdr) && b + m !in l.hdr
  {
  }

  // Cutting a block keeps the segments tiled.
  lemma {:induction false} CutTiled(l: Layout, b: nat, m: nat, tag: Tag, rest: Tag)
    requires Tiled(l) && Cuttable(l, b, m) && tag != Guard && rest != Guard
    ensures Tiled(Cut(l, b, m, tag, rest))
  {
    CutTags(l, b, m, tag, rest, Cut(l, b, m, tag, rest));
    CutSegments(l, b, m, tag, rest, Cut(l, b, m, tag, rest));
    CutNoOverlap(l, b, m, tag, rest);
  }

  lemma {:induction false} CutCoalesced(l: Layout, b: nat, m: nat)
    requires Tiled(l) && Cuttable(l, b, m) && Coalesced(l) && l.hdr[b + l.hdr[b].n].tag != Free
    ensures Coalesced(Cut(l, b, m, Used, Free))
  {
    var c := Cut(l, b, m, Used, Free);
    assert b + m !in l.hdr;
    hide Coalesced, NoOverlap;
    forall k | k in c.hdr
      ensures Settled(c, k)
    {
      if k != b + m {
        assert TagOk(l, k);
        CutSettled(l, b, m, k);
      }
    }
  }

  lemma {:induction false} CutSettled(l: Layout, b: nat, m: nat, k: nat)
    requires Cuttable(l, b, m) && Coalesced(l) && TagOk(l, k) && b + m !in l.hdr
    ensures Settled(Cut(l, b, m, Used, Free), k)
  {
    assert Settled(l, k);
  }

  // ---------- segments ----------

  // A region that overlaps no segment.
  ghost predicate Unclaimed(seg: map<nat, nat>, s: nat, size: nat) {
    0 < s && forall t :: t in seg ==> s + size <= t || t + seg[t] <= s
  }

  // A new segment: one used block between the segment header and the guard.
  ghost function Grown(l: Layout, s: nat, size: nat): Layout
    requires SEGMENT_HEADER + MIN_BLOCK + HEADER <= size
  {
    var n := size - SEGMENT_HEADER - HEADER;
    Layout(l.hdr[First(s) := Header(n, Used, 0, Guard)][First(s) + n := Header(HEADER, Guard, n, Used)],
           l.seg[s := size], l.own[First(s) := s][First(s) + n := s])
  }

  // No header lies in an unclaimed region.
  lemma {:induction false} UnclaimedHeaders(l: Layout, s: nat, size: nat, k: nat)
    requires Tiled(l) && Unclaimed(l.seg, s, size) && k in l.hdr && HEADER <= size
    ensures k + HEADER <= s || s + size <= k
    ensures k + l.hdr[k].n <= s || s + size <= k
  {
    assert TagOk(l, k);
    if l.hdr[k].tag != Guard {
      assert TagOk(l, k + l.hdr[k].n);
    }
  }

  lemma {:induction false} GrownTag(l: Layout, s: nat, size: nat, k: nat)
    requires Tiled(l) && Unclaimed(l.seg, s, size) && SEGMENT_HEADER + MIN_BLOCK + HEADER <= size
    requires k in l.hdr
    ensures TagOk(Grown(l, s, size), k)
  {
    assert TagOk(l, k);
    UnclaimedHeaders(l, s, size, k);
    if l.hdr[k].tag != Guard { UnclaimedHeaders(l, s, size, k + l.hdr[k].n); }
    if l.hdr[k].ptag != Guard { UnclaimedHeaders(l, s, size, k - l.hdr[k].pn); }
  }

  lemma {:induction false} GrownTags(l: Layout, s: nat, size: nat, g: Layout)
    requires Tiled(l) && Unclaimed(l.seg, s, size) && SEGMENT_HEADER + MIN_BLOCK + HEADER <= size
      && g == Grown(l, s, size)
    ensures forall k {:trigger TagOk(g, k)} :: k in g.hdr ==> TagOk(g, k)
  {
    forall k | k in g.hdr
      ensures TagOk(g, k)
    {
      if k in l.hdr { GrownTag(l, s, size, k); }
    }
  }

  lemma {:induction false} GrownSegments(l: Layout, s: nat, size: nat, g: Layout)
    requires Tiled(l) && Unclaimed(l.seg, s, size) && SEGMENT_HEADER + MIN_BLOCK + HEADER <= size
      && g == Grown(l, s, size)
    ensures forall t {:trigger SegmentOk(g, t)} :: t in g.seg ==> SegmentOk(g, t)
  {
    forall t | t in g.seg
      ensures SegmentOk(g, t)
    {
      if t != s {
        assert SegmentOk(l, t);
        UnclaimedHeaders(l, s, size, First(t));
        UnclaimedHeaders(l, s, size, Last(l, t));
      }
    }
  }

  lemma {:induction false} GrownNoOverlap(l: Layout, s: nat, size: nat)
    requires Tiled(l) && Unclaimed(l.seg, s, size) && SEGMENT_HEADER + MIN_BLOCK + HEADER <= size
    ensures NoOverlap(Grown(l, s, size).hdr)
    ensures First(s) !in l.hdr && s + size - HEADER !in l.hdr && s !in l.seg
  {
    forall k | k in l.hdr
      ensures k + l.hdr[k].n <= s || s + size <= k
    {
      UnclaimedHeaders(l, s, size, k);
    }
    if s in l.seg { assert SegmentOk(l, s); }
  }

  // Acquiring a segment keeps the segments tiled.
  lemma {:induction false} GrownTiled(l: Layout, s: nat, size: nat)
    requires Tiled(l) && Unclaimed(l.seg, s, size) && SEGMENT_HEADER + MIN_BLOCK + HEADER <= size
    ensures Tiled(Grown(l, s, size))
  {
    GrownTags(l, s, size, Grown(l, s, size));
    GrownSegments(l, s, size, Grown(l, s, size));
    GrownNoOverlap(l, s, size);
  }

  lemma {:induction false} GrownCoalesced(l: Layout, s: nat, size: nat)
    requires Tiled(l) && Unclaimed(l.seg, s, size) && SEGMENT_HEADER + MIN_BLOCK + HEADER <= size && Coalesced(l)
    ensures Coalesced(Grown(l, s, size))
  {
    var g := Grown(l, s, size);
    GrownNoOverlap(l, s, size);
    forall k | k in g.hdr
      ensures Settled(g, k)
    {
      if k in l.hdr { assert Settled(l, k); assert TagOk(l, k); }
    }
  }

  // A segment given back.
  ghost function Released(l: Layout, s: nat): Layout {
    Layout(map k | k in l.hdr && k in l.own && l.own[k] != s :: l.hdr[k], l.seg - {s}, Disowned(l.own, s))
  }

  ghost function Disowned(own: map<nat, nat>, s: nat): map<nat, nat> {
    map k | k in own && own[k] != s :: own[k]
  }

  // The headers outside a region.
  function Outside(hdr: map<nat, Header>, s: nat, n: nat): map<nat, Header> {
    map k | k in hdr && !(s <= k < s + n) :: hdr[k]
  }

  // The headers of a segment are those in its region.
  lemma {:induction false} ReleasedByRange(l: Layout, s: nat)
    requires Tiled(l) && s in l.seg
    ensures Released(l, s) == Layout(Outside(l.hdr, s, l.seg[s]), l.seg - {s}, Disowned(l.own, s))
  {
    forall k | k in l.hdr
      ensures l.own[k] == s <==> s <= k < s + l.seg[s]
    {
      assert TagOk(l, k);
    }
    assert Released(l, s).hdr == Outside(l.hdr, s, l.seg[s]);
  }

  lemma {:induction false} ReleasedTags(l: Layout, s: nat, r: Layout)
    requires Tiled(l) && r == Released(l, s)
    ensures forall k {:trigger TagOk(r, k)} :: k in r.hdr ==> TagOk(r, k)
  {
    forall k | k in r.hdr
      ensures TagOk(r, k)
    {
      assert TagOk(l, k);
    }
  }

  lemma {:induction false} ReleasedSegments(l: Layout, s: nat, r: Layout)
    requires Tiled(l) && r == Released(l, s)
    ensures forall t {:trigger SegmentOk(r, t)} :: t in r.seg ==> SegmentOk(r, t)
  {
    forall t | t in r.seg
      ensures SegmentOk(r, t)
    {
      assert SegmentOk(l, t);
    }
  }

  // Releasing a segment keeps the others tiled.
  lemma {:induction false} ReleasedTiled(l: Layout, s: nat)
    requires Tiled(l)
    ensures Tiled(Released(l, s))
  {
    ReleasedTags(l, s, Released(l, s));
    ReleasedSegments(l, s, Released(l, s));
  }

  lemma {:induction false} ReleasedCoalesced(l: Layout, s: nat)
    requires Tiled(l) && Coalesced(l)
    ensures Coalesced(Released(l, s))
  {
    var r := Released(l, s);
    forall k | k in r.hdr
      ensures Settled(r, k)
    {
      assert TagOk(l, k);
      assert Settled(l, k);
    }
  }

  // ---------- the header writes of the allocator ----------

  // ZEND_MM_BLOCK: the word _size of the block at b and the word _prev of the header behind it.
  function SetBlock(hdr: map<nat, Header>, b: nat, tag: Tag, n: nat): map<nat, Header> {
    var hdr' := hdr[b := (if b in hdr then hdr[b] else Header(0, Free, 0, Free)).(n := n, tag := tag)];
    hdr'[b + n := (if b + n in hdr' then hdr'[b + n] else Header(0, Free, 0, Free)).(pn := n, ptag := tag)]
  }

  // What lies strictly between b and e is no header any more.
  function Dropped<T>(m: map<nat, T>, b: nat, e: nat): map<nat, T> {
    map k | k in m && !(b < k < e) :: m[k]
  }

  lemma {:induction false} FusedIsWritten(l: Layout, b: nat, total: nat, tag: Tag)
    requires b in l.hdr && b + total in l.hdr && 0 < total
    ensures Fused(l, b, total, tag) == Layout(SetBlock(Dropped(l.hdr, b, b + total), b, tag, total), l.seg,
      Dropped(l.own, b, b + total))
  {
    assert Fused(l, b, total, tag).hdr == SetBlock(Dropped(l.hdr, b, b + total), b, tag, total);
  }

  lemma {:induction false} CutIsWritten(l: Layout, b: nat, m: nat, tag: Tag, rest: Tag)
    requires b in l.hdr && 0 < m < l.hdr[b].n && b + l.hdr[b].n in l.hdr && b in l.own && b + m !in l.hdr
    ensures Cut(l, b, m, tag, rest).hdr == SetBlock(SetBlock(l.hdr, b, tag, m), b + m, rest, l.hdr[b].n - m)
  {
  }

  // ---------- carving a block out of a run ----------

  // A used block of at least m bytes at the start of a run of n bytes: the whole run if what is
  // left over is too small for a block, else exactly m bytes and a free block.
  ghost function Carved(l: Layout, b: nat, n: nat, m: nat): Layout
    requires b in l.hdr && b + n in l.hdr && m <= n && 0 < n && b in l.own
  {
    var f := Fused(l, b, n, Used);
    if n - m < MIN_BLOCK then f else Cut(f, b, m, Used, Free)
  }

  ghost predicate Carvable(l: Layout, b: nat, n: nat, m: nat) {
    && Tiled(l) && Coalesced(l) && HeadersAligned(l)
    && Run(l, b, n) && l.hdr[b + n].tag != Free && BlockSize(m) && m <= n
  }

  lemma {:induction false} CarvedTiled(l: Layout, b: nat, n: nat, m: nat)
    requires Carvable(l, b, n, m)
    ensures Tiled(Carved(l, b, n, m)) && Coalesced(Carved(l, b, n, m))
  {
    var f := Fused(l, b, n, Used);
    RunSize(l, b, n);
    FusedTiled(l, b, n, Used);
    FusedCoalesced(l, b, n, Used);
    assert TagOk(f, b);
    hide Coalesced;
    if MIN_BLOCK <= n - m {
      CutTiled(f, b, m, Used, Free);
      CutCoalesced(f, b, m);
    }
  }

  lemma {:induction false} SubsetAligned(l: Layout, m: Layout)
    requires HeadersAligned(l) && (forall k :: k in m.hdr ==> k in l.hdr)
    ensures HeadersAligned(m)
  {
  }

  lemma {:induction false} CutAligned(l: Layout, b: nat, m: nat, tag: Tag, rest: Tag)
    requires HeadersAligned(l) && b in l.hdr && m <= l.hdr[b].n && b + l.hdr[b].n in l.hdr && b in l.own
      && m % ALIGNMENT == 0
    ensures HeadersAligned(Cut(l, b, m, tag, rest))
  {
  }

  lemma {:induction false} CarvedAligned(l: Layout, b: nat, n: nat, m: nat)
    requires Carvable(l, b, n, m)
    ensures HeadersAligned(Carved(l, b, n, m))
  {
    hide Tiled, Coalesced;
    SubsetAligned(l, Fused(l, b, n, Used));
    hide HeadersAligned;
    if MIN_BLOCK <= n - m { CutAligned(Fused(l, b, n, Used), b, m, Used, Free); }
  }

  lemma {:induction false} CutBlocks(f: Layout, b: nat, m: nat)
    requires b in f.hdr && f.hdr[b].tag == Used && 0 < m < f.hdr[b].n && b + f.hdr[b].n in f.hdr && b in f.own
      && b + m !in f.hdr
    ensures Blocks(Cut(f, b, m, Used, Free).hdr, Used) == Blocks(f.hdr, Used)[b := m]
    ensures Blocks(Cut(f, b, m, Used, Free).hdr, Free) == Blocks(f.hdr, Free)[b + m := f.hdr[b].n - m]
  {
  }

  lemma {:induction false} CarvedBlocks(l: Layout, b: nat, n: nat, m: nat)
    requires Carvable(l, b, n, m)
    ensures var c, f := Carved(l, b, n, m), Fused(l, b, n, Used);
      var k := if n - m < MIN_BLOCK then n else m;
      && b in c.hdr && c.hdr[b].n == k && b in f.hdr
      && Blocks(c.hdr, Used) == Blocks(f.hdr, Used)[b := k]
      && Blocks(c.hdr, Free) == if k == n then Blocks(f.hdr, Free) else Blocks(f.hdr, Free)[b + m := n - m]
  {
    var f := Fused(l, b, n, Used);
    if MIN_BLOCK <= n - m {
      assert b + m !in f.hdr;
      CutBlocks(f, b, m);
    } else {
      assert Blocks(f.hdr, Used) == Blocks(f.hdr, Used)[b := n];
    }
  }

  // What the allocator writes when it carves a block out of a run.
  lemma {:induction false} CarvedIsWritten(l: Layout, b: nat, n: nat, m: nat)
    requires Carvable(l, b, n, m) && MIN_BLOCK <= n - m
    ensures Carved(l, b, n, m).hdr == SetBlock(SetBlock(Dropped(l.hdr, b, b + n), b, Used, m), b + m, Free, n - m)
    ensures Carved(l, b, n, m).own == Dropped(l.own, b, b + n)[b + m := l.own[b]]
    ensures Carved(l, b, n, m).seg == l.seg && b + m !in Fused(l, b, n, Used).hdr
  {
    hide Tiled, Coalesced, HeadersAligned;
    var f := Fused(l, b, n, Used);
    FusedIsWritten(l, b, n, Used);
    CutIsWritten(f, b, m, Used, Free);
    SetBlockTwice(Dropped(l.hdr, b, b + n), b, n, m);
  }

  // Writing a longer block first makes no difference.
  lemma {:induction false} SetBlockTwice(hdr: map<nat, Header>, b: nat, n: nat, m: nat)
    requires b in hdr && b + n in hdr && 0 < m < n && b + m !in hdr
    ensures SetBlock(SetBlock(SetBlock(hdr, b, Used, n), b, Used, m), b + m, Free, n - m)
         == SetBlock(SetBlock(hdr, b, Used, m), b + m, Free, n - m)
  {
  }
}
