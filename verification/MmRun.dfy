// Whole runs: a program that allocates, resizes, releases and writes memory sees exactly what it
// would see if every object had memory of its own.
module MmRun {
  import opened MmSize
  import opened MmBits
  import opened MmIndex
  import opened MmTags
  import opened MmSum
  import opened MmCache
  import opened MmHeap
  import opened MmSteps
  import opened MmManager

  type Word = n: nat | n < WORD

  // One step of a program. An object is named by the position of the step that allocates it; a
  // step that names an object the program does not hold does nothing.
  datatype Op =
    | Allocate(size: nat)
    | Release(id: nat)
    | Resize(id: nat, size: nat)
    | Write(id: nat, at: nat, v: int)
    | Limit(limit: Word)
    | Flush

  // An object by itself: its size and the bytes written so far.
  datatype Object = Object(size: nat, bytes: map<nat, int>)

  function Next(o: map<nat, Object>, op: Op, id: nat): map<nat, Object> {
    match op
    case Allocate(size) => o[id := Object(size, map[])]
    case Release(i) => o - {i}
    case Resize(i, size) => if i in o then o[i := Shortened(o[i], size)] else o
    case Write(i, at, v) => if i in o && at < o[i].size then o[i := o[i].(bytes := o[i].bytes[at := v])] else o
    case Limit(_) => o
    case Flush => o
  }

  function Shortened(ob: Object, size: nat): Object {
    Object(size, map k | k in ob.bytes && k < size :: ob.bytes[k])
  }

  // What a program holds after some steps, with no allocator in sight.
  function Ideal(ops: seq<Op>): map<nat, Object> {
    if ops == [] then map[] else Next(Ideal(ops[..|ops| - 1]), ops[|ops| - 1], |ops| - 1)
  }

  // The payload p of the heap is the object: asked for with its size, and with its bytes.
  ghost predicate Represents(h: Heap, p: nat, ob: Object) {
    && HEADER <= p && p - HEADER in h.live && h.live[p - HEADER] == ob.size
    && (forall k :: k in ob.bytes ==> k < ob.size && p + k in h.mem && h.mem[p + k] == ob.bytes[k])
  }

  // The payloads of the heap are the objects, each at its own place.
  ghost predicate Holds(h: Heap, ptr: map<nat, nat>, o: map<nat, Object>) {
    && (forall i :: i in ptr <==> i in o)
    && AllRepresented(h, ptr, o)
    && Apart(ptr)
    && (forall b :: b in h.live ==> PointsTo(ptr, b))
  }

  ghost predicate AllRepresented(h: Heap, ptr: map<nat, nat>, o: map<nat, Object>) {
    forall i {:trigger Represents(h, ptr[i], o[i])} :: i in ptr && i in o ==> Represents(h, ptr[i], o[i])
  }

  ghost predicate Apart(ptr: map<nat, nat>) {
    forall i, j :: i in ptr && j in ptr && i != j ==> ptr[i] != ptr[j]
  }

  ghost predicate PointsTo(ptr: map<nat, nat>, b: nat) {
    exists i :: i in ptr && ptr[i] == b + HEADER
  }

  lemma {:induction false} HoldsFlushed(h: Heap, g: Heap, ptr: map<nat, nat>, o: map<nat, Object>)
    requires Holds(h, ptr, o) && g.live == h.live && g.mem == h.mem
    ensures Holds(g, ptr, o)
  {
    hide PointsTo;
    forall i | i in ptr && i in o
      ensures Represents(g, ptr[i], o[i])
    {
      assert Represents(h, ptr[i], o[i]);
    }
  }

  // b is where object i now is.
  lemma {:induction false} PointsToNew(ptr: map<nat, nat>, i: nat, b: nat, c: nat)
    requires c == b || (PointsTo(ptr, c) && (i !in ptr || ptr[i] != c + HEADER))
    ensures PointsTo(ptr[i := b + HEADER], c)
  {
    var ptr' := ptr[i := b + HEADER];
    if c == b {
      assert ptr'[i] == c + HEADER;
    } else {
      var j :| j in ptr && ptr[j] == c + HEADER;
      assert ptr'[j] == c + HEADER;
    }
  }

  lemma {:induction false} HoldsGiven(h: Heap, g: Heap, ptr: map<nat, nat>, o: map<nat, Object>, i: nat, b: nat, r: nat)
    requires Holds(h, ptr, o) && i !in ptr && Given(h, g, b, r)
    ensures Holds(g, ptr[i := b + HEADER], o[i := Object(r, map[])])
  {
    hide Kept, PointsTo;
    var ptr', o' := ptr[i := b + HEADER], o[i := Object(r, map[])];
    forall j | j in ptr' && j in o'
      ensures Represents(g, ptr'[j], o'[j]) && (j != i ==> ptr'[j] != ptr'[i])
    {
      if j != i { assert Represents(h, ptr[j], o[j]); }
    }
    forall c | c in g.live
      ensures PointsTo(ptr', c)
    {
      PointsToNew(ptr, i, b, c);
    }
  }

  // An object other than the one at b is not touched.
  lemma {:induction false} KeptRepresents(h: Heap, g: Heap, b: nat, p: nat, ob: Object)
    requires Kept(h, g, b) && LiveOk(UsedBlocks(h), h.live) && Represents(h, p, ob) && p != b + HEADER
    ensures Represents(g, p, ob)
  {
    assert p - HEADER in h.live && p - HEADER != b;
  }

  lemma {:induction false} HoldsReleased(h: Heap, g: Heap, ptr: map<nat, nat>, o: map<nat, Object>, i: nat)
    requires Holds(h, ptr, o) && i in ptr && LiveOk(UsedBlocks(h), h.live)
    requires HEADER <= ptr[i] && g.live == h.live - {ptr[i] - HEADER} && Kept(h, g, ptr[i] - HEADER)
    ensures Holds(g, ptr - {i}, o - {i})
  {
    hide Kept, PointsTo, Represents, LiveOk;
    var ptr', o' := ptr - {i}, o - {i};
    forall j | j in ptr' && j in o'
      ensures Represents(g, ptr'[j], o'[j])
    {
      assert Represents(h, ptr[j], o[j]);
      KeptRepresents(h, g, ptr[i] - HEADER, ptr[j], o[j]);
    }
    forall c | c in g.live
      ensures PointsTo(ptr', c)
    {
      StillPointsTo(ptr, i, c);
    }
  }

  lemma {:induction false} StillPointsTo(ptr: map<nat, nat>, i: nat, c: nat)
    requires PointsTo(ptr, c) && i in ptr && ptr[i] != c + HEADER
    ensures PointsTo(ptr - {i}, c)
  {
    var j :| j in ptr && ptr[j] == c + HEADER;
    assert (ptr - {i})[j] == c + HEADER;
  }

  // The resized object keeps what both sizes hold.
  lemma {:induction false} ResizedRepresents(h: Heap, g: Heap, b: nat, c: nat, r: nat, ob: Object)
    requires Resized(h, g, b, c, r) && Represents(h, b + HEADER, ob)
    requires LiveOk(UsedBlocks(h), h.live) && LiveOk(UsedBlocks(g), g.live)
    ensures Represents(g, c + HEADER, Shortened(ob, r))
  {
    hide Kept;
    var p, q := b + HEADER, c + HEADER;
    forall k | k in Shortened(ob, r).bytes
      ensures q + k in g.mem && g.mem[q + k] == ob.bytes[k]
    {
      assert SameByte(h.mem, g.mem, p, q, k);
    }
  }

  lemma {:induction false} HoldsResized(h: Heap, g: Heap, ptr: map<nat, nat>, o: map<nat, Object>, i: nat, c: nat,
      r: nat)
    requires Holds(h, ptr, o) && i in ptr && LiveOk(UsedBlocks(h), h.live) && LiveOk(UsedBlocks(g), g.live)
    requires HEADER <= ptr[i] && Resized(h, g, ptr[i] - HEADER, c, r)
    ensures Holds(g, ptr[i := c + HEADER], o[i := Shortened(o[i], r)])
  {
    hide SamePrefix, Kept, PointsTo, LiveOk;
    var b, ptr', o' := ptr[i] - HEADER, ptr[i := c + HEADER], o[i := Shortened(o[i], r)];
    forall j | j in ptr' && j in o'
      ensures Represents(g, ptr'[j], o'[j]) && (j != i ==> ptr'[j] != ptr'[i])
    {
      assert Represents(h, ptr[j], o[j]);
      if j == i { ResizedRepresents(h, g, b, c, r, o[i]); } else { KeptRepresents(h, g, b, ptr[j], o[j]); }
    }
    forall d | d in g.live
      ensures PointsTo(ptr', d)
    {
      PointsToNew(ptr, i, c, d);
    }
  }

  lemma {:induction false} HoldsWritten(h: Heap, g: Heap, ptr: map<nat, nat>, o: map<nat, Object>, i: nat, at: nat,
      v: int)
    requires Holds(h, ptr, o) && i in ptr && at < o[i].size && TagsOk(h.l) && LiveOk(UsedBlocks(h), h.live)
    requires g == h.(mem := h.mem[ptr[i] + at := v])
    ensures Holds(g, ptr, o[i := o[i].(bytes := o[i].bytes[at := v])])
  {
    hide TagsOk, PointsTo;
    var o' := o[i := o[i].(bytes := o[i].bytes[at := v])];
    forall j | j in ptr && j in o'
      ensures Represents(g, ptr[j], o'[j])
    {
      assert Represents(h, ptr[i], o[i]) && Represents(h, ptr[j], o[j]);
      if j != i {
        PayloadsDisjoint(h, ptr[i] - HEADER, ptr[j] - HEADER);
      }
    }
  }

  // In a heap that holds the objects, different payloads are disjoint.
  lemma {:induction false} ObjectsApart(h: Heap, ptr: map<nat, nat>, o: map<nat, Object>, i: nat, j: nat)
    requires HeapOk(h) && Holds(h, ptr, o) && i in o && j in o && i != j
    ensures ptr[i] + o[i].size <= ptr[j] || ptr[j] + o[j].size <= ptr[i]
  {
    hide TagsOk, CacheOk, AccountsOk, PeaksOk, SegmentsOk, PointsTo;
    assert Represents(h, ptr[i], o[i]) && Represents(h, ptr[j], o[j]);
    PayloadsDisjoint(h, ptr[i] - HEADER, ptr[j] - HEADER);
  }

  lemma {:induction false} HeldNames(h: Heap, ptr: map<nat, nat>, o: map<nat, Object>, i: nat)
    requires HeapOk(h) && Holds(h, ptr, o)
    ensures i in ptr <==> i in o
    ensures i in ptr ==> HEADER <= ptr[i] && ptr[i] - HEADER in h.live && h.live[ptr[i] - HEADER] == o[i].size
    ensures i !in o ==> o - {i} == o
    ensures LiveOk(UsedBlocks(h), h.live) && TagsOk(h.l)
  {
    hide TagsOk, CacheOk, CachedBytes, Sum, SegmentsOk, LiveOk;
    if i in ptr { assert Represents(h, ptr[i], o[i]); }
  }

  // The steps that may need a segment.
  predicate Asks(op: Op) {
    op.Allocate? || op.Resize?
  }

  // The payload that such a step resizes, or 0.
  function Subject(op: Op, ptr: map<nat, nat>): nat {
    if op.Resize? && op.id in ptr then ptr[op.id] else 0
  }

  // One step on the heap. ok is false when the step left through zend_mm_safe_error, which takes
  // that storage refused a segment or that the limit forbids it; strand is set when it left a free
  // block out of the index.
  method Perform(heap: Manager, op: Op, id: nat, ptr: map<nat, nat>, o: map<nat, Object>)
    returns (ok: bool, ptr': map<nat, nat>, ghost refused: bool, ghost strand: bool)
    requires heap.Valid() && Holds(heap.h, ptr, o) && id !in ptr
    modifies heap, heap.ix
    ensures ok ==> !strand && Holds(heap.h, ptr', Next(o, op, id)) && (forall i :: i in ptr' ==> i in ptr || i == id)
    ensures !ok ==>
      ptr' == ptr && Holds(heap.h, ptr, o) && Asks(op) && (refused || NoRoom(old(heap.h), Subject(op, ptr), op.size))
    ensures strand <==> !ok && refused && Asks(op) && Strands(old(heap.h), Subject(op, ptr), op.size)
    ensures !strand ==> heap.Valid()
    ensures strand ==> LeftStranded(old(heap.h), heap.h, heap.ix.x, Subject(op, ptr))
  {
    hide IndexOk, HeapOk, Holds, Given, Resized, Kept, LiveOk, TagsOk, Indexed, Stranded;
    ok, ptr', refused, strand := true, ptr, false, false;
    ghost var h := heap.h;
    match op
    case Allocate(size) =>
      var p, refused' := heap.AllocInt(size);
      refused := refused';
      if p == 0 {
        HoldsFlushed(h, heap.h, ptr, o);
        ok := false;
      } else {
        HoldsGiven(h, heap.h, ptr, o, id, p - HEADER, size);
        ptr' := ptr[id := p];
      }
    case Release(i) =>
      HeldNames(h, ptr, o, i);
      if i in ptr {
        heap.FreeInt(ptr[i]);
        HoldsReleased(h, heap.h, ptr, o, i);
        ptr' := ptr - {i};
      }
    case Resize(i, size) =>
      HeldNames(h, ptr, o, i);
      if i in ptr {
        var q, refused' := heap.ReallocInt(ptr[i], size);
        refused := refused';
        if q == 0 {
          ok := false;
          strand := refused && Strands(h, ptr[i], size);
          HoldsFlushed(h, heap.h, ptr, o);
        } else {
          LiveOf(heap.h);
          HoldsResized(h, heap.h, ptr, o, i, q - HEADER, size);
          ptr' := ptr[i := q];
        }
      }
    case Write(i, at, v) =>
      HeldNames(h, ptr, o, i);
      if i in o && at < o[i].size {
        heap.Store(ptr[i], at, v);
        HoldsWritten(h, heap.h, ptr, o, i, at, v);
      }
    case Limit(limit) =>
      heap.SetLimit(limit);
      HoldsFlushed(h, heap.h, ptr, o);
    case Flush =>
      heap.FreeCache();
      HoldsFlushed(h, heap.h, ptr, o);
  }

  // Running a program on a new heap. The run ends at the first step that leaves through
  // zend_mm_safe_error, and until then the heap holds what the program should hold.
  method Run(heap: Manager, ops: seq<Op>) returns (done: nat, ptr: map<nat, nat>, ghost refused: bool,
      ghost strand: bool, ghost before: Heap)
    requires heap.Valid() && heap.h.live == map[]
    modifies heap, heap.ix
    ensures done <= |ops| && (done < |ops| ==> Asks(ops[done]))
    ensures done < |ops| ==>
      Holds(before, ptr, Ideal(ops[..done])) && (refused || NoRoom(before, Subject(ops[done], ptr), ops[done].size))
    ensures Holds(heap.h, ptr, Ideal(ops[..done]))
    ensures !strand ==> heap.Valid()
    ensures strand <==> done < |ops| && refused && Strands(before, Subject(ops[done], ptr), ops[done].size)
    ensures strand ==> LeftStranded(before, heap.h, heap.ix.x, Subject(ops[done], ptr))
  {
    hide HeapOk, IndexOk, Holds, Next, LeftStranded, Strands, NoRoom;
    done, ptr, refused, strand, before := 0, map[], false, false, heap.h;
    HoldsNothing(heap.h);
    var o: map<nat, Object> := map[];
    while done < |ops|
      invariant done <= |ops| && !strand && heap.Valid() && o == Ideal(ops[..done])
      invariant Holds(heap.h, ptr, o) && forall i :: i in ptr ==> i < done
    {
      assert ops[..done + 1][..done] == ops[..done];
      before := heap.h;
      var ok, ptr';
      ok, ptr', refused, strand := Perform(heap, ops[done], done, ptr, o);
      ptr := ptr';
      if !ok {
        return;
      }
      o := Next(o, ops[done], done);
      done := done + 1;
    }
  }

  lemma {:induction false} HoldsNothing(h: Heap)
    requires h.live == map[]
    ensures Holds(h, map[], map[])
  {
  }
}
