// Block sizes of the Zend memory manager on a 64-bit build without debugging,
// heap protection or cookies. Sizes are natural numbers and do not wrap.
module MmSize {

  const ALIGNMENT: nat := 8
  const HEADER: nat := 16          // ZEND_MM_ALIGNED_HEADER_SIZE: the words _size and _prev
  const MIN_BLOCK: nat := 32       // ZEND_MM_ALIGNED_MIN_HEADER_SIZE: header and two ring links
  const SEGMENT_HEADER: nat := 16  // ZEND_MM_ALIGNED_SEGMENT_SIZE
  const NUM_BUCKETS: nat := 64
  const MIN_SIZE: nat := MIN_BLOCK - HEADER
  const MAX_SMALL: nat := NUM_BUCKETS * ALIGNMENT + MIN_BLOCK
  const CACHE_SIZE: nat := NUM_BUCKETS * 4 * 1024
  const MAX_REST_BLOCKS: nat := 16

  function Aligned(n: nat): nat {
    (n + ALIGNMENT - 1) / ALIGNMENT * ALIGNMENT
  }

  function TrueSize(size: nat): nat {
    if size < MIN_SIZE then MIN_BLOCK else Aligned(size + HEADER)
  }

  predicate Small(trueSize: nat) {
    trueSize < MAX_SMALL
  }

  // A size a block can have.
  predicate BlockSize(n: nat) {
    n % ALIGNMENT == 0 && MIN_BLOCK <= n
  }

  function BucketIndex(trueSize: nat): (i: nat)
    requires MIN_BLOCK <= trueSize
  {
    trueSize / ALIGNMENT - MIN_BLOCK / ALIGNMENT
  }

  // The true size of a request is the least block size that holds the header and the request.
  lemma {:induction false} TrueSizeIsLeast(size: nat, n: nat)
    ensures BlockSize(TrueSize(size)) && size + HEADER <= TrueSize(size)
    ensures BlockSize(n) && size + HEADER <= n ==> TrueSize(size) <= n
  {
  }

  // The figures of a 64-bit build.
  lemma {:induction false} Figures()
    ensures TrueSize(0) == TrueSize(16) == 32 && TrueSize(17) == TrueSize(24) == 40 && TrueSize(100) == 120
    ensures Small(536) && !Small(544) && BucketIndex(32) == 0 && BucketIndex(40) == 1 && BucketIndex(536) == 63
    ensures CACHE_SIZE == 262144 && MAX_REST_BLOCKS == 16
    ensures SegmentSize(262144, 262112) == 262144 && SegmentSize(262144, 262120) == 524288
  {
  }

  // The small classes are exact: one block size per bucket, numbered from 0 to 63.
  lemma {:induction false} SmallClassesAreExact(n: nat, i: nat)
    requires BlockSize(n)
    ensures Small(n) <==> BucketIndex(n) < NUM_BUCKETS
    ensures BucketIndex(n) == i <==> n == MIN_BLOCK + i * ALIGNMENT
  {
  }

  // The size of a segment for a block of trueSize bytes: the default unit if the block
  // fits beside the segment header and the guard, else the least multiple of it that does.
  function SegmentSize(unit: nat, trueSize: nat): nat
    requires SEGMENT_HEADER + HEADER <= unit
  {
    if trueSize > unit - (SEGMENT_HEADER + HEADER) then
      (trueSize + SEGMENT_HEADER + HEADER + (unit - 1)) / unit * unit
    else
      unit
  }

  lemma {:induction false} SegmentSizeIsLeast(unit: nat, trueSize: nat, k: nat)
    requires SEGMENT_HEADER + HEADER <= unit
    ensures SegmentSize(unit, trueSize) % unit == 0
    ensures trueSize + SEGMENT_HEADER + HEADER <= SegmentSize(unit, trueSize)
    ensures unit <= SegmentSize(unit, trueSize)
    ensures trueSize + SEGMENT_HEADER + HEADER <= k * unit && 0 < k ==> SegmentSize(unit, trueSize) <= k * unit
  {
    var need := trueSize + SEGMENT_HEADER + HEADER;
    if trueSize > unit - (SEGMENT_HEADER + HEADER) {
      var q := (need + (unit - 1)) / unit;
      DivBounds(need + (unit - 1), unit);
      MulMod(q, unit);
      if need <= k * unit && k < q {
        MulMono(k + 1, q, unit);
      }
      if q < 1 { MulMono(q, 0, unit); }
      MulMono(1, q, unit);
      if k >= q { MulMono(q, k, unit); }
    } else if 0 < k {
      MulMono(1, k, unit);
    }
  }

  lemma {:induction false} DivBounds(n: nat, d: nat)
    requires 0 < d
    ensures n / d * d <= n < n / d * d + d
  {
    assert n == n / d * d + n % d;
  }

  lemma {:induction false} MulMono(a: nat, b: nat, c: nat)
    requires a <= b
    ensures a * c <= b * c
  {
    assert (b - a) * c >= 0;
  }

  lemma {:induction false} MulMod(q: nat, d: nat)
    requires 0 < d
    ensures q * d % d == 0 && q * d / d == q
  {
    var p := q * d / d;
    DivBounds(q * d, d);
    if p < q { MulMono(p + 1, q, d); }
    if q < p { MulMono(q + 1, p, d); }
  }
}
