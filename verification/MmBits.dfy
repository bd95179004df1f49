// Machine words as natural numbers: the bit scans of the allocator, the one-bit updates of
// its bitmaps and the left-shifted copy of a size that steers a descent of a large-block trie.
module MmBits {

  function Pow2(k: nat): (p: nat)
    ensures 0 < p
  {
    if k == 0 then 1 else 2 * Pow2(k - 1)
  }

  // n >> k
  function Shr(n: nat, k: nat): nat {
    if k == 0 then n else Shr(n / 2, k - 1)
  }

  predicate Bit(n: nat, i: nat) {
    Shr(n, i) % 2 == 1
  }

  // n | (1 << i)
  function SetBit(n: nat, i: nat): nat {
    if i == 0 then n - n % 2 + 1 else 2 * SetBit(n / 2, i - 1) + n % 2
  }

  // n & ~(1 << i)
  function ClearBit(n: nat, i: nat): nat {
    if i == 0 then n - n % 2 else 2 * ClearBit(n / 2, i - 1) + n % 2
  }

  lemma {:induction false} ShrStep(n: nat, k: nat)
    ensures Shr(n, k + 1) == Shr(n, k) / 2
  {
    if k != 0 { ShrStep(n / 2, k - 1); }
  }

  lemma {:induction false} ShrShr(n: nat, j: nat, k: nat)
    ensures Shr(Shr(n, j), k) == Shr(n, j + k)
  {
    if j != 0 { ShrShr(n / 2, j - 1, k); }
  }

  lemma {:induction false} SetBitAt(n: nat, i: nat, j: nat)
    ensures Bit(SetBit(n, i), j) <==> j == i || Bit(n, j)
  {
    if i != 0 && j != 0 {
      SetBitAt(n / 2, i - 1, j - 1);
      assert SetBit(n, i) / 2 == SetBit(n / 2, i - 1);
    } else if i == 0 && j != 0 {
      assert SetBit(n, i) / 2 == n / 2;
    }
  }

  lemma {:induction false} ClearBitAt(n: nat, i: nat, j: nat)
    ensures Bit(ClearBit(n, i), j) <==> j != i && Bit(n, j)
  {
    if i != 0 && j != 0 {
      ClearBitAt(n / 2, i - 1, j - 1);
      assert ClearBit(n, i) / 2 == ClearBit(n / 2, i - 1);
    } else if i == 0 && j != 0 {
      assert ClearBit(n, i) / 2 == n / 2;
    }
  }

  // A word is zero exactly when none of its bits is set.
  lemma {:induction false} SomeBit(n: nat) returns (i: nat)
    requires n != 0
    ensures Bit(n, i)
  {
    if n % 2 == 1 {
      i := 0;
    } else {
      var j := SomeBit(n / 2);
      i := j + 1;
    }
  }

  lemma {:induction false} ZeroHasNoBit(i: nat)
    ensures !Bit(0, i)
  {
    if i != 0 { ZeroHasNoBit(i - 1); }
  }

  lemma {:induction false} ShrMonotone(m: nat, n: nat, k: nat)
    requires m <= n
    ensures Shr(m, k) <= Shr(n, k)
  {
    if k != 0 { ShrMonotone(m / 2, n / 2, k - 1); }
  }

  // A shifted bitmap is zero exactly when no bit from the shift on is set.
  lemma {:induction false} NoBitsFrom(n: nat, k: nat, i: nat)
    requires Shr(n, k) == 0 && k <= i
    ensures !Bit(n, i)
  {
    ShrShr(n, k, i - k);
    ZeroHasNoBit(i - k);
  }

  // The lowest set bit of a shifted bitmap is the next set bit from the shift on.
  lemma {:induction false} NextBit(n: nat, k: nat, j: nat)
    requires Shr(n, k) != 0
    ensures Bit(n, k + LowBit(Shr(n, k)))
    ensures k <= j < k + LowBit(Shr(n, k)) ==> !Bit(n, j)
  {
    LowBitIsLeast(Shr(n, k), if k <= j then j - k else 0);
    ShrShr(n, k, LowBit(Shr(n, k)));
    if k <= j { ShrShr(n, k, j - k); }
  }

  // The portable loop of zend_mm_high_bit: floor of the binary logarithm.
  method HighBitScan(size: nat) returns (n: nat)
    requires size != 0
    ensures n == HighBit(size)
  {
    var rest := size;
    n := 0;
    while rest != 0
      invariant rest != 0 ==> HighBit(size) == n + HighBit(rest)
      invariant rest == 0 ==> HighBit(size) == n - 1
    {
      rest := rest / 2;
      n := n + 1;
    }
    n := n - 1;
  }

  function HighBit(n: nat): nat
    requires n != 0
  {
    if n == 1 then 0 else 1 + HighBit(n / 2)
  }

  lemma {:induction false} HighBitIsLog(n: nat)
    requires n != 0
    ensures Pow2(HighBit(n)) <= n < Pow2(HighBit(n) + 1)
  {
    if n != 1 { HighBitIsLog(n / 2); }
  }

  // The leading bit is all that is left of a word shifted by its binary logarithm.
  lemma {:induction false} ShrHighBit(n: nat)
    requires n != 0
    ensures Shr(n, HighBit(n)) == 1
  {
    if n != 1 { ShrHighBit(n / 2); }
  }

  lemma {:induction false} HighBitMonotone(m: nat, n: nat)
    requires 0 < m <= n
    ensures HighBit(m) <= HighBit(n)
  {
    if m != 1 { HighBitMonotone(m / 2, n / 2); }
  }

  // Numbers of one binary logarithm, or below, differ by less than a factor of two.
  lemma {:induction false} WithinTwice(m: nat, n: nat)
    requires m != 0 && n != 0 && HighBit(m) <= HighBit(n)
    ensures m < 2 * n
  {
    if n != 1 && m != 1 { WithinTwice(m / 2, n / 2); }
  }

  lemma {:induction false} HighBitBelow(n: nat, k: nat)
    requires 0 < n < Pow2(k)
    ensures HighBit(n) < k
  {
    if n != 1 { HighBitBelow(n / 2, k - 1); }
  }

  // Number of trailing zero bits.
  function LowBit(n: nat): nat
    requires n != 0
  {
    if n % 2 == 1 then 0 else 1 + LowBit(n / 2)
  }

  lemma {:induction false} LowBitIsLeast(n: nat, j: nat)
    requires n != 0
    ensures Bit(n, LowBit(n))
    ensures j < LowBit(n) ==> !Bit(n, j)
  {
    if n % 2 == 0 {
      LowBitIsLeast(n / 2, if j == 0 then 0 else j - 1);
    }
  }

  // A power of two, as the startup code tests for it.
  predicate PowerOfTwo(n: nat) {
    n != 0 && LowBit(n) == HighBit(n)
  }

  lemma {:induction false} PowerOfTwoIsAligned(n: nat)
    requires PowerOfTwo(n) && 32 <= n
    ensures n % 8 == 0
  {
    HighBitMonotone(32, n);
    assert HighBit(32) == 5;
    assert LowBit(n) == 1 + LowBit(n / 2);
    assert LowBit(n / 2) == 1 + LowBit(n / 2 / 2);
    assert LowBit(n / 2 / 2) == 1 + LowBit(n / 2 / 2 / 2);
  }

  const OFFSET: seq<nat> := [4, 0, 1, 0, 2, 0, 1, 0, 3, 0, 1, 0, 2, 0, 1, 0]

  // The portable loop of zend_mm_low_bit: four bits at a time through a table.
  method LowBitScan(size: nat) returns (r: nat)
    requires size != 0
    ensures r == LowBit(size)
  {
    var rest, index := size, 0;
    var n := OFFSET[rest % 16];
    LowBitOfNibble(rest);
    while n == 4
      invariant rest != 0 && n == OFFSET[rest % 16]
      invariant LowBit(size) == index + LowBit(rest)
      invariant if n == 4 then rest % 16 == 0 && LowBit(rest) == 4 + LowBit(rest / 16) else LowBit(rest) == n
      decreases rest
    {
      rest := rest / 16;
      index := index + n;
      n := OFFSET[rest % 16];
      LowBitOfNibble(rest);
    }
    r := index + n;
  }

  // The first set bit of a bitmap from index on.
  method FirstSet(bitmap: nat, index: nat) returns (found: bool, i: nat)
    ensures !found ==> forall j: nat :: index <= j ==> !Bit(bitmap, j)
    ensures found ==> index <= i && Bit(bitmap, i) && forall j: nat :: index <= j < i ==> !Bit(bitmap, j)
  {
    var rest := Shr(bitmap, index);
    if rest == 0 {
      forall j: nat | index <= j
        ensures !Bit(bitmap, j)
      {
        NoBitsFrom(bitmap, index, j);
      }
      return false, 0;
    }
    var low := LowBitScan(rest);
    forall j: nat | index <= j < index + low
      ensures !Bit(bitmap, j)
    {
      NextBit(bitmap, index, j);
    }
    NextBit(bitmap, index, index);
    return true, index + low;
  }

  lemma {:induction false} LowBitOfNibble(n: nat)
    requires n != 0
    ensures if OFFSET[n % 16] == 4 then n % 16 == 0 && n / 16 != 0 && LowBit(n) == 4 + LowBit(n / 16)
      else LowBit(n) == OFFSET[n % 16]
  {
    var h := n / 2;
    var q := n / 4;
    var e := n / 8;
    assert h / 2 == q && q / 2 == e && e / 2 == n / 16;
    if n % 2 == 0 {
      assert LowBit(n) == 1 + LowBit(h);
      if h % 2 == 0 {
        assert LowBit(h) == 1 + LowBit(q);
        if q % 2 == 0 {
          assert LowBit(q) == 1 + LowBit(e);
          if e % 2 == 0 {
            assert n % 16 == 0;
            assert LowBit(e) == 1 + LowBit(n / 16);
          }
        }
      }
    }
  }

  // Words of 64 bits, as the trie descents use them: the bits of a size below its leading
  // bit, moved to the top of a word and shifted out one by one.
  const WORD: nat := 0x1_0000_0000_0000_0000
  const TOP: nat := 0x8000_0000_0000_0000

  function TopBit(m: nat): nat {
    m / TOP % 2
  }

  // m <<= 1
  function Shl1(m: nat): nat {
    2 * m % WORD
  }

  // n << k
  function Shl(n: nat, k: nat): nat {
    if k == 0 then n else 2 * Shl(n, k - 1)
  }

  // size << (64 - index), truncated to a word
  function Justified(size: nat, index: nat): nat
    requires index <= 64
  {
    Shl(size, 64 - index) % WORD
  }

  // The k low bits of n.
  function Low(n: nat, k: nat): nat {
    if k == 0 then 0 else 2 * Low(n / 2, k - 1) + n % 2
  }

  // m holds the k low bits of n, left-justified.
  predicate Steers(m: nat, n: nat, k: nat) {
    k <= 64 && m == Shl(Low(n, k), 64 - k)
  }

  lemma {:induction false} LowSplit(n: nat, k: nat)
    ensures Low(n, k + 1) == (if Bit(n, k) then Pow2(k) else 0) + Low(n, k)
    ensures Low(n, k) < Pow2(k)
  {
    if k != 0 {
      LowSplit(n / 2, k - 1);
      assert Low(n, k + 1) == 2 * Low(n / 2, k) + n % 2;
    }
  }

  lemma {:induction false} LowAll(n: nat, k: nat)
    requires Shr(n, k) == 1
    ensures n == Pow2(k) + Low(n, k)
  {
    if k != 0 { LowAll(n / 2, k - 1); }
  }

  lemma {:induction false} ShlAdd(a: nat, b: nat, k: nat)
    ensures Shl(a + b, k) == Shl(a, k) + Shl(b, k)
    ensures a < b ==> Shl(a, k) < Shl(b, k)
  {
    if k != 0 { ShlAdd(a, b, k - 1); }
  }

  lemma {:induction false} ShlPow2(j: nat, k: nat)
    ensures Shl(Pow2(j), k) == Pow2(j + k)
  {
    if k != 0 { ShlPow2(j, k - 1); }
  }

  lemma {:induction false} Pow2Word()
    ensures Pow2(63) == TOP && Pow2(64) == WORD
  {
    Pow2By256(8);
    Pow2By256(16);
    Pow2By256(24);
    Pow2By256(32);
    Pow2By256(40);
    Pow2By256(48);
    Pow2By256(56);
    assert Pow2(64) == 2 * Pow2(63);
  }

  lemma {:induction false} Pow2By256(k: nat)
    ensures Pow2(k + 8) == 256 * Pow2(k) && Pow2(8) == 256
  {
    assert Pow2(k + 2) == 4 * Pow2(k);
    assert Pow2(k + 4) == 4 * Pow2(k + 2);
    assert Pow2(k + 6) == 4 * Pow2(k + 4);
    assert Pow2(k + 8) == 4 * Pow2(k + 6);
  }

  // A left-justified number is its top bit and the rest, left-justified one place further.
  lemma {:induction false} JustifiedSplit(n: nat, k: nat)
    requires k < 64
    ensures Shl(Low(n, k), 63 - k) < TOP
    ensures Shl(Low(n, k + 1), 63 - k) == (if Bit(n, k) then TOP else 0) + Shl(Low(n, k), 63 - k)
  {
    LowSplit(n, k);
    Pow2Word();
    ShlPow2(k, 63 - k);
    ShlAdd(Pow2(k), Low(n, k), 63 - k);
    ShlAdd(Low(n, k), Pow2(k), 63 - k);
  }

  // The word a descent starts with.
  lemma {:induction false} SteersStart(n: nat)
    requires n != 0 && HighBit(n) < 64
    ensures Steers(Justified(n, HighBit(n)), n, HighBit(n))
  {
    hide Pow2, Low, Shr, HighBit, Bit;
    var i := HighBit(n);
    assert Shl(Low(n, i), 64 - i) == 2 * Shl(Low(n, i), 63 - i);
    hide Shl;
    ShrHighBit(n);
    LowAll(n, i);
    ShlAdd(Pow2(i), Low(n, i), 64 - i);
    ShlPow2(i, 64 - i);
    Pow2Word();
    JustifiedSplit(n, i);
  }

  // Its top bit is the next bit of the size; shifting it keeps the rest.
  lemma {:induction false} SteersStep(m: nat, n: nat, k: nat)
    requires Steers(m, n, k) && 0 < k
    ensures TopBit(m) == 1 <==> Bit(n, k - 1)
    ensures TopBit(m) == Shr(n, k - 1) % 2
    ensures Steers(Shl1(m), n, k - 1)
  {
    JustifiedSplit(n, k - 1);
  }
}
