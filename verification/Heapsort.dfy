// heapsort_r of the benchmark: an array used from index 1, sorted in place.
module Heapsort {

  // Node j of the heap in s[lo..hi] is at most its parent.
  ghost predicate Under(s: seq<int>, j: nat)
    requires j < |s|
  {
    s[j] <= s[j / 2]
  }

  // Every node up to hi whose parent is at least lo is at most its parent.
  ghost predicate HeapFrom(s: seq<int>, lo: nat, hi: nat)
    requires hi < |s|
  {
    forall j {:trigger Under(s, j)} :: 2 <= j <= hi && lo <= j / 2 ==> Under(s, j)
  }

  ghost predicate Below(s: seq<int>, lo: nat, hi: nat, b: int)
    requires hi < |s|
  {
    forall k :: lo <= k <= hi ==> s[k] <= b
  }

  ghost predicate Sorted(s: seq<int>, lo: nat) {
    forall i, j :: lo <= i <= j < |s| ==> s[i] <= s[j]
  }

  lemma {:induction false} SwapIsPermutation(s: seq<int>, i: nat, j: nat, v: int)
    requires i < |s| && j < |s| && i != j
    ensures multiset(s[i := s[j]][j := v]) == multiset(s[i := v])
  {
    var t := s[i := v];
    assert s[i := s[j]][j := v] == t[i := t[j]][j := t[i]];
  }

  // The root is the largest.
  lemma {:induction false} RootIsLargest(s: seq<int>, hi: nat, k: nat)
    requires hi < |s| && HeapFrom(s, 1, hi) && 1 <= k <= hi
    ensures s[k] <= s[1]
    decreases k
  {
    if k != 1 {
      assert Under(s, k);
      RootIsLargest(s, hi, k / 2);
    }
  }

  // While value v is on its way down from l and the hole is at i: the heap holds away from i, and
  // what is above i is at least what is below it and at least v.
  ghost predicate Sifting(s: seq<int>, l: nat, hi: nat, i: nat, v: int)
    requires hi < |s| && l <= i <= hi
  {
    && (forall j {:trigger Under(s, j)} :: 2 <= j <= hi && l <= j / 2 && j != i && j / 2 != i ==> Under(s, j))
    && (l <= i / 2 && 2 <= i ==> v <= s[i / 2] && forall j :: 2 <= j <= hi && j / 2 == i ==> s[j] <= s[i / 2])
  }

  lemma {:induction false} SiftStep(s: seq<int>, l: nat, hi: nat, i: nat, j: nat, v: int)
    requires hi < |s| && 1 <= l <= i <= hi && Sifting(s, l, hi, i, v) && i < j <= hi && j / 2 == i && v < s[j]
    requires Settles(s, hi, i, s[j])
    ensures Sifting(s[i := s[j]], l, hi, j, v)
  {
    var t := s[i := s[j]];
    forall k | 2 <= k <= hi && l <= k / 2 && k != j && k / 2 != j
      ensures Under(t, k)
    {
      if k != i && k / 2 != i { assert Under(s, k); }
    }
    forall k | 2 <= k <= hi && k / 2 == j
      ensures t[k] <= t[j / 2]
    {
      assert Under(s, k);
    }
  }

  lemma {:induction false} SiftEnds(s: seq<int>, l: nat, hi: nat, i: nat, v: int)
    requires hi < |s| && 1 <= l <= i <= hi && Sifting(s, l, hi, i, v)
    requires Settles(s, hi, i, v)
    ensures HeapFrom(s[i := v], l, hi)
  {
    var t := s[i := v];
    forall k | 2 <= k <= hi && l <= k / 2
      ensures Under(t, k)
    {
      if k != i && k / 2 != i { assert Under(s, k); }
    }
  }

  // What bounds s from lo to hi bounds t there.
  ghost predicate Tighter(s: seq<int>, t: seq<int>, lo: nat, hi: nat)
    requires hi < |s| && hi < |t|
  {
    forall b {:trigger Below(s, lo, hi, b)} :: Below(s, lo, hi, b) ==> Below(t, lo, hi, b)
  }

  lemma {:induction false} TighterSwap(s: seq<int>, t: seq<int>, lo: nat, hi: nat, i: nat, j: nat, v: int)
    requires hi < |s| == |t| && lo <= i <= hi && lo <= j <= hi && Tighter(s, t[i := v], lo, hi)
    ensures Tighter(s, t[i := t[j]][j := v], lo, hi)
  {
    var w, u := t[i := v], t[i := t[j]][j := v];
    forall b | Below(s, lo, hi, b)
      ensures Below(u, lo, hi, b)
    {
      assert Below(w, lo, hi, b);
      forall k | lo <= k <= hi
        ensures u[k] <= b
      {
        assert w[i] == v && w[if k == i then j else k] <= b;
      }
    }
  }

  // Outside lo to hi, s and t are the same.
  ghost predicate SameOutside(s: seq<int>, t: seq<int>, lo: nat, hi: nat) {
    |s| == |t| && forall k :: 0 <= k < |s| && !(lo <= k <= hi) ==> s[k] == t[k]
  }

  // With the hole at i filled by v, s is a permutation of v0 that differs only from lo to hi.
  ghost predicate Carries(v0: seq<int>, s: seq<int>, lo: nat, hi: nat, i: nat, v: int) {
    && lo <= i <= hi < |s| == |v0| && multiset(s[i := v]) == multiset(v0)
    && SameOutside(v0, s[i := v], lo, hi) && Tighter(v0, s[i := v], lo, hi)
  }

  lemma {:induction false} CarriesOn(v0: seq<int>, s: seq<int>, lo: nat, hi: nat, i: nat, j: nat, v: int)
    requires Carries(v0, s, lo, hi, i, v) && lo <= j <= hi && i != j
    ensures Carries(v0, s[i := s[j]], lo, hi, j, v)
  {
    hide Tighter;
    SwapIsPermutation(s, i, j, v);
    TighterSwap(v0, s, lo, hi, i, j, v);
  }

  lemma {:induction false} CarriesStart(s: seq<int>, lo: nat, hi: nat, v: int)
    requires lo <= hi < |s|
    ensures Carries(s[lo := v], s, lo, hi, lo, v)
  {
    TighterSelf(s[lo := v], lo, hi);
  }

  // j is the larger child of i.
  lemma {:induction false} LargerChild(s: seq<int>, ir: nat, i: nat, j: nat)
    requires 1 <= i && j <= ir < |s|
    requires (j == 2 * i && (j < ir ==> s[j + 1] <= s[j])) || (j == 2 * i + 1 && s[j - 1] <= s[j])
    ensures j / 2 == i && i < j && Settles(s, ir, i, s[j])
  {
    forall k | 2 <= k <= ir && k / 2 == i
      ensures s[k] <= s[j]
    {
      assert k == 2 * i || k == 2 * i + 1;
    }
  }

  // The inner loop: v goes down from the hole at l.
  method Sift(a: array<int>, l: nat, ir: nat, v: int)
    requires 1 <= l <= ir < a.Length && HeapFrom(a[..], l + 1, ir)
    modifies a
    ensures multiset(a[..]) == multiset(old(a[..])[l := v]) && HeapFrom(a[..], l, ir)
    ensures SameOutside(old(a[..]), a[..], l, ir) && Tighter(old(a[..])[l := v], a[..], l, ir)
  {
    hide HeapFrom, Sifting, Tighter, Carries, Settles, SameOutside;
    SiftStarts(a[..], l, ir, v);
    NoChild(a[..], ir, l, v);
    ghost var v0 := a[..][l := v];
    CarriesStart(a[..], l, ir, v);
    var i, j := l, 2 * l;
    while j <= ir
      invariant l <= i <= ir && Sifting(a[..], l, ir, i, v) && Carries(v0, a[..], l, ir, i, v)
      invariant if j <= ir then j == 2 * i else Settles(a[..], ir, i, v)
      decreases ir + 1 - j
    {
      if j < ir && a[j] < a[j + 1] {
        j := j + 1;
      }
      ghost var s := a[..];
      LargerChild(s, ir, i, j);
      if v < a[j] {
        SiftStep(s, l, ir, i, j, v);
        CarriesOn(v0, s, l, ir, i, j, v);
        a[i] := a[j];
        assert a[..] == s[i := s[j]];
        i := j;
        j := j + i;
        NoChild(a[..], ir, i, v);
      } else {
        SettlesMore(s, ir, i, s[j], v);
        j := ir + 1;
      }
    }
    ghost var s := a[..];
    SiftEnds(s, l, ir, i, v);
    CarriesEnd(v0, s, l, ir, i, v);
    SameFilled(old(a[..]), s[i := v], l, ir, v);
    a[i] := v;
    assert a[..] == s[i := v];
  }

  lemma {:induction false} SameFilled(s: seq<int>, t: seq<int>, lo: nat, hi: nat, v: int)
    requires lo <= hi < |s| && SameOutside(s[lo := v], t, lo, hi)
    ensures SameOutside(s, t, lo, hi)
  {
  }

  // v is at least every child of i.
  ghost predicate Settles(s: seq<int>, ir: nat, i: nat, v: int)
    requires ir < |s|
  {
    forall k :: 2 <= k <= ir && k / 2 == i ==> s[k] <= v
  }

  lemma {:induction false} SettlesMore(s: seq<int>, ir: nat, i: nat, v: int, w: int)
    requires ir < |s| && Settles(s, ir, i, v) && v <= w
    ensures Settles(s, ir, i, w)
  {
  }

  lemma {:induction false} NoChild(s: seq<int>, ir: nat, i: nat, v: int)
    requires 1 <= i && ir < |s|
    ensures ir < 2 * i ==> Settles(s, ir, i, v)
  {
  }

  lemma {:induction false} CarriesEnd(v0: seq<int>, s: seq<int>, lo: nat, hi: nat, i: nat, v: int)
    requires Carries(v0, s, lo, hi, i, v)
    ensures lo <= i <= hi < |s| == |v0| && multiset(s[i := v]) == multiset(v0) && SameOutside(v0, s[i := v], lo, hi)
      && Tighter(v0, s[i := v], lo, hi)
  {
  }

  lemma {:induction false} TighterSelf(s: seq<int>, lo: nat, hi: nat)
    requires hi < |s|
    ensures Tighter(s, s, lo, hi)
  {
  }

  lemma {:induction false} SiftStarts(s: seq<int>, l: nat, hi: nat, v: int)
    requires 1 <= l <= hi < |s| && HeapFrom(s, l + 1, hi)
    ensures Sifting(s, l, hi, l, v)
  {
    forall j | 2 <= j <= hi && l <= j / 2 && j != l && j / 2 != l
      ensures Under(s, j)
    {
    }
  }

  // s[l..ir] is a heap, what follows is sorted and bounds what comes before it.
  ghost predicate Progress(s: seq<int>, l: nat, ir: nat)
    requires ir < |s|
  {
    && HeapFrom(s, l, ir) && Sorted(s, ir + 1)
    && (forall m :: ir < m < |s| ==> Below(s, 1, ir, s[m]))
  }

  // Building the heap: there is nothing behind it.
  lemma {:induction false} Built(t: seq<int>, l: nat, ir: nat)
    requires ir + 1 == |t| && HeapFrom(t, l, ir)
    ensures Progress(t, l, ir)
  {
  }

  // The root goes to the end of the heap.
  lemma {:induction false} RootMoved(s: seq<int>, t: seq<int>, ir: nat)
    requires 1 <= ir && ir + 1 < |s| && Progress(s, 1, ir + 1) && t == s[ir + 1 := s[1]]
    ensures HeapFrom(t, 2, ir) && Sorted(t, ir + 1) && multiset(t[1 := s[ir + 1]]) == multiset(s)
    ensures forall m :: ir < m < |t| ==> Below(t[1 := s[ir + 1]], 1, ir, t[m])
  {
    LargestLast(s, ir + 1);
    ShorterHeap(s, t, ir);
    SwapIsPermutation(s, ir + 1, 1, s[ir + 1]);
    assert s[ir + 1 := s[ir + 1]] == s;
    hide HeapFrom;
    forall m | ir < m < |t|
      ensures Below(t[1 := s[ir + 1]], 1, ir, t[m])
    {
      if m != ir + 1 { assert Below(s, 1, ir + 1, s[m]); }
    }
  }

  // The value that was at the end is sifted in.
  lemma {:induction false} RootReplaced(t: seq<int>, u: seq<int>, ir: nat, v: int)
    requires 1 <= ir < |t| && |u| == |t| && Sorted(t, ir + 1) && forall m :: ir < m < |t| ==>
      Below(t[1 := v], 1, ir, t[m])
    requires HeapFrom(u, 1, ir) && SameOutside(t, u, 1, ir) && Tighter(t[1 := v], u, 1, ir)
    ensures Progress(u, 1, ir)
  {
    hide HeapFrom;
  }

  // Two elements left: the root, then the other.
  lemma {:induction false} LastTwo(t: seq<int>, v: int)
    requires 2 < |t| && Sorted(t, 2) && forall m :: 1 < m < |t| ==> Below(t[1 := v], 1, 1, t[m])
    ensures Sorted(t[1 := v], 1)
  {
    forall m | 1 < m < |t|
      ensures v <= t[m]
    {
      assert Below(t[1 := v], 1, 1, t[m]);
      assert t[1 := v][1] == v;
    }
  }

  // heapsort_r: sorts ra[1..n]; index 0 is not used.
  method HeapsortR(n: nat, ra: array<int>)
    requires 2 <= n && ra.Length == n + 1
    modifies ra
    ensures Sorted(ra[..], 1) && multiset(ra[..]) == multiset(old(ra[..])) && ra[0] == old(ra[0])
  {
    hide HeapFrom, Progress, Tighter, Below, Sorted;
    var l, ir := n / 2 + 1, n;
    LeavesAreHeap(ra[..], l, ir);
    Built(ra[..], l, ir);
    while true
      invariant 1 <= l <= n / 2 + 1 && 2 <= ir <= n && (l > 1 ==> ir == n)
      invariant Progress(ra[..], l, ir) && multiset(ra[..]) == multiset(old(ra[..])) && ra[0] == old(ra[0])
      decreases l, ir
    {
      ghost var s := ra[..];
      if l > 1 {
        l := l - 1;
        var rra := ra[l];
        assert s[l := rra] == s;
        assert HeapFrom(s, l + 1, ir) by { HeapOf(s, l + 1, ir); }
        Sift(ra, l, ir, rra);
        Built(ra[..], l, ir);
      } else {
        var rra := ra[ir];
        ra[ir] := ra[1];
        ir := ir - 1;
        ghost var t := ra[..];
        assert t == s[ir + 1 := s[1]];
        RootMoved(s, t, ir);
        if ir == 1 {
          LastTwo(t, rra);
          ra[1] := rra;
          assert ra[..] == t[1 := rra];
          return;
        }
        Sift(ra, 1, ir, rra);
        RootReplaced(t, ra[..], ir, rra);
      }
    }
  }

  lemma {:induction false} HeapOf(s: seq<int>, l: nat, ir: nat)
    requires ir < |s| && Progress(s, l, ir)
    ensures HeapFrom(s, l, ir)
  {
  }

  lemma {:induction false} LeavesAreHeap(s: seq<int>, l: nat, n: nat)
    requires l == n / 2 + 1 && n < |s|
    ensures HeapFrom(s, l, n)
  {
  }

  lemma {:induction false} LargestLast(s: seq<int>, ir: nat)
    requires 1 <= ir < |s| && HeapFrom(s, 1, ir)
    ensures Below(s, 1, ir, s[1])
  {
    forall k | 1 <= k <= ir
      ensures s[k] <= s[1]
    {
      RootIsLargest(s, ir, k);
    }
  }

  // Without its last node and away from the root, a heap is a heap.
  lemma {:induction false} ShorterHeap(s: seq<int>, t: seq<int>, ir: nat)
    requires 1 <= ir && ir + 1 < |s| && HeapFrom(s, 1, ir + 1) && t == s[ir + 1 := s[1]]
    ensures HeapFrom(t, 2, ir)
  {
    forall j | 2 <= j <= ir && 2 <= j / 2
      ensures Under(t, j)
    {
      assert Under(s, j);
    }
  }
}
