// The line diff of the test runner, for expected lines that are plain text.
module Diff {

  type Lines = seq<string>

  // ---------- the longest common subsequence ----------

  function Max(a: nat, b: nat): nat {
    if a < b then b else a
  }

  // The length of the longest common subsequence.
  function Lcs(a: Lines, b: Lines): nat
    decreases |a| + |b|
  {
    if a == [] || b == [] then 0
    else Max(Max(Lcs(a[1..], b), Lcs(a, b[1..])), if a[0] == b[0] then 1 + Lcs(a[1..], b[1..]) else 0)
  }

  // Pairs of positions of equal lines, in order on both sides.
  ghost predicate Common(a: Lines, b: Lines, ps: seq<(nat, nat)>) {
    && (forall k :: 0 <= k < |ps| ==> ps[k].0 < |a| && ps[k].1 < |b| && a[ps[k].0] == b[ps[k].1])
    && (forall k, l :: 0 <= k < l < |ps| ==> ps[k].0 < ps[l].0 && ps[k].1 < ps[l].1)
  }

  ghost function Shifted(ps: seq<(nat, nat)>, i: nat, j: nat): seq<(nat, nat)>
    requires forall k :: 0 <= k < |ps| ==> i <= ps[k].0 && j <= ps[k].1
  {
    seq(|ps|, k requires 0 <= k < |ps| => (ps[k].0 - i, ps[k].1 - j))
  }

  // No common subsequence is longer.
  lemma {:induction false} NoneLonger(a: Lines, b: Lines, ps: seq<(nat, nat)>)
    requires Common(a, b, ps)
    ensures |ps| <= Lcs(a, b)
    decreases |a| + |b|
  {
    if ps != [] {
      if ps[0].0 != 0 {
        assert Common(a[1..], b, Shifted(ps, 1, 0));
        NoneLonger(a[1..], b, Shifted(ps, 1, 0));
      } else if ps[0].1 != 0 {
        assert Common(a, b[1..], Shifted(ps, 0, 1));
        NoneLonger(a, b[1..], Shifted(ps, 0, 1));
      } else {
        var qs := Shifted(ps[1..], 1, 1);
        assert Common(a[1..], b[1..], qs);
        NoneLonger(a[1..], b[1..], qs);
      }
    }
  }

  ghost function Moved(ps: seq<(nat, nat)>, i: nat, j: nat): seq<(nat, nat)> {
    seq(|ps|, k requires 0 <= k < |ps| => (ps[k].0 + i, ps[k].1 + j))
  }

  lemma {:induction false} CommonMoved(a: Lines, b: Lines, qs: seq<(nat, nat)>, i: nat, j: nat)
    requires i <= |a| && j <= |b| && Common(a[i..], b[j..], qs)
    ensures Common(a, b, Moved(qs, i, j)) && |Moved(qs, i, j)| == |qs| && forall k :: 0 <= k < |qs| ==>
      i <= Moved(qs, i, j)[k].0 && j <= Moved(qs, i, j)[k].1
  {
  }

  // And one is as long.
  lemma {:induction false} OneAsLong(a: Lines, b: Lines) returns (ps: seq<(nat, nat)>)
    ensures Common(a, b, ps) && |ps| == Lcs(a, b)
    decreases |a| + |b|
  {
    if a == [] || b == [] {
      ps := [];
    } else if a[0] == b[0] && Lcs(a, b) == 1 + Lcs(a[1..], b[1..]) {
      var qs := OneAsLong(a[1..], b[1..]);
      CommonMoved(a, b, qs, 1, 1);
      ps := [(0, 0)] + Moved(qs, 1, 1);
    } else if Lcs(a, b) == Lcs(a[1..], b) {
      var qs := OneAsLong(a[1..], b);
      assert b[0..] == b;
      CommonMoved(a, b, qs, 1, 0);
      ps := Moved(qs, 1, 0);
    } else {
      var qs := OneAsLong(a, b[1..]);
      assert a[0..] == a;
      CommonMoved(a, b, qs, 0, 1);
      ps := Moved(qs, 0, 1);
    }
  }

  // A suffix has no longer one.
  lemma {:induction false} LcsSuffix(a: Lines, b: Lines, i: nat, j: nat)
    requires i <= |a| && j <= |b|
    ensures Lcs(a[i..], b[j..]) <= Lcs(a, b)
    decreases i + j
  {
    if i > 0 && b != [] {
      LcsSuffix(a[1..], b, i - 1, j);
      assert a[1..][i - 1..] == a[i..];
    } else if j > 0 && a != [] {
      LcsSuffix(a, b[1..], i, j - 1);
      assert b[1..][j - 1..] == b[j..];
    } else {
      assert i == 0 ==> a[i..] == a;
      assert j == 0 ==> b[j..] == b;
    }
  }

  // Equal lines at the front extend it.
  lemma {:induction false} LcsEqual(a: Lines, b: Lines, i: nat, j: nat)
    requires i < |a| && j < |b| && a[i] == b[j]
    ensures 1 + Lcs(a[i + 1..], b[j + 1..]) <= Lcs(a[i..], b[j..])
  {
    assert a[i..][1..] == a[i + 1..] && b[j..][1..] == b[j + 1..];
  }

  // The number of equal lines in front.
  function Front(a: Lines, b: Lines): (n: nat)
    ensures n <= |a| && n <= |b| && a[..n] == b[..n] && (n < |a| && n < |b| ==> a[n] != b[n])
  {
    if a == [] || b == [] || a[0] != b[0] then 0 else 1 + Front(a[1..], b[1..])
  }

  lemma {:induction false} FrontStep(a: Lines, b: Lines, i: nat, j: nat)
    requires i <= |a| && j <= |b|
    ensures Front(a[i..], b[j..]) ==
      if i < |a| && j < |b| && a[i] == b[j] then 1 + Front(a[i + 1..], b[j + 1..]) else 0
  {
    if i < |a| && j < |b| { assert a[i..][1..] == a[i + 1..] && b[j..][1..] == b[j + 1..]; }
  }

  // A common subsequence is no longer than the texts.
  lemma {:induction false} LcsBound(a: Lines, b: Lines)
    ensures Lcs(a, b) <= |a| && Lcs(a, b) <= |b|
  {
    var ps := OneAsLong(a, b);
    hide Lcs;
    if ps != [] { Climbs(a, b, ps, |ps| - 1); }
  }

  lemma {:induction false} Climbs(a: Lines, b: Lines, ps: seq<(nat, nat)>, k: nat)
    requires Common(a, b, ps) && k < |ps|
    ensures k <= ps[k].0 && k <= ps[k].1
  {
    if k != 0 { Climbs(a, b, ps, k - 1); }
  }

  // ---------- the estimate ----------

  // The lines in front and, if the budget allows it, those behind one line skipped on either side.
  ghost predicate AtLeastFront(a: Lines, b: Lines, i: nat, j: nat, steps: real, equal: nat)
    requires i <= |a| && j <= |b|
  {
    var n := Front(a[i..], b[j..]);
    && n <= equal
    && (steps > n as real + 1.0 && i + n < |a| ==> n + Front(a[i + n + 1..], b[j + n..]) <= equal)
    && (steps > n as real + 1.0 && j + n < |b| ==> n + Front(a[i + n..], b[j + n + 1..]) <= equal)
  }

  // count_array_diff: a lower bound found with a budget of steps, which halves exactly and so is
  // no integer in general.
  method CountArrayDiff(ar1: Lines, ar2: Lines, idx1_0: nat, idx2_0: nat, steps_0: real) returns (equal: nat)
    requires idx1_0 <= |ar1| && idx2_0 <= |ar2|
    ensures equal <= Lcs(ar1[idx1_0..], ar2[idx2_0..])
    ensures AtLeastFront(ar1, ar2, idx1_0, idx2_0, steps_0, equal)
    decreases |ar1| - idx1_0 + |ar2| - idx2_0, 2
  {
    hide Lcs, Front;
    var idx1, idx2, steps := idx1_0, idx2_0, steps_0;
    equal := 0;
    ghost var front := Front(ar1[idx1_0..], ar2[idx2_0..]);
    while idx1 < |ar1| && idx2 < |ar2| && ar1[idx1] == ar2[idx2]
      invariant idx1_0 <= idx1 <= |ar1| && idx2_0 <= idx2 <= |ar2| && equal == idx1 - idx1_0 == idx2 - idx2_0
      invariant equal + Lcs(ar1[idx1..], ar2[idx2..]) <= Lcs(ar1[idx1_0..], ar2[idx2_0..])
      invariant equal + Front(ar1[idx1..], ar2[idx2..]) == front && steps == steps_0 - equal as real
    {
      LcsEqual(ar1, ar2, idx1, idx2);
      FrontStep(ar1, ar2, idx1, idx2);
      idx1, idx2, equal, steps := idx1 + 1, idx2 + 1, equal + 1, steps - 1.0;
    }
    FrontStep(ar1, ar2, idx1, idx2);
    steps := steps - 1.0;
    if steps > 0.0 {
      var eq := TryBoth(ar1, ar2, idx1, idx2, steps);
      equal := equal + eq;
    }
  }

  // The better of its two loops.
  method TryBoth(ar1: Lines, ar2: Lines, idx1: nat, idx2: nat, steps: real) returns (eq: nat)
    requires idx1 <= |ar1| && idx2 <= |ar2| && steps > 0.0
    ensures eq <= Lcs(ar1[idx1..], ar2[idx2..])
    ensures idx1 < |ar1| ==> Front(ar1[idx1 + 1..], ar2[idx2..]) <= eq
    ensures idx2 < |ar2| ==> Front(ar1[idx1..], ar2[idx2 + 1..]) <= eq
    decreases |ar1| - idx1 + |ar2| - idx2, 1
  {
    hide Lcs, Front;
    var eq1 := TryFirst(ar1, ar2, idx1, idx2, steps / 2.0);
    var eq2 := TrySecond(ar1, ar2, idx1, idx2, steps);
    if eq1 > eq2 {
      return eq1;
    } else if eq2 > 0 {
      return eq2;
    }
    return 0;
  }

  // Its first loop: skip expected lines.
  method TryFirst(ar1: Lines, ar2: Lines, idx1: nat, idx2: nat, st_0: real) returns (eq1: nat)
    requires idx1 <= |ar1| && idx2 <= |ar2|
    ensures eq1 <= Lcs(ar1[idx1..], ar2[idx2..])
    ensures st_0 > 0.0 && idx1 < |ar1| ==> Front(ar1[idx1 + 1..], ar2[idx2..]) <= eq1
    decreases |ar1| - idx1 + |ar2| - idx2, 0
  {
    hide Lcs, Front;
    if idx1 + 1 == |ar1| { FrontStep(ar1, ar2, idx1 + 1, idx2); }
    eq1 := 0;
    var ofs1, st, more := idx1 + 1, st_0, true;
    while ofs1 < |ar1| && more
      invariant idx1 < ofs1 && (ofs1 == idx1 + 1 || ofs1 <= |ar1|) && eq1 <= Lcs(ar1[idx1..], ar2[idx2..])
      invariant ofs1 == idx1 + 1 && st_0 > 0.0 ==> st == st_0 && more
      invariant idx1 + 1 < ofs1 ==> Front(ar1[idx1 + 1..], ar2[idx2..]) <= eq1
      decreases |ar1| - ofs1, more
    {
      more := st > 0.0;
      st := st - 1.0;
      if more {
        var eq := CountArrayDiff(ar1, ar2, ofs1, idx2, st);
        SuffixOf(ar1, ar2, idx1, idx2, ofs1, idx2);
        if eq > eq1 {
          eq1 := eq;
        }
        ofs1 := ofs1 + 1;
      }
    }
  }

  // Its second loop: skip lines of the output.
  method TrySecond(ar1: Lines, ar2: Lines, idx1: nat, idx2: nat, st_0: real) returns (eq2: nat)
    requires idx1 <= |ar1| && idx2 <= |ar2|
    ensures eq2 <= Lcs(ar1[idx1..], ar2[idx2..])
    ensures st_0 > 0.0 && idx2 < |ar2| ==> Front(ar1[idx1..], ar2[idx2 + 1..]) <= eq2
    decreases |ar1| - idx1 + |ar2| - idx2, 0
  {
    hide Lcs, Front;
    if idx2 + 1 == |ar2| { FrontStep(ar1, ar2, idx1, idx2 + 1); }
    eq2 := 0;
    var ofs2, st, more := idx2 + 1, st_0, true;
    while ofs2 < |ar2| && more
      invariant idx2 < ofs2 && (ofs2 == idx2 + 1 || ofs2 <= |ar2|) && eq2 <= Lcs(ar1[idx1..], ar2[idx2..])
      invariant ofs2 == idx2 + 1 && st_0 > 0.0 ==> st == st_0 && more
      invariant idx2 + 1 < ofs2 ==> Front(ar1[idx1..], ar2[idx2 + 1..]) <= eq2
      decreases |ar2| - ofs2, more
    {
      more := st > 0.0;
      st := st - 1.0;
      if more {
        var eq := CountArrayDiff(ar1, ar2, idx1, ofs2, st);
        SuffixOf(ar1, ar2, idx1, idx2, idx1, ofs2);
        if eq > eq2 {
          eq2 := eq;
        }
        ofs2 := ofs2 + 1;
      }
    }
  }

  lemma {:induction false} SuffixOf(a: Lines, b: Lines, i: nat, j: nat, k: nat, l: nat)
    requires i <= k <= |a| && j <= l <= |b|
    ensures Lcs(a[k..], b[l..]) <= Lcs(a[i..], b[j..])
  {
    LcsSuffix(a[i..], b[j..], k - i, l - j);
    assert a[i..][k - i..] == a[k..] && b[j..][l - j..] == b[l..];
  }

  // ---------- the diff ----------

  // A line of the diff: expected line i is missing, or line j of the output is not expected.
  datatype Mark = Minus(line: nat) | Plus(line: nat)

  // The lines among the first n whose numbers are not in out.
  function Kept(s: Lines, out: set<nat>, n: nat): Lines
    requires n <= |s|
  {
    if n == 0 then [] else Kept(s, out, n - 1) + if n - 1 in out then [] else [s[n - 1]]
  }

  lemma {:induction false} KeptSame(s: Lines, out: set<nat>, out': set<nat>, n: nat)
    requires n <= |s| && forall i :: 0 <= i < n ==> (i in out <==> i in out')
    ensures Kept(s, out, n) == Kept(s, out', n)
  {
    if n != 0 { KeptSame(s, out, out', n - 1); }
  }

  // Increasing line numbers.
  ghost predicate Increasing(c: seq<nat>) {
    forall i, j :: 0 <= i < j < |c| ==> c[i] < c[j]
  }

  function Numbers(c: seq<nat>): set<nat> {
    set k | 0 <= k < |c| :: c[k]
  }

  function MinusLines(diff: seq<Mark>): seq<nat> {
    if diff == [] then []
    else MinusLines(diff[..|diff| - 1]) + match diff[|diff| - 1] { case Minus(i) => [i] case Plus(_) => [] }
  }

  function PlusLines(diff: seq<Mark>): seq<nat> {
    if diff == [] then []
    else PlusLines(diff[..|diff| - 1]) + match diff[|diff| - 1] { case Minus(_) => [] case Plus(j) => [j] }
  }

  // b is a with one more line, at k.
  ghost predicate OneMore(a: Lines, b: Lines, k: nat) {
    k <= |a| && |b| == |a| + 1 && a[..k] == b[..k] && a[k..] == b[k + 1..]
  }

  lemma {:induction false} OneMoreLater(a: Lines, b: Lines, k: nat)
    requires OneMore(a, b, k) && k < |a| && a[k] == b[k]
    ensures OneMore(a, b, k + 1)
  {
    assert a[..k + 1] == a[..k] + [a[k]] && b[..k + 1] == b[..k] + [b[k]];
    assert a[k + 1..] == a[k..][1..] && b[k + 2..] == b[k + 1..][1..];
  }

  // Where the comparison is, if b is a with one more line at k: in front of it, or behind it with
  // exactly that line marked.
  ghost predicate Tracks(a: Lines, b: Lines, k: nat, i: nat, j: nat, olds: seq<nat>, others: seq<nat>) {
    && OneMore(a, b, k) && others == []
    && (|| (i == j <= k && olds == [])
        || (j == i + 1 && k <= i <= |a| && olds == [k]))
  }

  // A step of the comparison: over equal lines, or it has come to the additional line.
  lemma {:induction false} Track(a: Lines, b: Lines, k: nat, i: nat, j: nat, olds: seq<nat>, others: seq<nat>)
      returns (k': nat)
    requires Tracks(a, b, k, i, j, olds, others) && i < |a| && j < |b|
    ensures OneMore(a, b, k')
    ensures if a[i] == b[j] then Tracks(a, b, k', i + 1, j + 1, olds, others)
      else i == j == k' && Tracks(a, b, k', i, j, olds, others) && Tracks(a, b, k', i, j + 1, olds + [j], others)
  {
    k' := k;
    if j == i + 1 {
      assert a[i] == a[k..][i - k] == b[k + 1..][i - k];
    } else if i < k {
      assert a[i] == a[..k][i] == b[..k][i];
    } else if a[i] == b[j] {
      OneMoreLater(a, b, k);
      k' := k + 1;
    }
  }

  // At the first difference, skipping the additional line finds all the rest equal, and skipping a
  // line on the other side finds less.
  lemma {:induction false} SkipFindsMore(a: Lines, b: Lines, k: nat)
    requires OneMore(a, b, k) && k < |a|
    ensures Front(a[k..], b[k + 1..]) == |a| - k
    ensures Lcs(a[k + 1..], b[k..]) < |a| - k && Lcs(b[k..], a[k + 1..]) < |a| - k
    ensures Front(b[k + 1..], a[k..]) == |a| - k
  {
    LcsBound(a[k + 1..], b[k..]);
    LcsBound(b[k..], a[k + 1..]);
    FrontAll(a[k..]);
  }

  lemma {:induction false} TracksStart(a: Lines, b: Lines)
    ensures forall k: nat :: OneMore(a, b, k) ==> Tracks(a, b, k, 0, 0, [], [])
  {
    hide OneMore;
  }

  lemma {:induction false} PlusWins(ar1: Lines, ar2: Lines, k: nat, c1: nat, c2: nat)
    requires OneMore(ar1, ar2, k) && k < |ar1| && c1 <= Lcs(ar1[k + 1..], ar2[k..])
    requires AtLeastFront(ar1, ar2, k, k + 1, 10.0, c2)
    ensures c1 < c2
  {
    hide Lcs, Front;
    SkipFindsMore(ar1, ar2, k);
  }

  lemma {:induction false} MinusWins(ar1: Lines, ar2: Lines, k: nat, c1: nat, c2: nat)
    requires OneMore(ar2, ar1, k) && k < |ar2| && c2 <= Lcs(ar1[k..], ar2[k + 1..])
    requires AtLeastFront(ar1, ar2, k + 1, k, 10.0, c1)
    ensures c2 < c1
  {
    hide Lcs, Front;
    SkipFindsMore(ar2, ar1, k);
  }

  lemma {:induction false} FrontAll(a: Lines)
    ensures Front(a, a) == |a|
  {
  }

  // The first loop of generate_array_diff: the numbers of the lines to mark on either side, and
  // how far it got.
  method Compare(ar1: Lines, ar2: Lines) returns (old1: seq<nat>, old2: seq<nat>, idx1: nat, idx2: nat)
    ensures Going(ar1, ar2, old1, old2, idx1, idx2) && (idx1 == |ar1| || idx2 == |ar2|)
    ensures ar1 == ar2 ==> idx1 == idx2 == |ar1| && old1 == [] && old2 == []
    ensures forall k: nat :: OneMore(ar1, ar2, k) ==> exists m :: Tracks(ar1, ar2, m, idx1, idx2, old2, old1)
    ensures forall k: nat :: OneMore(ar2, ar1, k) ==> exists m :: Tracks(ar2, ar1, m, idx2, idx1, old1, old2)
  {
    hide Kept, OneMore, Front, Lcs, Tracks, AtLeastFront;
    hide Going, Increasing;
    GoStart(ar1, ar2);
    TracksStart(ar1, ar2);
    TracksStart(ar2, ar1);
    idx1, idx2, old1, old2 := 0, 0, [], [];
    ghost var plus, minus, p, m := exists k: nat :: OneMore(ar1, ar2, k), exists k: nat :: OneMore(ar2, ar1, k), 0, 0;
    if plus { p :| OneMore(ar1, ar2, p); }
    if minus { m :| OneMore(ar2, ar1, m); }
    while idx1 < |ar1| && idx2 < |ar2|
      invariant idx1 <= |ar1| && idx2 <= |ar2| && Going(ar1, ar2, old1, old2, idx1, idx2)
      invariant ar1 == ar2 ==> idx1 == idx2 && old1 == [] && old2 == []
      invariant plus ==> Tracks(ar1, ar2, p, idx1, idx2, old2, old1)
      invariant minus ==> Tracks(ar2, ar1, m, idx2, idx1, old1, old2)
      decreases |ar1| - idx1 + |ar2| - idx2
    {
      if plus { p := Track(ar1, ar2, p, idx1, idx2, old2, old1); }
      if minus { m := Track(ar2, ar1, m, idx2, idx1, old1, old2); }
      if ar1[idx1] == ar2[idx2] {
        GoEqual(ar1, ar2, old1, old2, idx1, idx2);
        idx1, idx2 := idx1 + 1, idx2 + 1;
      } else {
        var c1 := CountArrayDiff(ar1, ar2, idx1 + 1, idx2, 10.0);
        var c2 := CountArrayDiff(ar1, ar2, idx1, idx2 + 1, 10.0);
        if plus { PlusWins(ar1, ar2, p, c1, c2); }
        if minus { MinusWins(ar1, ar2, m, c1, c2); }
        if c1 > c2 {
          GoMinus(ar1, ar2, old1, old2, idx1, idx2);
          old1, idx1 := old1 + [idx1], idx1 + 1;
        } else if c2 > 0 {
          GoPlus(ar1, ar2, old1, old2, idx1, idx2);
          old2, idx2 := old2 + [idx2], idx2 + 1;
        } else {
          GoMinus(ar1, ar2, old1, old2, idx1, idx2);
          old1, idx1 := old1 + [idx1], idx1 + 1;
          GoPlus(ar1, ar2, old1, old2, idx1, idx2);
          old2, idx2 := old2 + [idx2], idx2 + 1;
        }
      }
    }
  }

  // The lines up to idx1 and idx2 are the same, except for those marked.
  ghost predicate Going(ar1: Lines, ar2: Lines, old1: seq<nat>, old2: seq<nat>, idx1: nat, idx2: nat) {
    && idx1 <= |ar1| && idx2 <= |ar2| && Increasing(old1) && Increasing(old2)
    && (forall k :: 0 <= k < |old1| ==> old1[k] < idx1) && (forall k :: 0 <= k < |old2| ==> old2[k] < idx2)
    && Kept(ar1, Numbers(old1), idx1) == Kept(ar2, Numbers(old2), idx2)
  }

  lemma {:induction false} GoStart(ar1: Lines, ar2: Lines)
    ensures Going(ar1, ar2, [], [], 0, 0)
  {
  }

  lemma {:induction false} GoEqual(ar1: Lines, ar2: Lines, old1: seq<nat>, old2: seq<nat>, idx1: nat, idx2: nat)
    requires Going(ar1, ar2, old1, old2, idx1, idx2) && idx1 < |ar1| && idx2 < |ar2| && ar1[idx1] == ar2[idx2]
    ensures Going(ar1, ar2, old1, old2, idx1 + 1, idx2 + 1)
  {
    hide Kept;
    KeptLine(ar1, old1, idx1);
    KeptLine(ar2, old2, idx2);
  }

  lemma {:induction false} GoMinus(ar1: Lines, ar2: Lines, old1: seq<nat>, old2: seq<nat>, idx1: nat, idx2: nat)
    requires Going(ar1, ar2, old1, old2, idx1, idx2) && idx1 < |ar1|
    ensures Going(ar1, ar2, old1 + [idx1], old2, idx1 + 1, idx2)
  {
    hide Kept;
    MarkedLine(ar1, old1, idx1);
  }

  lemma {:induction false} GoPlus(ar1: Lines, ar2: Lines, old1: seq<nat>, old2: seq<nat>, idx1: nat, idx2: nat)
    requires Going(ar1, ar2, old1, old2, idx1, idx2) && idx2 < |ar2|
    ensures Going(ar1, ar2, old1, old2 + [idx2], idx1, idx2 + 1)
  {
    hide Kept;
    MarkedLine(ar2, old2, idx2);
  }

  lemma {:induction false} KeptAll(s: Lines, n: nat)
    requires n <= |s|
    ensures Kept(s, Numbers([]), n) == s[..n]
  {
    if n != 0 {
      KeptAll(s, n - 1);
      assert s[..n] == s[..n - 1] + [s[n - 1]];
    }
  }

  lemma {:induction false} KeptLine(s: Lines, c: seq<nat>, n: nat)
    requires n < |s| && forall k :: 0 <= k < |c| ==> c[k] < n
    ensures Kept(s, Numbers(c), n + 1) == Kept(s, Numbers(c), n) + [s[n]]
  {
  }

  lemma {:induction false} MarkedLine(s: Lines, c: seq<nat>, n: nat)
    requires n < |s|
    ensures Kept(s, Numbers(c + [n]), n + 1) == Kept(s, Numbers(c), n)
  {
    var d := c + [n];
    NumbersOf(c, n);
    KeptSame(s, Numbers(c), Numbers(d), n);
  }

  lemma {:induction false} NumbersOf(c: seq<nat>, n: nat)
    ensures Numbers(c + [n]) == Numbers(c) + {n}
  {
    var d := c + [n];
    assert d[|c|] == n;
    forall i
      ensures i in Numbers(d) <==> i in Numbers(c) + {n}
    {
      if i in Numbers(c) {
        var k :| 0 <= k < |c| && c[k] == i;
        assert d[k] == i;
      }
    }
  }

  function LastOf(c: seq<nat>): int {
    if c == [] then -2 else c[|c| - 1]
  }

  // After the marks in done, the next one is the right one: a run of consecutive lines of one side is
  // not interrupted, the expected side first; otherwise the smaller line number comes first, and of
  // equal ones that of the output.
  ghost predicate NextIs(done: seq<Mark>, mark: Mark, old1: seq<nat>, old2: seq<nat>) {
    var c1, c2 := MinusLines(done), PlusLines(done);
    match mark
    case Minus(i) =>
      && |c1| < |old1| && i == old1[|c1|]
      && (|| |c2| >= |old2| || i == LastOf(c1) + 1
          || (old2[|c2|] != LastOf(c2) + 1 && i < old2[|c2|]))
    case Plus(j) =>
      && |c2| < |old2| && j == old2[|c2|]
      && (|| |c1| >= |old1|
          || (old1[|c1|] != LastOf(c1) + 1 && (j == LastOf(c2) + 1 || j <= old1[|c1|])))
  }

  // Every mark is the right one.
  ghost predicate InOrder(diff: seq<Mark>, old1: seq<nat>, old2: seq<nat>) {
    forall n :: 0 <= n < |diff| ==> NextIs(diff[..n], diff[n], old1, old2)
  }

  lemma {:induction false} Marked(done: seq<Mark>, mark: Mark, old1: seq<nat>, old2: seq<nat>)
    requires InOrder(done, old1, old2) && NextIs(done, mark, old1, old2)
    ensures InOrder(done + [mark], old1, old2)
    ensures MinusLines(done + [mark]) == MinusLines(done) + if mark.Minus? then [mark.line] else []
    ensures PlusLines(done + [mark]) == PlusLines(done) + if mark.Plus? then [mark.line] else []
  {
    hide NextIs;
    var diff := done + [mark];
    assert diff[..|diff| - 1] == done;
    forall n | 0 <= n < |diff|
      ensures NextIs(diff[..n], diff[n], old1, old2)
    {
      if n < |done| { assert diff[..n] == done[..n]; }
    }
  }

  // The second loop: both sides in one list.
  method Merge(old1: seq<nat>, old2: seq<nat>) returns (diff: seq<Mark>)
    ensures MinusLines(diff) == old1 && PlusLines(diff) == old2 && InOrder(diff, old1, old2)
  {
    hide InOrder, MinusLines, PlusLines;
    diff := [];
    NothingMarked(old1, old2);
    var k1, k2 := 0, 0;
    var l1: int, l2: int := -2, -2;
    while k1 < |old1| || k2 < |old2|
      invariant k1 <= |old1| && k2 <= |old2| && InOrder(diff, old1, old2)
      invariant MinusLines(diff) == old1[..k1] && PlusLines(diff) == old2[..k2]
      invariant l1 == LastOf(old1[..k1]) && l2 == LastOf(old2[..k2])
      decreases |old1| - k1 + |old2| - k2
    {
      if k2 == |old2| || (k1 < |old1| && old1[k1] == l1 + 1) {
        Marked(diff, Minus(old1[k1]), old1, old2);
        l1 := old1[k1];
        diff := diff + [Minus(old1[k1])];
        k1 := k1 + 1;
      } else if k1 == |old1| || old2[k2] == l2 + 1 {
        Marked(diff, Plus(old2[k2]), old1, old2);
        l2 := old2[k2];
        diff := diff + [Plus(old2[k2])];
        k2 := k2 + 1;
      } else if old1[k1] < old2[k2] {
        Marked(diff, Minus(old1[k1]), old1, old2);
        l1 := old1[k1];
        diff := diff + [Minus(old1[k1])];
        k1 := k1 + 1;
      } else {
        Marked(diff, Plus(old2[k2]), old1, old2);
        l2 := old2[k2];
        diff := diff + [Plus(old2[k2])];
        k2 := k2 + 1;
      }
    }
  }

  lemma {:induction false} NothingMarked(old1: seq<nat>, old2: seq<nat>)
    ensures InOrder([], old1, old2) && MinusLines([]) == [] && PlusLines([]) == []
  {
  }

  // The order is determined.
  lemma {:induction false} OneOrder(d: seq<Mark>, e: seq<Mark>, old1: seq<nat>, old2: seq<nat>, n: nat)
    requires InOrder(d, old1, old2) && InOrder(e, old1, old2) && n <= |d| && n <= |e|
    ensures d[..n] == e[..n]
  {
    hide NextIs;
    if n != 0 {
      OneOrder(d, e, old1, old2, n - 1);
      assert NextIs(d[..n - 1], d[n - 1], old1, old2) && NextIs(e[..n - 1], e[n - 1], old1, old2);
      OneNext(d[..n - 1], d[n - 1], e[n - 1], old1, old2);
      assert d[..n] == d[..n - 1] + [d[n - 1]] && e[..n] == e[..n - 1] + [e[n - 1]];
    }
  }

  lemma {:induction false} OneNext(done: seq<Mark>, a: Mark, b: Mark, old1: seq<nat>, old2: seq<nat>)
    requires NextIs(done, a, old1, old2) && NextIs(done, b, old1, old2)
    ensures a == b
  {
    hide MinusLines, PlusLines, LastOf;
  }

  // All lines from idx on are listed.
  ghost predicate Tail(c: seq<nat>, d: seq<nat>, s: Lines, idx: nat, end: nat)
    requires idx <= end <= |s|
  {
    && Increasing(d) && (forall k :: 0 <= k < |d| ==> d[k] < end)
    && Kept(s, Numbers(d), end) == Kept(s, Numbers(c), idx)
    && (idx == end ==> d == c)
  }

  lemma {:induction false} TailNext(c: seq<nat>, d: seq<nat>, s: Lines, idx: nat, end: nat)
    requires idx <= end < |s| && Tail(c, d, s, idx, end)
    ensures Tail(c, d + [end], s, idx, end + 1)
  {
    hide Kept;
    MarkedLine(s, d, end);
  }

  function MinusFrom(i: nat, end: nat): (ms: seq<Mark>)
    ensures |ms| == if i <= end then end - i else 0
  {
    if end <= i then [] else MinusFrom(i, end - 1) + [Minus(end - 1)]
  }

  function PlusFrom(j: nat, end: nat): (ms: seq<Mark>)
    ensures |ms| == if j <= end then end - j else 0
  {
    if end <= j then [] else PlusFrom(j, end - 1) + [Plus(end - 1)]
  }

  lemma {:induction false} Appended(a: seq<Mark>, b: seq<Mark>, m: Mark)
    ensures a + b + [m] == a + (b + [m])
  {
  }

  method ListMinus(diff0: seq<Mark>, ar1: Lines, idx1: nat) returns (diff: seq<Mark>)
    requires idx1 <= |ar1| && Increasing(MinusLines(diff0)) && forall k :: 0 <= k < |MinusLines(diff0)| ==>
      MinusLines(diff0)[k] < idx1
    ensures PlusLines(diff) == PlusLines(diff0) && Tail(MinusLines(diff0), MinusLines(diff), ar1, idx1, |ar1|)
    ensures diff == diff0 + MinusFrom(idx1, |ar1|)
  {
    hide Tail;
    diff := diff0;
    assert Tail(MinusLines(diff0), MinusLines(diff), ar1, idx1, idx1) by { TailNone(MinusLines(diff0), ar1, idx1); }
    var i := idx1;
    while i < |ar1|
      invariant idx1 <= i <= |ar1| && PlusLines(diff) == PlusLines(diff0)
        && Tail(MinusLines(diff0), MinusLines(diff), ar1, idx1, i)
      invariant diff == diff0 + MinusFrom(idx1, i)
    {
      TailNext(MinusLines(diff0), MinusLines(diff), ar1, idx1, i);
      ghost var was := diff;
      diff := diff + [Minus(i)];
      assert diff[..|diff| - 1] == was;
      Appended(diff0, MinusFrom(idx1, i), Minus(i));
      i := i + 1;
    }
  }

  lemma {:induction false} TailNone(c: seq<nat>, s: Lines, idx: nat)
    requires idx <= |s| && Increasing(c) && forall k :: 0 <= k < |c| ==> c[k] < idx
    ensures Tail(c, c, s, idx, idx)
  {
  }

  method ListPlus(diff0: seq<Mark>, ar2: Lines, idx2: nat) returns (diff: seq<Mark>)
    requires idx2 <= |ar2| && Increasing(PlusLines(diff0)) && forall k :: 0 <= k < |PlusLines(diff0)| ==>
      PlusLines(diff0)[k] < idx2
    ensures MinusLines(diff) == MinusLines(diff0) && Tail(PlusLines(diff0), PlusLines(diff), ar2, idx2, |ar2|)
    ensures diff == diff0 + PlusFrom(idx2, |ar2|)
  {
    hide Tail;
    diff := diff0;
    assert Tail(PlusLines(diff0), PlusLines(diff), ar2, idx2, idx2) by { TailNone(PlusLines(diff0), ar2, idx2); }
    var j := idx2;
    while j < |ar2|
      invariant idx2 <= j <= |ar2| && MinusLines(diff) == MinusLines(diff0)
        && Tail(PlusLines(diff0), PlusLines(diff), ar2, idx2, j)
      invariant diff == diff0 + PlusFrom(idx2, j)
    {
      TailNext(PlusLines(diff0), PlusLines(diff), ar2, idx2, j);
      ghost var was := diff;
      diff := diff + [Plus(j)];
      assert diff[..|diff| - 1] == was;
      Appended(diff0, PlusFrom(idx2, j), Plus(j));
      j := j + 1;
    }
  }

  // generate_array_diff. Taking the lines listed with - from the expected ones and the lines listed
  // with + from the output leaves the same lines; each line is listed at most once, in order; the
  // diff is empty exactly for equal texts.
  method GenerateArrayDiff(ar1: Lines, ar2: Lines) returns (diff: seq<Mark>)
    ensures Increasing(MinusLines(diff)) && Increasing(PlusLines(diff))
    ensures forall k :: 0 <= k < |MinusLines(diff)| ==> MinusLines(diff)[k] < |ar1|
    ensures forall k :: 0 <= k < |PlusLines(diff)| ==> PlusLines(diff)[k] < |ar2|
    ensures Kept(ar1, Numbers(MinusLines(diff)), |ar1|) == Kept(ar2, Numbers(PlusLines(diff)), |ar2|)
    ensures diff == [] <==> ar1 == ar2
    ensures forall k: nat :: OneMore(ar1, ar2, k) ==> |diff| == 1 && diff[0].Plus? && OneMore(ar1, ar2, diff[0].line)
    ensures forall k: nat :: OneMore(ar2, ar1, k) ==> |diff| == 1 && diff[0].Minus? && OneMore(ar2, ar1, diff[0].line)
  {
    hide Kept, OneMore, MinusFrom, PlusFrom, Tracks;
    var old1, old2, idx1, idx2 := Compare(ar1, ar2);
    var merged := Merge(old1, old2);
    NoMarks(merged);
    var listed := ListMinus(merged, ar1, idx1);
    diff := ListPlus(listed, ar2, idx2);
    assert diff == [] <==> merged == [] && idx1 == |ar1| && idx2 == |ar2|;
    forall k: nat | OneMore(ar1, ar2, k)
      ensures |diff| == 1 && diff[0].Plus? && OneMore(ar1, ar2, diff[0].line)
    {
      var m :| Tracks(ar1, ar2, m, idx1, idx2, old2, old1);
      OnlyPlus(ar1, ar2, m, idx1, idx2, old1, old2, merged, diff);
    }
    forall k: nat | OneMore(ar2, ar1, k)
      ensures |diff| == 1 && diff[0].Minus? && OneMore(ar2, ar1, diff[0].line)
    {
      var m :| Tracks(ar2, ar1, m, idx2, idx1, old1, old2);
      OnlyMinus(ar1, ar2, m, idx1, idx2, old1, old2, merged, diff);
    }
    if diff == [] {
      KeptAll(ar1, |ar1|);
      KeptAll(ar2, |ar2|);
      assert ar1[..|ar1|] == ar1 && ar2[..|ar2|] == ar2;
    }
  }

  // The marks that the three last loops list.
  ghost function Listed(merged: seq<Mark>, idx1: nat, end1: nat, idx2: nat, end2: nat): seq<Mark>
    requires idx1 <= end1 && idx2 <= end2
  {
    merged + MinusFrom(idx1, end1) + PlusFrom(idx2, end2)
  }

  // One more line in the output: exactly that line is listed.
  lemma {:induction false} OnlyPlus(ar1: Lines, ar2: Lines, m: nat, idx1: nat, idx2: nat, old1: seq<nat>,
      old2: seq<nat>, merged: seq<Mark>, diff: seq<Mark>)
    requires idx1 <= |ar1| && idx2 <= |ar2| && (idx1 == |ar1| || idx2 == |ar2|)
    requires Tracks(ar1, ar2, m, idx1, idx2, old2, old1) && MinusLines(merged) == old1 && PlusLines(merged) == old2
    requires diff == Listed(merged, idx1, |ar1|, idx2, |ar2|)
    ensures diff == [Plus(m)] && OneMore(ar1, ar2, m)
  {
    NoMarks(merged);
    OneMark(merged);
  }

  lemma {:induction false} OnlyMinus(ar1: Lines, ar2: Lines, m: nat, idx1: nat, idx2: nat, old1: seq<nat>,
      old2: seq<nat>, merged: seq<Mark>, diff: seq<Mark>)
    requires idx1 <= |ar1| && idx2 <= |ar2| && (idx1 == |ar1| || idx2 == |ar2|)
    requires Tracks(ar2, ar1, m, idx2, idx1, old1, old2) && MinusLines(merged) == old1 && PlusLines(merged) == old2
    requires diff == Listed(merged, idx1, |ar1|, idx2, |ar2|)
    ensures diff == [Minus(m)] && OneMore(ar2, ar1, m)
  {
    NoMarks(merged);
    OneMark(merged);
  }

  lemma {:induction false} OneMark(diff: seq<Mark>)
    ensures |diff| == 1 ==> if diff[0].Minus? then MinusLines(diff) == [diff[0].line] && PlusLines(diff) == []
      else PlusLines(diff) == [diff[0].line] && MinusLines(diff) == []
  {
  }

  // A diff has a line for every mark.
  lemma {:induction false} NoMarks(diff: seq<Mark>)
    ensures |diff| == |MinusLines(diff)| + |PlusLines(diff)|
  {
    if diff != [] { NoMarks(diff[..|diff| - 1]); }
  }
}
