// Sequences as cyclic lists: neighbours, insertion and removal at a position.
module Seqs {

  function After<T>(c: seq<T>, k: nat): T
    requires k < |c|
  {
    if k + 1 < |c| then c[k + 1] else c[0]
  }

  function Before<T>(c: seq<T>, k: nat): T
    requires k < |c|
  {
    if k == 0 then c[|c| - 1] else c[k - 1]
  }

  ghost predicate Distinct<T(!new)>(c: seq<T>) {
    forall i, j :: 0 <= i < j < |c| ==> c[i] != c[j]
  }

  function Inserted<T>(c: seq<T>, k: nat, b: T): seq<T>
    requires k < |c|
  {
    c[..k + 1] + [b] + c[k + 1..]
  }

  function Removed<T>(c: seq<T>, k: nat): seq<T>
    requires k < |c|
  {
    c[..k] + c[k + 1..]
  }

  lemma {:induction false} InsertedHas<T>(c: seq<T>, k: nat, b: T, x: T)
    requires k < |c|
    ensures x in Inserted(c, k, b) <==> x == b || x in c
  {
    var d := Inserted(c, k, b);
    if x in c {
      var i :| 0 <= i < |c| && c[i] == x;
      assert d[if i <= k then i else i + 1] == x;
    }
    assert d[k + 1] == b;
  }

  lemma {:induction false} RemovedHas<T(!new)>(c: seq<T>, k: nat, x: T)
    requires k < |c| && Distinct(c)
    ensures x in Removed(c, k) <==> x in c && x != c[k]
  {
    var d := Removed(c, k);
    if x in c && x != c[k] {
      var i :| 0 <= i < |c| && c[i] == x;
      assert d[if i < k then i else i - 1] == x;
    }
    if x in d {
      var i :| 0 <= i < |d| && d[i] == x;
      assert c[if i < k then i else i + 1] == x;
    }
  }

  lemma {:induction false} RemovedDistinct<T(!new)>(list: seq<T>, i: nat)
    requires Distinct(list) && i < |list|
    ensures Distinct(Removed(list, i))
  {
  }
}
