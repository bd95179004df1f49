// Modules: the dependency sort and the start in that order.
module Modules {
  import opened Ascii

  datatype Kind = Required | Conflicts | Optional
  datatype Dep = Dep(name: string, kind: Kind)
  datatype Module = Module(name: string, deps: seq<Dep>, started: bool)

  // Names are compared without case.
  predicate Same(a: string, b: string) {
    Lower(a) == Lower(b)
  }

  // m is not started, and its dependency d, required or optional, is r.
  predicate Names(m: Module, d: Dep, r: Module) {
    !m.started && d.kind != Conflicts && Same(d.name, r.name)
  }

  ghost predicate DependsOn(m: Module, r: Module) {
    exists k :: 0 <= k < |m.deps| && Names(m, m.deps[k], r)
  }

  // Required and optional modules are dependencies, conflicting ones are not; a module that is started
  // has none; names are compared without case.
  lemma {:induction false} WhatIsADependency(m: Module, r: Module, d: Dep)
    requires m.deps == [d] && d.name == "core" && r.name == "CORE"
    ensures DependsOn(m, r) <==> !m.started && (d.kind == Required || d.kind == Optional)
  {
    assert Lower("core") == Lower("CORE") by {
      assert forall i :: 0 <= i < 4 ==> LowerChar("core"[i]) == LowerChar("CORE"[i]);
      LowerSame("core", "CORE");
    }
    if DependsOn(m, r) {
      var k :| 0 <= k < |m.deps| && Names(m, m.deps[k], r);
    }
    assert Names(m, m.deps[0], r) <==> !m.started && d.kind != Conflicts;
  }

  // The dependencies among the modules of a list have no cycle: some numbering goes down along each.
  ghost predicate Ranked(s: seq<Module>, rank: map<string, nat>) {
    && (forall i :: 0 <= i < |s| ==> s[i].name in rank)
    && (forall i, j :: 0 <= i < |s| && 0 <= j < |s| && i != j && DependsOn(s[i], s[j]) ==>
      rank[s[j].name] < rank[s[i].name])
  }

  // No dependency of the first n modules comes after them.
  ghost predicate Ordered(s: seq<Module>, n: nat) {
    forall i, j :: 0 <= i < n && i < j < |s| ==> !DependsOn(s[i], s[j])
  }

  function Swapped(s: seq<Module>, i: nat, j: nat): seq<Module>
    requires i < |s| && j < |s|
  {
    s[i := s[j]][j := s[i]]
  }

  lemma {:induction false} SwapKeeps(s: seq<Module>, i: nat, j: nat, rank: map<string, nat>)
    requires i < j < |s| && Ranked(s, rank) && Ordered(s, i)
    ensures multiset(Swapped(s, i, j)) == multiset(s)
    ensures Ranked(Swapped(s, i, j), rank) && Ordered(Swapped(s, i, j), i)
  {
    hide DependsOn;
    var t := Swapped(s, i, j);
    forall k, l | 0 <= k < |t| && 0 <= l < |t| && k != l && DependsOn(t[k], t[l])
      ensures rank[t[l].name] < rank[t[k].name]
    {
      var k', l' := if k == i then j else if k == j then i else k, if l == i then j else if l == j then i else l;
      assert t[k] == s[k'] && t[l] == s[l'];
    }
    forall k, l | 0 <= k < i && k < l < |t|
      ensures !DependsOn(t[k], t[l])
    {
      var l' := if l == i then j else if l == j then i else l;
      assert t[k] == s[k] && t[l] == s[l'];
    }
  }

  // The search of zend_sort_modules: the first dependency of module b1 that has a module behind b1,
  // and the first such module; the length of the array if there is none.
  method FindDependency(a: array<Module>, b1: nat) returns (b2: nat)
    requires b1 < a.Length
    ensures b2 < a.Length ==> b1 < b2 && DependsOn(a[b1], a[b2])
    ensures b2 >= a.Length ==> b2 == a.Length && forall j :: b1 < j < a.Length ==> !DependsOn(a[b1], a[j])
  {
    var m := a[b1];
    if m.started {
      return a.Length;
    }
    var k := 0;
    while k < |m.deps|
      invariant k <= |m.deps|
      invariant forall l, j :: 0 <= l < k && b1 < j < a.Length ==> !Names(m, m.deps[l], a[j])
    {
      if m.deps[k].kind != Conflicts {
        b2 := b1 + 1;
        while b2 < a.Length
          invariant b1 < b2 <= a.Length
          invariant forall j :: b1 < j < b2 ==> !Names(m, m.deps[k], a[j])
        {
          if Same(m.deps[k].name, a[b2].name) {
            assert Names(m, m.deps[k], a[b2]);
            return;
          }
          b2 := b2 + 1;
        }
      }
      k := k + 1;
    }
    b2 := a.Length;
  }

  // zend_sort_modules
  method SortModules(a: array<Module>, ghost rank: map<string, nat>)
    requires Ranked(a[..], rank)
    modifies a
    ensures multiset(a[..]) == multiset(old(a[..])) && Ordered(a[..], a.Length)
  {
    hide DependsOn;
    var b1 := 0;
    while b1 < a.Length
      invariant b1 <= a.Length && multiset(a[..]) == multiset(old(a[..]))
      invariant Ranked(a[..], rank) && Ordered(a[..], b1)
      decreases a.Length - b1, if b1 < a.Length then RankAt(a[..], b1, rank) else 0
    {
      var b2 := FindDependency(a, b1);
      if b2 < a.Length {
        SwapKeeps(a[..], b1, b2, rank);
        assert DependsOn(a[..][b1], a[..][b2]);
        ghost var s := a[..];
        a[b1], a[b2] := a[b2], a[b1];
        assert a[..] == Swapped(s, b1, b2);
      } else {
        b1 := b1 + 1;
      }
    }
  }

  ghost function RankAt(s: seq<Module>, i: nat, rank: map<string, nat>): nat
    requires i < |s| && Ranked(s, rank)
  {
    rank[s[i].name]
  }

  // ---------- starting ----------

  // Every required module of m is in the list.
  ghost predicate Registered(s: seq<Module>, m: Module) {
    forall k :: 0 <= k < |m.deps| && m.deps[k].kind == Required ==> Has(s, m.deps[k].name)
  }

  ghost predicate Has(s: seq<Module>, name: string) {
    exists i :: 0 <= i < |s| && Same(s[i].name, name)
  }

  // A module can be started: it is, or its required modules are registered and its hook succeeds.
  ghost predicate Startable(s: seq<Module>, hook: string -> bool, m: Module) {
    m.started || (Registered(s, m) && hook(m.name))
  }

  // zend_hash_find in the registry
  method Lookup(s: seq<Module>, name: string) returns (i: nat)
    ensures i <= |s| && (i < |s| ==> Same(s[i].name, name))
    ensures i == |s| <==> !Has(s, name)
  {
    i := 0;
    while i < |s|
      invariant i <= |s| && forall j :: 0 <= j < i ==> !Same(s[j].name, name)
    {
      if Same(s[i].name, name) {
        return;
      }
      i := i + 1;
    }
  }

  // The modules before i are started, those from i on are as they were.
  ghost predicate StartedTo(s0: seq<Module>, s: seq<Module>, i: nat) {
    && |s| == |s0| && i <= |s|
    && (forall j :: 0 <= j < |s| ==> s[j] == s0[j].(started := s[j].started))
    && (forall j :: 0 <= j < i ==> s[j].started)
    && (forall j :: i <= j < |s| ==> s[j] == s0[j])
  }

  // In a sorted list, a required module that is registered is started when its turn comes.
  lemma {:induction false} FoundIsStarted(s0: seq<Module>, s: seq<Module>, i: nat, k: nat, j: nat)
    requires Ordered(s0, |s0|) && StartedTo(s0, s, i) && i < |s| && !s[i].started && k < |s[i].deps|
      && s[i].deps[k].kind == Required
    requires j < |s| && Same(s[j].name, s[i].deps[k].name) && j != i
    ensures s[j].started
  {
    if i < j {
      assert Names(s0[i], s0[i].deps[k], s0[j]);
      assert DependsOn(s0[i], s0[j]);
    }
  }

  // zend_startup_module_ex on module i: started, or failed with a missing module (then it is not
  // started) or in its hook (then it is).
  method StartupModule(s0: seq<Module>, s: seq<Module>, i: nat, hook: string -> bool) returns (r: seq<Module>, ok: bool)
    requires Ordered(s0, |s0|) && StartedTo(s0, s, i) && i < |s|
    ensures |r| == |s| && r == s[i := s[i].(started := r[i].started)]
    ensures ok <==> Startable(s0, hook, s[i])
    ensures ok ==> r[i].started
    ensures !ok ==> (r[i].started <==> Registered(s0, s[i]))
  {
    if s[i].started {
      return s, true;
    }
    r := s[i := s[i].(started := true)];
    var deps := s[i].deps;
    var k := 0;
    while k < |deps|
      invariant k <= |deps|
      invariant forall l :: 0 <= l < k && deps[l].kind == Required ==> Has(s0, deps[l].name)
    {
      if deps[k].kind == Required {
        var j := Lookup(r, deps[k].name);
        SameNames(s0, r, deps[k].name);
        if j < |r| && j != i { FoundIsStarted(s0, s, i, k, j); }
        if j == |r| || !r[j].started {
          r := r[i := r[i].(started := false)];
          return r, false;
        }
      }
      k := k + 1;
    }
    ok := hook(s[i].name);
  }

  lemma {:induction false} SameNames(s: seq<Module>, r: seq<Module>, name: string)
    requires |r| == |s| && forall j :: 0 <= j < |s| ==> r[j].name == s[j].name
    ensures Has(s, name) <==> Has(r, name)
  {
    if Has(s, name) {
      var i :| 0 <= i < |s| && Same(s[i].name, name);
      assert Same(r[i].name, name);
    }
    if Has(r, name) {
      var i :| 0 <= i < |r| && Same(r[i].name, name);
      assert Same(s[i].name, name);
    }
  }

  // Module i is the first that cannot be started. It is gone, those before it are started, those
  // behind it are as they were.
  ghost predicate FailedAt(s: seq<Module>, mods: seq<Module>, hook: string -> bool, i: nat) {
    && i < |s| && |mods| == |s| - 1 && !Startable(s, hook, s[i])
    && (forall j :: 0 <= j < i ==> Startable(s, hook, s[j]) && mods[j] == s[j].(started := true))
    && mods[i..] == s[i + 1..]
  }

  // zend_startup_modules: sort, then start in that order; the first module that fails is removed
  // from the registry and nothing after it is started.
  method StartupModules(a: array<Module>, hook: string -> bool, ghost rank: map<string, nat>)
      returns (mods: seq<Module>, ok: bool)
    requires Ranked(a[..], rank)
    modifies a
    ensures multiset(a[..]) == multiset(old(a[..])) && Ordered(a[..], a.Length)
    ensures ok <==> forall m :: m in old(a[..]) ==> Startable(old(a[..]), hook, m)
    ensures ok ==> StartedTo(a[..], mods, a.Length)
    ensures !ok ==> exists i :: FailedAt(a[..], mods, hook, i)
  {
    hide DependsOn, Startable, Same;
    SortModules(a, rank);
    Permuted(old(a[..]), a[..], hook);
    ghost var s0 := a[..];
    mods := a[..];
    var i := 0;
    while i < |mods|
      invariant a[..] == s0 && i <= |mods| && StartedTo(s0, mods, i)
      invariant forall j :: 0 <= j < i ==> Startable(s0, hook, s0[j])
    {
      var good;
      mods, good := StartupModule(a[..], mods, i, hook);
      if !good {
        assert s0[i] in s0;
        mods := mods[..i] + mods[i + 1..];
        assert mods[i..] == s0[i + 1..];
        assert FailedAt(s0, mods, hook, i);
        return mods, false;
      }
      i := i + 1;
    }
    return mods, true;
  }

  // What can be started does not depend on the order.
  lemma {:induction false} Permuted(s: seq<Module>, t: seq<Module>, hook: string -> bool)
    requires multiset(s) == multiset(t)
    ensures forall m :: m in s <==> m in t
    ensures forall m :: Startable(s, hook, m) <==> Startable(t, hook, m)
  {
    forall m
      ensures m in s <==> m in t
    {
      assert m in s <==> m in multiset(s);
      assert m in t <==> m in multiset(t);
    }
    hide Same;
    forall name
      ensures Has(s, name) <==> Has(t, name)
    {
      HasMember(s, t, name);
      HasMember(t, s, name);
    }
  }

  lemma {:induction false} HasMember(s: seq<Module>, t: seq<Module>, name: string)
    requires forall m :: m in s ==> m in t
    ensures Has(s, name) ==> Has(t, name)
  {
    if Has(s, name) {
      var i :| 0 <= i < |s| && Same(s[i].name, name);
      assert s[i] in t;
      var j :| 0 <= j < |t| && t[j] == s[i];
      assert Same(t[j].name, name);
    }
  }
}
