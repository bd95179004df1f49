// The operations, each one locked step; threads are passed in where the original asks the system.
module Tsrm {
  import opened Seqs
  import opened TsrmState

  class ResourceManager {
    var s: State

    // tsrm_startup
    constructor (expectedThreads: nat, expectedResources: nat)
      requires 0 < expectedThreads
      ensures Ok(s) && s.idCount == 0 && s.tls == map[] && s.made == map[] && s.nulls == 0
    {
      s := State(seq(expectedThreads, _ => []), map[], map[], seq(expectedResources, _ => Type(0, 0, 0, false)), 0, 1,
        0,
                 map[], map[], map[], map[], {}, 0);
    }

    // A destructor gets a block that was made and is neither freed nor destroyed, or NULL.
    method CallDtor(f: nat, p: nat)
      requires p == 0 || (p in s.made && p !in s.freed && p !in s.destroyed)
      modifies this
      ensures s == if p == 0 then old(s).(nulls := old(s).nulls + 1) else old(s).(destroyed := old(s).destroyed[p := f])
    {
      s := if p == 0 then s.(nulls := s.nulls + 1) else s.(destroyed := s.destroyed[p := f]);
    }

    // free: a block that was made and is not freed, or NULL.
    method FreeBlock(p: nat)
      requires p == 0 || (p in s.made && p !in s.freed)
      modifies this
      ensures s == if p == 0 then old(s) else old(s).(freed := old(s).freed + {p})
    {
      s := if p == 0 then s else s.(freed := s.freed + {p});
    }

    // malloc and the constructor
    method MakeBlock(t: nat, j: nat) returns (p: nat)
      requires j < |s.types|
      modifies this
      ensures p == old(s).nextBlock && Made(old(s), s, t, j)
    {
      p := s.nextBlock;
      s := s.(nextBlock := p + 1, made := s.made[p := Slot(t, j)]);
      if s.types[j].ctor != 0 {
        s := s.(built := s.built[p := s.types[j].ctor]);
      }
    }

    // The locked walk of ts_resource_ex and ts_free_thread.
    method Walk(t: nat) returns (k: nat)
      requires 0 < |s.chains| && TableOk(s.chains, s.entries, s.own, s.nextEntry)
      ensures k <= |s.chains[Hash(t, |s.chains|)]|
      ensures k < |s.chains[Hash(t, |s.chains|)]| ==> t in s.own && s.chains[Hash(t, |s.chains|)][k] == s.own[t]
      ensures k == |s.chains[Hash(t, |s.chains|)]| ==> t !in s.own
    {
      var h := Hash(t, |s.chains|);
      assert ChainOk(s.chains, s.entries, s.own, h);
      if t in s.own { assert OwnerOk(s.chains, s.entries, s.own, t); }
      k := 0;
      while k < |s.chains[h]|
        invariant k <= |s.chains[h]|
        invariant forall i :: 0 <= i < k ==> s.chains[h][i] in s.entries && s.entries[s.chains[h][i]].thread != t
      {
        assert MemberOk(s.chains, s.entries, s.own, h, k);
        if s.entries[s.chains[h][k]].thread == t {
          return;
        }
        k := k + 1;
      }
    }

    // The loop of allocate_new_resource.
    method FillEntry(e: nat)
      requires Working(s, map[e := 0], {}) && e in s.entries && s.entries[e].count == s.idCount
      modifies this
      ensures Working(s, map[], {}) && Filling(old(s), s, e)
    {
      hide TableOk, EntriesOk, BlocksOk, Extends;
      FillingSelf(s, map[e := 0], e);
      assert s.idCount <= |s.types|;
      hide Working;
      var i := 0;
      while i < s.idCount
        invariant i <= s.idCount <= |s.types| && e in s.entries && s.entries[e].count == s.idCount
        invariant Working(s, map[e := i], {}) && Filling(old(s), s, e)
      {
        ghost var g := s;
        if s.types[i].done {
          s := s.(entries := s.entries[e := s.entries[e].(storage := s.entries[e].storage + [0])]);
          FillingNull(old(s), g, s, map[e := i], e, i);
        } else {
          var p := MakeBlock(s.entries[e].thread, i);
          s := s.(entries := s.entries[e := s.entries[e].(storage := s.entries[e].storage + [p])]);
          FillingBlock(old(s), g, s, map[e := i], e, i);
        }
        OneMore(e, i, i + 1);
        i := i + 1;
      }
      OneMore(e, i, i);
      SameEntry(s, e);
      FullEntry(s, s, map[e := i], e);
    }

    // allocate_new_resource
    method NewResource(t: nat)
      requires Ok(s) && t !in s.tls
      modifies this
      ensures Ok(s) && t in s.tls && OthersKeep(old(s), s, t) && Extends(old(s), s)
      ensures s.freed == old(s).freed && s.nulls == old(s).nulls && s.idCount == old(s).idCount
        && s.types == old(s).types
    {
      hide TableOk, EntriesOk, BlocksOk, Extends;
      HasChains(s);
      var h, e := Hash(t, |s.chains|), s.nextEntry;
      s := s.(chains := s.chains[h := s.chains[h] + [e]], entries := s.entries[e := Entry(t, [], s.idCount)],
              own := s.own[t := e], tls := s.tls[t := e], nextEntry := e + 1);
      NewEntry(old(s), s, t);
      ghost var s1 := s;
      EntryExtends(old(s), s1);
      FillEntry(e);
      FillingEntry(s1, s, e);
      OthersApart(old(s), s, t, e);
      ExtendsOn(old(s), s1, s);
    }

    // The loop of ts_allocate_id over the missing slots of an entry; one is missing.
    method Extend(e: nat, ghost want: map<nat, nat>)
      requires Working(s, want, {}) && e in s.entries && e in want
      requires 0 < s.idCount && want[e] == s.idCount - 1 == s.entries[e].count && !s.types[s.idCount - 1].done
      modifies this
      ensures Working(s, want - {e}, {}) && Filling(old(s), s, e)
    {
      hide TableOk, EntriesOk, BlocksOk, Extends;
      FillingSelf(s, want, e);
      assert s.idCount <= |s.types|;
      hide Working;
      var j := s.entries[e].count;
      Without(want, e, j);
      while j < s.idCount
        invariant 0 < s.idCount && s.idCount - 1 <= j <= s.idCount <= |s.types| && e in s.entries
          && !s.types[s.idCount - 1].done
        invariant Working(s, want[e := j], {}) && Filling(old(s), s, e)
      {
        ghost var g := s;
        var p := MakeBlock(s.entries[e].thread, j);
        s := s.(entries := s.entries[e := s.entries[e].(storage := s.entries[e].storage + [p])]);
        FillingBlock(old(s), g, s, want[e := j], e, j);
        Without(want, e, j);
        j := j + 1;
      }
      ghost var g := s;
      s := s.(entries := s.entries[e := s.entries[e].(count := s.idCount)]);
      CountSet(old(s), g, s, want[e := j], e);
      Without(want, e, j);
    }

    // ts_allocate_id
    method AllocateId(size: nat, ctor: nat, dtor: nat) returns (id: nat)
      requires Ok(s)
      modifies this
      ensures Ok(s) && Extends(old(s), s)
      ensures id == old(s).idCount + 1 == s.idCount <= |s.types| && old(s).idCount <= |old(s).types|
      ensures s.types[..s.idCount] == old(s).types[..old(s).idCount] + [Type(size, ctor, dtor, false)]
      ensures s.tls == old(s).tls && s.freed == old(s).freed && s.destroyed == old(s).destroyed
        && s.nulls == old(s).nulls
      ensures forall e :: e in old(s).entries ==> e in s.entries && old(s).entries[e].storage <= s.entries[e].storage
    {
      hide TableOk, EntriesOk, BlocksOk, Extends;
      s := s.(idCount := s.idCount + 1);
      id := s.idCount;
      if |s.types| < s.idCount {
        s := s.(types := s.types + [Type(0, 0, 0, false)]);
      }
      s := s.(types := s.types[id - 1 := Type(size, ctor, dtor, false)]);
      ghost var s1 := s;
      NewId(old(s), s1, Type(size, ctor, dtor, false));
      ResizedTypes(old(s), s1);
      ghost var want := ExtendAll(Behind(old(s)), old(s));
      ExtendsOn(old(s), s1, s);
    }

    // The walk of ts_allocate_id over all entries.
    method ExtendAll(ghost want0: map<nat, nat>, ghost s0: State) returns (ghost want: map<nat, nat>)
      requires Working(s0, map[], {}) && s.entries == s0.entries && s.chains == s0.chains
        && s.idCount == s0.idCount + 1 && want0 == Behind(s0)
      requires Working(s, want0, {}) && !s.types[s.idCount - 1].done
      modifies this
      ensures want == map[] && Working(s, map[], {}) && Growing(old(s), s)
    {
      hide TableOk, EntriesOk, BlocksOk, Extends, Todo, Filling;
      want := want0;
      TodoStart(s0, s);
      GrowingSelf(s, want);
      var i := 0;
      while i < |s.chains|
        invariant i <= |s.chains| && Working(s, want, {}) && Growing(old(s), s) && Todo(s, want, i, 0)
      {
        var k := 0;
        while k < |s.chains[i]|
          invariant i < |s.chains| && k <= |s.chains[i]| && Working(s, want, {}) && Growing(old(s), s)
            && Todo(s, want, i, k)
        {
          TodoMember(s, want, i, k);
          ghost var g := s;
          var e := s.chains[i][k];
          if s.entries[e].count < s.idCount {
            Extend(e, want);
          }
          TodoNext(g, s, want, i, k);
          GrowingOn(old(s), g, s, e);
          want := want - {e};
          k := k + 1;
        }
        TodoChain(s, want, i);
        i := i + 1;
      }
      TodoEnd(s, want);
    }

    // ts_free_id
    method FreeId(id: nat)
      requires Ok(s) && 1 <= id <= s.idCount
      modifies this
      ensures Ok(s) && Extends(old(s), s) && s.types[id - 1].done
      ensures s.tls == old(s).tls && s.nulls == old(s).nulls && s.idCount == old(s).idCount <= |old(s).types|
      ensures s.types == old(s).types[id - 1 := old(s).types[id - 1].(done := true)]
      ensures forall e :: e in old(s).entries ==>
        e in s.entries && SameBut(old(s).entries[e].storage, s.entries[e].storage, id - 1)
    {
      hide TableOk, EntriesOk, BlocksOk, Extends, Passed;
      var j: nat := id - 1;
      ghost var holes: set<(nat, nat)> := {};
      HasChains(s);
      PassedStart(s, j);
      EmptyingSelf(s, j);
      var i := 0;
      while i < |s.chains|
        invariant i <= |s.chains| && Working(s, map[], holes) && Emptying(old(s), s, j) && Passed(s, j, holes, i, 0)
      {
        var k := 0;
        while k < |s.chains[i]|
          invariant i < |s.chains| && k <= |s.chains[i]| && Working(s, map[], holes) && Emptying(old(s), s, j)
            && Passed(s, j, holes, i, k)
        {
          ghost var g := s;
          EmptyOne(s.chains[i][k], j, holes, old(s), i, k);
          holes := holes + {(g.chains[i][k], j)};
          k := k + 1;
        }
        PassedChain(s, j, holes, i);
        i := i + 1;
      }
      AllPassed(s, j, holes, i);
      MarkDone(s, j, holes);
      DoneExtends(s, j);
      ExtendsOn(old(s), s, s.(types := s.types[j := s.types[j].(done := true)]));
      s := s.(types := s.types[j := s.types[j].(done := true)]);
    }

    // Its loop body, for the entry e that the walk has reached.
    method EmptyOne(e: nat, j: nat, ghost holes: set<(nat, nat)>, ghost s0: State, ghost i: nat, ghost k: nat)
      requires Working(s, map[], holes) && j < s.idCount && Emptying(s0, s, j)
      requires i < |s.chains| && k < |s.chains[i]| && e == s.chains[i][k] && Passed(s, j, holes, i, k)
      modifies this
      ensures Working(s, map[], holes + {(e, j)}) && Emptying(s0, s, j) && s.chains == old(s).chains
        && Passed(s, j, holes + {(e, j)}, i, k + 1)
    {
      hide TableOk, EntriesOk, BlocksOk, Extends, Passed;
      MemberOf(s, i, k);
      SlotBlock(s, e, j, holes);
      EmptyingSelf(s, j);
      if s.entries[e].count > j && s.entries[e].storage[j] != 0 {
        EmptySlot(s, e, j, holes);
        EmptyingNext(s0, s, e, j, holes);
        EmptyingNext(s, s, e, j, holes);
        PassedNext(s, Emptied(s, e, j), j, holes, i, k);
        if s.types[j].dtor != 0 {
          CallDtor(s.types[j].dtor, s.entries[e].storage[j]);
        }
        FreeBlock(s.entries[e].storage[j]);
        s := s.(entries := s.entries[e := s.entries[e].(storage := s.entries[e].storage[j := 0])]);
      } else {
        StaysEmpty(s, e, j, holes);
        PassedNext(s, s, j, holes, i, k);
      }
    }

    // ts_free_thread, called by thread t
    method FreeThread(t: nat)
      requires Ok(s)
      modifies this
      ensures Ok(s) && Extends(old(s), s) && t !in s.tls && OthersKeep(old(s), s, t)
      ensures s.idCount == old(s).idCount && s.types == old(s).types
      ensures t !in old(s).tls ==> s == old(s)
      ensures t in old(s).tls ==> (s.nulls == old(s).nulls <==> forall j :: 0 <= j < s.idCount && s.types[j].done ==>
        s.types[j].dtor == 0)
    {
      hide TableOk, EntriesOk, BlocksOk, Extends, Blocks, Dtors, DestroyedBy;
      HasChains(s);
      var k := Walk(t);
      var h := Hash(t, |s.chains|);
      if k < |s.chains[h]| {
        var e := s.chains[h][k];
        StockedEntry(s, t);
        DestroyAll(e, t);
        FreeAll(e, t, old(s));
        s := s.(chains := s.chains[h := Removed(s.chains[h], k)], entries := s.entries - {e}, own := s.own - {t},
          tls := s.tls - {t});
        Down(old(s), s, t, k);
        OwnerEntry(old(s), t);
        OthersApart(old(s), s, t, e);
        NoNullCalls(s.types, old(s).entries[e].storage, s.idCount);
      } else {
        SelfExtends(s);
      }
    }

    // Its first loop.
    method DestroyAll(e: nat, ghost t: nat)
      requires e in s.entries && Stocked(s, s.entries[e].storage, t) && s.entries[e].count == s.idCount
      modifies this
      ensures s == old(s).(destroyed := DestroyedBy(old(s), old(s).entries[e].storage, t, old(s).idCount),
                           nulls := old(s).nulls + NullCalls(old(s).types, old(s).entries[e].storage, old(s).idCount))
    {
      ghost var st := s.entries[e].storage;
      hide Blocks, Dtors, DestroyedBy, Stocked, NullCalls, Destroying;
      StockedSize(s, st, t);
      DestroyingStart(s, st, t);
      var i := 0;
      while i < s.entries[e].count
        invariant i <= |st| && Destroying(old(s), s, st, t, i) && s.entries == old(s).entries && s.types == old(s).types
      {
        DestroyingNext(old(s), s, st, t, i);
        if s.types[i].dtor != 0 {
          CallDtor(s.types[i].dtor, s.entries[e].storage[i]);
        }
        i := i + 1;
      }
      DestroyingIs(old(s), s, st, t, i);
    }

    // Its second loop.
    method FreeAll(e: nat, ghost t: nat, ghost s0: State)
      requires e in s.entries && Stocked(s0, s.entries[e].storage, t) && s.entries[e].count == s.idCount == s0.idCount
      requires s.made == s0.made && s.freed == s0.freed
      modifies this
      ensures s == old(s).(freed := s0.freed + Blocks(old(s).entries[e].storage, old(s).idCount))
    {
      hide Blocks, Dtors, DestroyedBy;
      DestroyedNone(s0, s.entries[e].storage, t);
      var i := 0;
      while i < s.entries[e].count
        invariant i <= old(s).idCount && s == old(s).(freed := s0.freed + Blocks(old(s).entries[e].storage, i))
      {
        DestroyedNext(s0, old(s).entries[e].storage, t, i);
        FreeBlock(s.entries[e].storage[i]);
        i := i + 1;
      }
    }

    // The inner loops of tsrm_shutdown for one entry, the first of its chain.
    method DropFirst(h: nat)
      requires Working(s, map[], {}) && h < |s.chains| && s.chains[h] != []
      modifies this
      ensures Working(s, map[], {}) && Extends(old(s), s) && s.chains == old(s).chains[h := old(s).chains[h][1..]]
      ensures s.made == old(s).made && s.types == old(s).types && s.nulls == old(s).nulls
    {
      hide TableOk, EntriesOk, BlocksOk, Extends, Blocks, Dtors, DestroyedBy;
      var e := s.chains[h][0];
      FirstOf(s, h);
      ghost var t := s.entries[e].thread;
      StockedEntry(s, t);
      var st := s.entries[e].storage;
      DestroyedNone(s, st, t);
      var j := 0;
      while j < s.entries[e].count
        invariant j <= old(s).idCount && Stocked(old(s), st, t)
        invariant s == old(s).(destroyed := DestroyedBy(old(s), st, t, j), freed := old(s).freed + Blocks(st, j))
      {
        DestroyedNext(old(s), st, t, j);
        if s.entries[e].storage[j] != 0 {
          if !s.types[j].done && s.types[j].dtor != 0 {
            CallDtor(s.types[j].dtor, s.entries[e].storage[j]);
          }
          FreeBlock(s.entries[e].storage[j]);
        }
        j := j + 1;
      }
      assert Removed(s.chains[h], 0) == s.chains[h][1..];
      s := s.(chains := s.chains[h := s.chains[h][1..]], entries := s.entries - {e}, own := s.own - {t});
      Down(old(s), s, t, 0);
    }

    // tsrm_shutdown
    method Shutdown()
      requires Ok(s)
      modifies this
      ensures AllGone(s) && Extends(old(s), s) && s.made == old(s).made && s.types == old(s).types
        && s.nulls == old(s).nulls
    {
      hide TableOk, EntriesOk, BlocksOk, Extends;
      SelfExtends(s);
      var i := 0;
      while i < |s.chains|
        invariant i <= |s.chains| == |old(s).chains| && Working(s, map[], {}) && Extends(old(s), s)
        invariant s.made == old(s).made && s.types == old(s).types && s.nulls == old(s).nulls
        invariant forall h :: 0 <= h < i ==> s.chains[h] == []
      {
        while s.chains[i] != []
          invariant i < |s.chains| == |old(s).chains| && Working(s, map[], {}) && Extends(old(s), s)
          invariant s.made == old(s).made && s.types == old(s).types && s.nulls == old(s).nulls
          invariant forall h :: 0 <= h < i ==> s.chains[h] == []
          decreases |s.chains[i]|
        {
          ghost var g := s;
          DropFirst(i);
          ExtendsOn(old(s), g, s);
        }
        i := i + 1;
      }
      EmptyTable(s);
    }

    // The locked section of ts_resource_ex: the entry of t, made if there is none.
    method Obtain(t: nat)
      requires Ok(s)
      modifies this
      ensures Ok(s) && t in s.tls && OthersKeep(old(s), s, t) && Extends(old(s), s)
      ensures t in old(s).tls ==> s == old(s)
      ensures s.freed == old(s).freed && s.nulls == old(s).nulls && s.idCount == old(s).idCount
        && s.types == old(s).types
    {
      hide TableOk, EntriesOk, BlocksOk, Extends;
      HasChains(s);
      SelfExtends(s);
      var k := Walk(t);
      if k == |s.chains[Hash(t, |s.chains|)]| {
        NewResource(t);
      }
    }

    // One locked step of some thread; a step that frees an id never given out does nothing. The other
    // threads keep their thread-local pointers and, unless the id is retired, the cells they have.
    method Perform(step: Step)
      requires Ok(s)
      modifies this
      ensures Ok(s) && Extends(old(s), s) && IdealOf(s) == Next(IdealOf(old(s)), step)
      ensures forall t :: !By(step, t) ==> Undisturbed(old(s), s, t, Retired(step))
    {
      hide Working, Extends, Undisturbed, OthersKeep;
      match step
      case Allocate(size, ctor, dtor) =>
        var _ := AllocateId(size, ctor, dtor);
        forall t
          ensures Undisturbed(old(s), s, t, -1)
        {
          CellsUndisturbed(old(s), s, t, -1);
        }
      case Enter(u) =>
        Obtain(u);
        ThreadsOf(old(s), s, u);
        forall t | t != u
          ensures Undisturbed(old(s), s, t, -1)
        {
          OthersUndisturbed(old(s), s, u, t, -1);
        }
      case Leave(u) =>
        FreeThread(u);
        ThreadsOf(old(s), s, u);
        forall t | t != u
          ensures Undisturbed(old(s), s, t, -1)
        {
          OthersUndisturbed(old(s), s, u, t, -1);
        }
      case Retire(id) =>
        if 1 <= id <= s.idCount {
          FreeId(id);
          ghost var j := id - 1;
          forall t
            ensures Undisturbed(old(s), s, t, j)
          {
            CellsUndisturbed(old(s), s, t, j);
          }
        } else {
          SelfExtends(s);
          forall t | !By(step, t)
            ensures Undisturbed(s, s, t, Retired(step))
          {
            UndisturbedSelf(s, t, Retired(step));
          }
        }
    }

    // Any number of steps: the ids and the threads are those of the plain account of the steps. The
    // threads that take no part keep their thread-local pointers and the cells of the ids that are not
    // retired.
    method PerformAll(steps: seq<Step>)
      requires Ok(s)
      modifies this
      ensures Ok(s) && Extends(old(s), s) && IdealOf(s) == NextAll(IdealOf(old(s)), steps)
      ensures forall t :: (forall i :: 0 <= i < |steps| ==> !By(steps[i], t)) ==>
        (t in old(s).tls <==> t in s.tls) && (t in s.tls ==> s.tls[t] == old(s).tls[t])
      ensures forall t, k: nat :: (forall i :: 0 <= i < |steps| ==> !By(steps[i], t) && steps[i] != Retire(k + 1)) ==>
        SameCell(old(s), s, t, k)
    {
      hide Working, Extends, IdealOf, Next, SameCell;
      SelfExtends(s);
      SameCellSelf(s);
      var i := 0;
      while i < |steps|
        invariant i <= |steps| && Ok(s) && Extends(old(s), s) && IdealOf(s) == NextAll(IdealOf(old(s)), steps[..i])
        invariant forall t :: (forall k :: 0 <= k < i ==> !By(steps[k], t)) ==>
          (t in old(s).tls <==> t in s.tls) && (t in s.tls ==> s.tls[t] == old(s).tls[t])
        invariant forall t, k: nat :: (forall n :: 0 <= n < i ==> !By(steps[n], t) && steps[n] != Retire(k + 1)) ==>
          SameCell(old(s), s, t, k)
      {
        ghost var g := s;
        Perform(steps[i]);
        ExtendsOn(old(s), g, s);
        assert steps[..i + 1][..i] == steps[..i];
        forall t, k: nat | forall n :: 0 <= n < i + 1 ==> !By(steps[n], t) && steps[n] != Retire(k + 1)
          ensures SameCell(old(s), s, t, k)
        {
          assert !By(steps[i], t) && steps[i] != Retire(k + 1);
          CellStays(g, s, t, k, steps[i]);
          SameCellOn(old(s), g, s, t, k);
        }
        i := i + 1;
      }
      assert steps[..|steps|] == steps;
    }

    // ts_resource_ex(id, NULL) by thread t. Without an entry, t makes one and looks again; others are
    // the steps of the other threads while t does not hold the lock. The second look finds the entry.
    method Fetch(t: nat, id: nat, others: seq<Step>) returns (r: Resource)
      requires Ok(s) && id <= s.idCount && forall i :: 0 <= i < |others| ==> !By(others[i], t)
      modifies this
      ensures Ok(s) && Extends(old(s), s) && t in s.tls && s.tls[t] in s.entries
        && id <= s.idCount == |s.entries[s.tls[t]].storage|
      ensures t in old(s).tls ==> s == old(s)
      ensures r == if id == 0 then Array(s.tls[t]) else Cell(s.entries[s.tls[t]].storage[id - 1])
      ensures id != 0 ==> (r == Cell(0) <==> s.types[id - 1].done)
      ensures r.Cell? && r.block != 0 ==> HeldFor(s, r.block, t, id - 1)
    {
      hide TableOk, EntriesOk, BlocksOk, Extends;
      if t in s.tls {
        SelfExtends(s);
        EntryOf(s, t, id);
        r := Read(s.entries[s.tls[t]].storage, s.tls[t], id);
        return;
      }
      Obtain(t);
      ghost var g := s;
      PerformAll(others);
      ExtendsOn(old(s), g, s);
      IdsStay(old(s), s);
      HasChains(s);
      EntryOf(s, t, id);
      var k := Walk(t);
      var e := s.chains[Hash(t, |s.chains|)][k];
      r := Read(s.entries[e].storage, e, id);
    }
  }

  // What the array at entry e holds for an id; id 0 asks for the array itself.
  datatype Resource = Array(entry: nat) | Cell(block: nat)

  function Read(st: seq<nat>, e: nat, id: nat): Resource
    requires id <= |st|
  {
    if id == 0 then Array(e) else Cell(st[id - 1])
  }

  // The locked steps.
  datatype Step = Allocate(size: nat, ctor: nat, dtor: nat) | Enter(thread: nat) | Leave(thread: nat) | Retire(id: nat)

  predicate By(step: Step, t: nat) {
    step == Enter(t) || step == Leave(t)
  }

  // The position of the id that a step retires, or -1.
  function Retired(step: Step): int {
    if step.Retire? then step.id - 1 else -1
  }

  lemma {:induction false} SameCellSelf(s: State)
    ensures forall t, k: nat :: SameCell(s, s, t, k)
  {
  }

  lemma {:induction false} CellStays(s: State, g: State, t: nat, k: nat, step: Step)
    requires Undisturbed(s, g, t, Retired(step)) && step != Retire(k + 1)
    ensures SameCell(s, g, t, k)
  {
  }

  // The plain account of a run: the types that were registered, and the threads that have resources.
  datatype Ideal = Ideal(types: seq<Type>, threads: set<nat>)

  function Next(a: Ideal, step: Step): Ideal {
    match step
    case Allocate(size, ctor, dtor) => a.(types := a.types + [Type(size, ctor, dtor, false)])
    case Enter(t) => a.(threads := a.threads + {t})
    case Leave(t) => a.(threads := a.threads - {t})
    case Retire(id) =>
      if 1 <= id <= |a.types| then a.(types := a.types[id - 1 := a.types[id - 1].(done := true)]) else a
  }

  function NextAll(a: Ideal, steps: seq<Step>): Ideal {
    if steps == [] then a else Next(NextAll(a, steps[..|steps| - 1]), steps[|steps| - 1])
  }

  ghost function IdealOf(s: State): Ideal {
    Ideal(if s.idCount <= |s.types| then s.types[..s.idCount] else s.types, s.tls.Keys)
  }

  // Only thread u came or went.
  lemma {:induction false} ThreadsOf(s: State, g: State, u: nat)
    requires OthersKeep(s, g, u)
    ensures g.tls.Keys == if u in g.tls then s.tls.Keys + {u} else s.tls.Keys - {u}
  {
    forall t | t != u
      ensures t in s.tls <==> t in g.tls
    {
      assert SameThread(s, g, t);
    }
  }

  lemma {:induction false} EntryOf(s: State, t: nat, id: nat)
    requires Ok(s) && t in s.tls && id <= s.idCount
    ensures s.tls[t] in s.entries && s.idCount == |s.entries[s.tls[t]].storage| && s.idCount <= |s.types|
    ensures id != 0 ==> (s.entries[s.tls[t]].storage[id - 1] == 0 <==> s.types[id - 1].done)
    ensures id != 0 ==> var p := s.entries[s.tls[t]].storage[id - 1]; p != 0 ==> HeldFor(s, p, t, id - 1)
  {
    hide TableOk, EntriesOk, BlocksOk;
    StockedEntry(s, t);
  }

  // The block was made for this thread and resource, and is not freed.
  ghost predicate HeldFor(s: State, p: nat, t: nat, j: nat) {
    p in s.made && s.made[p] == Slot(t, j) && p !in s.freed
  }

  lemma {:induction false} IdsStay(s: State, g: State)
    requires Extends(s, g)
    ensures s.idCount <= g.idCount
  {
  }

  // A whole run: start up, any steps of any threads in any order, shut down. Before the shutdown the ids
  // and the threads are those of the plain account. After it every block that was made has been freed,
  // and has been destroyed if its type has a destructor. It was freed and destroyed once: FreeBlock and
  // CallDtor accept no block a second time.
  method Run(expectedThreads: nat, expectedResources: nat, steps: seq<Step>)
      returns (m: ResourceManager, ghost before: State)
    requires 0 < expectedThreads
    ensures fresh(m) && AllGone(m.s) && Ok(before) && IdealOf(before) == NextAll(Ideal([], {}), steps)
    ensures Extends(before, m.s) && m.s.made == before.made && m.s.types == before.types
  {
    hide Working, Extends, SameCell;
    m := new ResourceManager(expectedThreads, expectedResources);
    assert IdealOf(m.s) == Ideal([], {});
    m.PerformAll(steps);
    before := m.s;
    m.Shutdown();
  }

  // A run in which a destructor receives NULL: the thread outlives the id.
  method NullReachesDestructor() returns (m: ResourceManager)
    ensures fresh(m) && Ok(m.s) && 0 < m.s.nulls
  {
    hide Working;
    m := new ResourceManager(1, 0);
    m.Obtain(7);
    var id := m.AllocateId(8, 0, 5);
    m.FreeId(id);
    assert m.s.types[0].done && m.s.types[0].dtor == 5;
    m.FreeThread(7);
  }
}
