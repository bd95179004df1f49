// The thread-safe resource manager: a table of per-thread resource arrays, a registry of resource
// types, and a pointer to its own entry in each thread's local storage.
module TsrmState {
  import opened Seqs

  // ctor and dtor are 0 for NULL.
  datatype Type = Type(size: nat, ctor: nat, dtor: nat, done: bool)

  // storage[j] is the block of resource j, 0 for NULL.
  datatype Entry = Entry(thread: nat, storage: seq<nat>, count: nat)

  datatype Slot = Slot(thread: nat, id: nat)

  // chains is tsrm_tls_table with the chain of each bucket, entries the tsrm_tls_entry objects by
  // address, tls the thread-local pointers that are not NULL. Blocks and entries are named by serial
  // numbers, so that an address that malloc hands out again is not taken for the old block. The
  // ghost part: the entry of each thread in the table, what each block was made for, which
  // constructor and which destructor received it, what was freed, and how often a destructor
  // received NULL.
  datatype State = State(
    chains: seq<seq<nat>>, entries: map<nat, Entry>, tls: map<nat, nat>,
    types: seq<Type>, idCount: nat, nextBlock: nat, nextEntry: nat,
    ghost own: map<nat, nat>, ghost made: map<nat, Slot>, ghost built: map<nat, nat>,
    ghost destroyed: map<nat, nat>, ghost freed: set<nat>, ghost nulls: nat)

  // THREAD_HASH_OF
  function Hash(thread: nat, size: nat): (h: nat)
    requires 0 < size
    ensures h < size
  {
    thread % size
  }

  // Threads are spread over the buckets.
  lemma {:induction false} HashSpreads(thread: nat, size: nat)
    requires 1 < size
    ensures Hash(thread + 1, size) != Hash(thread, size) && (thread < size ==> Hash(thread, size) == thread)
  {
    if thread % size + 1 < size {
      NextMod(thread, size);
    } else {
      WrapMod(thread, size);
    }
  }

  lemma {:induction false} NextMod(n: nat, d: nat)
    requires 0 < d && n % d + 1 < d
    ensures (n + 1) % d == n % d + 1
  {
    var q, r := n / d, n % d;
    assert n + 1 == q * d + (r + 1);
    QuotientIs(n + 1, d, q, r + 1);
  }

  lemma {:induction false} WrapMod(n: nat, d: nat)
    requires 1 < d && n % d + 1 == d
    ensures (n + 1) % d == 0
  {
    var q := n / d;
    assert n + 1 == (q + 1) * d + 0;
    QuotientIs(n + 1, d, q + 1, 0);
  }

  lemma {:induction false} QuotientIs(n: nat, d: nat, q: nat, r: nat)
    requires n == q * d + r && r < d
    ensures n % d == r
  {
    var k := q - n / d;
    assert k * d == n % d - r;
    Multiples(k, d);
  }

  lemma {:induction false} Multiples(k: int, d: int)
    requires 0 < d
    ensures (1 <= k ==> d <= k * d) && (k <= -1 ==> k * d <= -d)
  {
  }

  // Member i of chain h is the entry of its thread, and h is the bucket of that thread.
  ghost predicate MemberOk(chains: seq<seq<nat>>, entries: map<nat, Entry>, own: map<nat, nat>, h: nat, i: nat)
    requires h < |chains| && i < |chains[h]|
  {
    var e := chains[h][i];
    e in entries && entries[e].thread in own && own[entries[e].thread] == e && Hash(entries[e].thread, |chains|) == h
  }

  ghost predicate ChainOk(chains: seq<seq<nat>>, entries: map<nat, Entry>, own: map<nat, nat>, h: nat)
    requires h < |chains|
  {
    Distinct(chains[h]) && forall i {:trigger chains[h][i]} :: 0 <= i < |chains[h]| ==>
      MemberOk(chains, entries, own, h, i)
  }

  // Thread t has its entry in its bucket.
  ghost predicate OwnerOk(chains: seq<seq<nat>>, entries: map<nat, Entry>, own: map<nat, nat>, t: nat)
    requires t in own && 0 < |chains|
  {
    own[t] in entries && entries[own[t]].thread == t && own[t] in chains[Hash(t, |chains|)]
  }

  ghost predicate TableOk(chains: seq<seq<nat>>, entries: map<nat, Entry>, own: map<nat, nat>, nextEntry: nat) {
    && 0 < |chains|
    && (forall h {:trigger ChainOk(chains, entries, own, h)} :: 0 <= h < |chains| ==> ChainOk(chains, entries, own, h))
    && (forall t {:trigger OwnerOk(chains, entries, own, t)} :: t in own ==> OwnerOk(chains, entries, own, t))
    && (forall e :: e in entries ==> e < nextEntry && entries[e].thread in own && own[entries[e].thread] == e)
  }

  // An entry has a slot for every id; the slots of the ids that are done are NULL, the others hold
  // blocks made for them. While a step is at work, some entries have fewer slots (want), and some
  // slots are NULL early (holes).
  ghost predicate SlotOk(s: State, e: nat, holes: set<(nat, nat)>, k: nat)
    requires e in s.entries && k < |s.entries[e].storage| <= |s.types|
  {
    var p := s.entries[e].storage[k];
    && (p == 0 <==> s.types[k].done || (e, k) in holes)
    && (p != 0 ==> p in s.made && s.made[p] == Slot(s.entries[e].thread, k) && p !in s.freed)
  }

  ghost predicate EntryOk(s: State, want: map<nat, nat>, holes: set<(nat, nat)>, e: nat)
    requires e in s.entries && s.idCount <= |s.types|
  {
    && |s.entries[e].storage| == (if e in want then want[e] else s.idCount) <= s.idCount
    && (e !in want ==> s.entries[e].count == s.idCount)
    && (forall k {:trigger SlotOk(s, e, holes, k)} :: 0 <= k < |s.entries[e].storage| ==> SlotOk(s, e, holes, k))
  }

  // A block is in the slot it was made for until it is freed; it is constructed when it is made and
  // destroyed when it is freed, if its type has the functions.
  ghost predicate BlockOk(s: State, p: nat)
    requires p in s.made && s.idCount <= |s.types|
  {
    var t, j := s.made[p].thread, s.made[p].id;
    && 0 < p < s.nextBlock && j < s.idCount
    && (p in s.built <==> s.types[j].ctor != 0) && (p in s.built ==> s.built[p] == s.types[j].ctor)
    && (p in s.destroyed <==> p in s.freed && s.types[j].dtor != 0)
      && (p in s.destroyed ==> s.destroyed[p] == s.types[j].dtor)
    && (p !in s.freed ==> Placed(s, p))
  }

  ghost predicate Placed(s: State, p: nat)
    requires p in s.made
  {
    var t, j := s.made[p].thread, s.made[p].id;
    t in s.own && s.own[t] in s.entries && j < |s.entries[s.own[t]].storage| && s.entries[s.own[t]].storage[j] == p
  }

  ghost predicate BlocksOk(s: State)
    requires s.idCount <= |s.types|
  {
    && (forall p :: 0 < p < s.nextBlock <==> p in s.made)
    && (forall p {:trigger BlockOk(s, p)} :: p in s.made ==> BlockOk(s, p))
    && (forall p :: p in s.freed || p in s.built || p in s.destroyed ==> p in s.made)
    && 0 < s.nextBlock
  }

  ghost predicate EntriesOk(s: State, want: map<nat, nat>, holes: set<(nat, nat)>)
    requires s.idCount <= |s.types|
  {
    forall e {:trigger EntryOk(s, want, holes, e)} :: e in s.entries ==> EntryOk(s, want, holes, e)
  }

  // What holds while a step is at work.
  ghost predicate Working(s: State, want: map<nat, nat>, holes: set<(nat, nat)>) {
    && s.idCount <= |s.types|
    && TableOk(s.chains, s.entries, s.own, s.nextEntry)
    && EntriesOk(s, want, holes)
    && BlocksOk(s)
  }

  // What holds between steps; in particular the thread-local pointers are the table.
  ghost predicate Ok(s: State) {
    Working(s, map[], {}) && s.tls == s.own
  }

  // ---------- the table ----------

  // The thread-local pointer of a thread is not NULL if and only if the table has an entry for
  // the thread; it is that entry, which stands once, in the bucket of the thread.
  lemma {:induction false} TlsIsTable(s: State, t: nat)
    requires Ok(s)
    ensures t in s.tls ==>
      exists i :: 0 <= i < |s.chains[Hash(t, |s.chains|)]| && s.chains[Hash(t, |s.chains|)][i] == s.tls[t]
    ensures t in s.tls ==> s.tls[t] in s.entries && s.entries[s.tls[t]].thread == t
    ensures forall h, i :: 0 <= h < |s.chains| && 0 <= i < |s.chains[h]| ==>
      s.chains[h][i] in s.entries && (s.entries[s.chains[h][i]].thread == t ==>
        t in s.tls && s.chains[h][i] == s.tls[t] && h == Hash(t, |s.chains|))
    ensures forall h, i, h', i' ::
      && 0 <= h < |s.chains| && 0 <= i < |s.chains[h]| && 0 <= h' < |s.chains| && 0 <= i' < |s.chains[h']|
      && s.chains[h][i] == s.chains[h'][i'] ==>
      h == h' && i == i'
  {
    hide EntriesOk, BlocksOk;
    if t in s.tls { assert OwnerOk(s.chains, s.entries, s.own, t); }
    forall h, i | 0 <= h < |s.chains| && 0 <= i < |s.chains[h]|
      ensures s.chains[h][i] in s.entries && (s.entries[s.chains[h][i]].thread == t ==>
        t in s.tls && s.chains[h][i] == s.tls[t] && h == Hash(t, |s.chains|))
    {
      assert ChainOk(s.chains, s.entries, s.own, h);
      assert MemberOk(s.chains, s.entries, s.own, h, i);
    }
    forall h, i, h', i' | 0 <= h < |s.chains| && 0 <= i < |s.chains[h]| && 0 <= h' < |s.chains|
      && 0 <= i' < |s.chains[h']| && s.chains[h][i] == s.chains[h'][i']
      ensures h == h' && i == i'
    {
      assert ChainOk(s.chains, s.entries, s.own, h) && ChainOk(s.chains, s.entries, s.own, h');
      assert MemberOk(s.chains, s.entries, s.own, h, i) && MemberOk(s.chains, s.entries, s.own, h', i');
    }
  }

  // ---------- a new id ----------

  ghost function Behind(s: State): map<nat, nat> {
    map e | e in s.entries :: s.idCount
  }

  // All entries are one slot behind.
  lemma {:induction false} NewId(s: State, g: State, ty: Type)
    requires Working(s, map[], {}) && !ty.done
    requires g == s.(idCount := s.idCount + 1, types := g.types) && s.idCount < |g.types|
    requires g.types[s.idCount] == ty && forall j :: 0 <= j < s.idCount ==> g.types[j] == s.types[j]
    ensures Working(g, Behind(s), {})
  {
    hide TableOk;
    forall e | e in g.entries
      ensures EntryOk(g, Behind(s), {}, e)
    {
      assert EntryOk(s, map[], {}, e);
      forall k | 0 <= k < |g.entries[e].storage|
        ensures SlotOk(g, e, {}, k)
      {
        assert SlotOk(s, e, {}, k);
      }
    }
    forall p | p in g.made
      ensures BlockOk(g, p)
    {
      assert BlockOk(s, p);
    }
  }

  // ---------- filling an entry ----------

  // The next slot of e gets block p, 0 for NULL.
  ghost function Appended(s: State, e: nat, p: nat): map<nat, Entry>
    requires e in s.entries
  {
    s.entries[e := s.entries[e].(storage := s.entries[e].storage + [p])]
  }

  // malloc and the constructor
  ghost predicate Made(s: State, g: State, t: nat, j: nat)
    requires j < |s.types|
  {
    g == s.(nextBlock := s.nextBlock + 1, made := s.made[s.nextBlock := Slot(t, j)],
            built := if s.types[j].ctor != 0 then s.built[s.nextBlock := s.types[j].ctor] else s.built)
  }

  // Changing the slots of one entry leaves the table as it is.
  lemma {:induction false} SameTable(s: State, e: nat, en: Entry)
    requires TableOk(s.chains, s.entries, s.own, s.nextEntry) && e in s.entries && en.thread == s.entries[e].thread
    ensures TableOk(s.chains, s.entries[e := en], s.own, s.nextEntry)
  {
    var entries := s.entries[e := en];
    forall h | 0 <= h < |s.chains|
      ensures ChainOk(s.chains, entries, s.own, h)
    {
      assert ChainOk(s.chains, s.entries, s.own, h);
      forall i | 0 <= i < |s.chains[h]|
        ensures MemberOk(s.chains, entries, s.own, h, i)
      {
        assert MemberOk(s.chains, s.entries, s.own, h, i);
      }
    }
    forall t | t in s.own
      ensures OwnerOk(s.chains, entries, s.own, t)
    {
      assert OwnerOk(s.chains, s.entries, s.own, t);
    }
  }

  ghost predicate Fillable(s: State, want: map<nat, nat>, e: nat, j: nat) {
    e in s.entries && e in want && want[e] == j < s.idCount <= |s.types|
  }

  lemma {:induction false} FilledEntries(s: State, g: State, want: map<nat, nat>, e: nat, j: nat, p: nat)
    requires EntriesOk'(s, want) && Fillable(s, want, e, j)
    requires g.entries == Appended(s, e, p) && g.types == s.types && g.idCount == s.idCount && g.freed == s.freed
    requires forall q :: q in s.made ==> q in g.made && g.made[q] == s.made[q]
    requires p == 0 <==> s.types[j].done
    requires p != 0 ==> p in g.made && g.made[p] == Slot(s.entries[e].thread, j) && p !in s.freed
    ensures EntriesOk'(g, want[e := j + 1])
  {
    forall f | f in g.entries
      ensures EntryOk(g, want[e := j + 1], {}, f)
    {
      assert EntryOk(s, want, {}, f);
      forall k | 0 <= k < |g.entries[f].storage|
        ensures SlotOk(g, f, {}, k)
      {
        if f != e || k < j { assert SlotOk(s, f, {}, k); }
      }
    }
  }

  ghost predicate EntriesOk'(s: State, want: map<nat, nat>) {
    s.idCount <= |s.types| && EntriesOk(s, want, {})
  }

  lemma {:induction false} FilledBlocks(s: State, g: State, want: map<nat, nat>, e: nat, j: nat)
    requires Working(s, want, {}) && Fillable(s, want, e, j) && !s.types[j].done
    requires Made(s, g.(entries := s.entries), s.entries[e].thread, j) && g.entries == Appended(s, e, s.nextBlock)
    ensures BlocksOk(g)
  {
    hide ChainOk, MemberOk;
    assert s.nextBlock !in s.made;
    assert EntryOk(s, want, {}, e);
    forall p | p in g.made
      ensures BlockOk(g, p)
    {
      if p != s.nextBlock { assert BlockOk(s, p); }
    }
  }

  // A slot of an id that is not done.
  lemma {:induction false} AddBlock(s: State, g: State, want: map<nat, nat>, e: nat, j: nat)
    requires Working(s, want, {}) && Fillable(s, want, e, j) && !s.types[j].done
    requires Made(s, g.(entries := s.entries), s.entries[e].thread, j) && g.entries == Appended(s, e, s.nextBlock)
    ensures Working(g, want[e := j + 1], {})
  {
    FilledBlocks(s, g, want, e, j);
    assert s.nextBlock !in s.made;
    FilledEntries(s, g, want, e, j, s.nextBlock);
    SameTable(s, e, g.entries[e]);
  }

  // A slot of an id that is done.
  lemma {:induction false} AddNull(s: State, g: State, want: map<nat, nat>, e: nat, j: nat)
    requires Working(s, want, {}) && Fillable(s, want, e, j) && s.types[j].done
    requires g == s.(entries := Appended(s, e, 0))
    ensures Working(g, want[e := j + 1], {})
  {
    FilledEntries(s, g, want, e, j, 0);
    SameTable(s, e, g.entries[e]);
    hide TableOk, EntriesOk;
    assert BlocksOk(g) by {
      forall p | p in g.made
        ensures BlockOk(g, p)
      {
        assert BlockOk(s, p);
      }
    }
  }

  // An entry that has all its slots.
  lemma {:induction false} FullEntry(s: State, g: State, want: map<nat, nat>, e: nat)
    requires Working(s, want, {}) && e in s.entries && e in want && want[e] == s.idCount
    requires g == s.(entries := s.entries[e := s.entries[e].(count := s.idCount)])
    ensures Working(g, want - {e}, {})
  {
    SameTable(s, e, g.entries[e]);
    forall f | f in g.entries
      ensures EntryOk(g, want - {e}, {}, f)
    {
      assert EntryOk(s, want, {}, f);
      forall k | 0 <= k < |g.entries[f].storage|
        ensures SlotOk(g, f, {}, k)
      {
        assert SlotOk(s, f, {}, k);
      }
    }
    forall p | p in g.made
      ensures BlockOk(g, p)
    {
      assert BlockOk(s, p);
    }
  }

  // ---------- a new entry ----------

  lemma {:induction false} NewEntryTable(s: State, g: State, t: nat)
    requires TableOk(s.chains, s.entries, s.own, s.nextEntry) && t !in s.own
    requires var h, e := Hash(t, |s.chains|), s.nextEntry;
      && g.chains == s.chains[h := s.chains[h] + [e]] && g.entries == s.entries[e := Entry(t, [], s.idCount)]
      && g.own == s.own[t := e] && g.nextEntry == e + 1
    ensures TableOk(g.chains, g.entries, g.own, g.nextEntry)
  {
    var h0, e := Hash(t, |s.chains|), s.nextEntry;
    forall h | 0 <= h < |g.chains|
      ensures ChainOk(g.chains, g.entries, g.own, h)
    {
      assert ChainOk(s.chains, s.entries, s.own, h);
      forall i | 0 <= i < |s.chains[h]|
        ensures s.chains[h][i] < e && MemberOk(g.chains, g.entries, g.own, h, i)
      {
        assert MemberOk(s.chains, s.entries, s.own, h, i);
      }
      if h == h0 { assert MemberOk(g.chains, g.entries, g.own, h, |s.chains[h]|); }
    }
    forall u | u in g.own
      ensures OwnerOk(g.chains, g.entries, g.own, u)
    {
      if u != t { assert OwnerOk(s.chains, s.entries, s.own, u); }
      else { assert g.chains[h0][|s.chains[h0]|] == e; }
    }
  }

  // Linking an entry without slots at the end of the chain.
  lemma {:induction false} NewEntry(s: State, g: State, t: nat)
    requires Ok(s) && t !in s.own
    requires var h, e := Hash(t, |s.chains|), s.nextEntry;
      g == s.(chains := s.chains[h := s.chains[h] + [e]], entries := s.entries[e := Entry(t, [], s.idCount)],
              own := s.own[t := e], tls := s.tls[t := e], nextEntry := e + 1)
    ensures Working(g, map[s.nextEntry := 0], {})
  {
    NewEntryTable(s, g, t);
    hide ChainOk, MemberOk, OwnerOk;
    var e := s.nextEntry;
    forall f | f in g.entries
      ensures EntryOk(g, map[e := 0], {}, f)
    {
      if f != e {
        assert EntryOk(s, map[], {}, f);
        forall k | 0 <= k < |g.entries[f].storage|
          ensures SlotOk(g, f, {}, k)
        {
          assert SlotOk(s, f, {}, k);
        }
      }
    }
    forall p | p in g.made
      ensures BlockOk(g, p)
    {
      assert BlockOk(s, p);
    }
  }

  // ---------- freeing an id ----------

  // Slot j of e is emptied: its block goes to the destructor and is freed.
  ghost function Emptied(s: State, e: nat, j: nat): State
    requires e in s.entries && j < |s.entries[e].storage| && j < |s.types|
  {
    var p := s.entries[e].storage[j];
    s.(entries := s.entries[e := s.entries[e].(storage := s.entries[e].storage[j := 0])],
       destroyed := if s.types[j].dtor != 0 then s.destroyed[p := s.types[j].dtor]
         else s.destroyed, freed := s.freed + {p})
  }

  lemma {:induction false} EmptySlot(s: State, e: nat, j: nat, holes: set<(nat, nat)>)
    requires Working(s, map[], holes) && e in s.entries && j < s.idCount && |s.entries[e].storage| == s.idCount
      && s.entries[e].storage[j] != 0
    ensures Working(Emptied(s, e, j), map[], holes + {(e, j)})
  {
    var g, p := Emptied(s, e, j), s.entries[e].storage[j];
    SameTable(s, e, g.entries[e]);
    assert EntryOk(s, map[], holes, e) && SlotOk(s, e, holes, j);
    hide ChainOk, MemberOk, OwnerOk;
    forall f | f in g.entries
      ensures EntryOk(g, map[], holes + {(e, j)}, f)
    {
      assert EntryOk(s, map[], holes, f);
      forall k | 0 <= k < |g.entries[f].storage|
        ensures SlotOk(g, f, holes + {(e, j)}, k)
      {
        assert SlotOk(s, f, holes, k);
      }
    }
    EmptiedBlocks(s, e, j, holes);
  }

  lemma {:induction false} EmptiedBlocks(s: State, e: nat, j: nat, holes: set<(nat, nat)>)
    requires Working(s, map[], holes) && e in s.entries && j < s.idCount && |s.entries[e].storage| == s.idCount
      && s.entries[e].storage[j] != 0
    requires SlotOk(s, e, holes, j)
    ensures BlocksOk(Emptied(s, e, j))
  {
    hide ChainOk, MemberOk, OwnerOk, EntriesOk;
    var g, p := Emptied(s, e, j), s.entries[e].storage[j];
    forall q | q in g.made
      ensures BlockOk(g, q)
    {
      assert BlockOk(s, q);
    }
  }

  // An empty slot counts as emptied.
  lemma {:induction false} StaysEmpty(s: State, e: nat, j: nat, holes: set<(nat, nat)>)
    requires Working(s, map[], holes) && e in s.entries && j < s.idCount && |s.entries[e].storage| == s.idCount
      && s.entries[e].storage[j] == 0
    ensures Working(s, map[], holes + {(e, j)})
  {
    hide TableOk, BlocksOk;
    forall f | f in s.entries
      ensures EntryOk(s, map[], holes + {(e, j)}, f)
    {
      assert EntryOk(s, map[], holes, f);
      forall k | 0 <= k < |s.entries[f].storage|
        ensures SlotOk(s, f, holes + {(e, j)}, k)
      {
        assert SlotOk(s, f, holes, k);
      }
    }
  }

  // With slot j empty everywhere, id j is done.
  lemma {:induction false} MarkDone(s: State, j: nat, holes: set<(nat, nat)>)
    requires Working(s, map[], holes) && j < s.idCount
    requires forall e, k :: (e, k) in holes ==> k == j
    requires forall e :: e in s.entries ==> (e, j) in holes
    ensures Working(s.(types := s.types[j := s.types[j].(done := true)]), map[], {})
  {
    hide TableOk;
    var g := s.(types := s.types[j := s.types[j].(done := true)]);
    forall f | f in g.entries
      ensures EntryOk(g, map[], {}, f)
    {
      assert EntryOk(s, map[], holes, f);
      forall k | 0 <= k < |g.entries[f].storage|
        ensures SlotOk(g, f, {}, k)
      {
        assert SlotOk(s, f, holes, k);
      }
    }
    forall p | p in g.made
      ensures BlockOk(g, p)
    {
      assert BlockOk(s, p);
    }
  }

  // ---------- taking an entry down ----------

  // The blocks in the first n slots.
  function Blocks(st: seq<nat>, n: nat): set<nat>
    requires n <= |st|
  {
    set k | 0 <= k < n && st[k] != 0 :: st[k]
  }

  lemma {:induction false} BlocksNext(st: seq<nat>, n: nat)
    requires n < |st|
    ensures Blocks(st, n + 1) == Blocks(st, n) + if st[n] != 0 then {st[n]} else {}
  {
    var k := n;
    assert st[n] != 0 ==> st[k] in Blocks(st, n + 1);
  }

  // The destructors that receive them.
  ghost function Dtors(s: State, ps: set<nat>): map<nat, nat>
    requires forall p :: p in ps ==> p in s.made && s.made[p].id < |s.types|
  {
    map p | p in ps && s.types[s.made[p].id].dtor != 0 :: s.types[s.made[p].id].dtor
  }

  // Without the entry of thread t, which is member k of its chain.
  ghost function TakenDown(s: State, t: nat, k: nat): State
    requires 0 < |s.chains| && k < |s.chains[Hash(t, |s.chains|)]| && t in s.own && s.own[t] in s.entries
    requires forall p :: p in Blocks(s.entries[s.own[t]].storage, |s.entries[s.own[t]].storage|) ==>
      p in s.made && s.made[p].id < |s.types|
  {
    var h, st := Hash(t, |s.chains|), s.entries[s.own[t]].storage;
    s.(chains := s.chains[h := Removed(s.chains[h], k)], entries := s.entries - {s.own[t]}, own := s.own - {t},
       freed := s.freed + Blocks(st, |st|), destroyed := s.destroyed + Dtors(s, Blocks(st, |st|)))
  }

  // The blocks of an entry are those of its thread that are not freed.
  lemma {:induction false} BlocksOf(s: State, t: nat, p: nat)
    requires Working(s, map[], {}) && t in s.own
    ensures s.own[t] in s.entries && s.entries[s.own[t]].thread == t
      && s.entries[s.own[t]].count == s.idCount == |s.entries[s.own[t]].storage|
    ensures var st := s.entries[s.own[t]].storage;
      p in Blocks(st, |st|) <==> p in s.made && s.made[p].thread == t && p !in s.freed
    ensures p in s.made ==> s.made[p].id < s.idCount
  {
    assert OwnerOk(s.chains, s.entries, s.own, t);
    var e := s.own[t];
    assert EntryOk(s, map[], {}, e);
    hide ChainOk, MemberOk, OwnerOk, TableOk;
    var st := s.entries[e].storage;
    if p in Blocks(st, |st|) {
      var k :| 0 <= k < |st| && st[k] != 0 && p == st[k];
      assert SlotOk(s, e, {}, k);
    }
    if p in s.made { assert BlockOk(s, p); }
  }

  lemma {:induction false} TakenDownTable(s: State, t: nat, k: nat)
    requires TableOk(s.chains, s.entries, s.own, s.nextEntry) && t in s.own
    requires k < |s.chains[Hash(t, |s.chains|)]| && s.chains[Hash(t, |s.chains|)][k] == s.own[t]
    ensures var h := Hash(t, |s.chains|);
      TableOk(s.chains[h := Removed(s.chains[h], k)], s.entries - {s.own[t]}, s.own - {t}, s.nextEntry)
  {
    var h0 := Hash(t, |s.chains|);
    var chains, entries, own := s.chains[h0 := Removed(s.chains[h0], k)], s.entries - {s.own[t]}, s.own - {t};
    forall h | 0 <= h < |chains|
      ensures ChainOk(chains, entries, own, h)
    {
      WithoutMember(s, t, k, h);
    }
    forall u | u in own
      ensures OwnerOk(chains, entries, own, u)
    {
      assert OwnerOk(s.chains, s.entries, s.own, u) && OwnerOk(s.chains, s.entries, s.own, t);
      if Hash(u, |chains|) == h0 {
        assert ChainOk(s.chains, s.entries, s.own, h0);
        RemovedHas(s.chains[h0], k, s.own[u]);
      }
    }
  }

  lemma {:induction false} WithoutMember(s: State, t: nat, k: nat, h: nat)
    requires TableOk(s.chains, s.entries, s.own, s.nextEntry) && t in s.own && h < |s.chains|
    requires k < |s.chains[Hash(t, |s.chains|)]| && s.chains[Hash(t, |s.chains|)][k] == s.own[t]
    ensures var h0 := Hash(t, |s.chains|);
      ChainOk(s.chains[h0 := Removed(s.chains[h0], k)], s.entries - {s.own[t]}, s.own - {t}, h)
  {
    var h0 := Hash(t, |s.chains|);
    var chains, entries, own := s.chains[h0 := Removed(s.chains[h0], k)], s.entries - {s.own[t]}, s.own - {t};
    assert ChainOk(s.chains, s.entries, s.own, h) && OwnerOk(s.chains, s.entries, s.own, t);
    forall i | 0 <= i < |chains[h]|
      ensures MemberOk(chains, entries, own, h, i)
    {
      var j := if h == h0 && k <= i then i + 1 else i;
      assert chains[h][i] == s.chains[h][j];
      assert MemberOk(s.chains, s.entries, s.own, h, j);
    }
  }

  lemma {:induction false} TakeDown(s: State, t: nat, k: nat)
    requires Working(s, map[], {}) && t in s.own
    requires k < |s.chains[Hash(t, |s.chains|)]| && s.chains[Hash(t, |s.chains|)][k] == s.own[t]
    ensures
      s.own[t] in s.entries && forall p :: p in Blocks(s.entries[s.own[t]].storage, |s.entries[s.own[t]].storage|) ==>
      p in s.made && s.made[p].id < |s.types|
    ensures Working(TakenDown(s, t, k), map[], {})
  {
    TakenDownTable(s, t, k);
    BlocksOf(s, t, 0);
    var st := s.entries[s.own[t]].storage;
    forall p
      ensures p in Blocks(st, |st|) <==> p in s.made && s.made[p].thread == t && p !in s.freed
      ensures p in s.made ==> s.made[p].id < s.idCount
    {
      BlocksOf(s, t, p);
    }
    hide TableOk, Blocks;
    forall u | u in s.own && u != t
      ensures s.own[u] != s.own[t]
    {
      OwnerEntry(s, u);
      OwnerEntry(s, t);
    }
    var g := TakenDown(s, t, k);
    forall f | f in g.entries
      ensures EntryOk(g, map[], {}, f)
    {
      KeptEntry(s, g, t, f);
    }
    hide EntriesOk, EntryOk;
    forall p | p in g.made
      ensures BlockOk(g, p)
    {
      KeptBlock(s, t, k, p);
    }
  }

  lemma {:induction false} KeptBlock(s: State, t: nat, k: nat, p: nat)
    requires Working(s, map[], {}) && t in s.own && p in s.made && s.own[t] in s.entries
    requires k < |s.chains[Hash(t, |s.chains|)]|
    requires var st := s.entries[s.own[t]].storage;
      forall q :: (q in Blocks(st, |st|) <==> q in s.made && s.made[q].thread == t && q !in s.freed)
                  && (q in s.made ==> s.made[q].id < s.idCount)
    requires forall u :: u in s.own && u != t ==> s.own[u] != s.own[t]
    ensures BlockOk(TakenDown(s, t, k), p)
  {
    hide TableOk, EntriesOk, Blocks;
    assert BlockOk(s, p);
  }

  lemma {:induction false} KeptEntry(s: State, g: State, t: nat, f: nat)
    requires Working(s, map[], {}) && t in s.own && f in s.entries && f != s.own[t] && f in g.entries
      && g.entries[f] == s.entries[f]
    requires g.types == s.types && g.idCount == s.idCount && g.made == s.made
    requires forall p :: p in g.freed ==> p in s.freed || (p in s.made && s.made[p].thread == t)
    ensures EntryOk(g, map[], {}, f)
  {
    assert EntryOk(s, map[], {}, f);
    forall k | 0 <= k < |g.entries[f].storage|
      ensures SlotOk(g, f, {}, k)
    {
      assert SlotOk(s, f, {}, k);
    }
  }

  // ---------- what a step may change ----------

  // Ids and blocks are never taken back, and what was freed or destroyed stays so.
  ghost predicate Extends(s: State, g: State) {
    && s.idCount <= g.idCount && s.idCount <= |s.types| && s.idCount <= |g.types|
    && (forall j :: 0 <= j < s.idCount ==>
      g.types[j] == s.types[j].(done := g.types[j].done) && (s.types[j].done ==> g.types[j].done))
    && (forall p :: p in s.made ==> p in g.made && g.made[p] == s.made[p])
    && (forall p :: p in s.built ==> p in g.built && g.built[p] == s.built[p])
    && (forall p :: p in s.destroyed ==> p in g.destroyed && g.destroyed[p] == s.destroyed[p])
    && s.freed <= g.freed
  }

  lemma {:induction false} ExtendsOn(s: State, g: State, f: State)
    requires Extends(s, g) && Extends(g, f)
    ensures Extends(s, f)
  {
  }

  // The threads other than t have their thread-local pointers and their entries as before.
  ghost predicate OthersKeep(s: State, g: State, t: nat) {
    forall u :: u != t ==> SameThread(s, g, u)
  }

  ghost predicate SameThread(s: State, g: State, u: nat) {
    && (u in s.tls <==> u in g.tls)
    && (u in s.tls && u in g.tls ==>
          && g.tls[u] == s.tls[u]
          && (s.tls[u] in s.entries ==> s.tls[u] in g.entries && g.entries[s.tls[u]] == s.entries[s.tls[u]]))
  }

  // Thread u has cell j as before.
  ghost predicate SameCell(s: State, g: State, u: nat, j: nat) {
    u in s.tls && s.tls[u] in s.entries && j < |s.entries[s.tls[u]].storage| ==>
      && u in g.tls && g.tls[u] == s.tls[u] && s.tls[u] in g.entries
      && j < |g.entries[s.tls[u]].storage| && g.entries[s.tls[u]].storage[j] == s.entries[s.tls[u]].storage[j]
  }

  lemma {:induction false} SameCellOn(s: State, g: State, f: State, u: nat, j: nat)
    requires SameCell(s, g, u, j) && SameCell(g, f, u, j)
    ensures SameCell(s, f, u, j)
  {
  }

  // Only entry e, which belongs to t, is new, gone or changed.
  lemma {:induction false} OthersApart(s: State, g: State, t: nat, e: nat)
    requires TableOk(s.chains, s.entries, s.own, s.nextEntry) && s.tls == s.own
    requires (e in s.entries && s.entries[e].thread == t) || s.nextEntry <= e
    requires forall u :: u != t ==> (u in s.tls <==> u in g.tls) && (u in s.tls ==> g.tls[u] == s.tls[u])
    requires forall d :: d in s.entries && d != e ==> d in g.entries && g.entries[d] == s.entries[d]
    ensures OthersKeep(s, g, t)
  {
    forall u | u != t
      ensures SameThread(s, g, u)
    {
      if u in s.tls { assert OwnerOk(s.chains, s.entries, s.own, u); }
    }
  }

  lemma {:induction false} OwnerEntry(s: State, t: nat)
    requires TableOk(s.chains, s.entries, s.own, s.nextEntry) && t in s.own
    ensures s.own[t] in s.entries && s.entries[s.own[t]].thread == t
  {
    assert OwnerOk(s.chains, s.entries, s.own, t);
  }

  // Every thread but u, if any, has its pointer and its cells, but for cell j, as before.
  ghost predicate Undisturbed(s: State, g: State, t: nat, j: int) {
    && (t in s.tls <==> t in g.tls) && (t in s.tls && t in g.tls ==> g.tls[t] == s.tls[t])
    && forall k: nat :: k != j ==> SameCell(s, g, t, k)
  }

  lemma {:induction false} OthersUndisturbed(s: State, g: State, u: nat, t: nat, j: int)
    requires OthersKeep(s, g, u) && t != u
    ensures Undisturbed(s, g, t, j)
  {
    assert SameThread(s, g, t);
  }

  // Cells were added, or cell j was changed.
  lemma {:induction false} CellsUndisturbed(s: State, g: State, t: nat, j: int)
    requires g.tls == s.tls
    requires forall e :: e in s.entries ==> e in g.entries && |s.entries[e].storage| <= |g.entries[e].storage|
    requires forall e, k ::
      (&& e in s.entries && e in g.entries && 0 <= k < |s.entries[e].storage| <= |g.entries[e].storage|
       && k != j) ==> g.entries[e].storage[k] == s.entries[e].storage[k]
    ensures Undisturbed(s, g, t, j)
  {
  }

  lemma {:induction false} UndisturbedSelf(s: State, t: nat, j: int)
    ensures Undisturbed(s, s, t, j)
  {
  }

  lemma {:induction false} FillingEntry(s: State, g: State, e: nat)
    requires Filling(s, g, e)
    ensures g.tls == s.tls && forall d :: d in s.entries && d != e ==> d in g.entries && g.entries[d] == s.entries[d]
  {
  }

  // Only one entry, and the blocks made for it, differ.
  ghost predicate Filling(s: State, g: State, e: nat) {
    && e in s.entries && e in g.entries
    && g.entries == s.entries[e := s.entries[e].(storage := g.entries[e].storage, count := g.entries[e].count)]
    && s.entries[e].storage <= g.entries[e].storage
    && g == s.(entries := g.entries, nextBlock := g.nextBlock, made := g.made, built := g.built)
    && Extends(s, g)
  }

  lemma {:induction false} FillingSelf(s: State, want: map<nat, nat>, e: nat)
    requires Working(s, want, {}) && e in s.entries
    ensures Filling(s, s, e)
  {
    hide TableOk, EntriesOk, BlocksOk;
  }

  lemma {:induction false} HasChains(s: State)
    requires TableOk(s.chains, s.entries, s.own, s.nextEntry)
    ensures 0 < |s.chains|
  {
  }

  lemma {:induction false} OneMore(e: nat, i: nat, j: nat)
    ensures map[e := i][e := j] == map[e := j] && map[e := i] - {e} == map[]
  {
  }

  lemma {:induction false} SameEntry(s: State, e: nat)
    requires e in s.entries && s.entries[e].count == s.idCount
    ensures s.entries[e := s.entries[e].(count := s.idCount)] == s.entries
  {
  }

  lemma {:induction false} EntryExtends(s: State, g: State)
    requires s.idCount <= |s.types|
    requires g == s.(chains := g.chains, entries := g.entries, own := g.own, tls := g.tls, nextEntry := g.nextEntry)
    ensures Extends(s, g)
  {
  }

  lemma {:induction false} FillingNull(s: State, g: State, f: State, want: map<nat, nat>, e: nat, j: nat)
    requires Filling(s, g, e) && Working(g, want, {}) && Fillable(g, want, e, j) && g.types[j].done
    requires f == g.(entries := Appended(g, e, 0))
    ensures Working(f, want[e := j + 1], {}) && Filling(s, f, e)
  {
    AddNull(g, f, want, e, j);
    hide Working;
  }

  lemma {:induction false} FillingBlock(s: State, g: State, f: State, want: map<nat, nat>, e: nat, j: nat)
    requires Filling(s, g, e) && Working(g, want, {}) && Fillable(g, want, e, j) && !g.types[j].done
    requires Made(g, f.(entries := g.entries), g.entries[e].thread, j) && f.entries == Appended(g, e, g.nextBlock)
    ensures Working(f, want[e := j + 1], {}) && Filling(s, f, e)
  {
    AddBlock(g, f, want, e, j);
    assert g.nextBlock !in g.made && g.nextBlock !in g.built;
    hide Working;
  }

  // ---------- walking the table ----------

  // Entry e comes at or behind member k of chain i.
  ghost predicate Later(s: State, e: nat, i: nat, k: nat)
    requires 0 < |s.chains| && e in s.entries && i < |s.chains| ==> k <= |s.chains[i]|
  {
    e in s.entries && 0 < |s.chains| &&
    (Hash(s.entries[e].thread, |s.chains|) > i || (Hash(s.entries[e].thread, |s.chains|) == i
      && e !in s.chains[i][..k]))
  }

  // Past the last member of a chain comes the next chain.
  lemma {:induction false} NextChain(s: State, e: nat, i: nat)
    requires TableOk(s.chains, s.entries, s.own, s.nextEntry) && i < |s.chains| && e in s.entries
    ensures Later(s, e, i, |s.chains[i]|) <==> Later(s, e, i + 1, 0)
  {
    assert OwnerOk(s.chains, s.entries, s.own, s.entries[e].thread);
    assert s.chains[i][..|s.chains[i]|] == s.chains[i];
    assert i + 1 < |s.chains| ==> s.chains[i + 1][..0] == [];
  }

  // The next member is the only entry that is passed.
  lemma {:induction false} NextMember(s: State, e: nat, i: nat, k: nat)
    requires TableOk(s.chains, s.entries, s.own, s.nextEntry) && i < |s.chains| && k < |s.chains[i]| && e in s.entries
    ensures s.chains[i][k] in s.entries && Later(s, s.chains[i][k], i, k)
    ensures Later(s, e, i, k + 1) <==> Later(s, e, i, k) && e != s.chains[i][k]
  {
    assert ChainOk(s.chains, s.entries, s.own, i);
    assert MemberOk(s.chains, s.entries, s.own, i, k);
    assert s.chains[i][..k + 1] == s.chains[i][..k] + [s.chains[i][k]];
  }

  // Entries have grown, and blocks were made for them; nothing else has changed.
  ghost predicate Growing(s: State, g: State) {
    && g == s.(entries := g.entries, nextBlock := g.nextBlock, made := g.made, built := g.built)
    && (forall e :: e in s.entries <==> e in g.entries)
    && (forall e :: e in s.entries && e in g.entries ==>
      g.entries[e].thread == s.entries[e].thread && s.entries[e].storage <= g.entries[e].storage)
    && Extends(s, g)
  }

  lemma {:induction false} GrowingSelf(s: State, want: map<nat, nat>)
    requires Working(s, want, {})
    ensures Growing(s, s)
  {
    hide TableOk, EntriesOk, BlocksOk;
  }

  lemma {:induction false} GrowingOn(s: State, g: State, f: State, e: nat)
    requires Growing(s, g) && Filling(g, f, e)
    ensures Growing(s, f)
  {
    ExtendsOn(s, g, f);
    hide Extends;
  }

  // The entries behind the place the walk has reached lack the slot of the newest id.
  ghost predicate Todo(s: State, want: map<nat, nat>, i: nat, k: nat)
    requires i < |s.chains| ==> k <= |s.chains[i]|
  {
    && (forall e :: e in want ==> e in s.entries)
    && (forall e :: e in s.entries ==>
          && (e in want <==> Later(s, e, i, k))
          && (e in want ==> 0 < s.idCount && want[e] == s.idCount - 1 == s.entries[e].count))
  }

  lemma {:induction false} TodoStart(s: State, g: State)
    requires Working(s, map[], {}) && g.entries == s.entries && g.chains == s.chains && g.idCount == s.idCount + 1
    ensures 0 < |g.chains| && Todo(g, Behind(s), 0, 0)
  {
    hide TableOk, BlocksOk;
    assert 0 < |g.chains| by { HasChains(s); }
    forall e | e in g.entries
      ensures Later(g, e, 0, 0) && s.idCount == g.entries[e].count
    {
      assert EntryOk(s, map[], {}, e);
    }
  }

  lemma {:induction false} TodoMember(s: State, want: map<nat, nat>, i: nat, k: nat)
    requires TableOk(s.chains, s.entries, s.own, s.nextEntry) && i < |s.chains| && k < |s.chains[i]|
      && Todo(s, want, i, k)
    ensures var e := s.chains[i][k];
      && e in s.entries && e in want && 0 < s.idCount
      && want[e] == s.idCount - 1 == s.entries[e].count
  {
    hide TableOk;
    MemberOf(s, i, k);
    NextMember(s, s.chains[i][k], i, k);
  }

  lemma {:induction false} MemberOf(s: State, i: nat, k: nat)
    requires TableOk(s.chains, s.entries, s.own, s.nextEntry) && i < |s.chains| && k < |s.chains[i]|
    ensures s.chains[i][k] in s.entries
  {
    assert ChainOk(s.chains, s.entries, s.own, i);
    assert MemberOk(s.chains, s.entries, s.own, i, k);
  }

  lemma {:induction false} TodoNext(s: State, g: State, want: map<nat, nat>, i: nat, k: nat)
    requires TableOk(s.chains, s.entries, s.own, s.nextEntry) && i < |s.chains| && k < |s.chains[i]|
      && Todo(s, want, i, k)
    requires Filling(s, g, s.chains[i][k])
    ensures Todo(g, want - {s.chains[i][k]}, i, k + 1)
  {
    hide TableOk, Extends;
    forall e | e in g.entries
      ensures Later(g, e, i, k + 1) <==> Later(s, e, i, k) && e != s.chains[i][k]
    {
      NextMember(s, e, i, k);
    }
  }

  lemma {:induction false} TodoChain(s: State, want: map<nat, nat>, i: nat)
    requires TableOk(s.chains, s.entries, s.own, s.nextEntry) && i < |s.chains| && Todo(s, want, i, |s.chains[i]|)
    ensures Todo(s, want, i + 1, 0)
  {
    hide TableOk;
    forall e | e in s.entries
      ensures Later(s, e, i, |s.chains[i]|) <==> Later(s, e, i + 1, 0)
    {
      NextChain(s, e, i);
    }
  }

  lemma {:induction false} TodoEnd(s: State, want: map<nat, nat>)
    requires Todo(s, want, |s.chains|, 0)
    ensures want == map[]
  {
  }

  lemma {:induction false} ResizedTypes(s: State, g: State)
    requires s.idCount <= |s.types| && s.idCount <= |g.types| && g == s.(idCount := s.idCount + 1, types := g.types)
    requires forall j :: 0 <= j < s.idCount ==> g.types[j] == s.types[j]
    ensures Extends(s, g)
  {
  }

  lemma {:induction false} Without(want: map<nat, nat>, e: nat, j: nat)
    requires e in want
    ensures want[e := j] - {e} == want - {e} && want[e := want[e]] == want
      && want[e := j][e := j + 1] == want[e := j + 1]
  {
  }

  lemma {:induction false} CountSet(s: State, g: State, f: State, want: map<nat, nat>, e: nat)
    requires Filling(s, g, e) && Working(g, want, {}) && e in want && want[e] == g.idCount
    requires f == g.(entries := g.entries[e := g.entries[e].(count := g.idCount)])
    ensures Working(f, want - {e}, {}) && Filling(s, f, e)
  {
    FullEntry(g, f, want, e);
    hide Working;
  }

  // ---------- the walk of ts_free_id ----------

  // Slot j is empty in the entries the walk has passed.
  ghost predicate Passed(s: State, j: nat, holes: set<(nat, nat)>, i: nat, k: nat)
    requires i < |s.chains| ==> k <= |s.chains[i]|
  {
    && (forall e, x :: (e, x) in holes ==> x == j && e in s.entries)
    && (forall e :: e in s.entries ==> ((e, j) in holes <==> !Later(s, e, i, k)))
  }

  // Slots j were emptied, the blocks destroyed and freed; nothing else has changed.
  ghost predicate Emptying(s: State, g: State, j: nat) {
    && g == s.(entries := g.entries, destroyed := g.destroyed, freed := g.freed)
    && (forall e :: e in s.entries <==> e in g.entries)
    && (forall e :: e in s.entries && e in g.entries ==> g.entries[e] == s.entries[e].(storage := g.entries[e].storage))
    && (forall e :: e in s.entries && e in g.entries ==> SameBut(s.entries[e].storage, g.entries[e].storage, j))
    && Extends(s, g)
  }

  ghost predicate SameBut(st: seq<nat>, st': seq<nat>, j: nat) {
    |st'| == |st| && forall k :: 0 <= k < |st| && k != j ==> st'[k] == st[k]
  }

  lemma {:induction false} EmptyingSelf(s: State, j: nat)
    requires s.idCount <= |s.types|
    ensures Emptying(s, s, j)
  {
  }

  lemma {:induction false} SlotBlock(s: State, e: nat, j: nat, holes: set<(nat, nat)>)
    requires Working(s, map[], holes) && e in s.entries && j < s.idCount
    ensures |s.entries[e].storage| == s.idCount == s.entries[e].count <= |s.types|
    ensures var p := s.entries[e].storage[j]; p != 0 ==>
      p in s.made && p !in s.freed && p !in s.destroyed && s.made[p] == Slot(s.entries[e].thread, j) && !s.types[j].done
  {
    hide TableOk;
    assert EntryOk(s, map[], holes, e) && SlotOk(s, e, holes, j);
    var p := s.entries[e].storage[j];
    if p != 0 { assert BlockOk(s, p); }
  }

  lemma {:induction false} EmptyingNext(s: State, g: State, e: nat, j: nat, holes: set<(nat, nat)>)
    requires Emptying(s, g, j) && Working(g, map[], holes) && e in g.entries && j < g.idCount
      && |g.entries[e].storage| == g.idCount
    requires g.entries[e].storage[j] != 0
    ensures Emptying(s, Emptied(g, e, j), j)
  {
    SlotBlock(g, e, j, holes);
    hide Working;
    EmptiedExtends(g, e, j);
    ExtendsOn(s, g, Emptied(g, e, j));
    hide Extends;
  }

  lemma {:induction false} EmptiedExtends(s: State, e: nat, j: nat)
    requires e in s.entries && j < |s.entries[e].storage| && j < |s.types| && s.idCount <= |s.types|
      && s.entries[e].storage[j] !in s.destroyed
    ensures Extends(s, Emptied(s, e, j))
  {
  }

  lemma {:induction false} PassedStart(s: State, j: nat)
    requires 0 < |s.chains|
    ensures Passed(s, j, {}, 0, 0)
  {
  }

  lemma {:induction false} PassedNext(s: State, g: State, j: nat, holes: set<(nat, nat)>, i: nat, k: nat)
    requires TableOk(s.chains, s.entries, s.own, s.nextEntry) && i < |s.chains| && k < |s.chains[i]|
      && Passed(s, j, holes, i, k)
    requires Emptying(s, g, j)
    ensures s.chains[i][k] in s.entries && Passed(g, j, holes + {(s.chains[i][k], j)}, i, k + 1)
  {
    hide TableOk, Extends;
    MemberOf(s, i, k);
    forall e | e in g.entries
      ensures Later(g, e, i, k + 1) <==> Later(s, e, i, k) && e != s.chains[i][k]
    {
      NextMember(s, e, i, k);
    }
  }

  lemma {:induction false} PassedChain(s: State, j: nat, holes: set<(nat, nat)>, i: nat)
    requires TableOk(s.chains, s.entries, s.own, s.nextEntry) && i < |s.chains| && Passed(s, j, holes, i, |s.chains[i]|)
    ensures Passed(s, j, holes, i + 1, 0)
  {
    hide TableOk;
    forall e | e in s.entries
      ensures Later(s, e, i, |s.chains[i]|) <==> Later(s, e, i + 1, 0)
    {
      NextChain(s, e, i);
    }
  }

  // Every block of an id that is done is freed.
  lemma {:induction false} DoneIsFreed(s: State, p: nat)
    requires Ok(s) && p in s.made
    ensures s.made[p].id < s.idCount <= |s.types| && (s.types[s.made[p].id].done ==> p in s.freed)
    ensures s.made[p].thread !in s.tls ==> p in s.freed
    ensures p in s.freed ==> (s.types[s.made[p].id].dtor != 0 <==> p in s.destroyed)
  {
    hide TableOk;
    assert BlockOk(s, p);
    if p !in s.freed {
      assert EntryOk(s, map[], {}, s.own[s.made[p].thread]);
      assert SlotOk(s, s.own[s.made[p].thread], {}, s.made[p].id);
    }
  }

  lemma {:induction false} DoneExtends(s: State, j: nat)
    requires j < s.idCount <= |s.types|
    ensures Extends(s, s.(types := s.types[j := s.types[j].(done := true)]))
  {
  }

  // ---------- the loops of ts_free_thread and tsrm_shutdown ----------

  // How many of the first n slots are NULL and have a destructor.
  function NullCalls(types: seq<Type>, st: seq<nat>, n: nat): nat
    requires n <= |st| <= |types|
  {
    if n == 0 then 0 else NullCalls(types, st, n - 1) + if st[n - 1] == 0 && types[n - 1].dtor != 0 then 1 else 0
  }

  lemma {:induction false} NoNullCalls(types: seq<Type>, st: seq<nat>, n: nat)
    requires n <= |st| <= |types|
    ensures NullCalls(types, st, n) == 0 <==> forall k :: 0 <= k < n && st[k] == 0 ==> types[k].dtor == 0
  {
    if n != 0 { NoNullCalls(types, st, n - 1); }
  }

  // The slots of an entry: each holds a block made for it that is not yet freed.
  ghost predicate Stocked(s: State, st: seq<nat>, t: nat) {
    && |st| == s.idCount <= |s.types|
    && (forall k :: 0 <= k < |st| && st[k] != 0 ==>
          st[k] in s.made && s.made[st[k]] == Slot(t, k) && st[k] !in s.freed && st[k] !in s.destroyed
            && !s.types[k].done)
    && (forall k :: 0 <= k < |st| && st[k] == 0 ==> s.types[k].done)
  }

  lemma {:induction false} StockedEntry(s: State, t: nat)
    requires Working(s, map[], {}) && t in s.own
    ensures s.own[t] in s.entries && Stocked(s, s.entries[s.own[t]].storage, t)
      && s.entries[s.own[t]].count == s.idCount
  {
    BlocksOf(s, t, 0);
    var e := s.own[t];
    forall k | 0 <= k < |s.entries[e].storage|
      ensures var p := s.entries[e].storage[k];
        if p == 0 then s.types[k].done
        else p in s.made && s.made[p] == Slot(t, k) && p !in s.freed && p !in s.destroyed && !s.types[k].done
    {
      SlotBlock(s, e, k, {});
      assert EntryOk(s, map[], {}, e) && SlotOk(s, e, {}, k);
    }
  }

  lemma {:induction false} StockedBlocks(s: State, st: seq<nat>, t: nat, n: nat)
    requires Stocked(s, st, t) && n <= |st|
    ensures forall p :: p in Blocks(st, n) ==>
      p in s.made && s.made[p].id < |s.types| && s.made[p].id < n && p != 0 && p !in s.freed && p !in s.destroyed
  {
  }

  // The destructors called and the blocks freed after n slots.
  ghost function DestroyedBy(s: State, st: seq<nat>, t: nat, n: nat): map<nat, nat>
    requires Stocked(s, st, t) && n <= |st|
  {
    StockedBlocks(s, st, t, n);
    s.destroyed + Dtors(s, Blocks(st, n))
  }

  lemma {:induction false} DestroyedNone(s: State, st: seq<nat>, t: nat)
    requires Stocked(s, st, t)
    ensures DestroyedBy(s, st, t, 0) == s.destroyed && s.freed + Blocks(st, 0) == s.freed
  {
    assert Blocks(st, 0) == {};
  }

  lemma {:induction false} StockedAt(s: State, st: seq<nat>, t: nat, n: nat)
    requires Stocked(s, st, t) && n < |st| && st[n] != 0
    ensures st[n] in s.made && s.made[st[n]] == Slot(t, n) && st[n] !in s.freed && st[n] !in s.destroyed
  {
  }

  // The first loop of ts_free_thread has passed the first n slots.
  ghost predicate Destroying(s0: State, s: State, st: seq<nat>, t: nat, n: nat) {
    && Stocked(s0, st, t) && n <= |st| <= |s0.types|
    && s == s0.(destroyed := DestroyedBy(s0, st, t, n), nulls := s0.nulls + NullCalls(s0.types, st, n))
  }

  lemma {:induction false} StockedSize(s: State, st: seq<nat>, t: nat)
    requires Stocked(s, st, t)
    ensures |st| == s.idCount <= |s.types|
  {
  }

  lemma {:induction false} DestroyingStart(s: State, st: seq<nat>, t: nat)
    requires Stocked(s, st, t) && |st| <= |s.types|
    ensures Destroying(s, s, st, t, 0)
  {
    hide Blocks, Dtors, DestroyedBy, Stocked;
    DestroyedNone(s, st, t);
  }

  lemma {:induction false} DestroyingIs(s0: State, s: State, st: seq<nat>, t: nat, n: nat)
    requires Destroying(s0, s, st, t, n)
    ensures n <= |st| <= |s0.types| && Stocked(s0, st, t) && s.entries == s0.entries && s.types == s0.types
    ensures s == s0.(destroyed := DestroyedBy(s0, st, t, n), nulls := s0.nulls + NullCalls(s0.types, st, n))
  {
    hide Stocked, DestroyedBy, NullCalls;
  }

  // The next slot: what the destructor may get, and where the loop is then.
  lemma {:induction false} DestroyingNext(s0: State, s: State, st: seq<nat>, t: nat, n: nat)
    requires Destroying(s0, s, st, t, n) && n < |st|
    ensures st[n] == 0 || (st[n] in s.made && st[n] !in s.freed && st[n] !in s.destroyed)
    ensures Destroying(s0, if s.types[n].dtor == 0 then s else if st[n] == 0 then s.(nulls := s.nulls + 1)
                           else s.(destroyed := s.destroyed[st[n] := s.types[n].dtor]), st, t, n + 1)
  {
    hide Blocks, Dtors, DestroyedBy, Stocked;
    DestroyedNext(s0, st, t, n);
    if st[n] != 0 { StockedAt(s0, st, t, n); }
  }

  lemma {:induction false} DtorsNext(s: State, ps: set<nat>, q: nat)
    requires forall p :: p in ps ==> p in s.made && s.made[p].id < |s.types|
    requires q in s.made && s.made[q].id < |s.types| && q !in ps
    ensures var f := s.types[s.made[q].id].dtor;
      s.destroyed + Dtors(s, ps + {q}) == if f != 0 then (s.destroyed + Dtors(s, ps))[q := f]
        else s.destroyed + Dtors(s, ps)
    ensures q !in s.destroyed ==> q !in s.destroyed + Dtors(s, ps)
  {
    var f := s.types[s.made[q].id].dtor;
    assert Dtors(s, ps + {q}) == if f != 0 then Dtors(s, ps)[q := f] else Dtors(s, ps);
  }

  lemma {:induction false} DestroyedNext(s: State, st: seq<nat>, t: nat, n: nat)
    requires Stocked(s, st, t) && n < |st|
    ensures st[n] !in DestroyedBy(s, st, t, n) || st[n] == 0
    ensures st[n] !in s.freed + Blocks(st, n) || st[n] == 0
    ensures DestroyedBy(s, st, t, n + 1) == if st[n] != 0
      && s.types[n].dtor != 0 then DestroyedBy(s, st, t, n)[st[n] := s.types[n].dtor] else DestroyedBy(s, st, t, n)
    ensures s.freed + Blocks(st, n + 1) == s.freed + Blocks(st, n) + if st[n] != 0 then {st[n]} else {}
  {
    hide Blocks;
    StockedBlocks(s, st, t, n);
    StockedBlocks(s, st, t, n + 1);
    BlocksNext(st, n);
    if st[n] != 0 {
      hide Dtors, Stocked;
      assert s.made[st[n]].id == n by { StockedAt(s, st, t, n); }
      DtorsNext(s, Blocks(st, n), st[n]);
    } else {
      assert Blocks(st, n) + {} == Blocks(st, n);
    }
  }

  // The state after the entry of t is gone, whatever the thread-local pointers are.
  lemma {:induction false} Down(s: State, g: State, t: nat, k: nat)
    requires Working(s, map[], {}) && t in s.own && s.own[t] in s.entries
    requires k < |s.chains[Hash(t, |s.chains|)]| && s.chains[Hash(t, |s.chains|)][k] == s.own[t]
    requires Stocked(s, s.entries[s.own[t]].storage, t)
    requires var h, st := Hash(t, |s.chains|), s.entries[s.own[t]].storage;
      g == s.(chains := s.chains[h := Removed(s.chains[h], k)], entries := s.entries - {s.own[t]}, own := s.own - {t},
              freed := s.freed + Blocks(st, |st|), destroyed := DestroyedBy(s, st, t, |st|), tls := g.tls,
                nulls := g.nulls)
    ensures Working(g, map[], {}) && Extends(s, g)
  {
    TakeDown(s, t, k);
    var st := s.entries[s.own[t]].storage;
    StockedBlocks(s, st, t, |st|);
    var f := TakenDown(s, t, k);
    hide TableOk, Blocks;
    Unseen(f, g);
    assert s.idCount <= |s.types|;
  }

  // Thread-local pointers and NULL calls are not part of the table.
  lemma {:induction false} Unseen(s: State, g: State)
    requires Working(s, map[], {}) && g == s.(tls := g.tls, nulls := g.nulls)
    ensures Working(g, map[], {})
  {
    hide TableOk;
    forall e | e in g.entries
      ensures EntryOk(g, map[], {}, e)
    {
      assert EntryOk(s, map[], {}, e);
      forall k | 0 <= k < |g.entries[e].storage|
        ensures SlotOk(g, e, {}, k)
      {
        assert SlotOk(s, e, {}, k);
      }
    }
    forall p | p in g.made
      ensures BlockOk(g, p)
    {
      assert BlockOk(s, p);
    }
  }

  // With all chains empty, every block is freed, and destroyed if its type has a destructor.
  ghost predicate AllGone(s: State) {
    && s.entries == map[]
    && (forall p :: p in s.made ==> p in s.freed && s.made[p].id < |s.types|)
    && (forall p :: p in s.made && s.made[p].id < |s.types| ==>
          && (p in s.destroyed <==> s.types[s.made[p].id].dtor != 0)
          && (p in s.destroyed ==> s.destroyed[p] == s.types[s.made[p].id].dtor))
  }

  lemma {:induction false} InChain(s: State, t: nat)
    requires TableOk(s.chains, s.entries, s.own, s.nextEntry) && t in s.own
    ensures s.chains[Hash(t, |s.chains|)] != []
  {
    assert OwnerOk(s.chains, s.entries, s.own, t);
  }

  lemma {:induction false} EmptyTable(s: State)
    requires Working(s, map[], {}) && forall h :: 0 <= h < |s.chains| ==> s.chains[h] == []
    ensures AllGone(s)
  {
    forall t | t in s.own
      ensures s.chains[Hash(t, |s.chains|)] != []
    {
      InChain(s, t);
    }
    assert s.own == map[];
    forall p | p in s.made
      ensures p in s.freed && s.made[p].id < |s.types|
    {
      assert BlockOk(s, p);
    }
    forall p | p in s.made && s.made[p].id < |s.types|
      ensures p in s.destroyed <==> s.types[s.made[p].id].dtor != 0
      ensures p in s.destroyed ==> s.destroyed[p] == s.types[s.made[p].id].dtor
    {
      assert BlockOk(s, p);
    }
  }

  lemma {:induction false} SelfExtends(s: State)
    requires Ok(s)
    ensures Extends(s, s)
  {
    hide TableOk, EntriesOk, BlocksOk;
  }

  lemma {:induction false} AllPassed(s: State, j: nat, holes: set<(nat, nat)>, i: nat)
    requires Passed(s, j, holes, i, 0) && i == |s.chains|
    ensures (forall e, k :: (e, k) in holes ==> k == j) && forall e :: e in s.entries ==> (e, j) in holes
  {
  }

  lemma {:induction false} FirstOf(s: State, h: nat)
    requires Working(s, map[], {}) && h < |s.chains| && s.chains[h] != []
    ensures var e := s.chains[h][0];
      && e in s.entries
      && var t := s.entries[e].thread; t in s.own && s.own[t] == e && Hash(t, |s.chains|) == h
  {
    assert ChainOk(s.chains, s.entries, s.own, h);
    assert MemberOk(s.chains, s.entries, s.own, h, 0);
  }
}
