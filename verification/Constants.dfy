// The table of constants: registration under a normalized key, and lookup.
module Constants {
  import opened Wrappers
  import opened Ascii

  datatype Constant = Constant(name: string, value: int, caseSensitive: bool)

  const SLASH: char := '\\'
  const PSEUDO: string := "__COMPILER_HALT_OFFSET__"

  // The position behind the last backslash, 0 if there is none.
  function BaseStart(s: string): (i: nat)
    ensures i <= |s| && (i > 0 ==> s[i - 1] == SLASH) && forall k :: i <= k < |s| ==> s[k] != SLASH
  {
    if s == "" then 0
    else if s[|s| - 1] == SLASH then |s|
    else BaseStart(s[..|s| - 1])
  }

  // The namespace in lower case, the name in it as it is.
  function NamespaceLower(s: string): (r: string)
    ensures |r| == |s|
  {
    Lower(s[..BaseStart(s)]) + s[BaseStart(s)..]
  }

  // The key of a constant.
  function Key(c: Constant): string {
    if c.caseSensitive then NamespaceLower(c.name) else Lower(c.name)
  }

  lemma {:induction false} LowerAgain(s: string)
    ensures Lower(Lower(s)) == Lower(s) && Lower(NamespaceLower(s)) == Lower(s)
  {
    hide LowerChar, Lower, NamespaceLower;
    LowerMembers(s);
    LowerSame(s, Lower(s));
    LowerSame(s, NamespaceLower(s));
  }

  // Both ways of lowering keep each character up to case.
  lemma {:induction false} LowerMembers(s: string)
    ensures forall i :: 0 <= i < |s| ==> LowerChar(Lower(s)[i]) == LowerChar(s[i])
    ensures forall i :: 0 <= i < |s| ==> LowerChar(NamespaceLower(s)[i]) == LowerChar(s[i])
  {
    hide LowerChar;
    forall i | 0 <= i < |s|
      ensures LowerChar(Lower(s)[i]) == LowerChar(NamespaceLower(s)[i]) == LowerChar(s[i])
    {
      LowerCharAgain(s[i]);
    }
  }

  lemma {:induction false} BaseIsLast(s: string, i: nat)
    requires i <= |s| && (i > 0 ==> s[i - 1] == SLASH) && forall k :: i <= k < |s| ==> s[k] != SLASH
    ensures BaseStart(s) == i
  {
  }

  type Table = map<string, Constant>

  // Every constant stands under its key.
  ghost predicate TableOk(t: Table) {
    forall k :: k in t ==> Key(t[k]) == k
  }

  // ---------- registration ----------

  // zend_register_constant: the table afterwards; a key that is taken, and the pseudo constant, are
  // refused.
  function Registered(t: Table, c: Constant): Table {
    if Key(c) == PSEUDO || Key(c) in t then t else t[Key(c) := c]
  }

  // After some registrations.
  function TableOf(cs: seq<Constant>): Table {
    if cs == [] then map[] else Registered(TableOf(cs[..|cs| - 1]), cs[|cs| - 1])
  }

  // Constant i is the first with its key.
  ghost predicate First(cs: seq<Constant>, i: nat, k: string) {
    i < |cs| && Key(cs[i]) == k && forall j :: 0 <= j < i ==> Key(cs[j]) != k
  }

  // The first definition of a key wins and never changes.
  lemma {:induction false} FirstWins(cs: seq<Constant>, k: string)
    ensures TableOk(TableOf(cs)) && "__COMPILER_HALT_OFFSET__" !in TableOf(cs)
    ensures k in TableOf(cs) ==> exists i: nat :: First(cs, i, k) && TableOf(cs)[k] == cs[i]
    ensures forall i: nat :: First(cs, i, k) && k != PSEUDO ==> k in TableOf(cs) && TableOf(cs)[k] == cs[i]
  {
    hide Key;
    if cs != [] {
      var n := |cs| - 1;
      var ds := cs[..n];
      FirstWins(ds, k);
      if k in TableOf(ds) {
        var i: nat :| First(ds, i, k) && TableOf(ds)[k] == ds[i];
        assert First(cs, i, k);
        forall j: nat | First(cs, j, k)
          ensures j == i
        {
          OneFirst(cs, i, j, k);
        }
      } else if k != PSEUDO {
        NoneBefore(ds, k);
        if Key(cs[n]) == k { assert First(cs, n, k); }
        forall j: nat | First(cs, j, k)
          ensures j == n
        {
        }
      }
    }
  }

  lemma {:induction false} OneFirst(cs: seq<Constant>, i: nat, j: nat, k: string)
    requires First(cs, i, k) && First(cs, j, k)
    ensures i == j
  {
  }

  // A key that is not in the table was not registered.
  lemma {:induction false} NoneBefore(cs: seq<Constant>, k: string)
    requires k !in TableOf(cs) && k != PSEUDO
    ensures forall j :: 0 <= j < |cs| ==> Key(cs[j]) != k
  {
    if cs != [] {
      NoneBefore(cs[..|cs| - 1], k);
      forall j | 0 <= j < |cs|
        ensures Key(cs[j]) != k
      {
        if j < |cs| - 1 { assert cs[j] == cs[..|cs| - 1][j]; }
      }
    }
  }

  // ---------- lookup ----------

  // The constant a name means: a case-sensitive one whose key is the name with its namespace in lower
  // case; otherwise a case-insensitive one whose key is the name in lower case.
  ghost function Meaning(t: Table, name: string): Option<Constant> {
    var a, b := NamespaceLower(name), Lower(name);
    if a in t && t[a].caseSensitive then Some(t[a])
    else if b in t && !t[b].caseSensitive then Some(t[b])
    else None
  }

  // What zend_get_constant looks up: the name as it is, otherwise a case-insensitive constant whose
  // key is the name in lower case.
  function Plain(t: Table, name: string): Option<Constant> {
    if name in t then Some(t[name])
    else if Lower(name) in t && !t[Lower(name)].caseSensitive then Some(t[Lower(name)])
    else None
  }

  // It finds what the name means if and only if the namespace is in lower case already or the name
  // means no case-sensitive constant.
  lemma {:induction false} PlainIsMeaning(t: Table, name: string)
    requires TableOk(t)
    ensures var a := NamespaceLower(name);
      Plain(t, name) == Meaning(t, name) <==> a == name || !(a in t && t[a].caseSensitive)
  {
    var a := NamespaceLower(name);
    hide Lower, NamespaceLower, Key;
    if a == name {
      if a in t { KeyIsLower(t, name); }
    } else if name in t {
      KeysAreLower(t[name]);
    }
  }

  // A key has its namespace in lower case.
  lemma {:induction false} KeysAreLower(c: Constant)
    ensures NamespaceLower(Key(c)) == Key(c)
  {
    hide LowerChar;
    LowerMembers(c.name);
    SameBase(c.name, Key(c));
    forall i | 0 <= i < BaseStart(c.name)
      ensures LowerChar(Key(c)[i]) == Key(c)[i]
    {
      LowerCharAgain(c.name[i]);
    }
  }

  lemma {:induction false} SameBase(s: string, r: string)
    requires |r| == |s| && forall i :: 0 <= i < |s| ==> LowerChar(r[i]) == LowerChar(s[i])
    ensures BaseStart(r) == BaseStart(s)
  {
    hide LowerChar;
    forall i | 0 <= i < |s|
      ensures r[i] == SLASH <==> s[i] == SLASH
    {
      LowerCharAgain(r[i]);
      LowerCharAgain(s[i]);
    }
    BaseIsLast(r, BaseStart(s));
  }

  // A constant that zend_get_constant does not find by the name it was defined with.
  lemma {:induction false} PlainMisses(value: int)
    ensures var c := Constant("A\\B", value, true);
      Plain(TableOf([c]), c.name) == None && Meaning(TableOf([c]), c.name) == Some(c)
  {
    var c := Constant("A\\B", value, true);
    BaseIsLast(c.name, 2);
    assert Key(c) == "a\\B" by { assert c.name[2..] == "B" && Lower(c.name[..2]) == "a\\"; }
    assert [c][..0] == [];
    assert TableOf([c]) == map["a\\B" := c];
    assert Lower(c.name)[2] == 'b';
    PlainIsMeaning(TableOf([c]), c.name);
  }

  class ConstantTable {
    var table: Table

    constructor ()
      ensures TableOk(table) && table == map[]
    {
      table := map[];
    }

    // zend_register_constant
    method Register(c: Constant) returns (ok: bool)
      requires TableOk(table)
      modifies this
      ensures TableOk(table) && table == Registered(old(table), c)
      ensures ok <==> table != old(table)
    {
      var name := if c.caseSensitive then NamespaceLower(c.name) else Lower(c.name);
      if name == PSEUDO || name in table {
        return false;
      }
      table := table[name := c];
      return true;
    }

    // zend_get_constant; the special constants are not modelled
    method Get(name: string) returns (r: Option<Constant>)
      requires TableOk(table)
      ensures r == Plain(table, name)
      ensures var a := NamespaceLower(name);
        r == Meaning(table, name) <==> a == name || !(a in table && table[a].caseSensitive)
    {
      PlainIsMeaning(table, name);
      if name !in table {
        var lookup := Lower(name);
        if lookup in table {
          return if table[lookup].caseSensitive then None else Some(table[lookup]);
        }
        return None;
      }
      return Some(table[name]);
    }

    // The part of zend_get_constant_ex for names without a class; a leading backslash is skipped. An
    // unqualified name falls back to the name without the namespace.
    method GetEx(query: string, unqualified: bool) returns (r: Option<Constant>)
      requires TableOk(table) && !NamesClass(Stripped(query))
      ensures r == MeaningEx(table, Stripped(query), unqualified)
      ensures query != "" && query[0] == '\\' ==> Finds(table, query[1..], unqualified, r)
      ensures query == "" || query[0] != '\\' ==> Finds(table, query, unqualified, r)
    {
      MeaningExFinds(table, Stripped(query), unqualified);
      hide Lower, BaseStart, Key, TableOk, Meaning;
      var name := Stripped(query);
      var start := BaseStart(name);
      NameParts(name);
      if start == 0 {
        PlainName(name);
        r := Get(name);
        return;
      }
      var key := Lower(name[..start]) + name[start..];
      FoundEx(table, name);
      if key in table {
        return Some(table[key]);
      }
      key := Lower(name[..start]) + Lower(name[start..]);
      if key in table && !table[key].caseSensitive {
        return Some(table[key]);
      }
      if unqualified {
        PlainName(name[start..]);
        r := Get(name[start..]);
        return;
      }
      return None;
    }
  }

  // The last colon follows a colon: the name of a class constant.
  ghost predicate NamesClass(name: string) {
    exists i :: 0 <= i < |name| && LastColons(name, i)
  }

  ghost predicate LastColons(name: string, i: nat)
    requires i < |name|
  {
    0 < i && name[i] == ':' && name[i - 1] == ':' && ':' !in name[i + 1..]
  }

  function Stripped(query: string): string {
    if query != "" && query[0] == SLASH then query[1..] else query
  }

  ghost function MeaningEx(t: Table, name: string, unqualified: bool): Option<Constant> {
    if SLASH in name && unqualified && Meaning(t, name).None? then Meaning(t, name[BaseStart(name)..])
      else Meaning(t, name)
  }

  lemma {:induction false} NameParts(name: string)
    ensures BaseStart(name) == 0 <==> SLASH !in name
    ensures SLASH !in name[BaseStart(name)..]
    ensures Lower(name[..BaseStart(name)]) + Lower(name[BaseStart(name)..]) == Lower(name)
  {
    BaseHasNone(name);
    LowerParts(name, BaseStart(name));
    if BaseStart(name) != 0 { assert name[BaseStart(name) - 1] == SLASH; }
  }

  lemma {:induction false} FoundEx(t: Table, name: string)
    requires TableOk(t)
    ensures var a, b := NamespaceLower(name), Lower(name);
      Meaning(t, name) == if a in t then Some(t[a]) else if b in t && !t[b].caseSensitive then Some(t[b]) else None
  {
    if NamespaceLower(name) in t { KeyIsLower(t, name); }
  }

  lemma {:induction false} LowerParts(name: string, i: nat)
    requires i <= |name|
    ensures Lower(name[..i]) + Lower(name[i..]) == Lower(name)
  {
  }

  lemma {:induction false} BaseHasNone(name: string)
    ensures SLASH !in name[BaseStart(name)..]
  {
  }

  lemma {:induction false} PlainName(name: string)
    requires SLASH !in name
    ensures NamespaceLower(name) == name && BaseStart(name) == 0
  {
    BaseIsLast(name, 0);
    assert name[..0] == "" && name[0..] == name;
  }

  // A case-insensitive constant found under the first key is the one under the second.
  lemma {:induction false} KeyIsLower(t: Table, name: string)
    requires TableOk(t) && NamespaceLower(name) in t
    ensures !t[NamespaceLower(name)].caseSensitive ==> NamespaceLower(name) == Lower(name)
  {
    var k := NamespaceLower(name);
    if !t[k].caseSensitive {
      LowerAgain(t[k].name);
      LowerAgain(name);
    }
  }

  // ---------- lookup in terms of the names as they were defined ----------

  // Equal up to case.
  ghost predicate SameLetters(s: string, r: string) {
    |s| == |r| && forall i :: 0 <= i < |s| ==> LowerChar(s[i]) == LowerChar(r[i])
  }

  // Equal up to the case of what is in front of the last backslash.
  ghost predicate SameName(s: string, r: string) {
    SameLetters(s, r) && forall i :: 0 <= i < |s| ==> s[i] == r[i] || '\\' in s[i..]
  }

  lemma {:induction false} SameLettersIsLower(s: string, r: string)
    ensures SameLetters(s, r) <==> Lower(s) == Lower(r)
  {
    hide LowerChar;
    if SameLetters(s, r) { LowerSame(s, r); }
    if Lower(s) == Lower(r) {
      forall i | 0 <= i < |s|
        ensures LowerChar(s[i]) == LowerChar(r[i])
      {
        assert Lower(s)[i] == Lower(r)[i];
      }
    }
  }

  lemma {:induction false} InNamespace(s: string, i: nat)
    requires i < |s|
    ensures '\\' in s[i..] <==> i < BaseStart(s)
  {
    if i < BaseStart(s) {
      assert s[i..][BaseStart(s) - 1 - i] == SLASH;
    }
  }

  // The characters of a name with its namespace in lower case.
  lemma {:induction false} NamespaceLowerAt(s: string, i: nat)
    requires i < |s|
    ensures NamespaceLower(s)[i] == if '\\' in s[i..] then LowerChar(s[i]) else s[i]
  {
    InNamespace(s, i);
  }

  lemma {:induction false} SameNameIsKey(s: string, r: string)
    ensures SameName(s, r) <==> NamespaceLower(s) == NamespaceLower(r)
  {
    hide LowerChar;
    if NamespaceLower(s) == NamespaceLower(r) {
      LowerAgain(s);
      LowerAgain(r);
      SameLettersIsLower(s, r);
    }
    if SameLetters(s, r) { SameNameOf(s, r); }
  }

  lemma {:induction false} SameNameOf(s: string, r: string)
    requires SameLetters(s, r)
    ensures SameName(s, r) <==> NamespaceLower(s) == NamespaceLower(r)
  {
    hide LowerChar, NamespaceLower;
    SameBase(s, r);
    forall i | 0 <= i < |s|
      ensures (s[i] == r[i] || '\\' in s[i..]) <==> NamespaceLower(s)[i] == NamespaceLower(r)[i]
    {
      NamespaceLowerAt(s, i);
      NamespaceLowerAt(r, i);
      InNamespace(s, i);
      InNamespace(r, i);
    }
  }

  // A case-sensitive constant of the table has this name.
  ghost predicate Sensitive(t: Table, name: string) {
    exists k :: k in t && t[k].caseSensitive && SameName(t[k].name, name)
  }

  // c, which is in the table, is meant by the name: it is case-sensitive and has that name, or it is
  // not, has that name up to case, and no case-sensitive constant has it.
  ghost predicate Named(t: Table, name: string, c: Constant) {
    && Key(c) in t && t[Key(c)] == c
    && if c.caseSensitive then SameName(c.name, name) else SameLetters(c.name, name) && !Sensitive(t, name)
  }

  lemma {:induction false} SensitiveKey(t: Table, name: string)
    requires TableOk(t)
    ensures Sensitive(t, name) <==> NamespaceLower(name) in t && t[NamespaceLower(name)].caseSensitive
  {
    hide NamespaceLower, SameName, Lower;
    var a := NamespaceLower(name);
    if a in t && t[a].caseSensitive { SameNameIsKey(t[a].name, name); }
    if Sensitive(t, name) {
      var k :| k in t && t[k].caseSensitive && SameName(t[k].name, name);
      SameNameIsKey(t[k].name, name);
    }
  }

  // A name means the one constant of the table that is so named.
  lemma {:induction false} MeaningIsNamed(t: Table, name: string, c: Constant)
    requires TableOk(t)
    ensures Meaning(t, name) == Some(c) <==> Named(t, name, c)
  {
    hide NamespaceLower, SameName, Lower, SameLetters, Sensitive;
    MeaningIsExact(t, name, c);
    SensitiveKey(t, name);
    SameNameIsKey(c.name, name);
    SameLettersIsLower(c.name, name);
  }

  // What zend_get_constant_ex gives for a name without a class: the constant that is so named; for an
  // unqualified name, if there is none, the constant that is named like the part behind the last
  // backslash.
  ghost predicate Finds(t: Table, name: string, unqualified: bool, r: Option<Constant>) {
    && (forall c :: Named(t, name, c) ==> r == Some(c))
    && (r.Some? ==>
          || Named(t, name, r.value)
          || (unqualified && '\\' in name && (forall c :: !Named(t, name, c)) && Named(t, Behind(name), r.value)))
    && (r.None? && unqualified && '\\' in name ==> forall c :: !Named(t, Behind(name), c))
  }

  // The part of a name behind its last backslash.
  ghost function Behind(name: string): string {
    if '\\' in name then Behind(name[1..]) else name
  }

  lemma {:induction false} BehindIsBase(name: string)
    ensures Behind(name) == name[BaseStart(name)..]
    decreases |name|
  {
    NameParts(name);
    if SLASH in name {
      BehindIsBase(name[1..]);
      TailBase(name);
      assert name[1..][BaseStart(name) - 1..] == name[BaseStart(name)..];
    }
  }

  lemma {:induction false} TailBase(name: string)
    requires SLASH in name
    ensures 0 < BaseStart(name) && BaseStart(name[1..]) == BaseStart(name) - 1
  {
    NameParts(name);
    BaseIsLast(name[1..], BaseStart(name) - 1);
  }

  lemma {:induction false} MeaningExFinds(t: Table, name: string, unqualified: bool)
    requires TableOk(t)
    ensures Finds(t, name, unqualified, MeaningEx(t, name, unqualified))
  {
    hide Meaning, Named, Behind, TableOk;
    BehindIsBase(name);
    forall c
      ensures Meaning(t, name) == Some(c) <==> Named(t, name, c)
    {
      MeaningIsNamed(t, name, c);
    }
    forall c
      ensures Meaning(t, Behind(name)) == Some(c) <==> Named(t, Behind(name), c)
    {
      MeaningIsNamed(t, Behind(name), c);
    }
  }

  // With the one constant B, a query for it in a namespace finds it if and only if it is unqualified.
  method QueryInNamespace(value: int, unqualified: bool) returns (r: Option<Constant>)
    ensures r == if unqualified then Some(Constant("B", value, true)) else None
  {
    var b := Constant("B", value, true);
    var table := new ConstantTable();
    PlainName("B");
    var ok := table.Register(b);
    NotAClass();
    r := table.GetEx("x\\B", unqualified);
    OnlyB(b, unqualified);
  }

  lemma {:induction false} NotAClass()
    ensures !NamesClass(Stripped("x\\B"))
  {
  }

  lemma {:induction false} OnlyB(b: Constant, unqualified: bool)
    requires b.name == "B" && b.caseSensitive
    ensures MeaningEx(map["B" := b], Stripped("x\\B"), unqualified) == if unqualified then Some(b) else None
  {
    hide Lower, NamespaceLower;
    var name := "x\\B";
    assert Stripped(name) == name && name[1] == SLASH;
    BaseIsLast(name, 2);
    assert name[2..] == "B";
    PlainName("B");
    assert |NamespaceLower(name)| == 3 && |Lower(name)| == 3;
  }

  // What a lookup finds: a case-sensitive constant if and only if the namespace-lowered name is its
  // key, and a case-insensitive one if and only if the lowered name is its key and no case-sensitive
  // key matches.
  lemma {:induction false} MeaningIsExact(t: Table, name: string, c: Constant)
    requires TableOk(t)
    ensures c.caseSensitive ==> (Meaning(t, name) == Some(c)
      <==> NamespaceLower(name) == Key(c) && Key(c) in t && t[Key(c)] == c)
    ensures !c.caseSensitive ==>
      (Meaning(t, name) == Some(c) <==> Lower(name) == Key(c) && Key(c) in t && t[Key(c)] == c
                                        && !(NamespaceLower(name) in t && t[NamespaceLower(name)].caseSensitive))
  {
  }

  // A name finds the constant that was registered first under the key it means.
  lemma {:induction false} FindsTheFirst(cs: seq<Constant>, name: string)
    ensures var r := Meaning(TableOf(cs), name);
      r.Some? ==>
        var k := if r.value.caseSensitive then NamespaceLower(name) else Lower(name);
        exists i: nat :: First(cs, i, k) && r.value == cs[i]
  {
    FirstWins(cs, NamespaceLower(name));
    FirstWins(cs, Lower(name));
  }

  // A constant that is the first with its key is found by its own name, unless it is case-insensitive
  // and a case-sensitive one has exactly that name.
  lemma {:induction false} DefinedIsFound(cs: seq<Constant>, i: nat)
    requires i < |cs| && First(cs, i, Key(cs[i])) && Key(cs[i]) != PSEUDO
    ensures var t, k := TableOf(cs), NamespaceLower(cs[i].name);
      Meaning(t, cs[i].name) == Some(cs[i]) <==> cs[i].caseSensitive || !(k in t && t[k].caseSensitive)
  {
    FirstWins(cs, Key(cs[i]));
    MeaningIsExact(TableOf(cs), cs[i].name, cs[i]);
  }
}
