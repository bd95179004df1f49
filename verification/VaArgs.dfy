// Parameter parsing by a type specification: a pass that counts and a pass that consumes.
module VaArgs {
  import opened Wrappers

  // The letters the counting pass knows.
  predicate IsType(c: char) {
    || c == 'l' || c == 'd' || c == 's' || c == 'b' || c == 'r' || c == 'a' || c == 'o' || c == 'O'
    || c == 'z' || c == 'Z' || c == 'C' || c == 'h' || c == 'f' || c == 'A' || c == 'H' || c == 'p'
  }

  // zend_parse_arg_impl knows one more.
  predicate IsKnown(c: char) {
    IsType(c) || c == 'L'
  }

  predicate IsModifier(c: char) {
    c == '/' || c == '!'
  }

  predicate IsStar(c: char) {
    c == '*' || c == '+'
  }

  // ---------- the counting pass ----------

  // min is None until a '|' is seen; post is the number of types up to the varargs.
  datatype Counts = Counts(min: Option<nat>, max: nat, post: nat, varargs: bool)

  // None stands for the failures.
  function CountFrom(spec: string, k: Counts): (r: Option<Counts>)
    ensures r.Some? && k.post <= k.max ==> r.value.post <= r.value.max
  {
    if spec == "" then Some(k)
    else if IsType(spec[0]) then CountFrom(spec[1..], k.(max := k.max + 1))
    else if spec[0] == '|' then CountFrom(spec[1..], k.(min := Some(k.max)))
    else if IsModifier(spec[0]) then CountFrom(spec[1..], k)
    else if IsStar(spec[0]) && !k.varargs then
      var max := if spec[0] == '+' then k.max + 1 else k.max;
      CountFrom(spec[1..], k.(varargs := true, max := max, post := max))
    else None
  }

  const START: Counts := Counts(None, 0, 0, false)

  // Whether n arguments are enough and not too many; a specification for no arguments sets no upper
  // bound.
  predicate Fits(k: Counts, n: nat) {
    && (if k.min.Some? then k.min.value else k.max) <= n
    && (k.varargs || k.max == 0 || n <= k.max)
  }

  // ---------- the consuming pass ----------

  // What an argument goes to: the type at a position of the specification, or the varargs array.
  datatype Slot = ByType(pos: nat) | Vararg

  function SkipModifiers(spec: string): (r: string)
    ensures |r| <= |spec|
  {
    if spec != "" && IsModifier(spec[0]) then SkipModifiers(spec[1..]) else spec
  }

  // The result of consuming the rest, after what was consumed.
  function Then(done: seq<Slot>, more: Option<seq<Slot>>): Option<seq<Slot>> {
    if more.None? then None else Some(done + more.value)
  }

  function AfterBar(rest: string): (r: string)
    ensures |r| <= |rest|
  {
    if rest != "" && rest[0] == '|' then rest[1..] else rest
  }

  predicate AtStar(rest: string) {
    rest != "" && IsStar(rest[0])
  }

  function AfterStar(rest: string): (r: string)
    ensures |r| <= |rest|
  {
    if AtStar(rest) then rest[1..] else rest
  }

  function Varargs(n: nat): seq<Slot> {
    seq(n, _ => Vararg)
  }

  // rest is what is left of the specification, n the number of arguments left, i the next one, post
  // the number of types behind the varargs. None stands for a failure.
  function Consume(rest: string, len: nat, n: nat, i: nat, post: nat, accept: (nat, char) -> bool): Option<seq<Slot>>
    requires |rest| <= len
    decreases n
  {
    if n == 0 then Some([])
    else
      var r := AfterBar(rest);
      var t := AfterStar(r);
      if AtStar(r) && n > post then Then(Varargs(n - post), Consume(t, len, post, i + (n - post), post, accept))
      else if t == "" || !IsKnown(t[0]) || !accept(i, t[0]) then None
      else Then([ByType(len - |t|)], Consume(SkipModifiers(t[1..]), len, n - 1, i + 1, post, accept))
  }

  // The whole: what each argument goes to, or failure.
  function Parse(spec: string, n: nat, count: nat, accept: (nat, char) -> bool): Option<seq<Slot>> {
    var k := CountFrom(spec, START);
    if k.None? || !Fits(k.value, n) || count < n then None
    else Consume(spec, |spec|, n, 0, if k.value.varargs then k.value.max - k.value.post else 0, accept)
  }

  // zend_parse_va_args, both passes
  method ParseVaArgs(numArgs: nat, spec: string, argCount: nat, accept: (nat, char) -> bool)
      returns (r: Option<seq<Slot>>)
    ensures r == Parse(spec, numArgs, argCount, accept)
  {
    var k := CountPass(spec);
    if k.None? || !Fits(k.value, numArgs) || argCount < numArgs {
      return None;
    }
    r := ConsumePass(spec, numArgs, if k.value.varargs then k.value.max - k.value.post else 0, accept);
  }

  method CountPass(spec: string) returns (k: Option<Counts>)
    ensures k == CountFrom(spec, START)
  {
    var c, w := START, 0;
    while w < |spec|
      invariant w <= |spec| && CountFrom(spec[w..], c) == CountFrom(spec, START)
    {
      if IsType(spec[w]) {
        c := c.(max := c.max + 1);
      } else if spec[w] == '|' {
        c := c.(min := Some(c.max));
      } else if !IsModifier(spec[w]) {
        if !IsStar(spec[w]) || c.varargs {
          return None;
        }
        c := c.(varargs := true);
        if spec[w] == '+' {
          c := c.(max := c.max + 1);
        }
        c := c.(post := c.max);
      }
      assert spec[w..][1..] == spec[w + 1..];
      w := w + 1;
    }
    return Some(c);
  }

  lemma {:induction false} ThenThen(a: seq<Slot>, b: seq<Slot>, more: Option<seq<Slot>>)
    ensures Then(a, Then(b, more)) == Then(a + b, more)
  {
    if more.Some? { assert a + (b + more.value) == a + b + more.value; }
  }

  lemma {:induction false} ThenNothing(more: Option<seq<Slot>>)
    ensures Then([], more) == more
  {
    if more.Some? { assert [] + more.value == more.value; }
  }

  method ConsumePass(spec: string, numArgs: nat, post: nat, accept: (nat, char) -> bool) returns (r: Option<seq<Slot>>)
    ensures r == Consume(spec, |spec|, numArgs, 0, post, accept)
  {
    hide Consume, Then, IsKnown, SkipModifiers, Varargs;
    var rest, done := spec, [];
    var n: nat, i: nat := numArgs, 0;
    ghost var whole := Consume(spec, |spec|, numArgs, 0, post, accept);
    ThenNothing(whole);
    while n > 0
      invariant |rest| <= |spec| && Then(done, Consume(rest, |spec|, n, i, post, accept)) == whole
    {
      ConsumeStep(rest, |spec|, n, i, post, accept, done);
      if rest != "" && rest[0] == '|' {
        rest := rest[1..];
      }
      if rest != "" && IsStar(rest[0]) {
        rest := rest[1..];
        if n > post {
          done := done + Varargs(n - post);
          i := i + (n - post);
          n := post;
          continue;
        }
      }
      if rest == "" || !IsKnown(rest[0]) || !accept(i, rest[0]) {
        return None;
      }
      done := done + [ByType(|spec| - |rest|)];
      rest := SkipModifiers(rest[1..]);
      n, i := n - 1, i + 1;
    }
    NoneLeft(rest, rest, |spec|, i, post, accept);
    ThenDone(done);
    return Some(done);
  }

  lemma {:induction false} ThenDone(done: seq<Slot>)
    ensures Then(done, Some([])) == Some(done)
  {
    assert done + [] == done;
  }

  // One step, with what was consumed before it.
  lemma {:induction false} ConsumeStep(rest: string, len: nat, n: nat, i: nat, post: nat, accept: (nat, char) -> bool,
      done: seq<Slot>)
    requires |rest| <= len && 0 < n
    ensures var r := AfterBar(rest);
      var t := AfterStar(r);
      Then(done, Consume(rest, len, n, i, post, accept))
      == if AtStar(r) && n > post then Then(done + Varargs(n - post),
        Consume(t, len, post, i + (n - post), post, accept))
         else if t == "" || !IsKnown(t[0]) || !accept(i, t[0]) then None
         else Then(done + [ByType(len - |t|)], Consume(SkipModifiers(t[1..]), len, n - 1, i + 1, post, accept))
  {
    var t := AfterStar(AfterBar(rest));
    if AtStar(AfterBar(rest)) && n > post {
      ThenThen(done, Varargs(n - post), Consume(t, len, post, i + (n - post), post, accept));
    } else if !(t == "" || !IsKnown(t[0]) || !accept(i, t[0])) {
      ThenThen(done, [ByType(len - |t|)], Consume(SkipModifiers(t[1..]), len, n - 1, i + 1, post, accept));
    }
  }

  // ---------- malformed specifications ----------

  // The number of varargs marks.
  function Stars(spec: string): nat {
    if spec == "" then 0 else (if spec[0] == '*' || spec[0] == '+' then 1 else 0) + Stars(spec[1..])
  }

  // A character that may stand in a specification.
  ghost predicate Allowed(c: char) {
    IsLetter(c) || c in {'|', '/', '!', '*', '+'}
  }

  // The counting pass fails if and only if there is a character that may not be there or a second
  // varargs mark.
  lemma {:induction false} CountFails(spec: string, k: Counts)
    ensures CountFrom(spec, k).None? <==>
      (exists i :: 0 <= i < |spec| && !Allowed(spec[i])) || Stars(spec) + (if k.varargs then 1 else 0) > 1
  {
    if spec != "" {
      hide IsLetter, Allowed;
      var t := spec[1..];
      AllowedIs(spec[0]);
      assert (exists i :: 0 <= i < |spec| && !Allowed(spec[i])) <==>
        !Allowed(spec[0]) || exists i :: 0 <= i < |t| && !Allowed(t[i]) by {
        FirstOrRest(spec);
      }
      CountFails(t, k);
      CountFails(t, k.(max := k.max + 1));
      CountFails(t, k.(min := Some(k.max)));
      var max := if spec[0] == '+' then k.max + 1 else k.max;
      CountFails(t, k.(varargs := true, max := max, post := max));
      if k.varargs && IsStar(spec[0]) { StarsCount(spec); }
    }
  }

  lemma {:induction false} StarsCount(spec: string)
    requires spec != ""
    ensures IsStar(spec[0]) ==> 1 <= Stars(spec)
  {
  }

  lemma {:induction false} FirstOrRest(spec: string)
    requires spec != ""
    ensures (exists i :: 0 <= i < |spec| && !Allowed(spec[i])) <==>
      !Allowed(spec[0]) || exists i :: 0 <= i < |spec[1..]| && !Allowed(spec[1..][i])
  {
    hide Allowed;
    var t := spec[1..];
    if i :| 0 <= i < |t| && !Allowed(t[i]) { assert !Allowed(spec[i + 1]); }
    if i :| 0 <= i < |spec| && !Allowed(spec[i]) {
      if i != 0 { assert !Allowed(t[i - 1]); }
    }
  }

  lemma {:induction false} AllowedIs(c: char)
    ensures Allowed(c) <==> IsType(c) || c == '|' || IsModifier(c) || IsStar(c)
    ensures IsType(c) ==> c != '|' && !IsModifier(c) && !IsStar(c)
  {
    LettersAreTypes(c);
  }

  // ---------- well-formed specifications ----------

  // A type letter with its modifiers.
  datatype Item = Item(c: char, mods: string)

  // Leading types, of which those behind a '|' are optional; varargs; trailing types.
  datatype Spec = Spec(required: seq<Item>, optional: Option<seq<Item>>, star: Option<char>, trail: seq<Item>)

  // The sixteen type letters, and '/' and '!' behind them.
  ghost predicate ItemsOk(items: seq<Item>) {
    forall k :: 0 <= k < |items| ==> IsLetter(items[k].c) && forall m :: 0 <= m < |items[k].mods| ==>
      items[k].mods[m] == '/' || items[k].mods[m] == '!'
  }

  ghost predicate IsLetter(c: char) {
    c in {'A', 'C', 'H', 'O', 'Z', 'a', 'b', 'd', 'f', 'h', 'l', 'o', 'p', 'r', 's', 'z'}
  }

  ghost predicate WellFormed(sp: Spec) {
    && ItemsOk(sp.required) && (sp.optional.Some? ==> ItemsOk(sp.optional.value)) && ItemsOk(sp.trail)
    && (if sp.star.Some? then sp.star.value == '*' || sp.star.value == '+' else sp.trail == [])
  }

  lemma {:induction false} LettersAreTypes(c: char)
    ensures IsLetter(c) <==> IsType(c)
  {
  }

  function ShowItems(items: seq<Item>): string {
    if items == [] then "" else [items[0].c] + items[0].mods + ShowItems(items[1..])
  }

  function ShowTrail(sp: Spec): string {
    (if sp.star.Some? then [sp.star.value] else "") + ShowItems(sp.trail)
  }

  function ShowOptional(sp: Spec): string {
    (if sp.optional.Some? then "|" + ShowItems(sp.optional.value) else "") + ShowTrail(sp)
  }

  function Show(sp: Spec): string {
    ShowItems(sp.required) + ShowOptional(sp)
  }

  function Optional(sp: Spec): seq<Item> {
    if sp.optional.Some? then sp.optional.value else []
  }

  // ---------- the counting pass on them ----------

  // One step of the pass, by kind of letter.
  lemma {:induction false} CountType(s: string, k: Counts)
    requires s != "" && IsType(s[0])
    ensures CountFrom(s, k) == CountFrom(s[1..], k.(max := k.max + 1))
  {
  }

  lemma {:induction false} CountNothing(k: Counts)
    ensures CountFrom("", k) == Some(k)
  {
  }

  lemma {:induction false} CountBar(s: string, k: Counts)
    requires s != "" && s[0] == '|'
    ensures CountFrom(s, k) == CountFrom(s[1..], k.(min := Some(k.max)))
  {
  }

  lemma {:induction false} CountStar(s: string, k: Counts)
    requires s != "" && IsStar(s[0]) && !k.varargs
    ensures var m := if s[0] == '+' then k.max + 1 else k.max;
      CountFrom(s, k) == CountFrom(s[1..], k.(varargs := true, max := m, post := m))
  {
  }

  lemma {:induction false} CountMods(mods: string, rest: string, k: Counts)
    requires ModsOk(mods)
    ensures CountFrom(mods + rest, k) == CountFrom(rest, k)
  {
    if mods == "" {
      assert mods + rest == rest;
    } else {
      assert (mods + rest)[1..] == mods[1..] + rest && (mods + rest)[0] == mods[0];
      CountMods(mods[1..], rest, k);
    }
  }

  ghost predicate ModsOk(mods: string) {
    forall m :: 0 <= m < |mods| ==> IsModifier(mods[m])
  }

  // The first item, in the text.
  lemma {:induction false} ShowFirst(items: seq<Item>, rest: string)
    requires ItemsOk(items) && items != []
    ensures IsType(items[0].c) && ModsOk(items[0].mods) && ItemsOk(items[1..])
    ensures var s, tail := ShowItems(items) + rest, ShowItems(items[1..]) + rest;
      s != "" && s[0] == items[0].c && s[1..] == items[0].mods + tail
  {
    hide ItemsOk, IsType, ModsOk, ShowItems;
    FirstOk(items);
    FirstText(items, rest);
  }

  lemma {:induction false} FirstOk(items: seq<Item>)
    requires ItemsOk(items) && items != []
    ensures IsType(items[0].c) && ModsOk(items[0].mods) && ItemsOk(items[1..])
  {
    LettersAreTypes(items[0].c);
    hide IsType;
  }

  lemma {:induction false} FirstText(items: seq<Item>, rest: string)
    requires items != []
    ensures var s, tail := ShowItems(items) + rest, ShowItems(items[1..]) + rest;
      s != "" && s[0] == items[0].c && s[1..] == items[0].mods + tail
  {
    var t := ShowItems(items[1..]);
    assert ShowItems(items) == [items[0].c] + items[0].mods + t;
    hide ShowItems;
    Regrouped(items[0].c, items[0].mods, t, rest);
  }

  lemma {:induction false} Regrouped(c: char, mods: string, t: string, rest: string)
    ensures [c] + mods + t + rest == [c] + (mods + (t + rest))
    ensures ([c] + mods + t + rest)[1..] == mods + (t + rest)
  {
    assert ([c] + (mods + (t + rest)))[1..] == mods + (t + rest);
  }

  lemma {:induction false} ShowShorter(items: seq<Item>)
    requires items != []
    ensures |ShowItems(items)| == 1 + |items[0].mods| + |ShowItems(items[1..])|
  {
  }

  lemma {:induction false} CountItems(items: seq<Item>, rest: string, k: Counts)
    requires ItemsOk(items)
    ensures CountFrom(ShowItems(items) + rest, k) == CountFrom(rest, k.(max := k.max + |items|))
  {
    if items == [] {
      assert ShowItems(items) + rest == rest;
    } else {
      var tail := ShowItems(items[1..]) + rest;
      var s := ShowItems(items) + rest;
      hide CountFrom, IsType, ShowItems, ItemsOk;
      ShowFirst(items, rest);
      CountType(s, k);
      CountMods(items[0].mods, tail, k.(max := k.max + 1));
      CountItems(items[1..], rest, k.(max := k.max + 1));
    }
  }

  // The counts: how many arguments are needed, and how many types stand behind the varargs.
  ghost function CountsOf(sp: Spec): Counts {
    var a := |sp.required| + |Optional(sp)|;
    var m := if sp.star == Some('+') then a + 1 else a;
    Counts(if sp.optional.Some? then Some(|sp.required|) else None, m + |sp.trail|, if sp.star.Some? then m
      else 0, sp.star.Some?)
  }

  lemma {:induction false} CountIsRight(sp: Spec)
    requires WellFormed(sp)
    ensures CountFrom(Show(sp), START) == Some(CountsOf(sp))
  {
    hide CountFrom, ShowItems, ItemsOk, IsType;
    CountItems(sp.required, ShowOptional(sp), START);
    var k := START.(max := |sp.required|);
    if sp.optional.Some? {
      var s := ShowOptional(sp);
      assert s[0] == '|' && s[1..] == ShowItems(sp.optional.value) + ShowTrail(sp);
      CountBar(s, k);
      k := k.(min := Some(|sp.required|));
      CountItems(sp.optional.value, ShowTrail(sp), k);
      k := k.(max := k.max + |sp.optional.value|);
    } else {
      assert ShowOptional(sp) == ShowTrail(sp);
    }
    CountTrail(sp, k);
  }

  lemma {:induction false} CountTrail(sp: Spec, k: Counts)
    requires WellFormed(sp) && k.max == |sp.required| + |Optional(sp)| && k == Counts(k.min, k.max, 0, false)
    requires k.min == if sp.optional.Some? then Some(|sp.required|) else None
    ensures CountFrom(ShowTrail(sp), k) == Some(CountsOf(sp))
  {
    var s := ShowTrail(sp);
    assert ShowItems(sp.trail) + "" == ShowItems(sp.trail);
    CountNothing(k);
    hide CountFrom, ItemsOk, IsType;
    if sp.star.Some? {
      assert s[0] == sp.star.value && s[1..] == ShowItems(sp.trail);
      var m := if s[0] == '+' then k.max + 1 else k.max;
      CountStar(s, k);
      CountItems(sp.trail, "", k.(varargs := true, max := m, post := m));
      CountNothing(k.(varargs := true, max := m + |sp.trail|, post := m));
    } else {
      assert s == "";
    }
  }

  // ---------- the consuming pass on them ----------

  // The first n items take n arguments; behind the items are after characters.
  function TypeSlots(items: seq<Item>, n: nat, after: nat, len: nat): (r: seq<Slot>)
    requires n <= |items| && |ShowItems(items)| + after <= len
    ensures |r| == n
  {
    if n == 0 then [] else [ByType(len - after - |ShowItems(items)|)] + TypeSlots(items[1..], n - 1, after, len)
  }

  ghost predicate Accepted(items: seq<Item>, n: nat, i: nat, accept: (nat, char) -> bool)
    requires n <= |items|
  {
    forall k :: 0 <= k < n ==> accept(i + k, items[k].c)
  }

  lemma {:induction false} SkipMods(mods: string, rest: string)
    requires ModsOk(mods) && (rest != "" ==> !IsModifier(rest[0]))
    ensures SkipModifiers(mods + rest) == rest
  {
    if mods == "" {
      assert mods + rest == rest;
    } else {
      assert (mods + rest)[1..] == mods[1..] + rest && (mods + rest)[0] == mods[0];
      SkipMods(mods[1..], rest);
    }
  }

  function Least(a: nat, b: nat): nat {
    if a < b then a else b
  }

  lemma {:induction false} ConsumeItems(items: seq<Item>, rest: string, len: nat, n: nat, i: nat, post: nat,
      accept: (nat, char) -> bool)
    requires ItemsOk(items) && |ShowItems(items)| + |rest| <= len && (rest != "" ==> !IsModifier(rest[0]))
    ensures var m := Least(n, |items|);
      Consume(ShowItems(items) + rest, len, n, i, post, accept)
      == if Accepted(items, m, i, accept) then Then(TypeSlots(items, m, |rest|, len),
        Consume(rest, len, n - m, i + m, post, accept)) else None
  {
    hide Consume, Accepted, TypeSlots, Then, ItemsOk, ShowItems, IsType, IsModifier;
    var m := Least(n, |items|);
    if m == 0 {
      NoItems(items, rest, len, n, i, post, accept);
    } else {
      ShowFirst(items, rest);
      ShowShorter(items);
      ConsumeItems(items[1..], rest, len, n - 1, i + 1, post, accept);
      ConsumeFirst(items, rest, len, n, i, post, accept, m, Consume(rest, len, n - m, i + m, post, accept));
    }
  }

  lemma {:induction false} NoItems(items: seq<Item>, rest: string, len: nat, n: nat, i: nat, post: nat,
      accept: (nat, char) -> bool)
    requires |ShowItems(items)| + |rest| <= len && (n == 0 || items == [])
    ensures Consume(ShowItems(items) + rest, len, n, i, post, accept)
      == Then([], Consume(rest, len, n, i, post, accept))
    ensures Accepted(items, 0, i, accept) && TypeSlots(items, 0, |rest|, len) == []
  {
    if items == [] { assert ShowItems(items) + rest == rest; }
    ThenNothing(Consume(rest, len, n, i, post, accept));
    if n == 0 { NoneLeft(ShowItems(items) + rest, rest, len, i, post, accept); }
  }

  // One item and then the others.
  lemma {:induction false} ConsumeFirst(items: seq<Item>, rest: string, len: nat, n: nat, i: nat, post: nat,
      accept: (nat, char) -> bool, m: nat, more: Option<seq<Slot>>)
    requires ItemsOk(items) && |ShowItems(items)| + |rest| <= len && (rest != "" ==> !IsModifier(rest[0]))
      && 0 < m <= |items| && 0 < n
    requires |ShowItems(items[1..])| <= |ShowItems(items)|
    requires Consume(ShowItems(items[1..]) + rest, len, n - 1, i + 1, post, accept)
      == if Accepted(items[1..], m - 1, i + 1, accept) then Then(TypeSlots(items[1..], m - 1, |rest|, len), more)
        else None
    ensures Consume(ShowItems(items) + rest, len, n, i, post, accept)
      == if Accepted(items, m, i, accept) then Then(TypeSlots(items, m, |rest|, len), more) else None
  {
    hide Consume, Accepted, TypeSlots, ItemsOk, ShowItems;
    var s, tail := ShowItems(items) + rest, ShowItems(items[1..]) + rest;
    ShowFirst(items, rest);
    if items[1..] != [] { ShowFirst(items[1..], rest); } else { NothingShown(items[1..]); assert tail == rest; }
    SkipMods(items[0].mods, tail);
    ConsumeType(s, len, n, i, post, accept);
    AcceptedNext(items, m, i, accept);
    NextSlots(items, m, |rest|, len);
    ThenThen([ByType(len - |s|)], TypeSlots(items[1..], m - 1, |rest|, len), more);
  }

  lemma {:induction false} NothingShown(items: seq<Item>)
    requires items == []
    ensures ShowItems(items) == ""
  {
  }

  lemma {:induction false} NextSlots(items: seq<Item>, m: nat, after: nat, len: nat)
    requires 0 < m <= |items| && |ShowItems(items)| + after <= len
    ensures |ShowItems(items[1..])| <= |ShowItems(items)|
    ensures TypeSlots(items, m, after, len) == [ByType(len - after - |ShowItems(items)|)] + TypeSlots(items[1..],
      m - 1, after, len)
  {
  }

  lemma {:induction false} NoneLeft(s: string, rest: string, len: nat, i: nat, post: nat, accept: (nat, char) -> bool)
    requires |s| <= len && |rest| <= len
    ensures Consume(s, len, 0, i, post, accept) == Consume(rest, len, 0, i, post, accept) == Some([])
  {
  }

  // One step of the pass at a type.
  lemma {:induction false} ConsumeType(s: string, len: nat, n: nat, i: nat, post: nat, accept: (nat, char) -> bool)
    requires s != "" && |s| <= len && IsType(s[0]) && 0 < n
    ensures Consume(s, len, n, i, post, accept)
      == if accept(i, s[0]) then Then([ByType(len - |s|)],
        Consume(SkipModifiers(s[1..]), len, n - 1, i + 1, post, accept)) else None
  {
  }

  lemma {:induction false} AcceptedNext(items: seq<Item>, m: nat, i: nat, accept: (nat, char) -> bool)
    requires 0 < m <= |items|
    ensures Accepted(items, m, i, accept) <==> accept(i, items[0].c) && Accepted(items[1..], m - 1, i + 1, accept)
  {
    if accept(i, items[0].c) && Accepted(items[1..], m - 1, i + 1, accept) {
      forall k | 0 <= k < m
        ensures accept(i + k, items[k].c)
      {
        if k != 0 { assert accept(i + 1 + (k - 1), items[1..][k - 1].c); }
      }
    }
    if Accepted(items, m, i, accept) {
      assert accept(i + 0, items[0].c);
      forall k | 0 <= k < m - 1
        ensures accept(i + 1 + k, items[1..][k].c)
      {
        assert accept(i + (k + 1), items[k + 1].c);
      }
    }
  }

  // How n arguments are shared out: leading types first, then varargs, and the trailing types.
  function Leading(sp: Spec): nat {
    |sp.required| + |Optional(sp)|
  }

  function VarargsOf(sp: Spec, n: nat): nat {
    if sp.star.Some? && Leading(sp) + |sp.trail| < n then n - Leading(sp) - |sp.trail| else 0
  }

  function TrailOf(sp: Spec, n: nat): nat {
    if n <= Leading(sp) then 0 else Least(n - Leading(sp), |sp.trail|)
  }

  function RequiredOf(sp: Spec, n: nat): nat {
    Least(n, |sp.required|)
  }

  function OptionalOf(sp: Spec, n: nat): nat {
    Least(n - RequiredOf(sp, n), |Optional(sp)|)
  }

  function SlotsOf(sp: Spec, n: nat): seq<Slot> {
    Lengths(sp);
    TypeSlots(sp.required, RequiredOf(sp, n), |ShowOptional(sp)|, |Show(sp)|)
    + (TypeSlots(Optional(sp), OptionalOf(sp, n), |ShowTrail(sp)|, |Show(sp)|)
       + (Varargs(VarargsOf(sp, n)) + TypeSlots(sp.trail, TrailOf(sp, n), 0, |Show(sp)|)))
  }

  lemma {:induction false} Lengths(sp: Spec)
    ensures |ShowItems(sp.required)| + |ShowOptional(sp)| == |Show(sp)|
    ensures |ShowItems(Optional(sp))| + |ShowTrail(sp)| <= |ShowOptional(sp)|
      && |ShowItems(sp.trail)| <= |ShowTrail(sp)|
  {
  }

  // Every type accepts its argument.
  ghost predicate AllAccepted(sp: Spec, n: nat, accept: (nat, char) -> bool) {
    && Accepted(sp.required, RequiredOf(sp, n), 0, accept)
    && Accepted(Optional(sp), OptionalOf(sp, n), RequiredOf(sp, n), accept)
    && Accepted(sp.trail, TrailOf(sp, n), RequiredOf(sp, n) + OptionalOf(sp, n) + VarargsOf(sp, n), accept)
  }

  // Enough arguments, and without varargs not too many.
  predicate Arity(sp: Spec, n: nat) {
    && (if sp.optional.Some? then |sp.required| else Leading(sp) + |sp.trail| + if sp.star == Some('+') then 1
      else 0) <= n
    && (sp.star.Some? || n <= Leading(sp))
  }

  // At the varargs.
  lemma {:induction false} ConsumeTrail(sp: Spec, len: nat, k: nat, i: nat, accept: (nat, char) -> bool)
    requires WellFormed(sp) && |ShowTrail(sp)| <= len
    ensures var b := |sp.trail|;
      var v, t := if sp.star.Some? && b < k then k - b else 0, Least(k, b);
      |ShowItems(sp.trail)| <= len &&
      Consume(ShowTrail(sp), len, k, i, b, accept)
      == if (sp.star.Some? || k == 0) && Accepted(sp.trail, t, i + v,
        accept) then Some(Varargs(v) + TypeSlots(sp.trail, t, 0, len)) else None
  {
    hide Consume, Accepted, ItemsOk, ShowItems;
    var b, s := |sp.trail|, ShowTrail(sp);
    if k == 0 {
      NoneLeft(s, s, len, i, b, accept);
      assert Varargs(0) + TypeSlots(sp.trail, 0, 0, len) == [];
      NoneAccepted(sp.trail, i, accept);
    } else if sp.star.Some? {
      assert s[0] == sp.star.value && s[1..] == ShowItems(sp.trail);
      if b < k {
        StarTakes(s, len, k, i, b, accept);
        ConsumeTypes(sp.trail, len, b, i + (k - b), b, accept);
      } else {
        ConsumeTypes(sp.trail, len, k, i, b, accept);
        SameAsTypes(s, sp.trail, len, k, i, b, accept);
        assert Varargs(0) + TypeSlots(sp.trail, k, 0, len) == TypeSlots(sp.trail, k, 0, len);
      }
    } else {
      NothingShown(sp.trail);
      assert s == "";
      AtTheEnd(len, k, i, b, accept);
    }
  }

  lemma {:induction false} NoOptional(sp: Spec, len: nat, i: nat, accept: (nat, char) -> bool)
    requires sp.optional.None? && |ShowTrail(sp)| <= len
    ensures ShowOptional(sp) == ShowTrail(sp) && Accepted(Optional(sp), 0, i, accept) && ShowItems(Optional(sp)) == ""
    ensures TypeSlots(Optional(sp), 0, |ShowTrail(sp)|, len) == []
  {
  }

  lemma {:induction false} NoneAccepted(items: seq<Item>, i: nat, accept: (nat, char) -> bool)
    ensures Accepted(items, 0, i, accept)
  {
  }

  lemma {:induction false} AtTheEnd(len: nat, k: nat, i: nat, b: nat, accept: (nat, char) -> bool)
    requires 0 < k
    ensures Consume("", len, k, i, b, accept) == None
  {
  }

  // A star takes what the types behind it leave.
  lemma {:induction false} StarTakes(s: string, len: nat, k: nat, i: nat, b: nat, accept: (nat, char) -> bool)
    requires s != "" && IsStar(s[0]) && |s| <= len && b < k
    ensures Consume(s, len, k, i, b, accept) == Then(Varargs(k - b), Consume(s[1..], len, b, i + (k - b), b, accept))
  {
    assert AfterBar(s) == s && AtStar(s) && AfterStar(s) == s[1..];
  }

  // A star that takes nothing.
  lemma {:induction false} SameAsTypes(s: string, items: seq<Item>, len: nat, k: nat, i: nat, b: nat,
      accept: (nat, char) -> bool)
    requires ItemsOk(items) && s != "" && IsStar(s[0]) && s[1..] == ShowItems(items) && |s| <= len && 0 < k <= b
    ensures Consume(s, len, k, i, b, accept) == Consume(ShowItems(items), len, k, i, b, accept)
  {
    var t := ShowItems(items);
    if items != [] {
      ShowFirst(items, "");
      assert t + "" == t;
    }
    assert AfterBar(t) == t && AfterStar(t) == t && !AtStar(t);
  }

  // Types alone, to the end.
  lemma {:induction false} ConsumeTypes(items: seq<Item>, len: nat, k: nat, i: nat, post: nat,
      accept: (nat, char) -> bool)
    requires ItemsOk(items) && |ShowItems(items)| <= len && k <= |items|
    ensures Consume(ShowItems(items), len, k, i, post, accept)
      == if Accepted(items, k, i, accept) then Some(TypeSlots(items, k, 0, len)) else None
  {
    hide Consume, Accepted, ItemsOk;
    assert ShowItems(items) + "" == ShowItems(items);
    ConsumeItems(items, "", len, k, i, post, accept);
    NoneLeft("", "", len, i + k, post, accept);
    ThenDone(TypeSlots(items, k, 0, len));
  }

  // A '|' is skipped.
  lemma {:induction false} ConsumeBar(x: string, len: nat, k: nat, i: nat, post: nat, accept: (nat, char) -> bool)
    requires |x| + 1 <= len && (x != "" ==> x[0] != '|')
    ensures Consume("|" + x, len, k, i, post, accept) == Consume(x, len, k, i, post, accept)
  {
    assert ("|" + x)[1..] == x;
  }

  lemma {:induction false} ConsumeOptional(sp: Spec, len: nat, k: nat, i: nat, accept: (nat, char) -> bool)
    requires WellFormed(sp) && |ShowOptional(sp)| <= len
    ensures var m := Least(k, |Optional(sp)|);
      |ShowItems(Optional(sp))| + |ShowTrail(sp)| <= len &&
      Consume(ShowOptional(sp), len, k, i, |sp.trail|, accept)
      == if Accepted(Optional(sp), m, i, accept)
         then Then(TypeSlots(Optional(sp), m, |ShowTrail(sp)|, len),
           Consume(ShowTrail(sp), len, k - m, i + m, |sp.trail|, accept)) else None
  {
    hide Consume, Accepted, ItemsOk, ShowItems, ShowTrail, ShowOptional, TypeSlots, Then, IsModifier;
    Lengths(sp);
    TrailStart(sp);
    if sp.optional.Some? {
      var x := ShowItems(sp.optional.value) + ShowTrail(sp);
      OptionalStart(sp, x);
      ConsumeBar(x, len, k, i, |sp.trail|, accept);
      ConsumeItems(sp.optional.value, ShowTrail(sp), len, k, i, |sp.trail|, accept);
    } else {
      NoOptional(sp, len, i, accept);
      ThenNothing(Consume(ShowTrail(sp), len, k, i, |sp.trail|, accept));
    }
  }

  lemma {:induction false} TrailStart(sp: Spec)
    requires WellFormed(sp)
    ensures ShowTrail(sp) != "" ==> !IsModifier(ShowTrail(sp)[0]) && ShowTrail(sp)[0] != '|'
    ensures ShowOptional(sp) != "" ==> !IsModifier(ShowOptional(sp)[0])
  {
  }

  lemma {:induction false} OptionalStart(sp: Spec, x: string)
    requires WellFormed(sp) && sp.optional.Some? && x == ShowItems(sp.optional.value) + ShowTrail(sp)
    ensures x != "" ==> x[0] != '|'
    ensures ShowOptional(sp) == "|" + x
  {
    TrailStart(sp);
    assert ShowOptional(sp) == "|" + x;
    if sp.optional.value != [] { ShowFirst(sp.optional.value, ShowTrail(sp)); } else { assert x == ShowTrail(sp); }
  }

  // The consuming pass shares the arguments out as described, or some type does not accept its own.
  lemma {:induction false} ConsumeIsRight(sp: Spec, n: nat, accept: (nat, char) -> bool)
    requires WellFormed(sp)
    ensures Consume(Show(sp), |Show(sp)|, n, 0, |sp.trail|, accept)
      == if (sp.star.Some? || n <= Leading(sp)) && AllAccepted(sp, n, accept) then Some(SlotsOf(sp, n)) else None
  {
    hide Consume, Accepted, TypeSlots, ItemsOk, Varargs, ShowItems, ShowTrail, ShowOptional;
    var len, m1, m2 := |Show(sp)|, RequiredOf(sp, n), OptionalOf(sp, n);
    Lengths(sp);
    TrailStart(sp);
    ConsumeItems(sp.required, ShowOptional(sp), len, n, 0, |sp.trail|, accept);
    ConsumeOptional(sp, len, n - m1, m1, accept);
    ConsumeTrail(sp, len, n - m1 - m2, m1 + m2, accept);
  }

  // zend_parse_va_args on a well-formed specification: it succeeds if and only if the number of
  // arguments is right and every type accepts its argument, and then every argument is consumed
  // once, in order, as described.
  lemma {:induction false} ParseIsRight(sp: Spec, n: nat, count: nat, accept: (nat, char) -> bool)
    requires WellFormed(sp)
    ensures Parse(Show(sp), n, count, accept) == if Arity(sp, n) && n <= count
      && AllAccepted(sp, n, accept) then Some(SlotsOf(sp, n)) else None
  {
    hide Consume, AllAccepted, SlotsOf, Show, CountFrom;
    CountIsRight(sp);
    ConsumeIsRight(sp, n, accept);
  }

  // The slots of the first n items, in a text that has the items at offset from: the k-th is the letter
  // of the k-th item, and the letters come in order.
  lemma {:induction false} SlotsAt(items: seq<Item>, n: nat, after: nat, s: string, from: nat, k: nat)
    requires n <= |items| && k < n && from + |ShowItems(items)| + after == |s|
      && s[from..from + |ShowItems(items)|] == ShowItems(items)
    ensures var slot := TypeSlots(items, n, after, |s|)[k];
      slot.ByType? && from + k <= slot.pos < from + |ShowItems(items)| && s[slot.pos] == items[k].c
  {
    ShowShorter(items);
    var t := ShowItems(items);
    assert t[0] == items[0].c && t[1 + |items[0].mods|..] == ShowItems(items[1..]);
    assert s[from] == s[from..from + |t|][0];
    if k != 0 {
      var next := from + 1 + |items[0].mods|;
      assert s[next..next + |ShowItems(items[1..])|] == s[from..from + |t|][1 + |items[0].mods|..];
      SlotsAt(items[1..], n - 1, after, s, next, k - 1);
    }
  }

  lemma {:induction false} SlotsRise(items: seq<Item>, n: nat, after: nat, len: nat, j: nat, k: nat)
    requires j < k < n <= |items| && |ShowItems(items)| + after <= len
    ensures var ts := TypeSlots(items, n, after, len); ts[j].ByType? && ts[k].ByType? && ts[j].pos < ts[k].pos
  {
    ShowShorter(items);
    if j == 0 { SlotBehind(items[1..], n - 1, after, len, k - 1); }
      else { SlotsRise(items[1..], n - 1, after, len, j - 1, k - 1); }
  }

  lemma {:induction false} SlotBehind(items: seq<Item>, n: nat, after: nat, len: nat, k: nat)
    requires k < n <= |items| && |ShowItems(items)| + after <= len
    ensures var ts := TypeSlots(items, n, after, len); ts[k].ByType? && len - after - |ShowItems(items)| <= ts[k].pos
  {
    ShowShorter(items);
    if k != 0 { SlotBehind(items[1..], n - 1, after, len, k - 1); }
  }

  // Slot i is in one of the four groups.
  lemma {:induction false} SlotIn(sp: Spec, n: nat, i: nat)
    requires Arity(sp, n) && i < n
    ensures |SlotsOf(sp, n)| == n && n == RequiredOf(sp, n) + OptionalOf(sp, n) + VarargsOf(sp, n) + TrailOf(sp, n)
    ensures |ShowItems(sp.required)| + |ShowOptional(sp)| == |Show(sp)|
      && |ShowItems(Optional(sp))| + |ShowTrail(sp)| <= |ShowOptional(sp)| && |ShowItems(sp.trail)| <= |ShowTrail(sp)|
    ensures var m1, m2, v, len := RequiredOf(sp, n), OptionalOf(sp, n), VarargsOf(sp, n), |Show(sp)|;
      SlotsOf(sp, n)[i] == if i < m1 then TypeSlots(sp.required, m1, |ShowOptional(sp)|, len)[i]
                           else if i < m1 + m2 then TypeSlots(Optional(sp), m2, |ShowTrail(sp)|, len)[i - m1]
                           else if i < m1 + m2 + v then Vararg
                           else TypeSlots(sp.trail, TrailOf(sp, n), 0, len)[i - (m1 + m2 + v)]
  {
    hide TypeSlots, ShowItems, ShowTrail, ShowOptional, Show;
    Lengths(sp);
  }

  // Where the three groups of items stand in the text.
  lemma {:induction false} TextOf(sp: Spec)
    ensures var s, t1, t2, t3 := Show(sp), ShowItems(sp.required), ShowItems(Optional(sp)), ShowItems(sp.trail);
      && |t1| + |ShowOptional(sp)| == |s| && |t1| + |t2| + |ShowTrail(sp)| <= |s| && |t3| <= |ShowTrail(sp)| <= |s|
      && s[0..|t1|] == t1 && s[|s| - |ShowTrail(sp)| - |t2|..|s| - |ShowTrail(sp)|] == t2 && s[|s| - |t3|..|s|] == t3
  {
    Lengths(sp);
    hide ShowItems;
    var s, t1, t2, t3 := Show(sp), ShowItems(sp.required), ShowItems(Optional(sp)), ShowItems(sp.trail);
    assert s[0..|t1|] == t1;
    if sp.optional.Some? {
      assert s == t1 + "|" + t2 + ShowTrail(sp);
    } else {
      NothingShown(Optional(sp));
    }
    assert s[|s| - |t3|..|s|] == t3;
  }

  // The slots of a well-formed specification, one by one: the letter of argument i, or varargs.
  lemma {:induction false} SlotsMeaning(sp: Spec, n: nat, i: nat)
    requires WellFormed(sp) && Arity(sp, n) && i < n
    ensures |SlotsOf(sp, n)| == n
    ensures var slot, a, b := SlotsOf(sp, n)[i], Leading(sp), |sp.trail|;
      if i < a then slot.ByType? && slot.pos < |Show(sp)| && Show(sp)[slot.pos] == (sp.required + Optional(sp))[i].c
      else if i + b < n then slot == Vararg
      else
        && slot.ByType? && slot.pos < |Show(sp)| && i - (n - TrailOf(sp, n)) < b
        && Show(sp)[slot.pos] == sp.trail[i - (n - TrailOf(sp, n))].c
  {
    hide TypeSlots, ItemsOk, SlotsOf, ShowItems, ShowTrail, ShowOptional, Show;
    SlotIn(sp, n, i);
    TextOf(sp);
    var s, a := Show(sp), |sp.required|;
    if i < RequiredOf(sp, n) {
      SlotsAt(sp.required, RequiredOf(sp, n), |ShowOptional(sp)|, s, 0, i);
    } else if i < Leading(sp) {
      SlotsAt(Optional(sp), OptionalOf(sp, n), |ShowTrail(sp)|, s, |s| - |ShowTrail(sp)| - |ShowItems(Optional(sp))|,
        i - a);
    } else if n <= i + |sp.trail| {
      SlotsAt(sp.trail, TrailOf(sp, n), 0, s, |s| - |ShowItems(sp.trail)|, i - (n - TrailOf(sp, n)));
    }
  }

  // Later arguments go to later types.
  lemma {:induction false} SlotsInOrder(sp: Spec, n: nat, i: nat, j: nat)
    requires WellFormed(sp) && Arity(sp, n) && i < j < n
    ensures |SlotsOf(sp, n)| == n
    ensures SlotsOf(sp, n)[i].ByType? && SlotsOf(sp, n)[j].ByType? ==> SlotsOf(sp, n)[i].pos < SlotsOf(sp, n)[j].pos
  {
    hide TypeSlots, ItemsOk, SlotsOf, ShowItems, ShowTrail, ShowOptional, Show;
    SlotIn(sp, n, i);
    SlotIn(sp, n, j);
    TextOf(sp);
    var s, m1, m2, v, t := Show(sp), RequiredOf(sp, n), OptionalOf(sp, n), VarargsOf(sp, n), TrailOf(sp, n);
    if i < m1 {
      SlotsAt(sp.required, m1, |ShowOptional(sp)|, s, 0, i);
      if j < m1 { SlotsRise(sp.required, m1, |ShowOptional(sp)|, |s|, i, j); }
    } else if i < m1 + m2 {
      SlotsAt(Optional(sp), m2, |ShowTrail(sp)|, s, |s| - |ShowTrail(sp)| - |ShowItems(Optional(sp))|, i - m1);
    }
    if m1 <= j < m1 + m2 {
      SlotsAt(Optional(sp), m2, |ShowTrail(sp)|, s, |s| - |ShowTrail(sp)| - |ShowItems(Optional(sp))|, j - m1);
      if m1 <= i { SlotsRise(Optional(sp), m2, |ShowTrail(sp)|, |s|, i - m1, j - m1); }
    } else if m1 + m2 + v <= j {
      SlotsAt(sp.trail, t, 0, s, |s| - |ShowItems(sp.trail)|, j - (m1 + m2 + v));
      if m1 + m2 + v <= i { SlotsRise(sp.trail, t, 0, |s|, i - (m1 + m2 + v), j - (m1 + m2 + v)); }
    }
  }
}
