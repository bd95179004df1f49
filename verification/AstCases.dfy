// The evaluator on integers: constant expressions have the values that arithmetic gives them.
module AstCases {
  import opened Wrappers
  import opened Ast

  // Expressions with integers, names, some operators, the choices and lists.
  datatype Expr =
    | Num(n: int) | Name(s: string)
    | Minus(l: Expr, r: Expr) | Neg(e: Expr) | Pos(e: Expr) | Not(e: Expr)
    | Both(l: Expr, r: Expr) | Either(l: Expr, r: Expr)
    | Cond(c: Expr, t: Expr, f: Expr) | Elvis(c: Expr, f: Expr)
    | List(items: seq<Item>)

  datatype Item = Item(key: Option<Expr>, value: Expr)

  // The value, if every name that is needed has one. A list is read as a number: an item appends its
  // key, if it has one, and its value as a digit each, to the base of 1000.
  function Calc(e: Expr, defs: map<string, int>): Option<int>
    decreases e, if e.List? then |e.items| + 1 else 0
  {
    match e
    case Num(n) => Some(n)
    case Name(s) => if s in defs then Some(defs[s]) else None
    case Minus(l, r) =>
      var a, b := Calc(l, defs), Calc(r, defs);
      if a.Some? && b.Some? then Some(a.value - b.value) else None
    case Neg(f) => var a := Calc(f, defs); if a.Some? then Some(-a.value) else None
    case Pos(f) => Calc(f, defs)
    case Not(f) => var a := Calc(f, defs); if a.Some? then Some(if a.value == 0 then 1 else 0) else None
    case Both(l, r) =>
      var a := Calc(l, defs);
      if a.None? || a.value == 0 then a else Bool(Calc(r, defs))
    case Either(l, r) =>
      var a := Calc(l, defs);
      if a.None? then None else if a.value != 0 then Some(1) else Bool(Calc(r, defs))
    case Cond(c, t, f) =>
      var a := Calc(c, defs);
      if a.None? then None else if a.value != 0 then Calc(t, defs) else Calc(f, defs)
    case Elvis(c, f) =>
      var a := Calc(c, defs);
      if a.None? || a.value != 0 then a else Calc(f, defs)
    case List(items) => Digits(e, |items|, defs)
  }

  function Bool(a: Option<int>): Option<int> {
    if a.None? then None else Some(if a.value == 0 then 0 else 1)
  }

  function Digits(e: Expr, n: nat, defs: map<string, int>): Option<int>
    requires e.List? && n <= |e.items|
    decreases e, n
  {
    if n == 0 then Some(0)
    else
      var arr, it := Digits(e, n - 1, defs), e.items[n - 1];
      var v := Calc(it.value, defs);
      if arr.None? || v.None? then None
      else if it.key.None? then Some(1000 * arr.value + v.value)
      else
        var k := Calc(it.key.value, defs);
        if k.None? then None else Some(1000 * (1000 * arr.value + k.value) + v.value)
  }

  // The operators on integers.
  const ADD: nat := 1
  const SUB: nat := 2
  const NOT: nat := 13

  function Integers(defs: map<string, int>): Engine {
    Engine((op: nat, a: int, b: int) => if op == SUB then a - b else a + b,
           (op: nat, a: int) => if a == 0 then 1 else 0,
           (a: int) => a != 0, (b: bool) => if b then 1 else 0, 0, ADD, SUB, 0,
           (arr: int, key: Option<int>, v: int) =>
             if key.None? then 1000 * arr + v else 1000 * (1000 * arr + key.value) + v,
           (s: string, sc: Option<nat>) => if s in defs then Ok(defs[s]) else Err)
  }

  function Of(a: Option<int>): Outcome {
    if a.Some? then Ok(a.value) else Err
  }

  // The tree is what the compiler builds for e.
  ghost predicate Encodes(ast: Ast, cells: seq<Val>, e: Expr)
    decreases e, if e.List? then |e.items| + 1 else 0
  {
    match e
    case Num(n) => ast.Const? && ast.cell < |cells| && cells[ast.cell] == Plain(n)
    case Name(s) => ast.Const? && ast.cell < |cells| && cells[ast.cell] == Named(s)
    case Minus(l, r) =>
      Operands(ast, Binary(SUB), 2) && Encodes(Arg(ast, 0), cells, l) && Encodes(Arg(ast, 1), cells, r)
    case Neg(f) => Operands(ast, UnaryMinus, 1) && Encodes(Arg(ast, 0), cells, f)
    case Pos(f) => Operands(ast, UnaryPlus, 1) && Encodes(Arg(ast, 0), cells, f)
    case Not(f) => Operands(ast, Unary(NOT), 1) && Encodes(Arg(ast, 0), cells, f)
    case Both(l, r) => Operands(ast, And, 2) && Encodes(Arg(ast, 0), cells, l) && Encodes(Arg(ast, 1), cells, r)
    case Either(l, r) => Operands(ast, Or, 2) && Encodes(Arg(ast, 0), cells, l) && Encodes(Arg(ast, 1), cells, r)
    case Cond(c, t, f) =>
      && Operands(ast, Select, 3) && Encodes(Arg(ast, 0), cells, c) && Encodes(Arg(ast, 1), cells, t)
      && Encodes(Arg(ast, 2), cells, f)
    case Elvis(c, f) =>
      && ast.Node? && ast.kind == Select && |ast.children| == 3 && ast.children[0].Some? && ast.children[1].None?
      && ast.children[2].Some? && Encodes(Arg(ast, 0), cells, c) && Encodes(Arg(ast, 2), cells, f)
    case List(items) =>
      && ast.Node? && ast.kind == InitArray && |ast.children| == 2 * |items|
      && forall i :: 0 <= i < |items| ==> EncodesItem(ast, cells, e, i)
  }

  ghost predicate EncodesItem(ast: Ast, cells: seq<Val>, e: Expr, i: nat)
    requires e.List? && ast.Node? && |ast.children| == 2 * |e.items| && i < |e.items|
    decreases e, 0
  {
    && ast.children[2 * i + 1].Some? && Encodes(ast.children[2 * i + 1].value, cells, e.items[i].value)
    && (ast.children[2 * i].Some? <==> e.items[i].key.Some?)
    && (e.items[i].key.Some? && ast.children[2 * i].Some? ==>
          Encodes(ast.children[2 * i].value, cells, e.items[i].key.value))
  }

  ghost predicate Operands(ast: Ast, kind: Kind, n: nat) {
    ast.Node? && ast.kind == kind && |ast.children| == n && forall i :: 0 <= i < n ==> ast.children[i].Some?
  }

  ghost function Arg(ast: Ast, i: nat): Ast
    requires ast.Node? && i < |ast.children| && ast.children[i].Some?
  {
    ast.children[i].value
  }

  lemma {:induction false} EncodedWf(ast: Ast, cells: seq<Val>, e: Expr)
    requires Encodes(ast, cells, e)
    ensures Wf(ast, |cells|)
    decreases e
  {
    match e
    case Num(_) =>
    case Name(_) =>
    case Minus(l, r) => EncodedWf(Arg(ast, 0), cells, l); EncodedWf(Arg(ast, 1), cells, r);
    case Neg(f) => EncodedWf(Arg(ast, 0), cells, f);
    case Pos(f) => EncodedWf(Arg(ast, 0), cells, f);
    case Not(f) => EncodedWf(Arg(ast, 0), cells, f);
    case Both(l, r) => EncodedWf(Arg(ast, 0), cells, l); EncodedWf(Arg(ast, 1), cells, r);
    case Either(l, r) => EncodedWf(Arg(ast, 0), cells, l); EncodedWf(Arg(ast, 1), cells, r);
    case Cond(c, t, f) =>
      EncodedWf(Arg(ast, 0), cells, c);
      EncodedWf(Arg(ast, 1), cells, t);
      EncodedWf(Arg(ast, 2), cells, f);
    case Elvis(c, f) => EncodedWf(Arg(ast, 0), cells, c); EncodedWf(Arg(ast, 2), cells, f);
    case List(items) => ListWf(ast, cells, e);
  }

  lemma {:induction false} ListWf(ast: Ast, cells: seq<Val>, e: Expr)
    requires e.List? && Encodes(ast, cells, e)
    ensures Wf(ast, |cells|)
    decreases e, 0
  {
    forall i | 0 <= i < |ast.children|
      ensures ast.children[i].Some? ==> Wf(ast.children[i].value, |cells|)
      ensures i % 2 == 1 ==> ast.children[i].Some?
    {
      assert EncodesItem(ast, cells, e, i / 2);
      if i % 2 == 1 {
        EncodedWf(ast.children[2 * (i / 2) + 1].value, cells, e.items[i / 2].value);
      } else if ast.children[i].Some? {
        EncodedWf(ast.children[2 * (i / 2)].value, cells, e.items[i / 2].key.value);
      }
    }
  }

  // The operators on integers, node by node.
  ghost function IntWorld(cells: seq<Val>, sc: Option<nat>, defs: map<string, int>): World {
    World(cells, sc, Integers(defs))
  }

  lemma {:induction false} LeafMeans(ast: Ast, cells: seq<Val>, e: Expr, defs: map<string, int>, sc: Option<nat>)
    requires (e.Num? || e.Name?) && Encodes(ast, cells, e)
    ensures Wf(ast, |cells|) && Meaning(ast, IntWorld(cells, sc, defs)) == Of(Calc(e, defs))
  {
  }

  lemma {:induction false} OneMeans(ast: Ast, cells: seq<Val>, defs: map<string, int>, sc: Option<nat>)
    requires Wf(ast, |cells|) && ast.Node? && |ast.children| == 1 && ast.children[0].Some?
    ensures var w := IntWorld(cells, sc, defs);
      var a := Meaning(Arg(ast, 0), w);
      && (ast.kind == UnaryMinus ==> Meaning(ast, w) == if a.Ok? then Ok(-a.v) else Err)
      && (ast.kind == UnaryPlus ==> Meaning(ast, w) == a)
      && (ast.kind == Unary(NOT) ==> Meaning(ast, w) == if a.Ok? then Ok(if a.v == 0 then 1 else 0) else Err)
  {
  }

  lemma {:induction false} TwoMean(ast: Ast, cells: seq<Val>, defs: map<string, int>, sc: Option<nat>)
    requires Wf(ast, |cells|) && ast.Node? && |ast.children| == 2 && ast.children[0].Some? && ast.children[1].Some?
    ensures var w := IntWorld(cells, sc, defs);
      var a, b, r := Meaning(Arg(ast, 0), w), Meaning(Arg(ast, 1), w), Meaning(ast, w);
      && (ast.kind == Binary(SUB) ==> r == if a.Ok? && b.Ok? then Ok(a.v - b.v) else Err)
      && (ast.kind == And ==>
            r == if a.Err? then Err else if a.v == 0 then Ok(0)
                 else if b.Err? then Err else Ok(if b.v == 0 then 0 else 1))
      && (ast.kind == Or ==>
            r == if a.Err? then Err else if a.v != 0 then Ok(1)
                 else if b.Err? then Err else Ok(if b.v == 0 then 0 else 1))
  {
  }

  lemma {:induction false} ChoiceMeans(ast: Ast, cells: seq<Val>, defs: map<string, int>, sc: Option<nat>)
    requires Wf(ast, |cells|) && ast.Node? && ast.kind == Select
    ensures |ast.children| == 3 && ast.children[0].Some? && ast.children[2].Some?
    ensures var w := IntWorld(cells, sc, defs);
      var a, c := Meaning(Arg(ast, 0), w), Meaning(Arg(ast, 2), w);
      Meaning(ast, w) == if a.Err? then Err else if a.v == 0 then c
                         else if ast.children[1].None? then a else Meaning(Arg(ast, 1), w)
  {
  }

  lemma {:induction false} ItemMeans(ast: Ast, cells: seq<Val>, n: nat, defs: map<string, int>, sc: Option<nat>)
    requires Wf(ast, |cells|) && ast.Node? && ast.kind == InitArray && n % 2 == 0 && n + 2 <= |ast.children|
    ensures ast.children[n + 1].Some?
    ensures var w := IntWorld(cells, sc, defs);
      var arr, v := Items(ast, n, w), Meaning(Arg(ast, n + 1), w);
      Items(ast, n + 2, w) ==
        if ast.children[n].None? then (if arr.Ok? && v.Ok? then Ok(1000 * arr.v + v.v) else Err)
        else
          var k := Meaning(Arg(ast, n), w);
          if arr.Ok? && k.Ok? && v.Ok? then Ok(1000 * (1000 * arr.v + k.v) + v.v) else Err
  {
    assert (n + 1) % 2 == 1;
  }

  // Every expression has the value that arithmetic gives it: operands in their order, the second
  // operand of a decided conjunction or disjunction and the branch not taken play no part, and the
  // items of a list come one after the other.
  lemma {:induction false} EncodedMeans(ast: Ast, cells: seq<Val>, e: Expr, defs: map<string, int>, sc: Option<nat>)
    requires Encodes(ast, cells, e)
    ensures Wf(ast, |cells|) && Meaning(ast, IntWorld(cells, sc, defs)) == Of(Calc(e, defs))
    decreases e, if e.List? then |e.items| + 1 else 1
  {
    hide Meaning, Wf, IntWorld, Items, Digits;
    EncodedWf(ast, cells, e);
    match e
    case Num(_) => LeafMeans(ast, cells, e, defs, sc);
    case Name(_) => LeafMeans(ast, cells, e, defs, sc);
    case Neg(f) => EncodedMeans(Arg(ast, 0), cells, f, defs, sc); OneMeans(ast, cells, defs, sc);
    case Pos(f) => EncodedMeans(Arg(ast, 0), cells, f, defs, sc); OneMeans(ast, cells, defs, sc);
    case Not(f) => EncodedMeans(Arg(ast, 0), cells, f, defs, sc); OneMeans(ast, cells, defs, sc);
    case Minus(l, r) => BothMean(ast, cells, e, l, r, defs, sc); TwoMean(ast, cells, defs, sc);
    case Both(l, r) => BothMean(ast, cells, e, l, r, defs, sc); TwoMean(ast, cells, defs, sc);
    case Either(l, r) => BothMean(ast, cells, e, l, r, defs, sc); TwoMean(ast, cells, defs, sc);
    case Cond(_, _, _) => EitherMeans(ast, cells, e, defs, sc);
    case Elvis(_, _) => EitherMeans(ast, cells, e, defs, sc);
    case List(items) => ListMeans(ast, cells, e, |items|, defs, sc); ArrayMeans(ast, cells, defs, sc);
  }

  lemma {:induction false} EitherMeans(ast: Ast, cells: seq<Val>, e: Expr, defs: map<string, int>, sc: Option<nat>)
    requires (e.Cond? || e.Elvis?) && Encodes(ast, cells, e) && Wf(ast, |cells|)
    ensures Meaning(ast, IntWorld(cells, sc, defs)) == Of(Calc(e, defs))
    decreases e, 0
  {
    hide Meaning, Wf, IntWorld;
    EncodedMeans(Arg(ast, 0), cells, e.c, defs, sc);
    if e.Cond? { EncodedMeans(Arg(ast, 1), cells, e.t, defs, sc); }
    EncodedMeans(Arg(ast, 2), cells, e.f, defs, sc);
    ChoiceMeans(ast, cells, defs, sc);
  }

  lemma {:induction false} BothMean(ast: Ast, cells: seq<Val>, e: Expr, l: Expr, r: Expr, defs: map<string, int>,
      sc: Option<nat>)
    requires l < e && r < e && ast.Node? && |ast.children| == 2 && ast.children[0].Some? && ast.children[1].Some?
    requires Encodes(Arg(ast, 0), cells, l) && Encodes(Arg(ast, 1), cells, r)
    ensures Wf(Arg(ast, 0), |cells|) && Meaning(Arg(ast, 0), IntWorld(cells, sc, defs)) == Of(Calc(l, defs))
    ensures Wf(Arg(ast, 1), |cells|) && Meaning(Arg(ast, 1), IntWorld(cells, sc, defs)) == Of(Calc(r, defs))
    decreases e, 0
  {
    hide Meaning, Wf, IntWorld, Encodes, Calc;
    EncodedMeans(Arg(ast, 0), cells, l, defs, sc);
    EncodedMeans(Arg(ast, 1), cells, r, defs, sc);
  }

  lemma {:induction false} ArrayMeans(ast: Ast, cells: seq<Val>, defs: map<string, int>, sc: Option<nat>)
    requires Wf(ast, |cells|) && ast.Node? && ast.kind == InitArray
    ensures |ast.children| % 2 == 0
    ensures var w := IntWorld(cells, sc, defs); Meaning(ast, w) == Items(ast, |ast.children|, w)
  {
  }

  lemma {:induction false} NoItemsMean(ast: Ast, cells: seq<Val>, defs: map<string, int>, sc: Option<nat>)
    requires Wf(ast, |cells|) && ast.Node? && ast.kind == InitArray
    ensures Items(ast, 0, IntWorld(cells, sc, defs)) == Ok(0)
  {
  }

  lemma {:induction false} ListMeans(ast: Ast, cells: seq<Val>, e: Expr, n: nat, defs: map<string, int>,
      sc: Option<nat>)
    requires e.List? && n <= |e.items| && Encodes(ast, cells, e)
    ensures Wf(ast, |cells|) && Items(ast, 2 * n, IntWorld(cells, sc, defs)) == Of(Digits(e, n, defs))
    decreases e, n
  {
    hide Meaning, Wf, IntWorld, Items, Calc;
    EncodedWf(ast, cells, e);
    if n == 0 {
      NoItemsMean(ast, cells, defs, sc);
    } else {
      ListMeans(ast, cells, e, n - 1, defs, sc);
      assert EncodesItem(ast, cells, e, n - 1);
      EncodedMeans(ast.children[2 * (n - 1) + 1].value, cells, e.items[n - 1].value, defs, sc);
      if e.items[n - 1].key.Some? {
        EncodedMeans(ast.children[2 * (n - 1)].value, cells, e.items[n - 1].key.value, defs, sc);
      }
      ItemMeans(ast, cells, 2 * (n - 1), defs, sc);
      assert 2 * n == 2 * (n - 1) + 2;
    }
  }

  // ---------- building and evaluating ----------

  // More cells change nothing.
  lemma {:induction false} EncodesLonger(ast: Ast, cells: seq<Val>, more: seq<Val>, e: Expr)
    requires Encodes(ast, cells, e) && cells <= more
    ensures Encodes(ast, more, e)
    decreases e
  {
    match e
    case Num(_) =>
    case Name(_) =>
    case Minus(l, r) => EncodesLonger(Arg(ast, 0), cells, more, l); EncodesLonger(Arg(ast, 1), cells, more, r);
    case Neg(f) => EncodesLonger(Arg(ast, 0), cells, more, f);
    case Pos(f) => EncodesLonger(Arg(ast, 0), cells, more, f);
    case Not(f) => EncodesLonger(Arg(ast, 0), cells, more, f);
    case Both(l, r) => EncodesLonger(Arg(ast, 0), cells, more, l); EncodesLonger(Arg(ast, 1), cells, more, r);
    case Either(l, r) => EncodesLonger(Arg(ast, 0), cells, more, l); EncodesLonger(Arg(ast, 1), cells, more, r);
    case Cond(c, t, f) =>
      EncodesLonger(Arg(ast, 0), cells, more, c);
      EncodesLonger(Arg(ast, 1), cells, more, t);
      EncodesLonger(Arg(ast, 2), cells, more, f);
    case Elvis(c, f) => EncodesLonger(Arg(ast, 0), cells, more, c); EncodesLonger(Arg(ast, 2), cells, more, f);
    case List(items) =>
      forall i | 0 <= i < |items|
        ensures EncodesItem(ast, more, e, i)
      {
        assert EncodesItem(ast, cells, e, i);
        ItemLonger(ast, cells, more, e, i);
      }
  }

  lemma {:induction false} ItemLonger(ast: Ast, cells: seq<Val>, more: seq<Val>, e: Expr, i: nat)
    requires e.List? && ast.Node? && |ast.children| == 2 * |e.items| && i < |e.items| && EncodesItem(ast, cells, e, i)
    requires cells <= more
    ensures EncodesItem(ast, more, e, i)
    decreases e, 0
  {
    EncodesLonger(ast.children[2 * i + 1].value, cells, more, e.items[i].value);
    if e.items[i].key.Some? { EncodesLonger(ast.children[2 * i].value, cells, more, e.items[i].key.value); }
  }

  // A tree for e, with its leaves in new cells.
  method Build(e: Expr, cells0: seq<Val>) returns (ast: Ast, cells: seq<Val>)
    ensures cells0 <= cells && Encodes(ast, cells, e)
    decreases e, if e.List? then |e.items| + 1 else 1
  {
    hide Encodes;
    cells := cells0;
    match e
    case Num(n) => ast, cells := Const(|cells0|), cells0 + [Plain(n)]; LeafBuilt(ast, cells, e);
    case Name(s) => ast, cells := Const(|cells0|), cells0 + [Named(s)]; LeafBuilt(ast, cells, e);
    case Minus(l, r) => ast, cells := BuildTwo(e, Binary(SUB), l, r, cells0); TwoBuilt(ast, cells, e);
    case Both(l, r) => ast, cells := BuildTwo(e, And, l, r, cells0); TwoBuilt(ast, cells, e);
    case Either(l, r) => ast, cells := BuildTwo(e, Or, l, r, cells0); TwoBuilt(ast, cells, e);
    case Neg(f) => var a; a, cells := Build(f, cells0); ast := Node(UnaryMinus, [Some(a)]); OneBuilt(ast, cells, e);
    case Pos(f) => var a; a, cells := Build(f, cells0); ast := Node(UnaryPlus, [Some(a)]); OneBuilt(ast, cells, e);
    case Not(f) => var a; a, cells := Build(f, cells0); ast := Node(Unary(NOT), [Some(a)]); OneBuilt(ast, cells, e);
    case Cond(c, t, f) =>
      var a, b, d, cells1, cells2;
      a, cells1 := Build(c, cells0);
      b, cells2 := Build(t, cells1);
      d, cells := Build(f, cells2);
      ast := Node(Select, [Some(a), Some(b), Some(d)]);
      EncodesLonger(a, cells1, cells, c);
      EncodesLonger(b, cells2, cells, t);
      ChoiceBuilt(ast, cells, e);
    case Elvis(c, f) =>
      var a, d, cells1;
      a, cells1 := Build(c, cells0);
      d, cells := Build(f, cells1);
      ast := Node(Select, [Some(a), None, Some(d)]);
      EncodesLonger(a, cells1, cells, c);
      ChoiceBuilt(ast, cells, e);
    case List(_) => ast, cells := BuildList(e, cells0);
  }

  method BuildTwo(e: Expr, kind: Kind, l: Expr, r: Expr, cells0: seq<Val>) returns (ast: Ast, cells: seq<Val>)
    requires l < e && r < e
    ensures cells0 <= cells && ast.Node? && ast.kind == kind && |ast.children| == 2
    ensures ast.children[0].Some? && ast.children[1].Some?
    ensures Encodes(Arg(ast, 0), cells, l) && Encodes(Arg(ast, 1), cells, r)
    decreases e, 0
  {
    hide Encodes;
    var a, b, cells1;
    a, cells1 := Build(l, cells0);
    b, cells := Build(r, cells1);
    EncodesLonger(a, cells1, cells, l);
    ast := Node(kind, [Some(a), Some(b)]);
  }

  method BuildList(e: Expr, cells0: seq<Val>) returns (ast: Ast, cells: seq<Val>)
    requires e.List?
    ensures cells0 <= cells && Encodes(ast, cells, e)
    decreases e, 0
  {
    hide Encodes, EncodesItem;
    ast, cells := Node(InitArray, []), cells0;
    var i := 0;
    while i < |e.items|
      invariant i <= |e.items| && cells0 <= cells && ast.Node? && ast.kind == InitArray && |ast.children| == 2 * i
      invariant forall j :: 0 <= j < i ==> EncodesPair(ast.children[2 * j], ast.children[2 * j + 1], cells, e.items[j])
    {
      var it := e.items[i];
      ghost var was, c := ast.children, cells;
      var key, a := None, ast;
      if it.key.Some? {
        a, cells := Build(it.key.value, cells);
        key := Some(a);
      }
      ghost var cells1 := cells;
      var v;
      v, cells := Build(it.value, cells);
      if it.key.Some? { EncodesLonger(a, cells1, cells, it.key.value); }
      forall j | 0 <= j < i
        ensures EncodesPair(was[2 * j], was[2 * j + 1], cells, e.items[j])
      {
        PairLonger(was[2 * j], was[2 * j + 1], c, cells, e.items[j]);
      }
      ast := Node(InitArray, ast.children + [key, Some(v)]);
      i := i + 1;
    }
    ListBuilt(ast, cells, e);
  }

  ghost predicate EncodesPair(key: Option<Ast>, v: Option<Ast>, cells: seq<Val>, it: Item) {
    && v.Some? && Encodes(v.value, cells, it.value) && (key.Some? <==> it.key.Some?)
    && (it.key.Some? && key.Some? ==> Encodes(key.value, cells, it.key.value))
  }

  lemma {:induction false} PairLonger(key: Option<Ast>, v: Option<Ast>, cells: seq<Val>, more: seq<Val>, it: Item)
    requires EncodesPair(key, v, cells, it) && cells <= more
    ensures EncodesPair(key, v, more, it)
  {
    hide Encodes;
    EncodesLonger(v.value, cells, more, it.value);
    if key.Some? { EncodesLonger(key.value, cells, more, it.key.value); }
  }

  lemma {:induction false} ListBuilt(ast: Ast, cells: seq<Val>, e: Expr)
    requires e.List? && ast.Node? && ast.kind == InitArray && |ast.children| == 2 * |e.items|
    requires forall j :: 0 <= j < |e.items| ==>
      EncodesPair(ast.children[2 * j], ast.children[2 * j + 1], cells, e.items[j])
    ensures Encodes(ast, cells, e)
  {
    forall j | 0 <= j < |e.items|
      ensures EncodesItem(ast, cells, e, j)
    {
      assert EncodesPair(ast.children[2 * j], ast.children[2 * j + 1], cells, e.items[j]);
    }
  }

  lemma {:induction false} LeafBuilt(ast: Ast, cells: seq<Val>, e: Expr)
    requires (e.Num? || e.Name?) && cells != [] && ast == Const(|cells| - 1)
    requires cells[|cells| - 1] == if e.Num? then Plain(e.n) else Named(e.s)
    ensures Encodes(ast, cells, e)
  {
  }

  lemma {:induction false} OneBuilt(ast: Ast, cells: seq<Val>, e: Expr)
    requires (e.Neg? || e.Pos? || e.Not?) && ast.Node? && |ast.children| == 1 && ast.children[0].Some?
    requires ast.kind == if e.Neg? then UnaryMinus else if e.Pos? then UnaryPlus else Unary(NOT)
    requires Encodes(Arg(ast, 0), cells, e.e)
    ensures Encodes(ast, cells, e)
  {
  }

  lemma {:induction false} TwoBuilt(ast: Ast, cells: seq<Val>, e: Expr)
    requires (e.Minus? || e.Both? || e.Either?) && ast.Node? && |ast.children| == 2
    requires ast.children[0].Some? && ast.children[1].Some?
    requires ast.kind == if e.Minus? then Binary(SUB) else if e.Both? then And else Or
    requires Encodes(Arg(ast, 0), cells, e.l) && Encodes(Arg(ast, 1), cells, e.r)
    ensures Encodes(ast, cells, e)
  {
  }

  lemma {:induction false} ChoiceBuilt(ast: Ast, cells: seq<Val>, e: Expr)
    requires (e.Cond? || e.Elvis?) && ast.Node? && ast.kind == Select && |ast.children| == 3
    requires ast.children[0].Some? && ast.children[2].Some? && (ast.children[1].Some? <==> e.Cond?)
    requires Encodes(Arg(ast, 0), cells, e.c) && Encodes(Arg(ast, 2), cells, e.f)
    requires e.Cond? ==> Encodes(Arg(ast, 1), cells, e.t)
    ensures Encodes(ast, cells, e)
  {
  }

  // Building the tree of an expression and evaluating it, in a scope or without one, gives its value;
  // it fails if and only if a name that is needed has no value.
  method Compute(e: Expr, sc: Option<nat>, defs: map<string, int>) returns (r: Outcome)
    ensures r == Of(Calc(e, defs))
  {
    hide Encodes, Calc, Meaning, Wf, Evaluated, Yields;
    var ast, cells := Build(e, []);
    EncodedMeans(ast, cells, e, defs, sc);
    var a := new Val[|cells|](i requires 0 <= i < |cells| => cells[i]);
    assert a[..] == cells;
    r := Evaluate(ast, sc, Integers(defs), a);
    FirstMeans(ast, IntWorld(cells, sc, defs), a[..], r);
  }

  // 7 - 2, and a choice by a true condition, with a name that has no value in the branch not taken.
  lemma {:induction false} Examples(x: int)
    ensures Calc(Minus(Num(7), Num(2)), map[]) == Some(5)
    ensures Calc(Cond(Num(1), Num(x), Name("y")), map[]) == Some(x)
    ensures Calc(Cond(Num(0), Name("y"), Num(x)), map[]) == Some(x)
    ensures Calc(Both(Num(0), Name("y")), map[]) == Some(0) && Calc(Either(Num(1), Name("y")), map[]) == Some(1)
    ensures Calc(Minus(Num(x), Name("y")), map[]) == None
  {
  }
}
