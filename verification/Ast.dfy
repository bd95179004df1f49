// Constant expressions: trees whose leaves are values or names of constants. Evaluating a tree in the
// scope of a class writes the values of the names it visits into the leaves.
module Ast {
  import opened Wrappers

  // Values that are not constants, by number; the operators on them are functions of any kind.
  type Value = int

  // A leaf, which is stored in a cell.
  datatype Val = Plain(v: Value) | Named(name: string)

  datatype Kind =
    | Binary(op: nat)      // the arithmetic, bitwise and comparison operators, and the fetch of a dimension
    | Unary(op: nat)       // the bitwise and the boolean not
    | And | Or | Select | UnaryPlus | UnaryMinus | InitArray
    | Unsupported

  datatype Ast = Const(cell: nat) | Node(kind: Kind, children: seq<Option<Ast>>)

  // A value, or the exit through a fatal error.
  datatype Outcome = Ok(v: Value) | Err

  // What the evaluator calls: the operators, truth, and the lookup of a constant, in the scope of a
  // class or without one.
  datatype Engine = Engine(
    binary: (nat, Value, Value) -> Value, unary: (nat, Value) -> Value,
    truth: Value -> bool, ofBool: bool -> Value, zero: Value, plus: nat, minus: nat,
    emptyArray: Value, add: (Value, Option<Value>, Value) -> Value,
    resolve: (string, Option<nat>) -> Outcome)

  // Trees as the compiler builds them, with n cells.
  predicate Wf(ast: Ast, n: nat) {
    match ast
    case Const(c) => c < n
    case Node(kind, cs) =>
      && (forall i :: 0 <= i < |cs| && cs[i].Some? ==> Wf(cs[i].value, n))
      && ShapeOk(kind, cs)
  }

  // The children that a node of this kind has.
  predicate ShapeOk(kind: Kind, cs: seq<Option<Ast>>) {
    match kind
    case Binary(_) => |cs| == 2 && cs[0].Some? && cs[1].Some?
    case And => |cs| == 2 && cs[0].Some? && cs[1].Some?
    case Or => |cs| == 2 && cs[0].Some? && cs[1].Some?
    case Unary(_) => |cs| == 1 && cs[0].Some?
    case UnaryPlus => |cs| == 1 && cs[0].Some?
    case UnaryMinus => |cs| == 1 && cs[0].Some?
    case Select => |cs| == 3 && cs[0].Some? && cs[2].Some?
    case InitArray => |cs| % 2 == 0 && forall i :: 0 <= i < |cs| && i % 2 == 1 ==> cs[i].Some?
    case Unsupported => true
  }

  // zend_ast_is_ct_constant
  predicate IsCtConstant(ast: Ast, cells: seq<Val>)
    requires Wf(ast, |cells|)
  {
    match ast
    case Const(c) => cells[c].Plain?
    case Node(_, cs) => forall i :: 0 <= i < |cs| && cs[i].Some? ==> IsCtConstant(cs[i].value, cells)
  }

  // ---------- the meaning of a tree ----------

  // Cells, a scope or none, and an engine.
  datatype World = World(cells: seq<Val>, sc: Option<nat>, e: Engine)

  function Leaf(c: nat, w: World): Outcome
    requires c < |w.cells|
  {
    if w.cells[c].Plain? then Ok(w.cells[c].v) else w.e.resolve(w.cells[c].name, w.sc)
  }

  // The value of a tree: every name stands for what the lookup says.
  function Meaning(ast: Ast, w: World): Outcome
    requires Wf(ast, |w.cells|)
    decreases ast, if ast.Node? then |ast.children| + 1 else 0
  {
    match ast
    case Const(c) => Leaf(c, w)
    case Node(kind, cs) =>
      if kind.Unsupported? then Err
      else if kind.InitArray? then Items(ast, |cs|, w)
      else
        var a := Meaning(cs[0].value, w);
        if a.Err? then Err
        else match kind
             case Binary(op) =>
               var b := Meaning(cs[1].value, w);
               if b.Ok? then Ok(w.e.binary(op, a.v, b.v)) else Err
             case Unary(op) => Ok(w.e.unary(op, a.v))
             case And =>
               if !w.e.truth(a.v) then Ok(w.e.ofBool(false))
               else
                 var b := Meaning(cs[1].value, w);
                 if b.Ok? then Ok(w.e.ofBool(w.e.truth(b.v))) else Err
             case Or =>
               if w.e.truth(a.v) then Ok(w.e.ofBool(true))
               else
                 var b := Meaning(cs[1].value, w);
                 if b.Ok? then Ok(w.e.ofBool(w.e.truth(b.v))) else Err
             case Select =>
               if !w.e.truth(a.v) then Meaning(cs[2].value, w) else if cs[1].None? then a else Meaning(cs[1].value, w)
             case UnaryPlus => Ok(w.e.binary(w.e.plus, w.e.zero, a.v))
             case UnaryMinus => Ok(w.e.binary(w.e.minus, w.e.zero, a.v))
  }

  // The array of the items in the first n children; an item is a key, which may be missing, and a
  // value.
  function Items(ast: Ast, n: nat, w: World): Outcome
    requires Wf(ast, |w.cells|) && ast.Node? && ast.kind.InitArray? && n <= |ast.children| && n % 2 == 0
    decreases ast, n
  {
    if n == 0 then Ok(w.e.emptyArray)
    else
      var arr := Items(ast, n - 2, w);
      if arr.Err? then Err
      else
        var key := Key(ast, n - 2, w);
        if key.Err? then Err
        else
          var v := Meaning(ast.children[n - 1].value, w);
          if v.Err? then Err else Ok(w.e.add(arr.v, if ast.children[n - 2].Some? then Some(key.v) else None, v.v))
  }

  function Key(ast: Ast, i: nat, w: World): Outcome
    requires Wf(ast, |w.cells|) && ast.Node? && i < |ast.children|
    decreases ast, 0
  {
    if ast.children[i].Some? then Meaning(ast.children[i].value, w) else Ok(0)
  }

  // ---------- the meaning, rule by rule ----------

  // Tree ast yields r: a leaf its value, a node what the rule of its kind makes of the outcomes of its
  // children.
  ghost predicate Yields(ast: Ast, w: World, r: Outcome)
    requires Wf(ast, |w.cells|)
    decreases ast, 1
  {
    match ast
    case Const(c) =>
      match w.cells[c] {
        case Plain(v) => r == Ok(v)
        case Named(name) => r == w.e.resolve(name, w.sc)
      }
    case Node(kind, cs) => exists rs :: ChildrenYield(ast, w, rs) && Rule(kind, cs, w.e, rs, r)
  }

  ghost predicate ChildrenYield(ast: Ast, w: World, rs: seq<Outcome>)
    requires Wf(ast, |w.cells|) && ast.Node?
    decreases ast, 0
  {
    && |rs| == |ast.children|
    && forall i :: 0 <= i < |rs| && ast.children[i].Some? ==> Yields(ast.children[i].value, w, rs[i])
  }

  // The rules. An error of a child that is needed is the error of the node.
  ghost predicate Rule(kind: Kind, cs: seq<Option<Ast>>, e: Engine, rs: seq<Outcome>, r: Outcome)
    requires |rs| == |cs| && ShapeOk(kind, cs)
  {
    match kind
    case Unsupported => r == Err
    case Unary(op) => NeedsFirst(rs, r) && (rs[0].Ok? ==> r == Ok(e.unary(op, rs[0].v)))
    case UnaryPlus => NeedsFirst(rs, r) && (rs[0].Ok? ==> r == Ok(e.binary(e.plus, e.zero, rs[0].v)))
    case UnaryMinus => NeedsFirst(rs, r) && (rs[0].Ok? ==> r == Ok(e.binary(e.minus, e.zero, rs[0].v)))
    case Binary(op) =>
      && NeedsFirst(rs, r) && (rs[1].Err? ==> r == Err)
      && (rs[0].Ok? && rs[1].Ok? ==> r == Ok(e.binary(op, rs[0].v, rs[1].v)))
    case And =>
      && NeedsFirst(rs, r)
      && (rs[0].Ok? && !e.truth(rs[0].v) ==> r == Ok(e.ofBool(false)))
      && (rs[0].Ok? && e.truth(rs[0].v) ==> r == if rs[1].Ok? then Ok(e.ofBool(e.truth(rs[1].v))) else Err)
    case Or =>
      && NeedsFirst(rs, r)
      && (rs[0].Ok? && e.truth(rs[0].v) ==> r == Ok(e.ofBool(true)))
      && (rs[0].Ok? && !e.truth(rs[0].v) ==> r == if rs[1].Ok? then Ok(e.ofBool(e.truth(rs[1].v))) else Err)
    case Select =>
      && NeedsFirst(rs, r)
      && (rs[0].Ok? && e.truth(rs[0].v) ==> r == if cs[1].Some? then rs[1] else rs[0])
      && (rs[0].Ok? && !e.truth(rs[0].v) ==> r == rs[2])
    case InitArray => r == Gathered(cs, e, rs, |cs|)
  }

  ghost predicate NeedsFirst(rs: seq<Outcome>, r: Outcome)
    requires rs != []
  {
    rs[0].Err? ==> r == Err
  }

  // The items in the first n children, added to the array one after the other.
  ghost function Gathered(cs: seq<Option<Ast>>, e: Engine, rs: seq<Outcome>, n: nat): Outcome
    requires |rs| == |cs| && n <= |cs| && n % 2 == 0
  {
    if n == 0 then Ok(e.emptyArray)
    else
      var arr, key, v := Gathered(cs, e, rs, n - 2), rs[n - 2], rs[n - 1];
      if arr.Err? || v.Err? || (cs[n - 2].Some? && key.Err?) then Err
      else Ok(e.add(arr.v, if cs[n - 2].Some? then Some(key.v) else None, v.v))
  }

  // A tree yields its meaning and nothing else.
  lemma {:induction false} YieldsMeaning(ast: Ast, w: World, r: Outcome)
    requires Wf(ast, |w.cells|)
    ensures Yields(ast, w, r) <==> r == Meaning(ast, w)
    decreases ast
  {
    if ast.Node? {
      hide Meaning, Rule;
      forall rs
        ensures ChildrenYield(ast, w, rs) <==> ChildrenMean(ast, w, rs)
      {
        ChildrenYieldMeaning(ast, w, rs);
      }
      forall rs | ChildrenMean(ast, w, rs)
        ensures Rule(ast.kind, ast.children, w.e, rs, r) <==> r == Meaning(ast, w)
      {
        RuleMeans(ast, w, rs, r);
      }
      var rs := MeaningsOf(ast, w);
    }
  }

  // Every child has its meaning.
  ghost predicate ChildrenMean(ast: Ast, w: World, rs: seq<Outcome>)
    requires Wf(ast, |w.cells|) && ast.Node?
  {
    && |rs| == |ast.children|
    && forall i :: 0 <= i < |rs| && ast.children[i].Some? ==> rs[i] == Meaning(ast.children[i].value, w)
  }

  lemma {:induction false} ChildrenYieldMeaning(ast: Ast, w: World, rs: seq<Outcome>)
    requires Wf(ast, |w.cells|) && ast.Node?
    ensures ChildrenYield(ast, w, rs) <==> ChildrenMean(ast, w, rs)
    decreases ast, 0
  {
    hide Meaning, Yields;
    if |rs| == |ast.children| {
      forall i | 0 <= i < |rs| && ast.children[i].Some?
        ensures Yields(ast.children[i].value, w, rs[i]) <==> rs[i] == Meaning(ast.children[i].value, w)
      {
        YieldsMeaning(ast.children[i].value, w, rs[i]);
      }
    }
  }

  lemma {:induction false} MeaningsOf(ast: Ast, w: World) returns (rs: seq<Outcome>)
    requires Wf(ast, |w.cells|) && ast.Node?
    ensures ChildrenMean(ast, w, rs)
  {
    hide Meaning;
    var cs := ast.children;
    rs := seq(|cs|, i requires 0 <= i < |cs| => if cs[i].Some? then Meaning(cs[i].value, w) else Err);
  }

  lemma {:induction false} RuleMeans(ast: Ast, w: World, rs: seq<Outcome>, r: Outcome)
    requires Wf(ast, |w.cells|) && ast.Node? && ChildrenMean(ast, w, rs)
    ensures Rule(ast.kind, ast.children, w.e, rs, r) <==> r == Meaning(ast, w)
  {
    if ast.kind.InitArray? { GatheredItems(ast, |ast.children|, w, rs); }
  }

  lemma {:induction false} GatheredItems(ast: Ast, n: nat, w: World, rs: seq<Outcome>)
    requires Wf(ast, |w.cells|) && ast.Node? && ast.kind.InitArray? && n <= |ast.children| && n % 2 == 0
    requires ChildrenMean(ast, w, rs)
    ensures Gathered(ast.children, w.e, rs, n) == Items(ast, n, w)
  {
    if n != 0 { GatheredItems(ast, n - 2, w, rs); }
  }

  // So what a tree yields is determined.
  lemma {:induction false} YieldsOne(ast: Ast, w: World, r: Outcome, s: Outcome)
    requires Wf(ast, |w.cells|) && Yields(ast, w, r) && Yields(ast, w, s)
    ensures r == s
  {
    YieldsMeaning(ast, w, r);
    YieldsMeaning(ast, w, s);
  }

  // ---------- trees that agree leaf by leaf ----------

  // Two trees of the same shape; a leaf that has a value on the left has the same on the right.
  ghost predicate Match(a: Ast, w: World, b: Ast, x: World)
    requires Wf(a, |w.cells|) && Wf(b, |x.cells|)
    decreases a
  {
    match a
    case Const(c) => b.Const? && (Leaf(c, w).Ok? ==> Leaf(b.cell, x) == Leaf(c, w))
    case Node(kind, cs) =>
      && b.Node? && b.kind == kind && |b.children| == |cs|
      && (forall i :: 0 <= i < |cs| ==> (cs[i].Some? <==> b.children[i].Some?))
      && (forall i :: 0 <= i < |cs| && cs[i].Some? && b.children[i].Some? ==>
        Match(cs[i].value, w, b.children[i].value, x))
  }

  ghost predicate SameOperators(e: Engine, f: Engine) {
    f == e.(resolve := f.resolve)
  }

  // Then a value of the left tree is the value of the right tree.
  lemma {:induction false} MatchMeans(a: Ast, w: World, b: Ast, x: World)
    requires Wf(a, |w.cells|) && Wf(b, |x.cells|) && Match(a, w, b, x) && SameOperators(w.e, x.e)
    ensures Meaning(a, w).Ok? ==> Meaning(b, x) == Meaning(a, w)
    decreases a, if a.Node? then |a.children| + 1 else 0
  {
    if a.Node? && !a.kind.Unsupported? {
      if a.kind.InitArray? {
        MatchItems(a, w, b, x, |a.children|);
      } else {
        forall i | 0 <= i < |a.children| && a.children[i].Some?
          ensures Meaning(a.children[i].value, w).Ok? ==>
            Meaning(b.children[i].value, x) == Meaning(a.children[i].value, w)
        {
          MatchMeans(a.children[i].value, w, b.children[i].value, x);
        }
      }
    }
  }

  lemma {:induction false} MatchItems(a: Ast, w: World, b: Ast, x: World, n: nat)
    requires Wf(a, |w.cells|) && Wf(b, |x.cells|) && Match(a, w, b, x) && SameOperators(w.e, x.e)
    requires a.Node? && a.kind.InitArray? && n <= |a.children| && n % 2 == 0
    ensures Items(a, n, w).Ok? ==> Items(b, n, x) == Items(a, n, w)
    decreases a, n
  {
    if n != 0 {
      MatchItems(a, w, b, x, n - 2);
      if a.children[n - 2].Some? { MatchMeans(a.children[n - 2].value, w, b.children[n - 2].value, x); }
      MatchMeans(a.children[n - 1].value, w, b.children[n - 1].value, x);
    }
  }

  // ---------- independence of constants ----------

  // The lookup that finds nothing.
  ghost function Blind(e: Engine): Engine {
    e.(resolve := (_: string, _: Option<nat>) => Err)
  }

  // The value of the tree needs no lookup.
  ghost predicate Settled(ast: Ast, cells: seq<Val>, e: Engine, v: Value)
    requires Wf(ast, |cells|)
  {
    Meaning(ast, World(cells, None, Blind(e))) == Ok(v)
  }

  // The same cells, except that names may have become values.
  ghost predicate Keeps(c: seq<Val>, d: seq<Val>) {
    |c| == |d| && forall i :: 0 <= i < |c| && c[i].Plain? ==> d[i] == c[i]
  }

  lemma {:induction false} BlindMatch(ast: Ast, w: World, x: World)
    requires Wf(ast, |w.cells|) && Keeps(w.cells, x.cells) && w.e == Blind(x.e)
    ensures Match(ast, w, ast, x)
  {
    if ast.Node? {
      forall i | 0 <= i < |ast.children| && ast.children[i].Some?
        ensures Match(ast.children[i].value, w, ast.children[i].value, x)
      {
        BlindMatch(ast.children[i].value, w, x);
      }
    }
  }

  // A tree that needs no lookup has its value in every scope and with all constants, and keeps it
  // when more names become values.
  lemma {:induction false} SettledAlways(ast: Ast, cells: seq<Val>, e: Engine, v: Value, x: World)
    requires Wf(ast, |cells|) && Settled(ast, cells, e, v) && Keeps(cells, x.cells) && SameOperators(e, x.e)
    ensures Meaning(ast, x) == Ok(v) && Settled(ast, x.cells, e, v)
  {
    var w, y := World(cells, None, Blind(e)), World(x.cells, None, Blind(e));
    assert Blind(e) == Blind(x.e);
    BlindMatch(ast, w, x);
    MatchMeans(ast, w, ast, x);
    assert Blind(e) == Blind(y.e);
    BlindMatch(ast, w, y);
    MatchMeans(ast, w, ast, y);
  }

  // A compile-time constant evaluates alike, to a value or an error, in every scope and with all
  // constants.
  lemma {:induction false} CtConstantIsIndependent(ast: Ast, cells: seq<Val>, sc: Option<nat>, e: Engine,
      sc': Option<nat>, e': Engine)
    requires Wf(ast, |cells|) && IsCtConstant(ast, cells) && SameOperators(e, e')
    ensures Meaning(ast, World(cells, sc, e)) == Meaning(ast, World(cells, sc', e'))
  {
    var w, x := World(cells, sc, e), World(cells, sc', e');
    CtMatch(ast, w, x);
    CtMatch(ast, x, w);
    MatchMeans(ast, w, ast, x);
    MatchMeans(ast, x, ast, w);
  }

  // A compile-time constant is a tree whose leaves all have values.
  lemma {:induction false} CtConstantIff(ast: Ast, cells: seq<Val>)
    requires Wf(ast, |cells|)
    ensures IsCtConstant(ast, cells) <==> forall c: nat :: Mentions(ast, c) && c < |cells| ==> cells[c].Plain?
  {
    match ast
    case Const(_) =>
    case Node(_, cs) =>
      forall i | 0 <= i < |cs| && cs[i].Some?
        ensures IsCtConstant(cs[i].value, cells) <==>
          forall c: nat :: Mentions(cs[i].value, c) && c < |cells| ==> cells[c].Plain?
      {
        CtConstantIff(cs[i].value, cells);
      }
      forall i, c: nat | 0 <= i < |cs| && cs[i].Some? && Mentions(cs[i].value, c)
        ensures Mentions(ast, c)
      {
      }
  }

  lemma {:induction false} CtMatch(ast: Ast, w: World, x: World)
    requires Wf(ast, |w.cells|) && IsCtConstant(ast, w.cells) && x.cells == w.cells
    ensures Match(ast, w, ast, x)
  {
    if ast.Node? {
      forall i | 0 <= i < |ast.children| && ast.children[i].Some?
        ensures Match(ast.children[i].value, w, ast.children[i].value, x)
      {
        CtMatch(ast.children[i].value, w, x);
      }
    }
  }

  // ---------- evaluation in place ----------

  // Some names have become the values that the lookup has for them in this scope.
  ghost predicate Resolved(c: seq<Val>, d: seq<Val>, sc: Option<nat>, e: Engine) {
    && |c| == |d|
    && (forall i :: 0 <= i < |c| ==>
      d[i] == c[i] || (sc.Some? && c[i].Named? && d[i].Plain? && e.resolve(c[i].name, sc) == Ok(d[i].v)))
  }

  // That changes no meaning.
  lemma {:induction false} ResolvedMeans(ast: Ast, c: seq<Val>, d: seq<Val>, sc: Option<nat>, e: Engine)
    requires Wf(ast, |c|) && Resolved(c, d, sc, e)
    ensures Meaning(ast, World(d, sc, e)) == Meaning(ast, World(c, sc, e))
  {
    var w, x := World(c, sc, e), World(d, sc, e);
    ResolvedMatch(ast, w, x);
    ResolvedMatch(ast, x, w);
    MatchMeans(ast, w, ast, x);
    MatchMeans(ast, x, ast, w);
  }

  lemma {:induction false} ResolvedMatch(ast: Ast, w: World, x: World)
    requires Wf(ast, |w.cells|) && x == w.(cells := x.cells)
      && (Resolved(w.cells, x.cells, w.sc, w.e) || Resolved(x.cells, w.cells, w.sc, w.e))
    ensures Match(ast, w, ast, x)
  {
    if ast.Node? {
      forall i | 0 <= i < |ast.children| && ast.children[i].Some?
        ensures Match(ast.children[i].value, w, ast.children[i].value, x)
      {
        ResolvedMatch(ast.children[i].value, w, x);
      }
    }
  }

  // Cell c belongs to the tree.
  ghost predicate Mentions(ast: Ast, c: nat) {
    match ast
    case Const(d) => c == d
    case Node(_, cs) => exists i :: 0 <= i < |cs| && cs[i].Some? && Mentions(cs[i].value, c)
  }

  // What evaluating a tree does: its outcome is its meaning; in a scope, the names it visits become
  // their values, and without one nothing changes; a tree that needs no lookup is not changed, and
  // neither are the cells of other trees.
  ghost predicate Evaluated(ast: Ast, w: World, d: seq<Val>, r: Outcome)
    requires Wf(ast, |w.cells|)
  {
    && r == Meaning(ast, w)
    && Resolved(w.cells, d, w.sc, w.e)
    && (w.sc.None? ==> d == w.cells)
    && (w.sc.Some? && r.Ok? ==> Settled(ast, d, w.e, r.v))
    && (forall v :: Settled(ast, w.cells, w.e, v) ==> d == w.cells)
    && (forall c :: 0 <= c < |d| && !Mentions(ast, c) ==> d[c] == w.cells[c])
  }

  // Evaluating a tree again, in any scope and with any constants, gives the same value and changes
  // nothing more.
  lemma {:induction false} EvaluatedOnce(ast: Ast, w: World, d: seq<Val>, v: Value, x: World, f: seq<Val>, r: Outcome)
    requires Wf(ast, |w.cells|) && w.sc.Some? && Evaluated(ast, w, d, Ok(v))
    requires x.cells == d && SameOperators(w.e, x.e) && Evaluated(ast, x, f, r)
    ensures r == Ok(v) && f == d
  {
    SettledAlways(ast, d, w.e, v, x);
    assert Blind(x.e) == Blind(w.e);
    assert Settled(ast, x.cells, x.e, v);
  }

  // ---------- one node after its children ----------

  // Only the first child is evaluated.
  ghost predicate StopsAfterFirst(ast: Ast, e: Engine, a: Outcome)
    requires ast.Node?
  {
    match ast.kind
    case Binary(_) => a.Err?
    case Unary(_) => true
    case And => a.Err? || !e.truth(a.v)
    case Or => a.Err? || e.truth(a.v)
    case Select => a.Err? || (e.truth(a.v) && 1 < |ast.children| && ast.children[1].None?)
    case UnaryPlus => true
    case UnaryMinus => true
    case InitArray => false
    case Unsupported => false
  }

  // Otherwise, which one is second.
  function Second(ast: Ast, e: Engine, a: Value): nat
    requires ast.Node?
  {
    if ast.kind.Select? && !e.truth(a) then 2 else 1
  }

  lemma {:induction false} AfterFirst(ast: Ast, w: World, d: seq<Val>, a: Outcome)
    requires Wf(ast, |w.cells|) && ast.Node? && ast.children != [] && ast.children[0].Some?
    requires Evaluated(ast.children[0].value, w, d, a) && StopsAfterFirst(ast, w.e, a)
    ensures Evaluated(ast, w, d, Meaning(ast, w))
  {
    assert |d| == |w.cells|;
    hide Resolved, Mentions;
    var first := ast.children[0].value;
    forall v | Settled(ast, w.cells, w.e, v)
      ensures d == w.cells
    {
      assert Settled(first, w.cells, w.e, Meaning(first, World(w.cells, None, Blind(w.e))).v);
    }
    OtherCells(ast, 0, w.cells, d);
  }

  lemma {:induction false} OtherCells(ast: Ast, k: nat, c: seq<Val>, d: seq<Val>)
    requires ast.Node? && k < |ast.children| && ast.children[k].Some? && |c| == |d|
    requires forall i :: 0 <= i < |d| && !Mentions(ast.children[k].value, i) ==> d[i] == c[i]
    ensures forall i :: 0 <= i < |d| && !Mentions(ast, i) ==> d[i] == c[i]
  {
    forall i | 0 <= i < |d| && !Mentions(ast, i)
      ensures !Mentions(ast.children[k].value, i)
    {
    }
  }

  lemma {:induction false} ResolvedKeeps(c: seq<Val>, d: seq<Val>, sc: Option<nat>, e: Engine)
    requires Resolved(c, d, sc, e)
    ensures Keeps(c, d)
  {
  }

  lemma {:induction false} ResolvedOn(c: seq<Val>, d: seq<Val>, f: seq<Val>, sc: Option<nat>, e: Engine)
    requires Resolved(c, d, sc, e) && Resolved(d, f, sc, e)
    ensures Resolved(c, f, sc, e)
  {
  }

  // Two trees, one after the other.
  lemma {:induction false} Sequenced(l: Ast, r: Ast, w: World, c: seq<Val>, d: seq<Val>, a: Outcome, b: Outcome)
    requires Wf(l, |w.cells|) && Wf(r, |w.cells|) && Evaluated(l, w, c, a) && a.Ok?
    requires |c| == |w.cells| && Evaluated(r, w.(cells := c), d, b)
    ensures b == Meaning(r, w) && Resolved(w.cells, d, w.sc, w.e) && (w.sc.None? ==> d == w.cells)
    ensures w.sc.Some? ==> Settled(l, d, w.e, a.v) && (b.Ok? ==> Settled(r, d, w.e, b.v))
    ensures forall u, v :: Settled(l, w.cells, w.e, u) && Settled(r, w.cells, w.e, v) ==> d == w.cells
  {
    ResolvedMeans(r, w.cells, c, w.sc, w.e);
    ResolvedOn(w.cells, c, d, w.sc, w.e);
    ResolvedKeeps(c, d, w.sc, w.e);
    if w.sc.Some? {
      SettledAlways(l, c, w.e, a.v, World(d, None, w.e));
    }
  }

  lemma {:induction false} AfterSecond(ast: Ast, w: World, c: seq<Val>, d: seq<Val>, a: Outcome, k: nat, b: Outcome)
    requires Wf(ast, |w.cells|) && ast.Node? && !ast.kind.Unsupported? && !ast.kind.InitArray? && ast.children[0].Some?
    requires Evaluated(ast.children[0].value, w, c, a) && a.Ok? && !StopsAfterFirst(ast, w.e, a)
    requires k == Second(ast, w.e, a.v) && k < |ast.children| && ast.children[k].Some? && |c| == |w.cells|
    requires Evaluated(ast.children[k].value, w.(cells := c), d, b)
    ensures b == Meaning(ast.children[k].value, w) && Evaluated(ast, w, d, Meaning(ast, w))
  {
    var l, r := ast.children[0].value, ast.children[k].value;
    Sequenced(l, r, w, c, d, a, b);
    hide Resolved, Mentions;
    forall v | Settled(ast, w.cells, w.e, v)
      ensures d == w.cells
    {
      var x := World(w.cells, None, Blind(w.e));
      SettledAlways(l, w.cells, w.e, Meaning(l, x).v, w);
      assert Settled(l, w.cells, w.e, Meaning(l, x).v) && Settled(r, w.cells, w.e, Meaning(r, x).v);
    }
    OtherCells(ast, 0, w.cells, c);
    OtherCells(ast, k, c, d);
  }

  // ---------- array items ----------

  // The same for the first n children of an array.
  ghost predicate EvaluatedItems(ast: Ast, n: nat, w: World, d: seq<Val>, r: Outcome)
    requires Wf(ast, |w.cells|) && ast.Node? && ast.kind.InitArray? && n <= |ast.children| && n % 2 == 0
  {
    && r == Items(ast, n, w)
    && Resolved(w.cells, d, w.sc, w.e)
    && (w.sc.None? ==> d == w.cells)
    && (w.sc.Some? && r.Ok? ==> Items(ast, n, World(d, None, Blind(w.e))) == r)
    && (Items(ast, n, World(w.cells, None, Blind(w.e))).Ok? ==> d == w.cells)
    && (forall c :: 0 <= c < |d| && !Mentions(ast, c) ==> d[c] == w.cells[c])
  }

  // Then it is the same for a tree that is evaluated next.
  lemma {:induction false} ItemsKeep(ast: Ast, n: nat, w: World, c: seq<Val>, d: seq<Val>, r: Outcome)
    requires Wf(ast, |w.cells|) && ast.Node? && ast.kind.InitArray? && n <= |ast.children| && n % 2 == 0
    requires EvaluatedItems(ast, n, w, c, r) && Resolved(c, d, w.sc, w.e) && w.sc.Some? && r.Ok?
    ensures Items(ast, n, World(d, None, Blind(w.e))) == r
  {
    ResolvedKeeps(c, d, w.sc, w.e);
    var x, y := World(c, None, Blind(w.e)), World(d, None, Blind(w.e));
    assert Blind(w.e) == Blind(y.e);
    BlindMatch(ast, x, y);
    MatchItems(ast, x, ast, y, n);
  }

  lemma {:induction false} KeyEvaluated(ast: Ast, n: nat, w: World, c: seq<Val>, d: seq<Val>, arr: Outcome,
      key: Outcome)
    requires Wf(ast, |w.cells|) && ast.Node? && ast.kind.InitArray? && n < |ast.children| && n % 2 == 0
    requires EvaluatedItems(ast, n, w, c, arr) && arr.Ok? && |c| == |w.cells|
    requires
      if ast.children[n].Some? then Evaluated(ast.children[n].value, w.(cells := c), d, key)
      else d == c && key == Ok(0)
    ensures key == Key(ast, n, w) && Resolved(w.cells, d, w.sc, w.e) && (w.sc.None? ==> d == w.cells)
    ensures w.sc.Some? ==>
      Items(ast, n, World(d, None, Blind(w.e))) == arr && (key.Ok? ==> Key(ast, n, World(d, None, Blind(w.e))) == key)
    ensures Items(ast, n, World(w.cells, None, Blind(w.e))).Ok? && Key(ast, n, World(w.cells, None, Blind(w.e))).Ok? ==>
      d == w.cells
    ensures forall i :: 0 <= i < |d| && !Mentions(ast, i) ==> d[i] == w.cells[i]
  {
    hide Mentions;
    if ast.children[n].Some? {
      ResolvedMeans(ast.children[n].value, w.cells, c, w.sc, w.e);
      ResolvedOn(w.cells, c, d, w.sc, w.e);
      OtherCells(ast, n, c, d);
      if Key(ast, n, World(w.cells, None, Blind(w.e))).Ok? && c == w.cells {
        assert Settled(ast.children[n].value, c, w.e, Key(ast, n, World(c, None, Blind(w.e))).v);
      }
    }
    if w.sc.Some? {
      ResolvedSelf(c, d, ast.children[n].Some?, w);
      ItemsKeep(ast, n, w, c, d, arr);
    }
  }

  lemma {:induction false} ResolvedSelf(c: seq<Val>, d: seq<Val>, some: bool, w: World)
    requires if some then Resolved(c, d, w.sc, w.e) else d == c
    ensures Resolved(c, d, w.sc, w.e)
  {
  }

  lemma {:induction false} ItemEvaluated(ast: Ast, n: nat, w: World, c: seq<Val>, d: seq<Val>, f: seq<Val>,
      arr: Outcome, key: Outcome, v: Outcome)
    requires Wf(ast, |w.cells|) && ast.Node? && ast.kind.InitArray? && n + 1 < |ast.children| && n % 2 == 0
      && (n + 1) % 2 == 1
    requires EvaluatedItems(ast, n, w, c, arr) && arr.Ok? && |c| == |w.cells| && |d| == |w.cells| && key.Ok?
    requires
      if ast.children[n].Some? then Evaluated(ast.children[n].value, w.(cells := c), d, key)
      else d == c && key == Ok(0)
    requires Evaluated(ast.children[n + 1].value, w.(cells := d), f, v)
    ensures v == Meaning(ast.children[n + 1].value, w)
    ensures EvaluatedItems(ast, n + 2, w, f, Items(ast, n + 2, w))
  {
    hide Mentions;
    var val := ast.children[n + 1].value;
    KeyEvaluated(ast, n, w, c, d, arr, key);
    ResolvedMeans(val, w.cells, d, w.sc, w.e);
    ResolvedOn(w.cells, d, f, w.sc, w.e);
    OtherCells(ast, n + 1, d, f);
    if w.sc.Some? {
      Later(ast, n, w, d, f, arr, key);
    }
    var x := World(w.cells, None, Blind(w.e));
    if Items(ast, n + 2, x).Ok? {
      assert Settled(val, w.cells, w.e, Meaning(val, x).v);
    }
  }

  // Items and key stay settled.
  lemma {:induction false} Later(ast: Ast, n: nat, w: World, d: seq<Val>, f: seq<Val>, arr: Outcome, key: Outcome)
    requires Wf(ast, |d|) && ast.Node? && ast.kind.InitArray? && n < |ast.children| && n % 2 == 0
      && Resolved(d, f, w.sc, w.e)
    requires Items(ast, n, World(d, None, Blind(w.e))) == arr && arr.Ok?
      && Key(ast, n, World(d, None, Blind(w.e))) == key && key.Ok?
    ensures Items(ast, n, World(f, None, Blind(w.e))) == arr && Key(ast, n, World(f, None, Blind(w.e))) == key
  {
    ResolvedKeeps(d, f, w.sc, w.e);
    var x, y := World(d, None, Blind(w.e)), World(f, None, Blind(w.e));
    assert Blind(w.e) == Blind(y.e);
    BlindMatch(ast, x, y);
    MatchItems(ast, x, ast, y, n);
    if ast.children[n].Some? { MatchMeans(ast.children[n].value, x, ast.children[n].value, y); }
  }

  // An error in an item is an error of the array.
  lemma {:induction false} ItemsFail(ast: Ast, m: nat, n: nat, w: World)
    requires Wf(ast, |w.cells|) && ast.Node? && ast.kind.InitArray? && m <= n <= |ast.children| && m % 2 == 0
      && n % 2 == 0
    requires Items(ast, m, w).Err?
    ensures Items(ast, n, w).Err?
    decreases n
  {
    if m < n { ItemsFail(ast, m, n - 2, w); }
  }

  lemma {:induction false} AllItems(ast: Ast, w: World, d: seq<Val>, r: Outcome)
    requires Wf(ast, |w.cells|) && ast.Node? && ast.kind.InitArray? && EvaluatedItems(ast, |ast.children|, w, d, r)
    ensures Evaluated(ast, w, d, r)
  {
    hide Mentions, Resolved;
  }

  // ---------- the evaluator ----------

  // The case of a leaf: in a scope its cell is updated, otherwise only the result.
  method EvaluateLeaf(c: nat, sc: Option<nat>, e: Engine, cells: array<Val>) returns (r: Outcome)
    requires c < cells.Length
    modifies cells
    ensures Evaluated(Const(c), World(old(cells[..]), sc, e), cells[..], r)
  {
    if sc.Some? {
      if cells[c].Named? {
        var v := e.resolve(cells[c].name, sc);
        if v.Err? {
          return Err;
        }
        cells[c] := Plain(v.v);
      }
      return Ok(cells[c].v);
    }
    if cells[c].Plain? {
      return Ok(cells[c].v);
    }
    return e.resolve(cells[c].name, sc);
  }

  lemma {:induction false} NothingDone(ast: Ast, w: World)
    requires Wf(ast, |w.cells|) && ast.Node? && ast.kind.Unsupported?
    ensures Evaluated(ast, w, w.cells, Err)
  {
  }

  lemma {:induction false} NoItems(ast: Ast, w: World)
    requires Wf(ast, |w.cells|) && ast.Node? && ast.kind.InitArray?
    ensures EvaluatedItems(ast, 0, w, w.cells, Ok(w.e.emptyArray))
  {
  }

  // An error ends the evaluation of the array.
  lemma {:induction false} KeyFails(ast: Ast, n: nat, w: World, c: seq<Val>, d: seq<Val>, arr: Outcome)
    requires Wf(ast, |w.cells|) && ast.Node? && ast.kind.InitArray? && n + 1 < |ast.children| && n % 2 == 0
      && ast.children[n].Some?
    requires EvaluatedItems(ast, n, w, c, arr) && arr.Ok? && |c| == |w.cells|
      && Evaluated(ast.children[n].value, w.(cells := c), d, Err)
    ensures Evaluated(ast, w, d, Err)
  {
    hide Mentions;
    KeyEvaluated(ast, n, w, c, d, arr, Err);
    assert Items(ast, n + 2, w).Err?;
    ItemsFail(ast, n + 2, |ast.children|, w);
    BlindFails(ast, w);
  }

  lemma {:induction false} ValueFails(ast: Ast, n: nat, w: World, f: seq<Val>)
    requires Wf(ast, |w.cells|) && ast.Node? && ast.kind.InitArray? && n <= |ast.children| && n % 2 == 0
    requires EvaluatedItems(ast, n, w, f, Err)
    ensures Evaluated(ast, w, f, Err)
  {
    hide Mentions, Resolved;
    ItemsFail(ast, n, |ast.children|, w);
    BlindFails(ast, w);
  }

  // A tree that fails needs a lookup.
  lemma {:induction false} BlindFails(ast: Ast, w: World)
    requires Wf(ast, |w.cells|) && Meaning(ast, w).Err?
    ensures forall v :: !Settled(ast, w.cells, w.e, v)
  {
    var x := World(w.cells, None, Blind(w.e));
    BlindMatch(ast, x, w);
    MatchMeans(ast, x, ast, w);
  }

  // The case of an array.
  method EvaluateItems(ast: Ast, sc: Option<nat>, e: Engine, cells: array<Val>) returns (r: Outcome)
    requires Wf(ast, cells.Length) && ast.Node? && ast.kind.InitArray?
    modifies cells
    ensures Evaluated(ast, World(old(cells[..]), sc, e), cells[..], r)
    decreases ast, |ast.children|
  {
    hide Evaluated, EvaluatedItems, Items;
    ghost var w := World(cells[..], sc, e);
    NoItems(ast, w);
    var arr, i, cs := e.emptyArray, 0, ast.children;
    while i < |cs|
      invariant i <= |cs| && i % 2 == 0 && EvaluatedItems(ast, i, w, cells[..], Ok(arr))
    {
      ghost var c := cells[..];
      var key := Ok(0);
      if cs[i].Some? {
        key := Evaluate(cs[i].value, sc, e, cells);
        if key.Err? {
          KeyFails(ast, i, w, c, cells[..], Ok(arr));
          return Err;
        }
      }
      ghost var d := cells[..];
      var v := Evaluate(cs[i + 1].value, sc, e, cells);
      ItemEvaluated(ast, i, w, c, d, cells[..], Ok(arr), key, v);
      NextItems(ast, i, w, c, d, Ok(arr), key);
      if v.Err? {
        ValueFails(ast, i + 2, w, cells[..]);
        return Err;
      }
      arr := e.add(arr, if cs[i].Some? then Some(key.v) else None, v.v);
      i := i + 2;
    }
    AllItems(ast, w, cells[..], Ok(arr));
    return Ok(arr);
  }

  lemma {:induction false} NextItems(ast: Ast, n: nat, w: World, c: seq<Val>, d: seq<Val>, arr: Outcome, key: Outcome)
    requires Wf(ast, |w.cells|) && ast.Node? && ast.kind.InitArray? && n + 1 < |ast.children| && n % 2 == 0
      && (n + 1) % 2 == 1
    requires EvaluatedItems(ast, n, w, c, arr) && arr.Ok? && |c| == |w.cells| && key.Ok?
    requires
      if ast.children[n].Some? then Evaluated(ast.children[n].value, w.(cells := c), d, key)
      else d == c && key == Ok(0)
    ensures var v := Meaning(ast.children[n + 1].value, w);
      Items(ast, n + 2, w) == if v.Err? then Err else Ok(w.e.add(arr.v, if ast.children[n].Some? then Some(key.v)
        else None, v.v))
  {
    KeyEvaluated(ast, n, w, c, d, arr, key);
  }

  // zend_ast_evaluate
  method Evaluate(ast: Ast, sc: Option<nat>, e: Engine, cells: array<Val>) returns (r: Outcome)
    requires Wf(ast, cells.Length)
    modifies cells
    ensures Evaluated(ast, World(old(cells[..]), sc, e), cells[..], r)
    ensures Yields(ast, World(old(cells[..]), sc, e), r)
    decreases ast, if ast.Node? then |ast.children| + 1 else 0
  {
    hide Evaluated, Items, Yields;
    ghost var w := World(cells[..], sc, e);
    if ast.Const? {
      r := EvaluateLeaf(ast.cell, sc, e, cells);
      EvaluatedYields(ast, w, cells[..], r);
      return;
    }
    var kind, cs := ast.kind, ast.children;
    if kind.Unsupported? {
      NothingDone(ast, w);
      EvaluatedYields(ast, w, cells[..], Err);
      return Err;
    }
    if kind.InitArray? {
      r := EvaluateItems(ast, sc, e, cells);
      EvaluatedYields(ast, w, cells[..], r);
      return;
    }
    var a := Evaluate(cs[0].value, sc, e, cells);
    FirstMeans(cs[0].value, w, cells[..], a);
    if a.Err? || kind.Unary? || kind.UnaryPlus? || kind.UnaryMinus? || (kind.And? && !e.truth(a.v))
      || (kind.Or? && e.truth(a.v))
       || (kind.Select? && e.truth(a.v) && cs[1].None?) {
      AfterFirst(ast, w, cells[..], a);
      r := if a.Err? then Err else FromFirst(kind, e, a.v);
      EvaluatedYields(ast, w, cells[..], r);
      return;
    }
    var k := if kind.Select? && !e.truth(a.v) then 2 else 1;
    ghost var c := cells[..];
    var b := Evaluate(cs[k].value, sc, e, cells);
    AfterSecond(ast, w, c, cells[..], a, k, b);
    r := if b.Err? || kind.Select? then b
         else Ok(if kind.Binary? then e.binary(kind.op, a.v, b.v) else e.ofBool(e.truth(b.v)));
    EvaluatedYields(ast, w, cells[..], r);
  }

  lemma {:induction false} EvaluatedYields(ast: Ast, w: World, d: seq<Val>, r: Outcome)
    requires Wf(ast, |w.cells|) && Evaluated(ast, w, d, r)
    ensures Yields(ast, w, r)
  {
    hide Meaning, Yields;
    YieldsMeaning(ast, w, r);
  }

  // What a node gives after its first child alone.
  function FromFirst(kind: Kind, e: Engine, a: Value): Outcome {
    match kind
    case Unary(op) => Ok(e.unary(op, a))
    case UnaryPlus => Ok(e.binary(e.plus, e.zero, a))
    case UnaryMinus => Ok(e.binary(e.minus, e.zero, a))
    case And => Ok(e.ofBool(false))
    case Or => Ok(e.ofBool(true))
    case Binary(_) => Ok(a)
    case Select => Ok(a)
    case InitArray => Ok(a)
    case Unsupported => Ok(a)
  }

  lemma {:induction false} FirstMeans(ast: Ast, w: World, d: seq<Val>, a: Outcome)
    requires Wf(ast, |w.cells|) && Evaluated(ast, w, d, a)
    ensures a == Meaning(ast, w) && |d| == |w.cells|
  {
  }

  // ---------- copies ----------

  // zend_ast_copy: a tree of the same shape whose leaves are new cells with the same contents.
  function Copy(ast: Ast, cells: seq<Val>): (r: (Ast, seq<Val>))
    requires Wf(ast, |cells|)
    ensures cells <= r.1 && Wf(r.0, |r.1|)
    decreases ast, if ast.Node? then |ast.children| + 1 else 0
  {
    match ast
    case Const(c) => (Const(|cells|), cells + [cells[c]])
    case Node(kind, cs) =>
      var (ds, all) := CopyChildren(ast, |cs|, cells);
      (Node(kind, ds), all)
  }

  function CopyChildren(ast: Ast, n: nat, cells: seq<Val>): (r: (seq<Option<Ast>>, seq<Val>))
    requires Wf(ast, |cells|) && ast.Node? && n <= |ast.children|
    ensures cells <= r.1 && |r.0| == n
    ensures forall i :: 0 <= i < n ==> (r.0[i].Some? <==> ast.children[i].Some?)
    ensures forall i :: 0 <= i < n && r.0[i].Some? ==> Wf(r.0[i].value, |r.1|)
    decreases ast, n
  {
    if n == 0 then ([], cells)
    else
      var (ds, some) := CopyChildren(ast, n - 1, cells);
      if ast.children[n - 1].None? then (ds + [None], some)
      else
        Grown(ast.children[n - 1].value, |cells|, |some|);
        var (d, all) := Copy(ast.children[n - 1].value, some);
        AllGrown(ds, |some|, |all|);
        (ds + [Some(d)], all)
  }

  lemma {:induction false} Grown(ast: Ast, m: nat, n: nat)
    requires Wf(ast, m) && m <= n
    ensures Wf(ast, n)
  {
    if ast.Node? {
      forall i | 0 <= i < |ast.children| && ast.children[i].Some?
        ensures Wf(ast.children[i].value, n)
      {
        Grown(ast.children[i].value, m, n);
      }
    }
  }

  lemma {:induction false} AllGrown(ds: seq<Option<Ast>>, m: nat, n: nat)
    requires m <= n && forall i :: 0 <= i < |ds| && ds[i].Some? ==> Wf(ds[i].value, m)
    ensures forall i :: 0 <= i < |ds| && ds[i].Some? ==> Wf(ds[i].value, n)
  {
    forall i | 0 <= i < |ds| && ds[i].Some?
      ensures Wf(ds[i].value, n)
    {
      Grown(ds[i].value, m, n);
    }
  }

  // The same shape and, leaf by leaf, the same contents.
  ghost predicate Alike(a: Ast, c: seq<Val>, b: Ast, d: seq<Val>)
    requires Wf(a, |c|) && Wf(b, |d|)
    decreases a
  {
    match a
    case Const(i) => b.Const? && d[b.cell] == c[i]
    case Node(kind, cs) =>
      && b.Node? && b.kind == kind && |b.children| == |cs|
      && (forall i :: 0 <= i < |cs| ==> (cs[i].Some? <==> b.children[i].Some?))
      && (forall i :: 0 <= i < |cs| && cs[i].Some? && b.children[i].Some? ==>
        Alike(cs[i].value, c, b.children[i].value, d))
  }

  // The cells of a tree are all at n or above.
  ghost predicate From(ast: Ast, n: nat) {
    match ast
    case Const(c) => n <= c
    case Node(_, cs) => forall i :: 0 <= i < |cs| && cs[i].Some? ==> From(cs[i].value, n)
  }

  lemma {:induction false} AlikeLonger(a: Ast, c: seq<Val>, b: Ast, d: seq<Val>, d': seq<Val>)
    requires Wf(a, |c|) && Wf(b, |d|) && Alike(a, c, b, d) && d <= d'
    ensures Wf(b, |d'|) && Alike(a, c, b, d')
    decreases a
  {
    Grown(b, |d|, |d'|);
    if a.Node? {
      forall i | 0 <= i < |a.children| && a.children[i].Some?
        ensures Alike(a.children[i].value, c, b.children[i].value, d')
      {
        AlikeLonger(a.children[i].value, c, b.children[i].value, d, d');
      }
    }
  }

  lemma {:induction false} AlikeOriginal(a: Ast, c: seq<Val>, c': seq<Val>, b: Ast, d: seq<Val>)
    requires Wf(a, |c|) && Wf(b, |d|) && c <= c' && Wf(a, |c'|) && Alike(a, c', b, d)
    ensures Alike(a, c, b, d)
    decreases a
  {
    if a.Node? {
      forall i | 0 <= i < |a.children| && a.children[i].Some?
        ensures Alike(a.children[i].value, c, b.children[i].value, d)
      {
        AlikeOriginal(a.children[i].value, c, c', b.children[i].value, d);
      }
    }
  }

  lemma {:induction false} FromLess(ast: Ast, m: nat, n: nat)
    requires From(ast, n) && m <= n
    ensures From(ast, m)
  {
    if ast.Node? {
      forall i | 0 <= i < |ast.children| && ast.children[i].Some?
        ensures From(ast.children[i].value, m)
      {
        FromLess(ast.children[i].value, m, n);
      }
    }
  }

  // A copy is alike, and its cells are new.
  lemma {:induction false} CopyIsAlike(ast: Ast, cells: seq<Val>)
    requires Wf(ast, |cells|)
    ensures Alike(ast, cells, Copy(ast, cells).0, Copy(ast, cells).1) && From(Copy(ast, cells).0, |cells|)
    decreases ast, if ast.Node? then |ast.children| + 1 else 0
  {
    if ast.Node? { ChildrenAlike(ast, |ast.children|, cells); }
  }

  lemma {:induction false} ChildrenAlike(ast: Ast, n: nat, cells: seq<Val>)
    requires Wf(ast, |cells|) && ast.Node? && n <= |ast.children|
    ensures var (ds, all) := CopyChildren(ast, n, cells);
      forall i :: 0 <= i < n && ds[i].Some? ==>
        Alike(ast.children[i].value, cells, ds[i].value, all) && From(ds[i].value, |cells|)
    decreases ast, n
  {
    if n != 0 {
      ChildrenAlike(ast, n - 1, cells);
      var (ds, some) := CopyChildren(ast, n - 1, cells);
      if ast.children[n - 1].Some? {
        var child := ast.children[n - 1].value;
        Grown(child, |cells|, |some|);
        CopyIsAlike(child, some);
        var (d, all) := Copy(child, some);
        AlikeOriginal(child, cells, some, d, all);
        FromLess(d, |cells|, |some|);
        forall i | 0 <= i < n - 1 && ds[i].Some?
          ensures Wf(ds[i].value, |all|) && Alike(ast.children[i].value, cells, ds[i].value, all)
        {
          AlikeLonger(ast.children[i].value, cells, ds[i].value, some, all);
        }
      }
    }
  }

  lemma {:induction false} AlikeMatch(a: Ast, w: World, b: Ast, x: World)
    requires Wf(a, |w.cells|) && Wf(b, |x.cells|) && Alike(a, w.cells, b, x.cells) && x == w.(cells := x.cells)
    ensures Match(a, w, b, x) && Match(b, x, a, w)
    decreases a
  {
    if a.Node? {
      forall i | 0 <= i < |a.children| && a.children[i].Some?
        ensures Match(a.children[i].value, w, b.children[i].value, x)
          && Match(b.children[i].value, x, a.children[i].value, w)
      {
        AlikeMatch(a.children[i].value, w, b.children[i].value, x);
      }
    }
  }

  // A copy means what the original means, in every scope and with all constants.
  lemma {:induction false} CopyMeansTheSame(ast: Ast, cells: seq<Val>, sc: Option<nat>, e: Engine)
    requires Wf(ast, |cells|)
    ensures var (b, all) := Copy(ast, cells); Meaning(b, World(all, sc, e)) == Meaning(ast, World(cells, sc, e))
  {
    CopyIsAlike(ast, cells);
    var (b, all) := Copy(ast, cells);
    var w, x := World(cells, sc, e), World(all, sc, e);
    AlikeMatch(ast, w, b, x);
    MatchMeans(ast, w, b, x);
    MatchMeans(b, x, ast, w);
  }

  lemma {:induction false} NotMentioned(ast: Ast, n: nat, c: nat)
    requires From(ast, n) && c < n
    ensures !Mentions(ast, c)
  {
    if ast.Node? {
      forall i | 0 <= i < |ast.children| && ast.children[i].Some?
        ensures !Mentions(ast.children[i].value, c)
      {
        NotMentioned(ast.children[i].value, n, c);
      }
    }
  }

  // Evaluating the copy leaves the leaves of the original alone.
  lemma {:induction false} CopyIsSeparate(ast: Ast, cells: seq<Val>, sc: Option<nat>, e: Engine, d: seq<Val>,
      r: Outcome)
    requires Wf(ast, |cells|)
    requires Evaluated(Copy(ast, cells).0, World(Copy(ast, cells).1, sc, e), d, r)
    ensures cells <= d && r == Meaning(ast, World(cells, sc, e))
  {
    CopyIsAlike(ast, cells);
    CopyMeansTheSame(ast, cells, sc, e);
    var (b, all) := Copy(ast, cells);
    forall c | 0 <= c < |cells|
      ensures d[c] == cells[c]
    {
      NotMentioned(b, |cells|, c);
    }
  }
}
