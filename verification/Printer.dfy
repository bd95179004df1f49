// The recursive printers of values, print_r style and flat, on graphs of tables that may be cyclic.
module Printer {
  import opened Wrappers

  // A scalar by its text, an array by its table, an object by its class and the table of its
  // properties, if it has one.
  datatype Zval = Scalar(text: string) | Arr(table: nat) | Obj(class_: string, props: Option<nat>)

  // An element: the key, the name shown for it as a property, and the value.
  datatype Element = Element(key: string, shown: string, value: Zval)

  // All tables; a table is named by its position.
  type Graph = seq<seq<Element>>

  predicate InGraph(z: Zval, n: nat) {
    match z
    case Scalar(_) => true
    case Arr(t) => t < n
    case Obj(_, p) => p.Some? ==> p.value < n
  }

  predicate Closed(g: Graph) {
    forall t, i :: 0 <= t < |g| && 0 <= i < |g[t]| ==> InGraph(g[t][i].value, |g|)
  }

  // zend_print_zval_r_ex with an indentation, or zend_print_flat_zval_r.
  datatype Style = Indented(indent: nat) | Flat

  const INDENT: nat := 4

  function Spaces(n: nat): string {
    seq(n, _ => ' ')
  }

  // The pieces of output around the elements of a table.
  function Head(z: Zval, st: Style): string {
    match z
    case Scalar(text) => text
    case Arr(_) => if st.Flat? then "Array (" else "Array\n"
    case Obj(c, _) => c + if st.Flat? then " Object (" else " Object\n"
  }

  function Opening(st: Style): string {
    if st.Flat? then "" else Spaces(st.indent) + "(\n"
  }

  function Before(st: Style, isObject: bool, x: Element, first: bool): string {
    if st.Flat? then (if first then "" else ",") + "[" + x.key + "] => "
    else Spaces(st.indent + INDENT) + "[" + (if isObject then x.shown else x.key) + "] => "
  }

  function After(st: Style): string {
    if st.Flat? then "" else "\n"
  }

  function Closing(st: Style): string {
    if st.Flat? then ")" else Spaces(st.indent) + ")\n"
  }

  function Inner(st: Style): Style {
    if st.Flat? then Flat else Indented(st.indent + 2 * INDENT)
  }

  const RECURSION: string := " *RECURSION*"

  // ---------- what is printed ----------

  // Text, and the points where the elements of a table begin and end.
  datatype Token = Text(text: string) | Enter(table: nat) | Leave(table: nat)

  ghost function Unopened(g: Graph, open: set<nat>): nat {
    |Upto(|g|) - open|
  }

  ghost function Upto(n: nat): set<nat> {
    if n == 0 then {} else Upto(n - 1) + {n - 1}
  }

  lemma {:induction false} UptoHas(n: nat, t: nat)
    requires t < n
    ensures t in Upto(n)
  {
    if t != n - 1 { UptoHas(n - 1, t); }
  }

  lemma {:induction false} OneLess(g: Graph, open: set<nat>, t: nat)
    requires t < |g| && t !in open
    ensures Unopened(g, open + {t}) < Unopened(g, open)
  {
    UptoHas(|g|, t);
    assert Upto(|g|) - (open + {t}) == (Upto(|g|) - open) - {t};
  }

  // A value inside the tables in open.
  ghost function Render(g: Graph, z: Zval, st: Style, open: set<nat>): seq<Token>
    requires Closed(g) && InGraph(z, |g|)
    decreases Unopened(g, open), 0, 1
  {
    match z
    case Scalar(_) => [Text(Head(z, st))]
    case Arr(t) => [Text(Head(z, st))] + RenderTable(g, t, st, false, open)
    case Obj(_, p) =>
      if p.None? then [Text(Head(z, st)), Text(if st.Flat? then ")" else "")]
      else [Text(Head(z, st))] + RenderTable(g, p.value, st, true, open)
  }

  ghost function RenderTable(g: Graph, t: nat, st: Style, isObject: bool, open: set<nat>): seq<Token>
    requires Closed(g) && t < |g|
    decreases Unopened(g, open), 0, 0
  {
    if t in open then [Text(RECURSION)]
    else
      OneLess(g, open, t);
      [Enter(t), Text(Opening(st))] + RenderElements(g, t, |g[t]|, st, isObject, open + {t}) + [Leave(t),
        Text(Closing(st))]
  }

  ghost function RenderElements(g: Graph, t: nat, n: nat, st: Style, isObject: bool, open: set<nat>): seq<Token>
    requires Closed(g) && t < |g| && n <= |g[t]|
    decreases Unopened(g, open), 1, n
  {
    if n == 0 then []
    else
      RenderElements(g, t, n - 1, st, isObject, open)
      + [Text(Before(st, isObject, g[t][n - 1], n == 1))] + Render(g, g[t][n - 1].value, Inner(st),
        open) + [Text(After(st))]
  }

  function TextOf(ts: seq<Token>): string {
    if ts == [] then "" else (if ts[0].Text? then ts[0].text else "") + TextOf(ts[1..])
  }

  lemma {:induction false} TextOfBoth(a: seq<Token>, b: seq<Token>)
    ensures TextOf(a + b) == TextOf(a) + TextOf(b)
  {
    if a == [] {
      assert a + b == b;
    } else {
      TextOfBoth(a[1..], b);
      assert (a + b)[1..] == a[1..] + b;
    }
  }

  lemma {:induction false} TextOfPair(x: Token, text: string)
    requires !x.Text?
    ensures TextOf([x, Text(text)]) == text
  {
    var ts := [x, Text(text)];
    assert ts[1..] == [Text(text)];
    TextOfOne(text);
    assert TextOf(ts) == "" + TextOf(ts[1..]);
  }

  lemma {:induction false} TextOfNone()
    ensures TextOf([]) == ""
  {
  }

  lemma {:induction false} TextOfOne(text: string)
    ensures TextOf([Text(text)]) == text
  {
  }

  // ---------- no table inside itself ----------

  // Following the output: the tables that are open at its end, or none if a table is entered inside
  // itself or left without being open.
  ghost function Follow(ts: seq<Token>, open: set<nat>): Option<set<nat>> {
    if ts == [] then Some(open)
    else match ts[0]
      case Text(_) => Follow(ts[1..], open)
      case Enter(t) => if t in open then None else Follow(ts[1..], open + {t})
      case Leave(t) => if t in open then Follow(ts[1..], open - {t}) else None
  }

  lemma {:induction false} FollowBoth(a: seq<Token>, b: seq<Token>, open: set<nat>)
    ensures Follow(a + b, open) == if Follow(a, open).None? then None else Follow(b, Follow(a, open).value)
  {
    if a == [] {
      assert a + b == b;
    } else {
      assert (a + b)[1..] == a[1..] + b && (a + b)[0] == a[0];
      match a[0]
      case Text(_) => FollowBoth(a[1..], b, open);
      case Enter(t) => FollowBoth(a[1..], b, open + {t});
      case Leave(t) => FollowBoth(a[1..], b, open - {t});
    }
  }

  // No table is expanded inside itself, and at the end the same tables are open as at the start.
  lemma {:induction false} NeverInsideItself(g: Graph, z: Zval, st: Style, open: set<nat>)
    requires Closed(g) && InGraph(z, |g|)
    ensures Follow(Render(g, z, st, open), open) == Some(open)
    decreases Unopened(g, open), 0, 1
  {
    var head := [Text(Head(z, st))];
    assert Follow(head, open) == Some(open);
    match z
    case Scalar(_) =>
    case Arr(t) =>
      TableInside(g, t, st, false, open);
      FollowBoth(head, RenderTable(g, t, st, false, open), open);
    case Obj(_, p) =>
      if p.Some? {
        TableInside(g, p.value, st, true, open);
        FollowBoth(head, RenderTable(g, p.value, st, true, open), open);
      } else {
        FollowBoth(head, [Text(if st.Flat? then ")" else "")], open);
      }
  }

  lemma {:induction false} TableInside(g: Graph, t: nat, st: Style, isObject: bool, open: set<nat>)
    requires Closed(g) && t < |g|
    ensures Follow(RenderTable(g, t, st, isObject, open), open) == Some(open)
    decreases Unopened(g, open), 0, 0
  {
    if t !in open {
      OneLess(g, open, t);
      ElementsInside(g, t, |g[t]|, st, isObject, open + {t});
      var a, b, c := [Enter(t), Text(Opening(st))], RenderElements(g, t, |g[t]|, st, isObject, open + {t}),
        [Leave(t), Text(Closing(st))];
      FollowTwo(a, open);
      FollowTwo(c, open + {t});
      FollowBoth(a, b, open);
      FollowBoth(a + b, c, open);
      assert open + {t} - {t} == open;
    }
  }

  lemma {:induction false} FollowTwo(ts: seq<Token>, open: set<nat>)
    requires |ts| == 2 && ts[1].Text?
    ensures Follow(ts, open) == Follow(ts[..1], open)
  {
    assert ts == [ts[0]] + [ts[1]];
    FollowBoth([ts[0]], [ts[1]], open);
  }

  lemma {:induction false} ElementsInside(g: Graph, t: nat, n: nat, st: Style, isObject: bool, open: set<nat>)
    requires Closed(g) && t < |g| && n <= |g[t]|
    ensures Follow(RenderElements(g, t, n, st, isObject, open), open) == Some(open)
    decreases Unopened(g, open), 1, n
  {
    if n != 0 {
      ElementsInside(g, t, n - 1, st, isObject, open);
      NeverInsideItself(g, g[t][n - 1].value, Inner(st), open);
      var a, b := RenderElements(g, t, n - 1, st, isObject, open), [Text(Before(st, isObject, g[t][n - 1], n == 1))];
      var c, d := Render(g, g[t][n - 1].value, Inner(st), open), [Text(After(st))];
      FollowBoth(a, b, open);
      FollowBoth(a + b, c, open);
      FollowBoth(a + b + c, d, open);
    }
  }

  // ---------- the printers ----------

  // The tables that a walk is in: those with nApplyCount above 0.
  function Open(counts: seq<nat>): set<nat> {
    set t | 0 <= t < |counts| && counts[t] > 0
  }

  // zend_print_zval_r_ex and zend_print_flat_zval_r
  method Print(g: Graph, z: Zval, st: Style, counts: array<nat>) returns (out: string)
    requires Closed(g) && InGraph(z, |g|) && counts.Length == |g|
    modifies counts
    ensures counts[..] == old(counts[..]) && out == TextOf(Render(g, z, st, Open(counts[..])))
    decreases Unopened(g, Open(counts[..])), 0, 1
  {
    hide RenderTable, RenderElements;
    out := Head(z, st);
    ghost var open := Open(counts[..]);
    match z
    case Scalar(_) =>
    case Arr(t) =>
      TextOfBoth([Text(out)], RenderTable(g, t, st, false, open));
      var rest := PrintTable(g, t, st, false, counts);
      out := out + rest;
    case Obj(_, p) =>
      if p.None? {
        TextOfBoth([Text(out)], [Text(if st.Flat? then ")" else "")]);
        out := out + if st.Flat? then ")" else "";
      } else {
        TextOfBoth([Text(out)], RenderTable(g, p.value, st, true, open));
        var rest := PrintTable(g, p.value, st, true, counts);
        out := out + rest;
      }
  }

  // The guard around print_hash and print_flat_hash.
  method PrintTable(g: Graph, t: nat, st: Style, isObject: bool, counts: array<nat>) returns (out: string)
    requires Closed(g) && t < |g| && counts.Length == |g|
    modifies counts
    ensures counts[..] == old(counts[..]) && out == TextOf(RenderTable(g, t, st, isObject, Open(counts[..])))
    decreases Unopened(g, Open(counts[..])), 0, 0
  {
    hide RenderElements, Opening, Closing, TextOf;
    ghost var was := counts[..];
    ghost var open := Open(was);
    counts[t] := counts[t] + 1;
    if counts[t] > 1 {
      counts[t] := counts[t] - 1;
      assert counts[..] == was;
      TextOfOne(RECURSION);
      return RECURSION;
    }
    assert Open(counts[..]) == open + {t};
    OneLess(g, open, t);
    out := PrintElements(g, t, st, isObject, counts);
    ghost var a, b := [Enter(t), Text(Opening(st))], RenderElements(g, t, |g[t]|, st, isObject, open + {t});
    TextOfBoth(a, b);
    TextOfBoth(a + b, [Leave(t), Text(Closing(st))]);
    TextOfPair(Enter(t), Opening(st));
    TextOfPair(Leave(t), Closing(st));
    out := Opening(st) + out + Closing(st);
    counts[t] := counts[t] - 1;
    assert counts[..] == was;
  }

  // The loops of print_hash and print_flat_hash.
  method PrintElements(g: Graph, t: nat, st: Style, isObject: bool, counts: array<nat>) returns (out: string)
    requires Closed(g) && t < |g| && counts.Length == |g|
    modifies counts
    ensures counts[..] == old(counts[..]) && out == TextOf(RenderElements(g, t, |g[t]|, st, isObject, Open(counts[..])))
    decreases Unopened(g, Open(counts[..])), 1
  {
    hide Render, Before, After, TextOf;
    ghost var open := Open(counts[..]);
    TextOfNone();
    out := "";
    var i := 0;
    while i < |g[t]|
      invariant i <= |g[t]| && counts[..] == old(counts[..])
        && out == TextOf(RenderElements(g, t, i, st, isObject, open))
    {
      var x := g[t][i];
      var v := Print(g, x.value, Inner(st), counts);
      ghost var a, b, c := RenderElements(g, t, i, st, isObject, open), [Text(Before(st, isObject, x, i == 0))],
        Render(g, x.value, Inner(st), open);
      TextOfBoth(a, b);
      TextOfBoth(a + b, c);
      TextOfBoth(a + b + c, [Text(After(st))]);
      TextOfOne(Before(st, isObject, x, i == 0));
      TextOfOne(After(st));
      out := out + Before(st, isObject, x, i == 0) + v + After(st);
      i := i + 1;
    }
  }
}
