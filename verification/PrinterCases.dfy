// The text that the printers write, given outright: for every value, style and set of open tables, and
// as whole texts for small graphs.
module PrinterCases {
  import opened Wrappers
  import opened Printer

  // What is printed for a value, and for the first n elements of a table.
  ghost function Shown(g: Graph, z: Zval, st: Style, open: set<nat>): string
    requires Closed(g) && InGraph(z, |g|)
  {
    TextOf(Render(g, z, st, open))
  }

  ghost function ShownElements(g: Graph, t: nat, n: nat, st: Style, isObject: bool, open: set<nat>): string
    requires Closed(g) && t < |g| && n <= |g[t]|
  {
    TextOf(RenderElements(g, t, n, st, isObject, open))
  }

  // The lines of a table between its brackets, after a heading.
  function Framed(head: string, indent: nat, lines: string): string {
    head + (Spaces(indent) + "(\n" + lines + Spaces(indent) + ")\n")
  }

  // The line of an element.
  function Line(indent: nat, name: string, value: string): string {
    (Spaces(indent + 4) + "[" + name + "] => ") + value + "\n"
  }

  lemma {:induction false} TableText(g: Graph, t: nat, st: Style, isObject: bool, open: set<nat>)
    requires Closed(g) && t < |g|
    ensures TextOf(RenderTable(g, t, st, isObject, open)) ==
      if t in open then " *RECURSION*"
      else
        var inner := ShownElements(g, t, |g[t]|, st, isObject, open + {t});
        if st.Flat? then inner + ")" else (Spaces(st.indent) + "(\n" + inner + Spaces(st.indent) + ")\n")
  {
    hide RenderElements, TextOf, Spaces;
    if t in open {
      TextOfOne(" *RECURSION*");
    } else {
      var a, b := [Enter(t), Text(Opening(st))], RenderElements(g, t, |g[t]|, st, isObject, open + {t});
      TextOfBoth(a, b);
      TextOfBoth(a + b, [Leave(t), Text(Closing(st))]);
      TextOfPair(Enter(t), Opening(st));
      TextOfPair(Leave(t), Closing(st));
    }
  }

  lemma {:induction false} ScalarText(g: Graph, text: string, st: Style, open: set<nat>)
    requires Closed(g)
    ensures Shown(g, Scalar(text), st, open) == text
  {
    TextOfOne(text);
  }

  // An array, printed for the first time or inside itself.
  lemma {:induction false} ArrayText(g: Graph, t: nat, open: set<nat>, indent: nat)
    requires Closed(g) && t < |g|
    ensures Shown(g, Arr(t), Flat, open) ==
      if t in open then "Array (" + " *RECURSION*"
      else "Array (" + (ShownElements(g, t, |g[t]|, Flat, false, open + {t}) + ")")
    ensures Shown(g, Arr(t), Indented(indent), open) ==
      if t in open then "Array\n" + " *RECURSION*"
      else Framed("Array\n", indent, ShownElements(g, t, |g[t]|, Indented(indent), false, open + {t}))
  {
    hide RenderTable, TextOf, Spaces;
    HeadThen(g, t, "Array (", Flat, false, open);
    HeadThen(g, t, "Array\n", Indented(indent), false, open);
    TableText(g, t, Flat, false, open);
    TableText(g, t, Indented(indent), false, open);
  }

  lemma {:induction false} HeadThen(g: Graph, t: nat, head: string, st: Style, isObject: bool, open: set<nat>)
    requires Closed(g) && t < |g|
    ensures var table := RenderTable(g, t, st, isObject, open);
      TextOf([Text(head)] + table) == head + TextOf(table)
  {
    hide RenderTable, TextOf;
    TextOfBoth([Text(head)], RenderTable(g, t, st, isObject, open));
    TextOfOne(head);
  }

  // An object with properties.
  lemma {:induction false} ObjectText(g: Graph, c: string, t: nat, open: set<nat>, indent: nat)
    requires Closed(g) && t < |g|
    ensures Shown(g, Obj(c, Some(t)), Flat, open) ==
      if t in open then c + " Object (" + " *RECURSION*"
      else c + " Object (" + (ShownElements(g, t, |g[t]|, Flat, true, open + {t}) + ")")
    ensures Shown(g, Obj(c, Some(t)), Indented(indent), open) ==
      if t in open then c + " Object\n" + " *RECURSION*"
      else Framed(c + " Object\n", indent, ShownElements(g, t, |g[t]|, Indented(indent), true, open + {t}))
  {
    hide RenderTable, TextOf, Spaces;
    HeadThen(g, t, c + " Object (", Flat, true, open);
    HeadThen(g, t, c + " Object\n", Indented(indent), true, open);
    TableText(g, t, Flat, true, open);
    TableText(g, t, Indented(indent), true, open);
  }

  // An object without a table of properties.
  lemma {:induction false} BareObjectText(g: Graph, c: string, open: set<nat>, indent: nat)
    requires Closed(g)
    ensures Shown(g, Obj(c, None), Flat, open) == c + " Object ()"
    ensures Shown(g, Obj(c, None), Indented(indent), open) == c + " Object\n"
  {
    TwoTexts(c + " Object (", ")");
    TwoTexts(c + " Object\n", "");
  }

  lemma {:induction false} TwoTexts(a: string, b: string)
    ensures TextOf([Text(a), Text(b)]) == a + b
  {
    assert [Text(a)] + [Text(b)] == [Text(a), Text(b)];
    TextOfBoth([Text(a)], [Text(b)]);
    TextOfOne(a);
    TextOfOne(b);
  }

  // The elements of a table: each adds its line, or its part of the line, to those before it.
  lemma {:induction false} ElementText(g: Graph, t: nat, n: nat, isObject: bool, open: set<nat>, indent: nat)
    requires Closed(g) && t < |g| && n < |g[t]|
    ensures ShownElements(g, t, n + 1, Flat, isObject, open) ==
      ShownElements(g, t, n, Flat, isObject, open) + ((if n == 0 then "[" else ",[") + g[t][n].key + "] => ")
      + Shown(g, g[t][n].value, Flat, open)
    ensures ShownElements(g, t, n + 1, Indented(indent), isObject, open) ==
      ShownElements(g, t, n, Indented(indent), isObject, open)
      + Line(indent, if isObject then g[t][n].shown else g[t][n].key,
             Shown(g, g[t][n].value, Indented(indent + 8), open))
  {
    hide Shown, ShownElements, Before, After, Spaces;
    OneElement(g, t, n, Flat, isObject, open);
    OneElement(g, t, n, Indented(indent), isObject, open);
    FlatPieces(isObject, g[t][n], n == 0);
    NestedPieces(isObject, g[t][n], n == 0, indent);
    NothingBehind(ShownElements(g, t, n, Flat, isObject, open) + Before(Flat, isObject, g[t][n], n == 0)
                  + Shown(g, g[t][n].value, Flat, open));
    Grouped(ShownElements(g, t, n, Indented(indent), isObject, open),
            Before(Indented(indent), isObject, g[t][n], n == 0),
            Shown(g, g[t][n].value, Indented(indent + 8), open), "\n");
  }

  lemma {:induction false} Grouped(a: string, b: string, c: string, d: string)
    ensures a + b + c + d == a + (b + c + d)
  {
  }

  lemma {:induction false} FlatPieces(isObject: bool, x: Element, first: bool)
    ensures Before(Flat, isObject, x, first) == (if first then "[" else ",[") + x.key + "] => "
    ensures After(Flat) == ""
  {
    assert (if first then "" else ",") + "[" == if first then "[" else ",[";
  }

  lemma {:induction false} NestedPieces(isObject: bool, x: Element, first: bool, indent: nat)
    ensures Before(Indented(indent), isObject, x, first) ==
      Spaces(indent + 4) + "[" + (if isObject then x.shown else x.key) + "] => "
    ensures After(Indented(indent)) == "\n"
  {
  }

  lemma {:induction false} NothingBehind(s: string)
    ensures s + "" == s
  {
  }

  lemma {:induction false} OneElement(g: Graph, t: nat, n: nat, st: Style, isObject: bool, open: set<nat>)
    requires Closed(g) && t < |g| && n < |g[t]|
    ensures ShownElements(g, t, n + 1, st, isObject, open) ==
      ShownElements(g, t, n, st, isObject, open) + Before(st, isObject, g[t][n], n == 0)
      + Shown(g, g[t][n].value, Inner(st), open) + After(st)
  {
    hide Render, TextOf, Before, After;
    var x := g[t][n];
    var a, b, c := RenderElements(g, t, n, st, isObject, open), [Text(Before(st, isObject, x, n == 0))],
      Render(g, x.value, Inner(st), open);
    TextOfBoth(a, b);
    TextOfBoth(a + b, c);
    TextOfBoth(a + b + c, [Text(After(st))]);
    TextOfOne(Before(st, isObject, x, n == 0));
    TextOfOne(After(st));
  }

  lemma {:induction false} NoElements(g: Graph, t: nat, st: Style, isObject: bool, open: set<nat>)
    requires Closed(g) && t < |g|
    ensures ShownElements(g, t, 0, st, isObject, open) == ""
  {
  }

  // ---------- whole texts ----------

  // No elements: arrays and objects.
  lemma {:induction false} EmptyText(c: string, indent: nat)
    ensures Closed([[]])
    ensures Shown([[]], Arr(0), Flat, {}) == "Array (" + ")"
    ensures Shown([[]], Obj(c, Some(0)), Flat, {}) == c + " Object (" + ")"
    ensures Shown([[]], Arr(0), Indented(indent), {}) == Framed("Array\n", indent, "")
    ensures Shown([[]], Obj(c, Some(0)), Indented(indent), {}) == Framed(c + " Object\n", indent, "")
  {
    hide Shown, ShownElements, Spaces, Framed;
    ArrayText([[]], 0, {}, indent);
    ObjectText([[]], c, 0, {}, indent);
    NoElements([[]], 0, Flat, false, {} + {0});
    NoElements([[]], 0, Flat, true, {} + {0});
    NoElements([[]], 0, Indented(indent), false, {} + {0});
    NoElements([[]], 0, Indented(indent), true, {} + {0});
    NothingBefore(")");
  }

  lemma {:induction false} NothingBefore(s: string)
    ensures "" + s == s
  {
  }

  // The first element of a table.
  lemma {:induction false} FirstElement(g: Graph, t: nat, isObject: bool, open: set<nat>, indent: nat)
    requires Closed(g) && t < |g| && 0 < |g[t]|
    ensures var x := g[t][0];
      && ShownElements(g, t, 1, Flat, isObject, open) == "[" + x.key + "] => " + Shown(g, x.value, Flat, open)
      && ShownElements(g, t, 1, Indented(indent), isObject, open) ==
         Line(indent, if isObject then x.shown else x.key, Shown(g, x.value, Indented(indent + 8), open))
  {
    hide Shown, ShownElements, Spaces, Line;
    ElementText(g, t, 0, isObject, open, indent);
    NoElements(g, t, Flat, isObject, open);
    NoElements(g, t, Indented(indent), isObject, open);
    NothingBefore("[" + g[t][0].key + "] => ");
    NothingBefore(Line(indent, if isObject then g[t][0].shown else g[t][0].key,
                       Shown(g, g[t][0].value, Indented(indent + 8), open)));
  }

  // One scalar: an array shows the key; an object the name of the property, but the key when flat.
  lemma {:induction false} OneScalarText(x: Element, text: string, c: string, indent: nat)
    requires x.value == Scalar(text)
    ensures Closed([[x]])
    ensures Shown([[x]], Arr(0), Flat, {}) == "Array (" + ("[" + x.key + "] => " + text + ")")
    ensures Shown([[x]], Obj(c, Some(0)), Flat, {}) == c + " Object (" + ("[" + x.key + "] => " + text + ")")
    ensures Shown([[x]], Arr(0), Indented(indent), {}) == Framed("Array\n", indent, Line(indent, x.key, text))
    ensures Shown([[x]], Obj(c, Some(0)), Indented(indent), {}) ==
      Framed(c + " Object\n", indent, Line(indent, x.shown, text))
  {
    hide Shown, ShownElements, Spaces, Framed, Line;
    var g := [[x]];
    ArrayText(g, 0, {}, indent);
    ObjectText(g, c, 0, {}, indent);
    FirstElement(g, 0, false, {} + {0}, indent);
    FirstElement(g, 0, true, {} + {0}, indent);
    ScalarText(g, text, Flat, {} + {0});
    ScalarText(g, text, Indented(indent + 8), {} + {0});
  }

  // A table in a table.
  lemma {:induction false} NestedText(x: Element, y: Element, text: string, indent: nat)
    requires x.value == Arr(1) && y.value == Scalar(text)
    ensures Closed([[x], [y]])
    ensures Shown([[x], [y]], Arr(0), Flat, {}) ==
      "Array (" + ("[" + x.key + "] => " + ("Array (" + ("[" + y.key + "] => " + text + ")")) + ")")
    ensures Shown([[x], [y]], Arr(0), Indented(indent), {}) ==
      Framed("Array\n", indent, Line(indent, x.key, Framed("Array\n", indent + 8, Line(indent + 8, y.key, text))))
  {
    hide Shown, ShownElements, Spaces, Framed, Line;
    var g := [[x], [y]];
    ArrayText(g, 0, {}, indent);
    FirstElement(g, 0, false, {} + {0}, indent);
    ArrayText(g, 1, {} + {0}, indent + 8);
    FirstElement(g, 1, false, {} + {0} + {1}, indent + 8);
    ScalarText(g, text, Flat, {} + {0} + {1});
    ScalarText(g, text, Indented(indent + 16), {} + {0} + {1});
  }

  // An array that contains itself, and an object that does.
  lemma {:induction false} CyclicText(x: Element, y: Element, c: string, indent: nat)
    requires x.value == Arr(0) && y.value == Obj(c, Some(0))
    ensures Closed([[x]]) && Closed([[y]])
    ensures Shown([[x]], Arr(0), Flat, {}) ==
      "Array (" + ("[" + x.key + "] => " + ("Array (" + " *RECURSION*") + ")")
    ensures Shown([[x]], Arr(0), Indented(indent), {}) ==
      Framed("Array\n", indent, Line(indent, x.key, "Array\n" + " *RECURSION*"))
    ensures Shown([[y]], Obj(c, Some(0)), Indented(indent), {}) ==
      Framed(c + " Object\n", indent, Line(indent, y.shown, c + " Object\n" + " *RECURSION*"))
  {
    hide Shown, ShownElements, Spaces, Framed, Line;
    ArrayText([[x]], 0, {}, indent);
    FirstElement([[x]], 0, false, {} + {0}, indent);
    ArrayText([[x]], 0, {} + {0}, indent + 8);
    ObjectText([[y]], c, 0, {}, indent);
    FirstElement([[y]], 0, true, {} + {0}, indent);
    ObjectText([[y]], c, 0, {} + {0}, indent + 8);
  }

  // Two elements: a comma between them when flat, two lines otherwise.
  lemma {:induction false} TwoScalarsText(x: Element, y: Element, a: string, b: string, indent: nat)
    requires x.value == Scalar(a) && y.value == Scalar(b)
    ensures Closed([[x, y]])
    ensures Shown([[x, y]], Arr(0), Flat, {}) ==
      "Array (" + ("[" + x.key + "] => " + a + (",[" + y.key + "] => ") + b + ")")
    ensures Shown([[x, y]], Arr(0), Indented(indent), {}) ==
      Framed("Array\n", indent, Line(indent, x.key, a) + Line(indent, y.key, b))
  {
    hide Shown, ShownElements, Spaces, Framed, Line;
    var g := [[x, y]];
    ArrayText(g, 0, {}, indent);
    FirstElement(g, 0, false, {} + {0}, indent);
    ElementText(g, 0, 1, false, {} + {0}, indent);
    ScalarText(g, a, Flat, {} + {0});
    ScalarText(g, a, Indented(indent + 8), {} + {0});
    ScalarText(g, b, Flat, {} + {0});
    ScalarText(g, b, Indented(indent + 8), {} + {0});
  }

  // A line and a frame as they stand on the page.
  lemma {:induction false} LineOnPage()
    ensures Line(0, "a", "1") == "    [a] => 1\n"
  {
    assert Spaces(4) == "    ";
    hide Spaces;
    assert "    " + "[" == "    [";
    assert "    [" + "a" == "    [a";
    assert "    [a" + "] => " == "    [a] => ";
    assert "    [a] => " + "1" == "    [a] => 1";
    assert "    [a] => 1" + "\n" == "    [a] => 1\n";
  }

  lemma {:induction false} FlatOnPage()
    ensures "Array (" + ("[" + "a" + "] => " + "1" + ")") == "Array ([a] => 1)"
  {
    assert "[" + "a" == "[a";
    assert "[a" + "] => " == "[a] => ";
    assert "[a] => " + "1" == "[a] => 1";
    assert "[a] => 1" + ")" == "[a] => 1)";
    assert "Array (" + "[a] => 1)" == "Array ([a] => 1)";
  }

  lemma {:induction false} FrameOnPage(lines: string)
    ensures Framed("Array\n", 0, lines) == "Array\n(\n" + lines + ")\n"
    ensures Framed("Array\n", 8, lines) == "Array\n        (\n" + lines + "        )\n"
  {
    assert Spaces(0) == "" && Spaces(8) == "        ";
    hide Spaces;
    assert "" + "(\n" == "(\n" && "        " + "(\n" == "        (\n";
    Page("Array\n", "(\n", lines, "", ")\n");
    Page("Array\n", "        (\n", lines, "        ", ")\n");
    assert "" + ")\n" == ")\n" && "        " + ")\n" == "        )\n";
    assert "Array\n" + "(\n" == "Array\n(\n" && "Array\n" + "        (\n" == "Array\n        (\n";
  }

  lemma {:induction false} Page(a: string, b: string, c: string, d: string, e: string)
    ensures a + (b + c + d + e) == a + b + c + (d + e)
  {
  }

  // Printing array('a' => 1), from a new walk.
  method PrintOne() returns (out: string, flat: string)
    ensures out == "Array\n(\n" + "    [a] => 1\n" + ")\n"
    ensures flat == "Array ([a] => 1)"
  {
    hide Render, TextOf, Spaces, Framed, Line;
    var x := Element("a", "a:protected", Scalar("1"));
    var g := [[x]];
    OneScalarText(x, "1", "", 0);
    LineOnPage();
    FlatOnPage();
    FrameOnPage("    [a] => 1\n");
    var counts := new nat[1](_ => 0);
    assert Open(counts[..]) == {};
    out := Print(g, Arr(0), Indented(0), counts);
    flat := Print(g, Arr(0), Flat, counts);
  }
}
