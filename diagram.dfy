/** The Mermaid diagram builder: two de-duplicating sets of edge lines and
    style lines, filled one call at a time and rendered as a fenced
    ```mermaid block. */
module Diagram {
  import opened Text

  const RedHex: string := "#FF5733"
  const GreenHex: string := "#355E3B"
  const Header: string := "```mermaid"
  const Footer: string := "```"
  const DefaultDirection: string := "graph LR"

  /** What `add_style` reports instead of inserting: the `ValueError` message. */
  datatype Outcome = Pass | Fail(message: string)

  /** `_validate_transform`: Mermaid refuses a node name ending in "end", so
      such a name gets one '_' appended; every other name is left alone. */
  function ValidateTransform(model: string): (r: string)
    ensures EndsWith(model, "end") ==> r == model + "_"
    ensures !EndsWith(model, "end") ==> r == model
    ensures !EndsWith(r, "end")
  {
    if EndsWith(model, "end") then
      EndsWithAppended(model, "end", '_');
      model + "_"
    else
      model
  }

  /** Transforming an already transformed name changes nothing. */
  lemma ValidateTransformIdempotent(model: string)
    ensures ValidateTransform(ValidateTransform(model)) == ValidateTransform(model)
  {
  }

  /** The transform is not injective: a name ending in "end" and the same
      name with '_' already appended are drawn as one Mermaid node. */
  lemma ValidateTransformMerges()
    ensures "model.backend" != "model.backend_"
    ensures ValidateTransform("model.backend") == ValidateTransform("model.backend_") == "model.backend_"
  {
    assert EndsWith("model.backend", "end");
    assert !EndsWith("model.backend_", "end");
  }

  /** The text `add_edge` inserts for the pair (from, to). */
  function EdgeLine(fromNode: string, toNode: string): string
  {
    ValidateTransform(fromNode) + " --> " + ValidateTransform(toNode)
  }

  /** An edge line starts with the transformed source, ends with the
      transformed target, and has the arrow " --> " between them. */
  lemma EdgeLineShape(fromNode: string, toNode: string)
    ensures var r, f, t := EdgeLine(fromNode, toNode), ValidateTransform(fromNode), ValidateTransform(toNode);
      && StartsWith(r, f) && EndsWith(r, t)
      && |r| == |f| + 5 + |t|
      && r[|f|..|f| + 5] == " --> "
  {
    var f, t := ValidateTransform(fromNode), ValidateTransform(toNode);
    assert EdgeLine(fromNode, toNode) == f + " --> " + t;
  }

  /** The text `add_style` inserts: the node name is NOT transformed. */
  function StyleLine(nodeId: string, colorHex: string): string
  {
    "style " + nodeId + " fill:" + colorHex
  }

  /** A style line is "style ", the node name as given, then " fill:" and
      the hex value. */
  lemma StyleLineShape(nodeId: string, colorHex: string)
    ensures var r := StyleLine(nodeId, colorHex);
      && StartsWith(r, "style ") && EndsWith(r, " fill:" + colorHex)
      && |r| == 6 + |nodeId| + 6 + |colorHex|
      && r[6..6 + |nodeId|] == nodeId && r[6 + |nodeId|] == ' '
  {
    var head, tail := "style ", " fill:" + colorHex;
    assert StyleLine(nodeId, colorHex) == head + nodeId + tail;
  }

  /** The colour vocabulary of `add_style`: "red" and "green", ignoring case. */
  function ColorHex(color: string): (r: Option<string>)
    ensures r == Some(RedHex) <==> Lower(color) == "red"
    ensures r == Some(GreenHex) <==> Lower(color) == "green"
    ensures r == None <==> Lower(color) != "red" && Lower(color) != "green"
  {
    if Lower(color) == "red" then Some(RedHex)
    else if Lower(color) == "green" then Some(GreenHex)
    else None
  }

  datatype Option<T> = None | Some(value: T)

  /** Case does not matter to the colour vocabulary. */
  lemma {:induction false} ColorHexIgnoresCase(color: string)
    ensures ColorHex(Lower(color)) == ColorHex(color)
  {
    LowerIdempotent(color);
  }

  /** The two colour names the tool itself passes, and an upper-case spelling. */
  lemma ColorHexOfKnownNames()
    ensures ColorHex("red") == Some(RedHex)
    ensures ColorHex("green") == Some(GreenHex)
    ensures ColorHex("RED") == Some(RedHex)
    ensures ColorHex("blue") == None
  {
    LowerFixesLowercase("red");
    LowerFixesLowercase("green");
    LowerFixesLowercase("blue");
    assert Lower("RED") == "red";
  }

  /** A printed body line: a tab, the separator space that `print` puts between its arguments, the line. */
  function Tab(line: string): string
  {
    "\t " + line
  }

  lemma TabInjective(x: string, y: string)
    requires Tab(x) == Tab(y)
    ensures x == y
  {
    assert x == Tab(x)[2..];
  }

  function Indent(lines: seq<string>): (r: seq<string>)
    ensures |r| == |lines|
    ensures forall i :: 0 <= i < |lines| ==> r[i] == Tab(lines[i])
  {
    seq(|lines|, i requires 0 <= i < |lines| => Tab(lines[i]))
  }

  predicate Distinct(s: seq<string>)
  {
    forall i, j :: 0 <= i < j < |s| ==> s[i] != s[j]
  }

  /** `order` lists every element of `s` exactly once: one possible
      iteration order of a Python set. */
  ghost predicate Enumerates(order: seq<string>, s: set<string>)
  {
    Distinct(order) && forall x :: x in order <==> x in s
  }

  lemma {:induction false} EnumerationSize(order: seq<string>, s: set<string>)
    requires Enumerates(order, s)
    ensures |order| == |s|
  {
    if order != [] {
      var last := order[|order| - 1];
      var init := order[..|order| - 1];
      assert forall k :: 0 <= k < |init| ==> init[k] == order[k] != last;
      assert forall x :: x in init <==> x in s - {last} by {
        assert order == init + [last];
      }
      EnumerationSize(init, s - {last});
    }
  }

  /** The whole output of `print`, for one iteration order of each set. */
  function Render(direction: string, edgeOrder: seq<string>, styleOrder: seq<string>): (r: seq<string>)
    ensures |r| == |edgeOrder| + |styleOrder| + 3
    ensures r[0] == Header && r[1] == direction && r[|r| - 1] == Footer
  {
    [Header, direction] + Indent(edgeOrder) + Indent(styleOrder) + [Footer]
  }

  /** The rendered block: header, direction, one tabbed line per edge, then
      one per style, then the footer; each set's lines appear once each. */
  lemma RenderShape(direction: string, lines: set<string>, styles: set<string>,
                    edgeOrder: seq<string>, styleOrder: seq<string>)
    requires Enumerates(edgeOrder, lines) && Enumerates(styleOrder, styles)
    ensures var r := Render(direction, edgeOrder, styleOrder);
      && |r| == |lines| + |styles| + 3
      && r[0] == Header && r[1] == direction && r[|r| - 1] == Footer
      && (forall l :: l in lines <==> Tab(l) in r[2..2 + |lines|])
      && (forall s :: s in styles <==> Tab(s) in r[2 + |lines|..|r| - 1])
      && Distinct(r[2..2 + |lines|]) && Distinct(r[2 + |lines|..|r| - 1])
  {
    EnumerationSize(edgeOrder, lines);
    EnumerationSize(styleOrder, styles);
    var r := Render(direction, edgeOrder, styleOrder);
    assert r[2..2 + |lines|] == Indent(edgeOrder);
    assert r[2 + |lines|..|r| - 1] == Indent(styleOrder);
    forall x, y | Tab(x) == Tab(y) ensures x == y {
      TabInjective(x, y);
    }
  }

  /** One loop of `print`: every element of `s`, in some order, as a body line. */
  method EmitAll(s: set<string>) returns (out: seq<string>, ghost order: seq<string>)
    ensures Enumerates(order, s)
    ensures out == Indent(order)
    ensures |out| == |s| && forall x :: x in s <==> Tab(x) in out
  {
    var rest := s;
    out, order := [], [];
    while rest != {}
      invariant rest <= s
      invariant Distinct(order)
      invariant forall x :: x in order <==> x in s - rest
      invariant out == Indent(order)
      decreases |rest|
    {
      var x :| x in rest;
      assert x !in order;
      out, order := out + [Tab(x)], order + [x];
      rest := rest - {x};
    }
    EnumerationSize(order, s);
    forall x ensures x in s <==> Tab(x) in out {
      if Tab(x) in out {
        var k :| 0 <= k < |out| && out[k] == Tab(x);
        TabInjective(order[k], x);
      }
    }
  }

  class Mermaid {
    /** The layout-direction line printed after the header. */
    var style: string
    /** Edge lines, de-duplicated by their text. */
    var lines: set<string>
    /** Style lines, de-duplicated by their text. */
    var styles: set<string>

    constructor (style: string := DefaultDirection)
      ensures this.style == style && lines == {} && styles == {}
    {
      this.style := style;
      lines, styles := {}, {};
    }

    /** `add_edge`: transform both endpoints, insert "from --> to". The body
        follows the source statement by statement; the ensures ties it to
        `EdgeLine`. */
    method AddEdge(fromNode: string, toNode: string)
      modifies this
      ensures lines == old(lines) + {EdgeLine(fromNode, toNode)}
      ensures styles == old(styles) && style == old(style)
    {
      var f := ValidateTransform(fromNode);
      var t := ValidateTransform(toNode);
      lines := lines + {f + " --> " + t};
    }

    /** `add_style`: map the colour to its hex value and insert the style
        line, or fail with the `ValueError` message and change nothing. The
        body keeps the source's if/elif chain; the ensures ties it to
        `ColorHex` and `StyleLine`. */
    method AddStyle(nodeId: string, color: string) returns (outcome: Outcome)
      modifies this
      ensures ColorHex(color).Some? ==>
        outcome == Pass && styles == old(styles) + {StyleLine(nodeId, ColorHex(color).value)}
      ensures ColorHex(color).None? ==>
        outcome == Fail("Color " + color + " not supported.") && styles == old(styles)
      ensures lines == old(lines) && style == old(style)
    {
      var colorHex;
      if Lower(color) == "red" {
        colorHex := RedHex;
      } else if Lower(color) == "green" {
        colorHex := GreenHex;
      } else {
        return Fail("Color " + color + " not supported.");
      }
      styles := styles + {"style " + nodeId + " fill:" + colorHex};
      outcome := Pass;
    }

    /** `print`, returning the lines instead of writing them. The ghost
        results are the iteration orders the two loops happened to use. */
    method Print() returns (out: seq<string>, ghost edgeOrder: seq<string>, ghost styleOrder: seq<string>)
      ensures Enumerates(edgeOrder, lines) && Enumerates(styleOrder, styles)
      ensures out == Render(style, edgeOrder, styleOrder)
      ensures |out| == |lines| + |styles| + 3
      ensures out[0] == Header && out[1] == style && out[|out| - 1] == Footer
      ensures forall l :: l in lines <==> Tab(l) in out[2..2 + |lines|]
      ensures forall s :: s in styles <==> Tab(s) in out[2 + |lines|..|out| - 1]
    {
      var edgeLines, styleLines;
      edgeLines, edgeOrder := EmitAll(lines);
      styleLines, styleOrder := EmitAll(styles);
      out := [Header, style] + edgeLines + styleLines + [Footer];
      assert out[2..2 + |lines|] == edgeLines;
      assert out[2 + |lines|..|out| - 1] == styleLines;
    }
  }

  /** Adding the same edge twice leaves the builder as adding it once. */
  method AddEdgeTwice(m: Mermaid, fromNode: string, toNode: string)
    modifies m
    ensures m.lines == old(m.lines) + {EdgeLine(fromNode, toNode)}
    ensures m.styles == old(m.styles) && m.style == old(m.style)
  {
    m.AddEdge(fromNode, toNode);
    m.AddEdge(fromNode, toNode);
  }

  /** For a node whose name ends in "end", every edge line names it with the
      '_' appended, while its style line names it as given. */
  lemma StyleTargetNotTransformed(node: string, other: string, colorHex: string)
    requires EndsWith(node, "end")
    ensures EdgeLine(node, other)[..|node| + 1] == node + "_"
    ensures EdgeLine(other, node)[|EdgeLine(other, node)| - |node| - 1..] == node + "_"
    ensures StyleLine(node, colorHex)[6..6 + |node|] == node && StyleLine(node, colorHex)[6 + |node|] == ' '
  {
    var escaped := node + "_";
    assert ValidateTransform(node) == escaped;
    EdgeLineShape(node, other);
    EdgeLineShape(other, node);
    StyleLineShape(node, colorHex);
    assert StartsWith(EdgeLine(node, other), escaped);
    assert EndsWith(EdgeLine(other, node), escaped);
  }

  /** An empty builder renders as header, direction and footer only. */
  lemma EmptyRender(direction: string)
    ensures Render(direction, [], []) == [Header, direction, Footer]
  {
  }
}
