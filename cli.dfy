/** The selection and walk loop of the command-line entry point: keep the
    run results whose id starts with an included node type, cap their
    number, and for each kept result add its one-hop edges and its status
    colour to a Mermaid builder, then render the builder. */
module Cli {
  import opened Text
  import opened Diagram

  /** One entry of `run_results["results"]`. */
  datatype RunResult = RunResult(uniqueId: string, status: string)

  /** The loaded dependency graph: `graph.pred` and `graph.adj`, each node's
      predecessors and successors. */
  datatype Graph = Graph(pred: map<string, set<string>>, adj: map<string, set<string>>)

  /** The lazy `filter` over the results: those whose id has an included
      prefix, in their original order. */
  function Filter(results: seq<RunResult>, includes: seq<string>): seq<RunResult>
  {
    if results == [] then []
    else
      var last := results[|results| - 1];
      Filter(results[..|results| - 1], includes) + (if HasAnyPrefix(last.uniqueId, includes) then [last] else [])
  }

  /** The filter keeps exactly the results with an included prefix, and
      never more results than it was given. */
  lemma {:induction false} FilterExactly(results: seq<RunResult>, includes: seq<string>)
    ensures |Filter(results, includes)| <= |results|
    ensures forall r :: r in Filter(results, includes) <==> r in results && HasAnyPrefix(r.uniqueId, includes)
  {
    if results != [] {
      var init := results[..|results| - 1];
      var last := results[|results| - 1];
      assert forall r :: r in results <==> r in init || r == last by {
        assert results == init + [last];
      }
      FilterExactly(init, includes);
    }
  }

  /** Filtering a concatenation filters each part: the filter keeps the
      relative order of the results. */
  lemma {:induction false} FilterAppend(a: seq<RunResult>, b: seq<RunResult>, includes: seq<string>)
    ensures Filter(a + b, includes) == Filter(a, includes) + Filter(b, includes)
  {
    if b != [] {
      var init := b[..|b| - 1];
      assert (a + b)[..|a + b| - 1] == a + init;
      FilterAppend(a, init, includes);
    } else {
      assert a + b == a;
    }
  }

  lemma FilterPrefix(results: seq<RunResult>, i: nat, includes: seq<string>)
    requires i <= |results|
    ensures Filter(results[..i], includes) <= Filter(results, includes)
  {
    assert results == results[..i] + results[i..];
    FilterAppend(results[..i], results[i..], includes);
  }

  /** The loop guard: break once `--base-nodes` is truthy and the index exceeds it. None and
      0 are falsy in Python, every other integer (negative ones too) is truthy. */
  predicate StopsAt(index: nat, baseNodes: Option<int>)
  {
    baseNodes.Some? && baseNodes.value != 0 && index > baseNodes.value
  }

  /** The guard case by case: it never breaks for None or 0, breaks at every
      index for a negative value, and past the value for a positive one. */
  lemma StopsAtCases(index: nat, baseNodes: Option<int>)
    ensures baseNodes == None || baseNodes == Some(0) ==> !StopsAt(index, baseNodes)
    ensures baseNodes.Some? && baseNodes.value < 0 ==> StopsAt(index, baseNodes)
    ensures baseNodes.Some? && baseNodes.value > 0 ==> (StopsAt(index, baseNodes) <==> index > baseNodes.value)
  {
  }

  /** The first index from `k` on at which the guard breaks the loop, or
      `kept` when it never does before the filtered results run out. */
  function FirstStop(k: nat, kept: nat, baseNodes: Option<int>): (c: nat)
    requires k <= kept
    ensures k <= c <= kept
    ensures forall j :: k <= j < c ==> !StopsAt(j, baseNodes)
    ensures c < kept ==> StopsAt(c, baseNodes)
    decreases kept - k
  {
    if k == kept || StopsAt(k, baseNodes) then k else FirstStop(k + 1, kept, baseNodes)
  }

  /** How many of `kept` filtered results the loop processes. */
  function ProcessedCount(kept: nat, baseNodes: Option<int>): (c: nat)
    ensures c <= kept
    ensures forall k :: 0 <= k < c ==> !StopsAt(k, baseNodes)
    ensures c < kept ==> StopsAt(c, baseNodes)
  {
    FirstStop(0, kept, baseNodes)
  }

  /** The cap in closed form: no cap for None or 0, indices 0..n (n + 1
      results) for a positive n, nothing at all for a negative n. */
  lemma CapBoundary(kept: nat, baseNodes: Option<int>)
    ensures baseNodes == None || baseNodes == Some(0) ==> ProcessedCount(kept, baseNodes) == kept
    ensures baseNodes.Some? && baseNodes.value > 0 ==>
      ProcessedCount(kept, baseNodes) == if baseNodes.value + 1 < kept then baseNodes.value + 1 else kept
    ensures baseNodes.Some? && baseNodes.value < 0 ==> ProcessedCount(kept, baseNodes) == 0
  {
    var c := ProcessedCount(kept, baseNodes);
    if baseNodes.Some? && baseNodes.value > 0 {
      var n := baseNodes.value;
      if n + 1 < kept {
        assert StopsAt(n + 1, baseNodes);
      }
    } else if baseNodes.Some? && baseNodes.value < 0 {
      assert StopsAt(0, baseNodes);
    }
  }

  /** The results the loop body runs for. */
  function Selected(results: seq<RunResult>, includes: seq<string>, baseNodes: Option<int>): seq<RunResult>
  {
    var kept := Filter(results, includes);
    kept[..ProcessedCount(|kept|, baseNodes)]
  }

  /** Every processed id is a node of the graph (the source indexes
      `graph.pred` and `graph.adj` without a guard). */
  ghost predicate KeysPresent(g: Graph, processed: seq<RunResult>)
  {
    forall r :: r in processed ==> r.uniqueId in g.pred && r.uniqueId in g.adj
  }


  /** Edges from the included predecessors in `parents` to `node`. */
  function ParentEdges(parents: set<string>, node: string, includes: seq<string>): set<string>
  {
    set p | p in parents && HasAnyPrefix(p, includes) :: EdgeLine(p, node)
  }

  /** Edges from `node` to the included successors in `children`. */
  function ChildEdges(node: string, children: set<string>, includes: seq<string>): set<string>
  {
    set c | c in children && HasAnyPrefix(c, includes) :: EdgeLine(node, c)
  }

  /** The edge lines the walk adds for one processed node. */
  function NodeEdges(g: Graph, id: string, includes: seq<string>): set<string>
    requires id in g.pred && id in g.adj
  {
    ParentEdges(g.pred[id], id, includes) + ChildEdges(id, g.adj[id], includes)
  }

  /** The edge lines the walk adds for the processed results, one result at a time. */
  function WalkEdges(g: Graph, processed: seq<RunResult>, includes: seq<string>): set<string>
    requires KeysPresent(g, processed)
  {
    if processed == [] then {}
    else
      WalkEdges(g, processed[..|processed| - 1], includes) + NodeEdges(g, processed[|processed| - 1].uniqueId, includes)
  }

  /** The colour name the loop picks: "success" exactly, and nothing else, is green. */
  function StatusColor(status: string): (color: string)
    ensures color == "green" <==> status == "success"
    ensures color == "green" || color == "red"
  {
    if status == "success" then "green" else "red"
  }

  /** The colour the loop picks is always one `add_style` accepts, so the
      walk never raises; it is green exactly on "success". */
  lemma StatusColorAccepted(status: string)
    ensures ColorHex(StatusColor(status)) == Some(if status == "success" then GreenHex else RedHex)
  {
    ColorHexOfKnownNames();
  }

  /** The style line the loop adds for one result. It names the hex value
      directly; `StatusStyleAccepted` shows that this is the value
      `add_style` maps `StatusColor(r.status)` to. */
  function StatusStyle(r: RunResult): string
  {
    StyleLine(r.uniqueId, if r.status == "success" then GreenHex else RedHex)
  }

  /** The style line of a result is the one `add_style` inserts for the
      colour the loop picks. */
  lemma StatusStyleAccepted(r: RunResult)
    ensures ColorHex(StatusColor(r.status)).Some?
    ensures StatusStyle(r) == StyleLine(r.uniqueId, ColorHex(StatusColor(r.status)).value)
  {
    StatusColorAccepted(r.status);
  }

  /** The style lines the walk adds: one per processed result. */
  function WalkStyles(processed: seq<RunResult>): set<string>
  {
    if processed == [] then {}
    else WalkStyles(processed[..|processed| - 1]) + {StatusStyle(processed[|processed| - 1])}
  }

  /** A walk edge, described without reference to the loop: one endpoint is
      a processed id, the other an included predecessor (the edge points at
      the processed node) or an included successor (it points away). */
  ghost predicate IsWalkEdge(g: Graph, processed: seq<RunResult>, includes: seq<string>, e: string)
    requires KeysPresent(g, processed)
  {
    exists r, other :: r in processed && HasAnyPrefix(other, includes) &&
      ((other in g.pred[r.uniqueId] && e == EdgeLine(other, r.uniqueId)) ||
       (other in g.adj[r.uniqueId] && e == EdgeLine(r.uniqueId, other)))
  }

  lemma {:induction false} WalkEdgesExactly(g: Graph, processed: seq<RunResult>, includes: seq<string>)
    requires KeysPresent(g, processed)
    ensures forall e :: e in WalkEdges(g, processed, includes) <==> IsWalkEdge(g, processed, includes, e)
  {
    if processed != [] {
      var init := processed[..|processed| - 1];
      var last := processed[|processed| - 1];
      assert forall r :: r in processed <==> r in init || r == last by {
        assert processed == init + [last];
      }
      WalkEdgesExactly(g, init, includes);
    }
  }

  lemma {:induction false} WalkStylesExactly(processed: seq<RunResult>)
    ensures forall s :: s in WalkStyles(processed) <==> exists r :: r in processed && s == StatusStyle(r)
    ensures |WalkStyles(processed)| <= |processed|
  {
    if processed != [] {
      var init := processed[..|processed| - 1];
      var last := processed[|processed| - 1];
      assert forall r :: r in processed <==> r in init || r == last by {
        assert processed == init + [last];
      }
      WalkStylesExactly(init);
    }
  }

  /** Every processed result has an included prefix and comes from the results. */
  lemma SelectedIncluded(results: seq<RunResult>, includes: seq<string>, baseNodes: Option<int>)
    ensures forall r :: r in Selected(results, includes, baseNodes) ==>
      r in results && HasAnyPrefix(r.uniqueId, includes)
  {
    var kept := Filter(results, includes);
    FilterExactly(results, includes);
    assert forall r :: r in Selected(results, includes, baseNodes) ==> r in kept;
  }

  /** Both raw endpoints of every edge the walk adds carry an included
      prefix, and one of them is a processed id. */
  lemma WalkEdgeEndpoints(g: Graph, results: seq<RunResult>, includes: seq<string>, baseNodes: Option<int>, e: string)
    requires KeysPresent(g, Selected(results, includes, baseNodes))
    requires e in WalkEdges(g, Selected(results, includes, baseNodes), includes)
    ensures exists r, other ::
      && r in Selected(results, includes, baseNodes)
      && HasAnyPrefix(r.uniqueId, includes) && HasAnyPrefix(other, includes)
      && ((other in g.pred[r.uniqueId] && e == EdgeLine(other, r.uniqueId)) ||
          (other in g.adj[r.uniqueId] && e == EdgeLine(r.uniqueId, other)))
  {
    var sel := Selected(results, includes, baseNodes);
    WalkEdgesExactly(g, sel, includes);
    SelectedIncluded(results, includes, baseNodes);
  }

  /** The predecessor loop for one processed node. */
  method AddParentEdges(m: Mermaid, parents: set<string>, node: string, includes: seq<string>)
    modifies m
    ensures m.lines == old(m.lines) + ParentEdges(parents, node, includes)
    ensures m.styles == old(m.styles) && m.style == old(m.style)
  {
    var rest := parents;
    while rest != {}
      invariant rest <= parents
      invariant m.lines == old(m.lines) + ParentEdges(parents - rest, node, includes)
      invariant m.styles == old(m.styles) && m.style == old(m.style)
      decreases |rest|
    {
      var parent :| parent in rest;
      if HasAnyPrefix(parent, includes) {
        m.AddEdge(parent, node);
      }
      rest := rest - {parent};
    }
  }

  /** The successor loop for one processed node. */
  method AddChildEdges(m: Mermaid, node: string, children: set<string>, includes: seq<string>)
    modifies m
    ensures m.lines == old(m.lines) + ChildEdges(node, children, includes)
    ensures m.styles == old(m.styles) && m.style == old(m.style)
  {
    var rest := children;
    while rest != {}
      invariant rest <= children
      invariant m.lines == old(m.lines) + ChildEdges(node, children - rest, includes)
      invariant m.styles == old(m.styles) && m.style == old(m.style)
      decreases |rest|
    {
      var child :| child in rest;
      if HasAnyPrefix(child, includes) {
        m.AddEdge(node, child);
      }
      rest := rest - {child};
    }
  }

  /** The body of the `enumerate` loop for one kept result: its
      predecessor edges, its successor edges, its status style. */
  method ProcessNode(m: Mermaid, g: Graph, node: RunResult, includes: seq<string>)
    requires node.uniqueId in g.pred && node.uniqueId in g.adj
    modifies m
    ensures m.lines == old(m.lines) + NodeEdges(g, node.uniqueId, includes)
    ensures m.styles == old(m.styles) + {StatusStyle(node)}
    ensures m.style == old(m.style)
  {
    var nodeName := node.uniqueId;
    AddParentEdges(m, g.pred[nodeName], nodeName, includes);
    AddChildEdges(m, nodeName, g.adj[nodeName], includes);
    var nodeColor := StatusColor(node.status);
    StatusColorAccepted(node.status);
    var outcome := m.AddStyle(nodeName, nodeColor);
  }

  /** One step of the loop over the results: the filter of one more result. */
  lemma FilterStep(results: seq<RunResult>, i: nat, includes: seq<string>)
    requires i < |results|
    ensures Filter(results[..i + 1], includes) ==
      Filter(results[..i], includes) + (if HasAnyPrefix(results[i].uniqueId, includes) then [results[i]] else [])
    ensures Filter(results[..i + 1], includes) <= Filter(results, includes)
  {
    assert results[..i + 1][..i] == results[..i];
    FilterPrefix(results, i + 1, includes);
  }

  /** Proof step of `Walk`: a kept result at an index where the guard does
      not break is processed. */
  lemma CapStep(kept: seq<RunResult>, processed: seq<RunResult>, node: RunResult, baseNodes: Option<int>)
    requires processed + [node] <= kept
    requires !StopsAt(|processed|, baseNodes)
    ensures processed + [node] <= kept[..ProcessedCount(|kept|, baseNodes)]
  {
  }

  /** Proof step of `Walk`: when the loop ends, by running out of results
      or by the guard, it has processed exactly the selected results. */
  lemma CapDone(kept: seq<RunResult>, processed: seq<RunResult>, baseNodes: Option<int>)
    requires processed <= kept[..ProcessedCount(|kept|, baseNodes)]
    requires processed == kept || (|processed| < |kept| && StopsAt(|processed|, baseNodes))
    ensures processed == kept[..ProcessedCount(|kept|, baseNodes)]
  {
  }

  /** Proof step of `ProcessNext`: walking one more result adds its edges
      and its style. */
  lemma WalkAppend(g: Graph, processed: seq<RunResult>, node: RunResult, includes: seq<string>)
    requires KeysPresent(g, processed + [node])
    ensures KeysPresent(g, processed)
    ensures node.uniqueId in g.pred && node.uniqueId in g.adj
    ensures WalkEdges(g, processed + [node], includes) ==
      WalkEdges(g, processed, includes) + NodeEdges(g, node.uniqueId, includes)
    ensures WalkStyles(processed + [node]) == WalkStyles(processed) + {StatusStyle(node)}
  {
    assert (processed + [node])[..|processed|] == processed;
    assert node in processed + [node];
  }

  /** Proof step of `Walk`: the processed prefix keeps the graph-key
      precondition of the whole selection. */
  lemma KeysPresentPrefixOf(g: Graph, processed: seq<RunResult>, whole: seq<RunResult>)
    requires KeysPresent(g, whole) && processed <= whole
    ensures KeysPresent(g, processed)
  {
    assert forall r :: r in processed ==> r in whole;
  }

  /** Proof step of `ProcessNext`: set algebra that regroups the builder's
      new sets as the old ones plus the walk so far plus this node. */
  lemma UnionStep(base: set<string>, done: set<string>, added: set<string>, before: set<string>, after: set<string>)
    requires before == base + done && after == before + added
    ensures after == base + (done + added)
  {
  }

  /** The loop body seen from the whole walk: after `processed`, processing
      `node` brings the builder to the walk of `processed + [node]`. */
  method ProcessNext(m: Mermaid, g: Graph, node: RunResult, includes: seq<string>,
                     ghost processed: seq<RunResult>, ghost lines0: set<string>, ghost styles0: set<string>)
    requires KeysPresent(g, processed) && KeysPresent(g, processed + [node])
    requires m.lines == lines0 + WalkEdges(g, processed, includes)
    requires m.styles == styles0 + WalkStyles(processed)
    modifies m
    ensures m.lines == lines0 + WalkEdges(g, processed + [node], includes)
    ensures m.styles == styles0 + WalkStyles(processed + [node])
    ensures m.style == old(m.style)
  {
    WalkAppend(g, processed, node, includes);
    ghost var linesBefore, stylesBefore := m.lines, m.styles;
    ProcessNode(m, g, node, includes);
    UnionStep(lines0, WalkEdges(g, processed, includes), NodeEdges(g, node.uniqueId, includes), linesBefore, m.lines);
    UnionStep(styles0, WalkStyles(processed), {StatusStyle(node)}, stylesBefore, m.styles);
  }

  /** Proof step of `Walk`: a result the filter skips leaves the processed
      prefix as it is. */
  lemma WalkSkip(results: seq<RunResult>, i: nat, includes: seq<string>)
    requires i < |results| && !HasAnyPrefix(results[i].uniqueId, includes)
    ensures Filter(results[..i + 1], includes) == Filter(results[..i], includes)
  {
    FilterStep(results, i, includes);
  }

  /** Proof step of `Walk`: a kept result at which the guard does not break
      extends the processed prefix of the selection. */
  lemma WalkStep(g: Graph, results: seq<RunResult>, i: nat, includes: seq<string>, baseNodes: Option<int>,
                 processed: seq<RunResult>)
    requires i < |results|
    requires processed == Filter(results[..i], includes)
    requires KeysPresent(g, Selected(results, includes, baseNodes))
    requires HasAnyPrefix(results[i].uniqueId, includes) && !StopsAt(|processed|, baseNodes)
    ensures processed + [results[i]] == Filter(results[..i + 1], includes)
    ensures processed + [results[i]] <= Selected(results, includes, baseNodes)
    ensures KeysPresent(g, processed + [results[i]])
  {
    FilterStep(results, i, includes);
    CapStep(Filter(results, includes), processed, results[i], baseNodes);
    KeysPresentPrefixOf(g, processed + [results[i]], Selected(results, includes, baseNodes));
  }

  /** Proof step of `Walk`: when the loop ends, by running out of results
      or by the guard at a kept result, it has processed the selection. */
  lemma WalkDone(results: seq<RunResult>, i: nat, includes: seq<string>, baseNodes: Option<int>,
                 processed: seq<RunResult>)
    requires i <= |results|
    requires processed == Filter(results[..i], includes)
    requires processed <= Selected(results, includes, baseNodes)
    requires i == |results| || (HasAnyPrefix(results[i].uniqueId, includes) && StopsAt(|processed|, baseNodes))
    ensures processed == Selected(results, includes, baseNodes)
  {
    if i < |results| {
      FilterStep(results, i, includes);
    } else {
      assert results[..i] == results;
    }
    CapDone(Filter(results, includes), processed, baseNodes);
  }

  /** The `enumerate` loop of the entry point, adding to the builder `m`. */
  method Walk(m: Mermaid, g: Graph, results: seq<RunResult>, includes: seq<string>, baseNodes: Option<int>)
    requires KeysPresent(g, Selected(results, includes, baseNodes))
    modifies m
    ensures m.lines == old(m.lines) + WalkEdges(g, Selected(results, includes, baseNodes), includes)
    ensures m.styles == old(m.styles) + WalkStyles(Selected(results, includes, baseNodes))
    ensures m.style == old(m.style)
  {
    ghost var processed: seq<RunResult> := [];
    var i, index := 0, 0;
    while i < |results|
      invariant i <= |results|
      invariant processed == Filter(results[..i], includes)
      invariant processed <= Selected(results, includes, baseNodes) && index == |processed|
      invariant KeysPresent(g, processed)
      invariant m.lines == old(m.lines) + WalkEdges(g, processed, includes)
      invariant m.styles == old(m.styles) + WalkStyles(processed)
      invariant m.style == old(m.style)
    {
      var node := results[i];
      if HasAnyPrefix(node.uniqueId, includes) {
        if baseNodes.Some? && baseNodes.value != 0 && index > baseNodes.value {
          assert StopsAt(|processed|, baseNodes);
          break;
        }
        WalkStep(g, results, i, includes, baseNodes, processed);
        ProcessNext(m, g, node, includes, processed, old(m.lines), old(m.styles));
        processed := processed + [node];
        index := index + 1;
      } else {
        WalkSkip(results, i, includes);
      }
      i := i + 1;
    }
    WalkDone(results, i, includes, baseNodes, processed);
  }

  /** The entry point after loading: build, walk with the default
      direction, render. The ghost results are the set iteration orders. */
  method Run(g: Graph, results: seq<RunResult>, includes: seq<string>, baseNodes: Option<int>)
    returns (out: seq<string>, ghost edgeOrder: seq<string>, ghost styleOrder: seq<string>)
    requires KeysPresent(g, Selected(results, includes, baseNodes))
    ensures Enumerates(edgeOrder, WalkEdges(g, Selected(results, includes, baseNodes), includes))
    ensures Enumerates(styleOrder, WalkStyles(Selected(results, includes, baseNodes)))
    ensures out == Render(DefaultDirection, edgeOrder, styleOrder)
    ensures |out| == |WalkEdges(g, Selected(results, includes, baseNodes), includes)|
                     + |WalkStyles(Selected(results, includes, baseNodes))| + 3
    ensures out[0] == Header && out[1] == DefaultDirection && out[|out| - 1] == Footer
  {
    var grp := new Mermaid();
    Walk(grp, g, results, includes, baseNodes);
    out, edgeOrder, styleOrder := grp.Print();
  }

  /** A filter that every result passes keeps the whole sequence. */
  lemma {:induction false} FilterKeepsAll(results: seq<RunResult>, includes: seq<string>)
    requires forall r :: r in results ==> HasAnyPrefix(r.uniqueId, includes)
    ensures Filter(results, includes) == results
  {
    if results != [] {
      var init := results[..|results| - 1];
      var last := results[|results| - 1];
      assert results == init + [last];
      FilterKeepsAll(init, includes);
    }
  }

  lemma SingletonEdges(node: string, other: string, includes: seq<string>)
    ensures ParentEdges({other}, node, includes) == if HasAnyPrefix(other, includes) then {EdgeLine(other, node)} else {}
    ensures ChildEdges(node, {other}, includes) == if HasAnyPrefix(other, includes) then {EdgeLine(node, other)} else {}
  {
  }

  /** The example of two models `model.a -> model.b`, the first fed by a
      source, with statuses "success" and "failed". */
  function ExampleGraph(): Graph
  {
    Graph(map["model.a" := {"source.raw"}, "model.b" := {"model.a"}],
          map["model.a" := {"model.b"}, "model.b" := {}])
  }

  function ExampleResults(): seq<RunResult>
  {
    [RunResult("model.a", "success"), RunResult("model.b", "failed")]
  }

  lemma ExampleSelection()
    ensures Selected(ExampleResults(), ["model"], None) == ExampleResults()
    ensures HasAnyPrefix("model.a", ["model"]) && HasAnyPrefix("model.b", ["model"])
    ensures !HasAnyPrefix("source.raw", ["model"])
  {
    var includes := ["model"];
    assert StartsWith("model.a", includes[0]) by { assert "model.a" == "model" + ".a"; }
    assert StartsWith("model.b", includes[0]) by { assert "model.b" == "model" + ".b"; }
    assert "source.raw"[0] != "model"[0];
    FilterKeepsAll(ExampleResults(), includes);
  }

  /** With `--include model` the edge between the models is drawn and the
      edge from the excluded source is not. */
  lemma ExampleEdges()
    ensures WalkEdges(ExampleGraph(), ExampleResults(), ["model"]) == {EdgeLine("model.a", "model.b")}
  {
    var g, results, includes := ExampleGraph(), ExampleResults(), ["model"];
    ExampleSelection();
    SingletonEdges("model.a", "source.raw", includes);
    SingletonEdges("model.a", "model.b", includes);
    SingletonEdges("model.b", "model.a", includes);
    assert NodeEdges(g, "model.a", includes) == {EdgeLine("model.a", "model.b")};
    assert NodeEdges(g, "model.b", includes) == {EdgeLine("model.a", "model.b")};
    assert results[..1] == [results[0]];
    assert WalkEdges(g, results[..1], includes) == NodeEdges(g, "model.a", includes);
  }

  /** The edge line of the example, as printed. */
  lemma ExampleEdgeLine()
    ensures EdgeLine("model.a", "model.b") == "model.a --> model.b"
  {
    assert !EndsWith("model.a", "end") && !EndsWith("model.b", "end");
  }

  /** The successful model is styled green and the failed one red. */
  lemma ExampleStyles()
    ensures WalkStyles(ExampleResults()) == {StyleLine("model.a", GreenHex), StyleLine("model.b", RedHex)}
  {
    var results := ExampleResults();
    assert results[..1] == [results[0]];
  }

  /** The example as printed, for every iteration order of the two sets:
      the fence, the direction, the one edge line, the two style lines in
      either order, the closing fence. */
  lemma ExampleRendered(edgeOrder: seq<string>, styleOrder: seq<string>)
    requires KeysPresent(ExampleGraph(), Selected(ExampleResults(), ["model"], None))
    requires Enumerates(edgeOrder, WalkEdges(ExampleGraph(), Selected(ExampleResults(), ["model"], None), ["model"]))
    requires Enumerates(styleOrder, WalkStyles(Selected(ExampleResults(), ["model"], None)))
    ensures var r := Render(DefaultDirection, edgeOrder, styleOrder);
      && |r| == 6
      && r[0] == Header && r[1] == DefaultDirection && r[5] == Footer
      && r[2] == Tab(EdgeLine("model.a", "model.b"))
      && Tab(StyleLine("model.a", GreenHex)) in r[3..5]
      && Tab(StyleLine("model.b", RedHex)) in r[3..5]
  {
    ExampleSelection();
    ExampleEdges();
    ExampleStyles();
    var green, red := StyleLine("model.a", GreenHex), StyleLine("model.b", RedHex);
    assert green != red by {
      StyleLineShape("model.a", GreenHex);
      StyleLineShape("model.b", RedHex);
      assert green[12] == 'a' && red[12] == 'b';
    }
    RenderOneEdgeTwoStyles(DefaultDirection, EdgeLine("model.a", "model.b"), green, red, edgeOrder, styleOrder);
  }

  /** Proof step of `ExampleRendered`: the block of one edge line and two
      distinct style lines. */
  lemma RenderOneEdgeTwoStyles(direction: string, edge: string, s1: string, s2: string,
                               edgeOrder: seq<string>, styleOrder: seq<string>)
    requires s1 != s2
    requires Enumerates(edgeOrder, {edge}) && Enumerates(styleOrder, {s1, s2})
    ensures var r := Render(direction, edgeOrder, styleOrder);
      && |r| == 6
      && r[0] == Header && r[1] == direction && r[5] == Footer
      && r[2] == Tab(edge) && Tab(s1) in r[3..5] && Tab(s2) in r[3..5]
  {
    RenderShape(direction, {edge}, {s1, s2}, edgeOrder, styleOrder);
  }

  /** The cap at its boundary: `--base-nodes 0` is falsy and caps nothing,
      `--base-nodes 1` processes indices 0 and 1, a negative value nothing. */
  lemma CapExamples(a: RunResult, b: RunResult, c: RunResult, includes: seq<string>)
    requires HasAnyPrefix(a.uniqueId, includes) && HasAnyPrefix(b.uniqueId, includes)
    requires HasAnyPrefix(c.uniqueId, includes)
    ensures Selected([a, b, c], includes, Some(0)) == [a, b, c]
    ensures Selected([a, b, c], includes, Some(1)) == [a, b]
    ensures Selected([a, b, c], includes, Some(-1)) == []
  {
    FilterKeepsAll([a, b, c], includes);
    CapBoundary(3, Some(0));
    CapBoundary(3, Some(1));
    CapBoundary(3, Some(-1));
  }
}
