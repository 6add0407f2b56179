# dbt-mermaid: a Dafny model of the graph-to-Mermaid translation

dbt-mermaid reads the dependency graph and the run results of a dbt run and
prints a Mermaid flowchart. The flowchart shows the nodes of the selected
types, their one-hop edges, and each node's last run status as a fill colour.
This project models the core of that translation and proves its properties.
The core has two parts, both in `dbt_mermaid/cli.py`:

- **The `Mermaid` builder** (`diagram.dfy`, module `Diagram`). It is a class
  with the source's fields `style` (the direction line), `lines` (edge lines)
  and `styles` (style lines). The two sets de-duplicate by text.
  - `AddEdge` passes both endpoints through `ValidateTransform`, which appends
    `_` to a name ending in `end`, and inserts `from --> to`.
  - `AddStyle` accepts `red` and `green` in any case and inserts
    `style <node> fill:<hex>`. Any other colour yields the `ValueError`
    message as a `Fail` outcome and changes nothing.
  - `Print` returns the printed lines instead of writing them: the fence
    header, the direction, one `"\t " + line` per edge, one per style, and
    the closing fence. Python iterates a set in an arbitrary order, so
    `Print` also returns, as ghost results, the order it used. Its contract
    ties the output to `Render` of those orders. `RenderShape` then proves
    the block's shape for every possible order.
- **The selection and walk loop of `main`** (`cli.dfy`, module `Cli`).
  - `Filter` is the lazy `filter` on the `unique_id` prefix, and `StopsAt`
    is the cap guard as written.
  - `Walk` is the `enumerate` loop with its `break`. For each processed
    result, `ProcessNode` adds the predecessor and successor edges whose
    other endpoint is also included, then one style: green exactly when the
    status is `"success"`.
  - `Run` builds a fresh builder, walks, and renders.
  - The walk is proved against the specification functions `Selected`,
    `WalkEdges` and `WalkStyles`. Those are in turn characterised without
    reference to the loop: `FilterExactly`, `ProcessedCount`/`CapBoundary`,
    `WalkEdgesExactly` and `WalkStylesExactly`.

`text.dfy` (module `Text`) holds the Python string operations used:
`startswith` (also with a tuple of prefixes), `endswith` and `lower`.

Inputs are already parsed. The graph is two maps, `pred` and `adj`, from a
node id to a set of ids. The run results are a sequence of
`(unique_id, status)` records. `--base-nodes` is an `Option<int>`.
`--include` is a sequence of prefixes.

Three behaviours of the code look unintended. The model keeps them as
written:
- The cap guard `args.base_nodes and index > args.base_nodes` treats
  `--base-nodes 0` as "no cap". With `0` every selected result is processed,
  not just the first. A positive `n` processes indices `0..n`, which is
  `n + 1` results. A negative `n` processes none. `CapBoundary` and
  `CapExamples` pin down all three cases.
- Escaping applies only to edge endpoints. A style line names the node
  untransformed (`StyleTargetNotTransformed`). So a node whose id ends in
  `end` is named `…end_` in its edges and `…end` in its style.
- The escape is not injective (`ValidateTransformMerges`): the ids
  `model.backend` and `model.backend_` are drawn as one Mermaid node.

## Model

| member | source | states |
|---|---|---|
| `Text.StartsWith` | dbt_mermaid/cli.py:55 | `s.startswith(prefix)`: true exactly when the prefix fits in `s` and `s` begins with it |
| `Text.EndsWith` | dbt_mermaid/cli.py:122 | `s.endswith(suffix)`: true exactly when `s` is some string followed by the suffix |
| `Text.HasAnyPrefix` | dbt_mermaid/cli.py:55 | `s.startswith(tuple(prefixes))`: some prefix of the tuple starts `s`; characterised by `HasAnyPrefixMembership` |
| `Text.HasAnyPrefixMembership` | dbt_mermaid/cli.py:55 | the tuple test holds exactly when some member of the tuple is a prefix of `s`, and never for an empty tuple |
| `Text.Lower` | dbt_mermaid/cli.py:99-101 | `color.lower()`: same length, each character lower-cased (ASCII letters folded, everything else kept) |
| `Text.LowerIdempotent` | dbt_mermaid/cli.py:99-101 | lower-casing twice equals lower-casing once |
| `Diagram.ValidateTransform` | dbt_mermaid/cli.py:119-125 | a name ending in "end" gets exactly one "_" appended, every other name is returned unchanged, and the result never ends in "end" |
| `Diagram.ValidateTransformIdempotent` | dbt_mermaid/cli.py:119-125 | transforming an already transformed name changes nothing |
| `Diagram.ValidateTransformMerges` | dbt_mermaid/cli.py:119-125 | two distinct ids, `model.backend` and `model.backend_`, become the same Mermaid name |
| `Diagram.EdgeLine` | dbt_mermaid/cli.py:89-94 | the text `add_edge` inserts, `f"{from_node} --> {to_node}"` of the transformed endpoints; characterised by `EdgeLineShape` |
| `Diagram.EdgeLineShape` | dbt_mermaid/cli.py:91-94 | an edge line starts with the transformed source, ends with the transformed target, and has " --> " between them, so its length is theirs plus 5 |
| `Diagram.StyleLine` | dbt_mermaid/cli.py:106 | the text `add_style` inserts, `f"style {node_id} fill:{color_hex}"` with the node name untransformed; characterised by `StyleLineShape` |
| `Diagram.StyleLineShape` | dbt_mermaid/cli.py:106 | a style line is "style ", then the node name as given and a space right after it, and it ends with " fill:" and the hex value |
| `Diagram.ColorHex` | dbt_mermaid/cli.py:97-104 | the colour maps to #FF5733 exactly when it lower-cases to "red", to #355E3B exactly when it lower-cases to "green", and is rejected otherwise |
| `Diagram.ColorHexIgnoresCase` | dbt_mermaid/cli.py:99-101 | a colour and its lower-case form are treated alike |
| `Diagram.ColorHexOfKnownNames` | dbt_mermaid/cli.py:78-104 | "red", "RED" give #FF5733, "green" gives #355E3B, "blue" is rejected |
| `Diagram.Mermaid.constructor` | dbt_mermaid/cli.py:83-87 | a new builder has the given direction (default "graph LR") and no edge or style lines |
| `Diagram.Mermaid.AddEdge` | dbt_mermaid/cli.py:89-95 | inserts the line of the transformed endpoints into `lines`; `styles` and the direction are unchanged |
| `Diagram.AddEdgeTwice` | dbt_mermaid/cli.py:89-95 | adding the same pair twice leaves the builder exactly as adding it once |
| `Diagram.Mermaid.AddStyle` | dbt_mermaid/cli.py:97-107 | an accepted colour inserts `style <node> fill:<hex>` and passes; any other colour fails with "Color <c> not supported." and leaves `styles` unchanged; `lines` is never touched |
| `Diagram.StyleTargetNotTransformed` | dbt_mermaid/cli.py:89-107 | for an id ending in "end", edge lines name it with "_" appended (as source or target) while its style line names it as given, followed by a space |
| `Diagram.EmitAll` | dbt_mermaid/cli.py:113-116 | one printing loop emits as many lines as the set has elements, a tab-prefixed line for x exactly when x is in the set, each once, in some order |
| `Diagram.EnumerationSize` | dbt_mermaid/cli.py:113-116 | any order listing each set element once has as many lines as the set has elements |
| `Diagram.Mermaid.Print` | dbt_mermaid/cli.py:109-117 | the output has one line per edge and per style plus 3: header first, direction second, footer last; the edge section holds a tabbed line exactly for each edge and comes before the style section, which holds one exactly for each style |
| `Diagram.Render` | dbt_mermaid/cli.py:109-117 | the printed block for given iteration orders: as many lines as both orders plus 3, the header first, the direction second, the footer last |
| `Diagram.RenderShape` | dbt_mermaid/cli.py:109-117 | the block has as many lines as there are edge and style lines, plus 3: "```mermaid" first, the direction second, "```" last, edges (each once) before styles (each once), every body line prefixed by a tab and a space |
| `Diagram.EmptyRender` | dbt_mermaid/cli.py:109-117 | an empty builder renders as header, direction and footer only |
| `Cli.Filter` | dbt_mermaid/cli.py:55 | the lazy `filter` on the `unique_id` prefix, as a function on the whole sequence; characterised by `FilterExactly` and `FilterAppend` |
| `Cli.FilterExactly` | dbt_mermaid/cli.py:55 | the filter keeps exactly the results whose id starts with an included prefix |
| `Cli.FilterAppend` | dbt_mermaid/cli.py:55 | filtering a concatenation concatenates the filtered parts, so relative order is kept |
| `Cli.FilterKeepsAll` | dbt_mermaid/cli.py:55 | when every result is included, the filter returns the results unchanged |
| `Cli.StopsAt` | dbt_mermaid/cli.py:57 | the guard as written: true exactly when `--base-nodes` is given, non-zero (truthy), and the filtered index exceeds it; characterised by `StopsAtCases` |
| `Cli.StopsAtCases` | dbt_mermaid/cli.py:57 | the guard never breaks for None or 0, breaks at every index for a negative value, and exactly past the value for a positive one |
| `Cli.FirstStop` | dbt_mermaid/cli.py:56-58 | the first index from `k` at which the cap guard breaks, or the number of filtered results if it never does |
| `Cli.ProcessedCount` | dbt_mermaid/cli.py:56-58 | the number of processed results: the guard holds at no smaller index and does hold at this one unless all were processed |
| `Cli.CapBoundary` | dbt_mermaid/cli.py:57-58 | None or 0 processes all filtered results, a positive n processes min(n + 1, count), a negative n processes none |
| `Cli.CapExamples` | dbt_mermaid/cli.py:57-58 | of three included results, `--base-nodes 0` processes all three, `1` the first two, `-1` none |
| `Cli.SelectedIncluded` | dbt_mermaid/cli.py:55-58 | every processed result comes from the run results and has an included prefix |
| `Cli.StatusColor` | dbt_mermaid/cli.py:69 | the colour name is "green" exactly when the status is "success", and "red" otherwise |
| `Cli.StatusStyle` | dbt_mermaid/cli.py:69-70 | the style line the loop adds for a result; characterised by `StatusStyleAccepted` |
| `Cli.StatusStyleAccepted` | dbt_mermaid/cli.py:69-70 | the style line is the one `add_style` inserts for the result's id and the hex value of the colour the loop picks, which is always accepted |
| `Cli.StatusColorAccepted` | dbt_mermaid/cli.py:69-70 | the colour picked for a status is always accepted by `add_style` (the walk never raises), and is green exactly for "success" |
| `Cli.WalkEdgesExactly` | dbt_mermaid/cli.py:60-67 | the walk's edges are exactly the lines of (an included predecessor → a processed node) and (a processed node → an included successor) |
| `Cli.WalkEdgeEndpoints` | dbt_mermaid/cli.py:55-67 | both raw endpoints of every walk edge carry an included prefix; one is a processed id, as target for predecessors and as source for successors |
| `Cli.WalkStylesExactly` | dbt_mermaid/cli.py:69-70 | the walk's style lines are exactly one per processed result, coloured by its status; there are at most as many as processed results |
| `Cli.AddParentEdges` | dbt_mermaid/cli.py:61-63 | adds the edge from every included predecessor to the node and nothing else |
| `Cli.AddChildEdges` | dbt_mermaid/cli.py:65-67 | adds the edge from the node to every included successor and nothing else |
| `Cli.ProcessNode` | dbt_mermaid/cli.py:60-70 | one loop iteration adds the node's included one-hop edges and exactly one style line |
| `Cli.Walk` | dbt_mermaid/cli.py:53-70 | the loop, with its cap and `break`, adds exactly the edges and styles of the selected results and leaves the direction alone; its invariant keeps the processed results equal to the filter of the results scanned so far, in their order |
| `Cli.Run` | dbt_mermaid/cli.py:53-72 | the printed block is the rendering, under "graph LR", of the selected results' edges and styles: header first, footer last, and as many lines as walk edges plus walk styles plus 3 |
| `Cli.ExampleSelection` | dbt_mermaid/cli.py:55 | with `--include model`, both `model.a` and `model.b` are selected and `source.raw` is not |
| `Cli.ExampleEdges` | dbt_mermaid/cli.py:60-67 | for `model.a → model.b` with `model.a` fed by an excluded source, the only edge is `model.a → model.b` |
| `Cli.ExampleEdgeLine` | dbt_mermaid/cli.py:94 | that edge is printed as "model.a --> model.b" |
| `Cli.ExampleStyles` | dbt_mermaid/cli.py:69-70 | the successful `model.a` is styled green and the failed `model.b` red |
| `Cli.ExampleRendered` | dbt_mermaid/cli.py:53-72 | for every iteration order, the example prints six lines: the fence, "graph LR", the tabbed edge `model.a --> model.b`, the tabbed green style of `model.a` and red style of `model.b` in either order, and the closing fence |

## Left out

- Argument parsing (`argparse`, `--format`, the fixed choices of `-i`): the model takes any sequence of prefixes (`-i` is repeatable, `action="append"`).
- The directory and file checks and their `ValueError`s: file-system I/O.
- Loading `graph.gpickle` with `pickle` and `run_results.json` with `json`: inputs arrive already parsed, and networkx's `pred`/`adj` adjacency dictionaries become maps to sets of ids.
- Writing to standard output: `Print` returns the lines instead.
- Python's set iteration order: it is arbitrary. `Print` exposes the order it used as ghost results, and every property holds for all orders.
- The unused `nodes` list of the builder.
- A processed id missing from `graph.pred` or `graph.adj`, which raises `KeyError` in the source: `Walk` and `Run` require every processed id to be a key of both maps.
- Omitting `-i`. `args.include` is then `None`, and `tuple(None)` raises `TypeError` only when the filter is asked for its first result. So with no run results the source still prints the empty three-line block, and with any result it crashes. The model's prefixes are a sequence and cannot be `None`, so neither outcome is modelled. `Run` with an empty sequence selects nothing, as `startswith(())` does.
- `str.lower` on non-ASCII text: only ASCII letters are folded. The colour test still comes out as in Python, because no other character lower-cases to a letter of "red" or "green".
- The lazy evaluation of `filter`: the model's `Filter` is a function on the whole sequence. Laziness only decides when the omitted-`-i` crash above happens. With a prefix sequence given the filter's test cannot fail, so the same results are processed in the same order.
