# Revelo loop-finding and loop-display core, in Dafny

Revelo lets a group build a causal diagram: variables joined by influence relationships. It then finds the feedback loops in that diagram. This project models and verifies the sequential logic behind that feature.

- **Loop finder**, `GraphAnalyser` with `Strings`. This is the native `find_cycles` function. It takes `(relationship id, source, target)` triples and builds a directed graph. Node indices follow first appearance. A `(source, target) → id` map keeps the last id listed for each pair. Self-loop edges are removed before the cycle search. Each node cycle is turned into relationship ids and rotated to start at its smallest id. Finally, each removed self-loop is appended as a one-element cycle. Johnson's simple-cycle search is a foreign library call. It is an oracle function parameter here. The lemmas assume only what the library documents: each cycle it yields either follows edges of the graph with self-loops removed, or is the one-node cycle `[n]` it reports for each node `n` of its `self_cycles` argument. That second kind is why a self-loop comes out twice (see Findings).
- **Loop plot hook**, `PlotLoops`:
  - the opacity rules that highlight the selected loop;
  - the node and edge style callbacks;
  - the choice between a saved preset layout and an automatic one;
  - the handler that saves node positions on every move;
  - `updated`, which only re-runs the highlight.
- **Loop toggler hook**, `LoopToggler`: the selected-loop state machine, its mirror in the plot element's `data-selected-loop` attribute and the `loop-selected` events. The facilitator and participant show/hide rules are modelled as a set of hidden elements.
- **Resizable sidebar hook**, `ResizableSidebar`: the `mousedown`/`mousemove`/`mouseup` state machine and the width clamp.
- **Page script**, `App`: the high-contrast theme toggle and the root class that follows it, plus the socket parameters.

Stateful code is modelled as classes and methods whose `ensures` tie the new state to specification functions. Those functions carry their own properties as lemmas. Rust's sequential loops are methods with loop invariants over local value state. A petgraph graph is a `Graph` value holding its node names in index order and its edges in insertion order.

## Model

| member | source | states |
|---|---|---|
| GraphAnalyser.NodeOrderSpec | native/graph_analyser/src/lib.rs:17-26 | node list has no duplicates; it holds exactly the ids that occur as a source or target; nodes are ordered by first occurrence, source before target |
| GraphAnalyser.NodesCover | native/graph_analyser/src/lib.rs:17-26 | every source and target of every triple has a node |
| GraphAnalyser.DedupOrder | native/graph_analyser/src/lib.rs:17-26 | deduplication keeps first-appearance order |
| GraphAnalyser.Dedup | native/graph_analyser/src/lib.rs:19-25 | result is duplicate-free and holds exactly the input's elements |
| GraphAnalyser.AddNodes | native/graph_analyser/src/lib.rs:17-28 | the loop builds the specified node order, an index map sending each node to its position, and the relationship map |
| GraphAnalyser.RelMapHasKeys | native/graph_analyser/src/lib.rs:27 | every triple's (source, target) pair is a key of the map |
| GraphAnalyser.RelMapOnlyKeys | native/graph_analyser/src/lib.rs:27 | every key of the map comes from some triple |
| GraphAnalyser.RelMapLast | native/graph_analyser/src/lib.rs:27 | a pair maps to the id of the last triple listed with that pair |
| GraphAnalyser.RelMapLastWins | native/graph_analyser/src/lib.rs:27 | the three facts above together |
| GraphAnalyser.IndexIsFirst | native/graph_analyser/src/lib.rs:19-25 | a node's index is its position in the node list |
| GraphAnalyser.AddEdges | native/graph_analyser/src/lib.rs:31-35 | one edge per triple, in input order, parallel edges included, joining the indices of its endpoints and weighted by its id |
| GraphAnalyser.EdgeHasRelEntry | native/graph_analyser/src/lib.rs:31-35 | edge k joins the nodes named by triple k, and their pair has a map entry |
| GraphAnalyser.InitialGraphWellFormed | native/graph_analyser/src/lib.rs:17-35 | nodes are distinct and every edge endpoint is a valid index |
| GraphAnalyser.BuildGraph | native/graph_analyser/src/lib.rs:13-35 | the built graph and map equal the specified initial graph and relationship map |
| GraphAnalyser.SelfNodesBelow | native/graph_analyser/src/lib.rs:38-41 | the self-loop node list is strictly increasing and holds exactly the nodes with a self edge |
| GraphAnalyser.FindSelfEdge | native/graph_analyser/src/lib.rs:47 | finds the newest self edge at a node, or reports that none is left |
| GraphAnalyser.RemoveNewestSelfWeights | native/graph_analyser/src/lib.rs:47-49 | removing the newest self edge takes its weight off the end of that node's self-weights |
| GraphAnalyser.RemoveNewestSelfKeeps | native/graph_analyser/src/lib.rs:47-48 | removing a self edge leaves every other edge in place |
| GraphAnalyser.RemoveSelfEdgesAt | native/graph_analyser/src/lib.rs:46-50 | the `while let` loop removes all of that node's self edges and nothing else, recording their ids newest first |
| GraphAnalyser.RemoveSelfEdges | native/graph_analyser/src/lib.rs:44-51 | for all self-loop nodes in order: nodes unchanged, their self edges removed, ids recorded in removal order |
| GraphAnalyser.NonSelf | native/graph_analyser/src/lib.rs:43-51 | the stripped edge list has no self edges, and each of its edges is an original edge |
| GraphAnalyser.StrippedIsNonSelf | native/graph_analyser/src/lib.rs:38-51 | once every self-loop node's edges are removed, exactly the non-self edges remain, in order |
| GraphAnalyser.NonSelfHasNoSelfLoops | native/graph_analyser/src/lib.rs:43-51 | the stripped graph has no self-loop left to report |
| GraphAnalyser.RemovedMultiset | native/graph_analyser/src/lib.rs:44-51 | removed ids plus the remaining self-loop ids are, as a multiset, the original self-loop ids |
| GraphAnalyser.SelfLoopsSplitAt | native/graph_analyser/src/lib.rs:45-50 | a graph's self-loop ids split into one node's self-loops and the rest |
| GraphAnalyser.SelfLoopWeightsOfEdges | native/graph_analyser/src/lib.rs:31-41 | the self-loop edges of the built graph are exactly the self-loop triples, in input order |
| GraphAnalyser.SelfLoopsReported | native/graph_analyser/src/lib.rs:38-51 | each self-loop relationship is removed exactly once (multiset equality with the self-loop triples) |
| GraphAnalyser.StrippedGraphIs | native/graph_analyser/src/lib.rs:43-57 | the graph handed to the cycle search is the specified stripped graph |
| GraphAnalyser.ConvertCycle | native/graph_analyser/src/lib.rs:71-89 | succeeds iff every wrapped step (cycle[i], cycle[(i+1) mod n]) has a map entry; then it gives n ids, the i-th being that step's entry |
| GraphAnalyser.CollectedOkIff | native/graph_analyser/src/lib.rs:70-111 | collection succeeds iff every oracle cycle converts; the only error is "Edge not found in relationship map" |
| GraphAnalyser.CollectedCanonical | native/graph_analyser/src/lib.rs:91-110 | every collected cycle is non-empty, in canonical rotation, and starts at its minimum |
| GraphAnalyser.CollectCycles | native/graph_analyser/src/lib.rs:61-111 | the collection loop returns the specified result, including the early error return |
| GraphAnalyser.Singletons | native/graph_analyser/src/lib.rs:114-116 | one one-element cycle per removed self-loop id, in order |
| GraphAnalyser.AppendSingletons | native/graph_analyser/src/lib.rs:113-116 | the self-loop singletons are appended after the other cycles |
| GraphAnalyser.FindCycles | native/graph_analyser/src/lib.rs:11-119 | the whole function returns the specified result for the given oracle |
| GraphAnalyser.StepHasRelEntry | native/graph_analyser/src/lib.rs:31-35 | a step along a stripped-graph edge has a relationship-map entry |
| GraphAnalyser.EdgeNotFoundUnreachable | native/graph_analyser/src/lib.rs:53-88 | when every oracle cycle follows edges of the stripped graph or is the one-node cycle `[n]` of a `self_cycles` node, the error branch cannot be taken |
| GraphAnalyser.FindCyclesOutput | native/graph_analyser/src/lib.rs:91-118 | on success the output ends with the self-loop singletons, one per self-loop triple, and every earlier cycle is canonical |
| GraphAnalyser.AddNode | native/graph_analyser/src/lib.rs:19-26 | an id not yet indexed gets the next node index and is appended; a known id changes nothing; the index map stays consistent |
| GraphAnalyser.RemoveSelfStep | native/graph_analyser/src/lib.rs:47-50 | one round of the `while let` moves the removed edge's id to the front of the reversed self-loop ids and keeps every other edge |
| GraphAnalyser.SelfNodeHasRelEntry | native/graph_analyser/src/lib.rs:17-41 | a self-loop node's own pair `(n, n)` has a relationship-map entry |
| GraphAnalyser.SelfCycleHasRelEntry | native/graph_analyser/src/lib.rs:53-89 | the one-node cycle Johnson's algorithm yields for a `self_cycles` node converts without error |
| GraphAnalyser.FollowingCycleHasRelEntries | native/graph_analyser/src/lib.rs:70-89 | a cycle along stripped-graph edges converts without error |
| GraphAnalyser.SoundCycleHasRelEntries | native/graph_analyser/src/lib.rs:53-89 | every cycle the search may yield converts without error |
| GraphAnalyser.SingletonIdsOfSingletons | native/graph_analyser/src/lib.rs:113-116 | the one-element cycles appended by the last loop carry exactly the removed ids, in order |
| GraphAnalyser.DoubleReport | native/graph_analyser/src/lib.rs:37-116 | for any single self-loop `x -> x` with id `id`, and a search that yields only the `[0]` of its `self_cycles` node (in range and sound), the result is `[[id], [id]]`: the self-loop is reported twice |
| GraphAnalyser.DropSelfCycles | native/graph_analyser/src/lib.rs:53-60 | the corrected search result keeps exactly the cycles that are not one-node cycles |
| GraphAnalyser.CollectedLengths | native/graph_analyser/src/lib.rs:70-111 | collecting cycles none of which has one node yields no one-element id cycle |
| GraphAnalyser.IntendedReportsOnce | native/graph_analyser/src/lib.rs:53-116 | in the corrected function the one-element cycles of the output are, as a multiset, exactly the self-loop ids: each self-loop once |
| GraphAnalyser.IntendedNeverFails | native/graph_analyser/src/lib.rs:53-116 | the corrected function cannot hit the error branch under the same oracle assumptions |
| GraphAnalyser.IntendedSingleReport | native/graph_analyser/src/lib.rs:37-116 | the corrected function reports a single self-loop once: `[[id]]` |
| Strings.StrLeTotal | native/graph_analyser/src/lib.rs:96 | string order (Rust `Ord` on `String`) is total |
| Strings.StrLeAntisymmetric | native/graph_analyser/src/lib.rs:96 | string order is antisymmetric |
| Strings.StrLeTransitive | native/graph_analyser/src/lib.rs:96 | string order is transitive |
| Strings.FirstMinIndex | native/graph_analyser/src/lib.rs:93-98 | `min_by` gives the first index holding a minimum element |
| Strings.RotationAtMin | native/graph_analyser/src/lib.rs:100-107 | rotating at a minimum puts that minimum first, and it is at most every element |
| Strings.Canonical | native/graph_analyser/src/lib.rs:91-107 | a non-empty cycle becomes exactly its rotation at the first minimum, `s[m..] + s[..m]`; the result has the same length and multiset, is a rotation of the input, and its head is at most every element |
| Strings.CanonicalIdempotent | native/graph_analyser/src/lib.rs:93-107 | rotating an already canonical cycle leaves it unchanged |
| PlotLoops.SelectedEdges | assets/js/hooks/plot_loops.js:27-37 | holds exactly the edge entries that belong to a loop whose id is the selected one |
| PlotLoops.EndpointSetIs | assets/js/hooks/plot_loops.js:39-42 | an id is collected iff it is the source or target of a selected edge |
| PlotLoops.CollectEndpoints | assets/js/hooks/plot_loops.js:26-42 | the `forEach` loop collects exactly that endpoint set |
| PlotLoops.WithOpacity | assets/js/hooks/plot_loops.js:16-24 | every element gets the given opacity and is otherwise unchanged |
| PlotLoops.LightUp | assets/js/hooks/plot_loops.js:48-57 | the second pass sets opacity 1 on elements whose id is a selected edge or endpoint, and leaves the rest alone |
| PlotLoops.UpdateNodeStyles | assets/js/hooks/plot_loops.js:13-58 | with a graph, the new elements are the specified styling of the old ones; with no graph nothing changes |
| PlotLoops.Styled | assets/js/hooks/plot_loops.js:13-58 | styling keeps each element's id, kind and position |
| PlotLoops.HighlightIff | assets/js/hooks/plot_loops.js:22-57 | with a loop selected, the opacity is 0 or 1, and it is 1 iff the id is a selected loop's edge or an endpoint of one |
| PlotLoops.HighlightedIsLit | assets/js/hooks/plot_loops.js:44-57 | a highlighted id ends at opacity 1 |
| PlotLoops.LitIsHighlighted | assets/js/hooks/plot_loops.js:22-57 | an id at opacity 1 is highlighted |
| PlotLoops.NoSelectionAllVisible | assets/js/hooks/plot_loops.js:15-19 | an absent or empty selection leaves every element at opacity 1 |
| PlotLoops.UnknownLoopAllDim | assets/js/hooks/plot_loops.js:22-57 | a selected id that names no loop dims every element to 0 |
| PlotLoops.EdgesOnly | assets/js/hooks/plot_loops.js:192 | `updated` passes on exactly the edge entries |
| PlotLoops.HighlightedEdgesOnly | assets/js/hooks/plot_loops.js:27-192 | filtering to edges first does not change what is highlighted |
| PlotLoops.NonEdgesIgnored | assets/js/hooks/plot_loops.js:27-192 | entries whose group is not "edges" do not affect any opacity |
| PlotLoops.UnmatchedMemberIgnored | assets/js/hooks/plot_loops.js:30-36 | a loop member id without a matching edge changes no opacity |
| PlotLoops.NodeStyleOf | assets/js/hooks/plot_loops.js:73-115 | every node is at least 30 high |
| PlotLoops.HeightStrictlyIncreasing | assets/js/hooks/plot_loops.js:105-107 | a longer label gives a strictly taller node |
| PlotLoops.KeyStyleDiffers | assets/js/hooks/plot_loops.js:73-115 | key nodes get weight 600, margin 15 and a 50px × 37px icon at 4px; non-key nodes get weight 400, margin 0, size 0 and a different image |
| PlotLoops.NodeStyleDeterminedBy | assets/js/hooks/plot_loops.js:73-115 | two nodes look alike iff they agree on being a key and on label length |
| PlotLoops.EdgeStyleOf | assets/js/hooks/plot_loops.js:119-141 | edges are width 3, with a triangle arrow and an unbundled-bezier curve; line and arrow share a colour: #0284C7 for inverse, #C2410C for direct, otherwise the relation value |
| PlotLoops.PolarityVisible | assets/js/hooks/plot_loops.js:128-141 | inverse and direct edges never share a colour |
| PlotLoops.ChooseLayout | assets/js/hooks/plot_loops.js:62-169 | preset iff positions were saved, using exactly those positions |
| PlotLoops.InitialElements | assets/js/hooks/plot_loops.js:65-67 | one live element per entry, same id, a node iff not an edge entry, fully opaque |
| PlotLoops.PositionsKeys | assets/js/hooks/plot_loops.js:173-177 | the saved map's keys are exactly the current node ids |
| PlotLoops.PositionsAt | assets/js/hooks/plot_loops.js:175-177 | each node's saved position is its current position |
| PlotLoops.PresetRestores | assets/js/hooks/plot_loops.js:62-179 | saving and then remounting places every node back where it was |
| PlotLoops.PlotLoopsHook.Mounted | assets/js/hooks/plot_loops.js:61-170 | the new graph holds the initial elements for the chosen layout |
| PlotLoops.PlotLoopsHook.OnNodePosition | assets/js/hooks/plot_loops.js:173-179 | the loop stores the position map of the current nodes |
| PlotLoops.PlotLoopsHook.Updated | assets/js/hooks/plot_loops.js:182-194 | only the highlight, over the edge entries, is re-applied to the existing elements |
| PlotLoops.UpdatedKeepsElements | assets/js/hooks/plot_loops.js:182-194 | after `updated`, the element list differs from the old one only in opacity |
| LoopToggler.Toggler.Mounted | assets/js/hooks/loop_toggler.js:2-22 | no loop is selected; which parts exist is fixed from the page at mount |
| LoopToggler.HideAll | assets/js/hooks/loop_toggler.js:51-135 | the `forEach` adds `hidden` to exactly the given elements |
| LoopToggler.ShowAll | assets/js/hooks/loop_toggler.js:126 | the `forEach` removes `hidden` from exactly the given elements |
| LoopToggler.FacilitatorSelect | assets/js/hooks/loop_toggler.js:46-59 | hides all facilitator details, then shows the chosen one if present |
| LoopToggler.ParticipantSelect | assets/js/hooks/loop_toggler.js:65-87 | hides the buttons and the header, and shows the chosen detail and the back button |
| LoopToggler.ParticipantUnselect | assets/js/hooks/loop_toggler.js:121-141 | shows the buttons and the header, and hides every detail and the back button |
| LoopToggler.Toggler.UnselectLoop | assets/js/hooks/loop_toggler.js:91-143 | clears the selection; the page becomes the specified unselected view |
| LoopToggler.Toggler.ToggleLoop | assets/js/hooks/loop_toggler.js:24-89 | selection and page follow the specified toggle |
| LoopToggler.ToggleSelectedUnselects | assets/js/hooks/loop_toggler.js:26-28 | toggling the selected loop is exactly an unselect |
| LoopToggler.ToggleTwice | assets/js/hooks/loop_toggler.js:26-93 | toggling the same id twice from no selection selects it and then returns to no selection |
| LoopToggler.PlotMirrorsSelection | assets/js/hooks/loop_toggler.js:34-105 | with a plot element, its attribute equals the new selection and exactly one event carrying it is sent; without one, neither changes |
| LoopToggler.FacilitatorIsDetail | assets/js/hooks/loop_toggler.js:134 | facilitator details also match the `loop-detail-` prefix |
| LoopToggler.FacilitatorSelectShows | assets/js/hooks/loop_toggler.js:46-59 | after selecting x, a facilitator detail is hidden iff it is not x's (or, in a participant page, x's own participant detail) |
| LoopToggler.FacilitatorUnselectShows | assets/js/hooks/loop_toggler.js:108-114 | after unselect every facilitator detail is hidden |
| LoopToggler.ParticipantSelectShows | assets/js/hooks/loop_toggler.js:65-87 | buttons and header hidden, x's detail and the back button shown, other participant details untouched |
| LoopToggler.ParticipantUnselectShows | assets/js/hooks/loop_toggler.js:121-141 | buttons and header shown; every detail, facilitator ones included, and the back button hidden |
| LoopToggler.UntouchedNotDetail | assets/js/hooks/loop_toggler.js:48-134 | an element outside the touched id families matches no detail selector |
| LoopToggler.OthersUnchanged | assets/js/hooks/loop_toggler.js:24-143 | no toggle changes the visibility of any other element |
| ResizableSidebar.Sidebar.Mounted | assets/js/hooks/resizable_sidebar.js:2-12 | not resizing; the width limit is 80% of the window width at mount |
| ResizableSidebar.Sidebar.MouseDown | assets/js/hooks/resizable_sidebar.js:14-22 | starts a drag, records the width and cursor position, marks the body |
| ResizableSidebar.Sidebar.MouseMove | assets/js/hooks/resizable_sidebar.js:24-41 | does nothing without a drag; otherwise sets the sidebar width, and the plot offset if there is a plot, to the same clamped width |
| ResizableSidebar.Sidebar.MouseUp | assets/js/hooks/resizable_sidebar.js:43-48 | ends a drag and unmarks the body; without a drag nothing changes |
| ResizableSidebar.NewWidth | assets/js/hooks/resizable_sidebar.js:28-32 | width is at least 250; at most the limit when the limit allows 250; exactly 250 otherwise; the requested width when it is within range |
| ResizableSidebar.NewWidthNonIncreasing | assets/js/hooks/resizable_sidebar.js:28-32 | moving the cursor right never widens the sidebar |
| App.NextTheme | assets/js/app.js:74-76 | the new theme is high_contrast iff the old one was not; it is always light or high_contrast |
| App.RootAfterInit | assets/js/app.js:63-72 | high_contrast class present iff the theme is high_contrast; other classes kept |
| App.InitIdempotent | assets/js/app.js:67-72 | running init twice equals running it once |
| App.ToggleTwice | assets/js/app.js:74-76 | two toggles restore light or high_contrast, and turn any other value into light |
| App.ToggleKeepsClassInStep | assets/js/app.js:74-78 | after a toggle the class agrees with the new theme, is flipped and leaves other classes unchanged |
| App.Page.Load | assets/js/app.js:80 | at load the root class agrees with the stored theme |
| App.Page.InitHighContrast | assets/js/app.js:67-72 | the root classes become the specified result of init |
| App.Page.ToggleHighContrast | assets/js/app.js:74-78 | the theme flips; the root classes follow the new theme |
| App.SocketParams | assets/js/app.js:26-34 | always the CSRF token; anon_user_id, with the stored value, iff one is stored non-empty; no other key |

## Left out

- Johnson's simple-cycle search (native/graph_analyser/src/lib.rs:60) is foreign library code. It is a function parameter. The lemmas assume only that its cycles have valid node indices and, for the error branch, that each one follows edges of the stripped graph or is the one-node cycle of a `self_cycles` node.
- The Rust–Elixir boundary is not modelled: the NIF attribute, module registration, and error-term encoding. The error is the `Err` string "Edge not found in relationship map".
- `index_to_uuid` (native/graph_analyser/src/lib.rs:63-67) is the inverse of the node index map. It is modelled as reading the graph's node-name list, which holds the same values. An index missing from that map would panic in Rust. The model requires oracle indices to be in range instead.
- `SelfCyclesOnly` stands for rustworkx's Johnson's algorithm only on a graph whose only cycles are self-loops; it is used for the finding's one-triple input, whose stripped graph has no edges.
- petgraph's `find_edge` returns the most recently added matching edge. The model removes the last matching self edge. Per-node singletons therefore appear newest first.
- Cytoscape rendering is not modelled, nor the cose-bilkent force layout and its numeric parameters. The positions the force layout would give are a parameter map, and a missing entry falls back to the origin.
- `destroyed` (assets/js/hooks/plot_loops.js:196-200) only tears down the rendering library's instance, so it is not modelled.
- The SVG key icon and the GIF placeholder are opaque string constants. The SVG body is abbreviated.
- localStorage, `JSON.parse` and `JSON.stringify` are not modelled. Saved positions are an optional map.
- Malformed saved JSON (assets/js/hooks/plot_loops.js:63) throws in the source. The model has no parse step, so it does not capture this.
- `updated` parses `dataset.layout` (assets/js/hooks/plot_loops.js:184) but never uses it. The model omits it.
- NodeStyleOf: the source counts the label's length in UTF-16 code units. The model counts Unicode scalar values, so labels outside the Basic Multilingual Plane are measured shorter.
- JavaScript numbers are modelled as exact reals, so floating-point rounding is not captured.
- DOM querying is abstracted to a set of present element ids and a set of hidden elements.
- Loop buttons (`button[data-loop-id]`) are opaque handles, not ids.
- Loop ids are strings, never null.
- `this.loopList` ("loop-list", assets/js/hooks/loop_toggler.js:4) is looked up but never used, so it is not modelled.
- Event-listener registration is not modelled. Toggle and unselect events are method calls.
- The live socket, topbar and `phx:js-exec` plumbing (assets/js/app.js:36-61) are network and I/O, so they are not modelled.
- A missing CSRF meta tag would throw at assets/js/app.js:26-28. The model takes the token as a string.
- The other hooks are not part of this model: cytoscape.js, store_user_id.js, anon_user.js, relationship_scroll.js, update_generate_value.js and the index.js registry. They are thin wrappers and plumbing.
- Cytoscape treats an element with no `group` but with `source` and `target` data as an edge. `InitialElements` decides by the `group` field alone, so such an entry is modelled as a node.
- NodeStyleOf: an element without a `label` makes `ele.data("label").length` throw (assets/js/hooks/plot_loops.js:106). The model's labels are always strings.
- ResizableSidebar.Sidebar.Mounted: a sidebar without a `.resize-handle` child makes `handle.addEventListener` throw (assets/js/hooks/resizable_sidebar.js:4-14). The model assumes the handle exists.
- `LoopToggler` is not registered in assets/js/hooks/index.js, which lists only AnonUser, UpdateGenerateValue, PlotLoops, RelationshipScroll and ResizableSidebar. The model treats the hook on its own.

## Findings

| source | as written | input that shows it | evidently intended | confidence | as-written member | corrected member |
|---|---|---|---|---|---|---|
| native/graph_analyser/src/lib.rs:53-116 | the self-loop nodes are handed to Johnson's algorithm as `self_cycles`, which yields `[n]` for each of them; the collecting loop converts `[n]` through the `rel_map` entry of `(n, n)`, which the edge removal left in place; the last loop appends each removed self-loop again | `[("r1", "a", "a")]` gives `[["r1"], ["r1"]]` | each self-loop reported once, by the last loop only, as the comments at lines 37 and 113 describe: `[["r1"]]` | medium, not executed; relies on the rustworkx documentation of `self_cycles` | GraphAnalyser.DoubleReport | GraphAnalyser.IntendedReportsOnce |
