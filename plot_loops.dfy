/** The `PlotLoops` hook (assets/js/hooks/plot_loops.js): the loop highlight,
    the per-element style rules, the layout choice at mount time and the
    handler that saves node positions.  The cytoscape instance is a `Cy`
    object holding the live elements; rendering is not modelled. */
module PlotLoops {
  import opened Wrappers

  // ---------------------------------------------------------------------
  // Data

  datatype Position = Position(x: real, y: real)

  const Origin := Position(0.0, 0.0)

  /** The `data` of a cytoscape element as the server sends it; edges carry
      `source`, `target` and `relation`, nodes `label` and `isKey`. */
  datatype ElementData = ElementData(id: string, source: string, target: string,
                                     labelText: string, isKey: bool, relation: string)

  /** One element of the `data-elements` JSON: `group` is "nodes" or "edges". */
  datatype Entry = Entry(group: string, data: ElementData)

  /** One loop of the `data-loops` JSON: its id and the ids of its influence
      relationships. */
  datatype Loop = Loop(id: string, influenceRelationships: seq<string>)

  /** A live cytoscape element: what the model keeps of it. */
  datatype LiveElement = LiveElement(id: string, isNode: bool, position: Position, opacity: real)

  /** The cytoscape instance: its elements, nodes and edges, in insertion order. */
  class Cy {
    var elements: seq<LiveElement>

    constructor (elements: seq<LiveElement>)
      ensures this.elements == elements
    {
      this.elements := elements;
    }
  }

  // ---------------------------------------------------------------------
  // The highlight (plot_loops.js:13-58)

  predicate IsEdgeEntry(e: Entry)
  {
    e.group == "edges"
  }

  /** Some loop with id `selected` lists `relId` among its relationships. */
  predicate InSelectedLoop(loops: seq<Loop>, selected: string, relId: string)
  {
    exists i :: 0 <= i < |loops| && loops[i].id == selected && relId in loops[i].influenceRelationships
  }

  /** `selectedLoopRelationships`: the edge entries on the selected loop, in order. */
  function SelectedEdges(selected: string, loops: seq<Loop>, rels: seq<Entry>): (r: seq<Entry>)
    ensures forall k :: 0 <= k < |r| ==> r[k] in rels && IsEdgeEntry(r[k]) && InSelectedLoop(loops, selected, r[k].data.id)
    ensures forall k :: 0 <= k < |rels| && IsEdgeEntry(rels[k]) && InSelectedLoop(loops, selected, rels[k].data.id) ==> rels[k] in r
  {
    if rels == [] then []
    else
      var p, e := rels[..|rels| - 1], rels[|rels| - 1];
      assert forall k :: 0 <= k < |p| ==> p[k] == rels[k];
      SelectedEdges(selected, loops, p) + (if IsEdgeEntry(e) && InSelectedLoop(loops, selected, e.data.id) then [e] else [])
  }

  /** `selectedLoopRelationshipIds`. */
  function EdgeIds(es: seq<Entry>): set<string>
  {
    set e | e in es :: e.data.id
  }

  /** `selectedLoopNodes`: the ends of the given edges. */
  function EndpointSet(es: seq<Entry>): set<string>
  {
    if es == [] then {}
    else EndpointSet(es[..|es| - 1]) + {es[|es| - 1].data.source, es[|es| - 1].data.target}
  }

  /** The opacity `updateNodeStyles` leaves on an element with id `id`. */
  function OpacityFor(selectedLoop: Option<string>, loops: seq<Loop>, rels: seq<Entry>, id: string): real
  {
    if selectedLoop.None? || selectedLoop.value == "" then 1.0
    else
      var sel := SelectedEdges(selectedLoop.value, loops, rels);
      if id in EdgeIds(sel) || id in EndpointSet(sel) then 1.0 else 0.0
  }

  /** Every element with its opacity reset to `o`, nothing else changed. */
  function WithOpacity(els: seq<LiveElement>, o: real): (r: seq<LiveElement>)
    ensures |r| == |els| && forall k :: 0 <= k < |els| ==> r[k] == els[k].(opacity := o)
  {
    seq(|els|, k requires 0 <= k < |els| => els[k].(opacity := o))
  }

  /** The live elements after `updateNodeStyles`: only opacities change. */
  function Styled(els: seq<LiveElement>, selectedLoop: Option<string>, loops: seq<Loop>, rels: seq<Entry>): (r: seq<LiveElement>)
    ensures |r| == |els|
    ensures forall k :: 0 <= k < |els| ==>
              r[k].id == els[k].id && r[k].isNode == els[k].isNode && r[k].position == els[k].position
  {
    seq(|els|, k requires 0 <= k < |els| => els[k].(opacity := OpacityFor(selectedLoop, loops, rels, els[k].id)))
  }

  /** The declarative reading of the highlight: `id` is an edge of the
      selected loop or an end of one. */
  ghost predicate Highlighted(selected: string, loops: seq<Loop>, rels: seq<Entry>, id: string)
  {
    exists k :: 0 <= k < |rels| && IsEdgeEntry(rels[k]) && InSelectedLoop(loops, selected, rels[k].data.id) &&
                (rels[k].data.id == id || rels[k].data.source == id || rels[k].data.target == id)
  }

  lemma {:induction false} EndpointSetIs(es: seq<Entry>, id: string)
    ensures id in EndpointSet(es) <==> exists k :: 0 <= k < |es| && (es[k].data.source == id || es[k].data.target == id)
  {
    if es != [] {
      var p := es[..|es| - 1];
      EndpointSetIs(p, id);
      assert forall k :: 0 <= k < |p| ==> p[k] == es[k];
    }
  }

  lemma HighlightedIsLit(selected: string, loops: seq<Loop>, rels: seq<Entry>, id: string)
    requires selected != "" && Highlighted(selected, loops, rels, id)
    ensures OpacityFor(Some(selected), loops, rels, id) == 1.0
  {
    var sel := SelectedEdges(selected, loops, rels);
    var k :| 0 <= k < |rels| && IsEdgeEntry(rels[k]) && InSelectedLoop(loops, selected, rels[k].data.id) &&
             (rels[k].data.id == id || rels[k].data.source == id || rels[k].data.target == id);
    assert rels[k] in sel;
    var j :| 0 <= j < |sel| && sel[j] == rels[k];
    if rels[k].data.id != id {
      EndpointSetIs(sel, id);
      assert sel[j].data.source == id || sel[j].data.target == id;
    }
  }

  lemma LitIsHighlighted(selected: string, loops: seq<Loop>, rels: seq<Entry>, id: string)
    requires selected != "" && OpacityFor(Some(selected), loops, rels, id) == 1.0
    ensures Highlighted(selected, loops, rels, id)
  {
    var sel := SelectedEdges(selected, loops, rels);
    if id in EdgeIds(sel) {
      var e :| e in sel && e.data.id == id;
      var k :| 0 <= k < |rels| && rels[k] == e;
    } else {
      EndpointSetIs(sel, id);
      var j :| 0 <= j < |sel| && (sel[j].data.source == id || sel[j].data.target == id);
      var k :| 0 <= k < |rels| && rels[k] == sel[j];
    }
  }

  /** With a loop selected, an element is fully visible exactly when it is an
      edge of that loop or an end of one, and fully hidden otherwise
      (plot_loops.js:22-57). */
  lemma HighlightIff(selected: string, loops: seq<Loop>, rels: seq<Entry>, id: string)
    requires selected != ""
    ensures OpacityFor(Some(selected), loops, rels, id) == 1.0 || OpacityFor(Some(selected), loops, rels, id) == 0.0
    ensures OpacityFor(Some(selected), loops, rels, id) == 1.0 <==> Highlighted(selected, loops, rels, id)
  {
    if Highlighted(selected, loops, rels, id) {
      HighlightedIsLit(selected, loops, rels, id);
    }
    if OpacityFor(Some(selected), loops, rels, id) == 1.0 {
      LitIsHighlighted(selected, loops, rels, id);
    }
  }

  /** With no graph selection (absent or empty id) everything is visible
      (plot_loops.js:15-19). */
  lemma NoSelectionAllVisible(els: seq<LiveElement>, selectedLoop: Option<string>, loops: seq<Loop>, rels: seq<Entry>)
    requires selectedLoop.None? || selectedLoop.value == ""
    ensures forall k :: 0 <= k < |els| ==> Styled(els, selectedLoop, loops, rels)[k].opacity == 1.0
  {
  }

  /** A selected id that names no loop dims every element (plot_loops.js:22-37, 48-57). */
  lemma UnknownLoopAllDim(els: seq<LiveElement>, selected: string, loops: seq<Loop>, rels: seq<Entry>)
    requires selected != ""
    requires forall i :: 0 <= i < |loops| ==> loops[i].id != selected
    ensures forall k :: 0 <= k < |els| ==> Styled(els, Some(selected), loops, rels)[k].opacity == 0.0
  {
    forall k | 0 <= k < |els| ensures OpacityFor(Some(selected), loops, rels, els[k].id) == 0.0 {
      HighlightIff(selected, loops, rels, els[k].id);
    }
  }

  /** Only the edges of the relationship list are ever looked at. */
  function EdgesOnly(es: seq<Entry>): (r: seq<Entry>)
    ensures forall k :: 0 <= k < |r| ==> r[k] in es && IsEdgeEntry(r[k])
    ensures forall k :: 0 <= k < |es| && IsEdgeEntry(es[k]) ==> es[k] in r
  {
    if es == [] then []
    else
      var p, e := es[..|es| - 1], es[|es| - 1];
      assert forall k :: 0 <= k < |p| ==> p[k] == es[k];
      EdgesOnly(p) + (if IsEdgeEntry(e) then [e] else [])
  }

  lemma HighlightedEdgesOnly(selected: string, loops: seq<Loop>, rels: seq<Entry>, id: string)
    ensures Highlighted(selected, loops, EdgesOnly(rels), id) <==> Highlighted(selected, loops, rels, id)
  {
    var f := EdgesOnly(rels);
    if Highlighted(selected, loops, rels, id) {
      var k :| 0 <= k < |rels| && IsEdgeEntry(rels[k]) && InSelectedLoop(loops, selected, rels[k].data.id) &&
               (rels[k].data.id == id || rels[k].data.source == id || rels[k].data.target == id);
      var j :| 0 <= j < |f| && f[j] == rels[k];
    }
    if Highlighted(selected, loops, f, id) {
      var j :| 0 <= j < |f| && IsEdgeEntry(f[j]) && InSelectedLoop(loops, selected, f[j].data.id) &&
               (f[j].data.id == id || f[j].data.source == id || f[j].data.target == id);
      var k :| 0 <= k < |rels| && rels[k] == f[j];
    }
  }

  /** Entries that are not edges contribute nothing: filtering them out first,
      as `updated` does, changes no opacity (plot_loops.js:27-37, 192). */
  lemma NonEdgesIgnored(selectedLoop: Option<string>, loops: seq<Loop>, rels: seq<Entry>, id: string)
    ensures OpacityFor(selectedLoop, loops, EdgesOnly(rels), id) == OpacityFor(selectedLoop, loops, rels, id)
  {
    if selectedLoop.Some? && selectedLoop.value != "" {
      HighlightIff(selectedLoop.value, loops, rels, id);
      HighlightIff(selectedLoop.value, loops, EdgesOnly(rels), id);
      HighlightedEdgesOnly(selectedLoop.value, loops, rels, id);
    }
  }

  /** A loop member that is the id of no edge in the list contributes nothing
      (plot_loops.js:27-37). */
  lemma UnmatchedMemberIgnored(selected: string, loops: seq<Loop>, i: nat, m: string, rels: seq<Entry>, id: string)
    requires selected != "" && i < |loops|
    requires forall k :: 0 <= k < |rels| && IsEdgeEntry(rels[k]) ==> rels[k].data.id != m
    ensures var loops' := loops[i := loops[i].(influenceRelationships := loops[i].influenceRelationships + [m])];
            OpacityFor(Some(selected), loops', rels, id) == OpacityFor(Some(selected), loops, rels, id)
  {
    var loops' := loops[i := loops[i].(influenceRelationships := loops[i].influenceRelationships + [m])];
    HighlightIff(selected, loops, rels, id);
    HighlightIff(selected, loops', rels, id);
    forall k | 0 <= k < |rels| && IsEdgeEntry(rels[k])
      ensures InSelectedLoop(loops', selected, rels[k].data.id) == InSelectedLoop(loops, selected, rels[k].data.id)
    {
      var r := rels[k].data.id;
      if InSelectedLoop(loops', selected, r) {
        var a :| 0 <= a < |loops'| && loops'[a].id == selected && r in loops'[a].influenceRelationships;
        assert r in loops[a].influenceRelationships;
      }
      if InSelectedLoop(loops, selected, r) {
        var a :| 0 <= a < |loops| && loops[a].id == selected && r in loops[a].influenceRelationships;
        assert r in loops'[a].influenceRelationships;
      }
    }
    if Highlighted(selected, loops', rels, id) {
      var k :| 0 <= k < |rels| && IsEdgeEntry(rels[k]) && InSelectedLoop(loops', selected, rels[k].data.id) &&
               (rels[k].data.id == id || rels[k].data.source == id || rels[k].data.target == id);
    }
    if Highlighted(selected, loops, rels, id) {
      var k :| 0 <= k < |rels| && IsEdgeEntry(rels[k]) && InSelectedLoop(loops, selected, rels[k].data.id) &&
               (rels[k].data.id == id || rels[k].data.source == id || rels[k].data.target == id);
    }
  }

  /** The ends of the selected edges, gathered one edge at a time
      (plot_loops.js:39-42). */
  method CollectEndpoints(selected: seq<Entry>) returns (nodes: set<string>)
    ensures nodes == EndpointSet(selected)
  {
    nodes := {};
    var i := 0;
    while i < |selected|
      invariant 0 <= i <= |selected|
      invariant nodes == EndpointSet(selected[..i])
    {
      assert selected[..i + 1][..i] == selected[..i];
      nodes := nodes + {selected[i].data.source, selected[i].data.target};
      i := i + 1;
    }
    assert selected[..i] == selected;
  }

  /** The elements with the ones whose id is in `ids` or `nodes` made fully visible. */
  function LitUp(els: seq<LiveElement>, ids: set<string>, nodes: set<string>): (r: seq<LiveElement>)
    ensures |r| == |els|
  {
    seq(|els|, k requires 0 <= k < |els| => if els[k].id in ids || els[k].id in nodes then els[k].(opacity := 1.0) else els[k])
  }

  /** The last pass of `updateNodeStyles` (plot_loops.js:48-57). */
  method LightUp(cy: Cy, ids: set<string>, nodes: set<string>)
    modifies cy
    ensures cy.elements == LitUp(old(cy.elements), ids, nodes)
  {
    ghost var before := cy.elements;
    var k := 0;
    while k < |cy.elements|
      invariant 0 <= k <= |cy.elements| == |before|
      invariant forall j :: 0 <= j < k ==> cy.elements[j] == LitUp(before, ids, nodes)[j]
      invariant forall j :: k <= j < |before| ==> cy.elements[j] == before[j]
    {
      var e := cy.elements[k];
      if e.id in ids || e.id in nodes {
        cy.elements := cy.elements[k := e.(opacity := 1.0)];
      }
      k := k + 1;
    }
  }

  /** `updateNodeStyles` (plot_loops.js:13-58): with no graph it does nothing;
      otherwise it sets every opacity to 1, or dims everything and lights up
      the selected loop's edges and their ends again. */
  method UpdateNodeStyles(selectedLoop: Option<string>, loops: seq<Loop>, cy: Cy?, relationships: seq<Entry>)
    modifies cy
    ensures cy != null ==> cy.elements == Styled(old(cy.elements), selectedLoop, loops, relationships)
  {
    if cy == null {
      return;
    }
    if selectedLoop.None? || selectedLoop.value == "" {
      cy.elements := WithOpacity(cy.elements, 1.0);
      return;
    }
    ghost var before := cy.elements;
    cy.elements := WithOpacity(cy.elements, 0.0);
    var selected := SelectedEdges(selectedLoop.value, loops, relationships);
    var nodes := CollectEndpoints(selected);
    var ids := EdgeIds(selected);
    LightUp(cy, ids, nodes);
    assert cy.elements == Styled(before, selectedLoop, loops, relationships);
  }

  // ---------------------------------------------------------------------
  // Style callbacks (plot_loops.js:68-142)

  /** The key icon as a data URL; the SVG text itself is not modelled. */
  const KeyIconUrl: string := "data:image/svg+xml;utf8,<key icon>"

  /** The transparent one-pixel GIF used for ordinary nodes. */
  const BlankGifUrl: string := "data:image/gif;base64,R0lGODlhAQABAIAAAAAAAP///yH5BAEAAAAALAAAAAABAAEAAAIBRAA7"

  /** The data-dependent part of a node's style. */
  datatype NodeStyle = NodeStyle(backgroundImage: string, backgroundWidth: string, backgroundHeight: string,
                                 backgroundPositionX: string, backgroundPositionY: string,
                                 height: real, textMarginY: int, fontWeight: string)

  /** The node style callbacks: key nodes carry the icon, a heavier font and
      a lowered label; the height grows with the label. */
  function NodeStyleOf(d: ElementData): (s: NodeStyle)
    ensures s.height >= 30.0
  {
    NodeStyle(if d.isKey then KeyIconUrl else BlankGifUrl,
              if d.isKey then "50px" else "0",
              if d.isKey then "37px" else "0",
              if d.isKey then "4px" else "0",
              if d.isKey then "4px" else "0",
              (|d.labelText| as real) * 0.5 + 30.0,
              if d.isKey then 15 else 0,
              if d.isKey then "600" else "400")
  }

  /** The node height grows strictly with the label length (plot_loops.js:105-107). */
  lemma HeightStrictlyIncreasing(a: ElementData, b: ElementData)
    requires |a.labelText| < |b.labelText|
    ensures NodeStyleOf(a).height < NodeStyleOf(b).height
  {
  }

  /** Key and plain nodes differ in every data-dependent property except the
      height (plot_loops.js:73-89, 108-115). */
  lemma KeyStyleDiffers(a: ElementData, b: ElementData)
    requires a.isKey && !b.isKey
    ensures var sa, sb := NodeStyleOf(a), NodeStyleOf(b);
            sa.fontWeight == "600" && sb.fontWeight == "400" &&
            sa.textMarginY == 15 && sb.textMarginY == 0 &&
            sa.backgroundWidth == "50px" && sa.backgroundHeight == "37px" &&
            sa.backgroundPositionX == "4px" && sa.backgroundPositionY == "4px" &&
            sb.backgroundWidth == "0" && sb.backgroundHeight == "0" &&
            sb.backgroundPositionX == "0" && sb.backgroundPositionY == "0" &&
            sa.backgroundImage != sb.backgroundImage
  {
  }

  /** Two nodes look the same exactly when both or neither are key nodes and
      their labels are equally long: nothing else of a node's data is read. */
  lemma NodeStyleDeterminedBy(a: ElementData, b: ElementData)
    ensures NodeStyleOf(a) == NodeStyleOf(b) <==> a.isKey == b.isKey && |a.labelText| == |b.labelText|
  {
    if NodeStyleOf(a) == NodeStyleOf(b) {
      assert NodeStyleOf(a).fontWeight == NodeStyleOf(b).fontWeight;
      assert (|a.labelText| as real) * 0.5 == (|b.labelText| as real) * 0.5;
    }
  }

  /** The data-dependent part of an edge's style. */
  datatype EdgeStyle = EdgeStyle(width: int, lineColor: string, targetArrowColor: string,
                                 targetArrowShape: string, curveStyle: string)

  const InverseColour: string := "#0284C7"
  const DirectColour: string := "#C2410C"

  /** The edge rules: the later, more specific `relation` selectors win over
      the colour taken from the data. */
  function EdgeStyleOf(d: ElementData): (s: EdgeStyle)
    ensures s.width == 3 && s.targetArrowShape == "triangle" && s.curveStyle == "unbundled-bezier"
    ensures s.lineColor == s.targetArrowColor
    ensures d.relation == "inverse" ==> s.lineColor == InverseColour
    ensures d.relation == "direct" ==> s.lineColor == DirectColour
    ensures d.relation != "inverse" && d.relation != "direct" ==> s.lineColor == d.relation
  {
    var colour := if d.relation == "inverse" then InverseColour
                  else if d.relation == "direct" then DirectColour
                  else d.relation;
    EdgeStyle(3, colour, colour, "triangle", "unbundled-bezier")
  }

  /** Inverse and direct edges are told apart by colour (plot_loops.js:128-141). */
  lemma PolarityVisible(a: ElementData, b: ElementData)
    requires a.relation == "inverse" && b.relation == "direct"
    ensures EdgeStyleOf(a).lineColor != EdgeStyleOf(b).lineColor
  {
  }

  // ---------------------------------------------------------------------
  // Layout and saved positions (plot_loops.js:61-67, 143-179)

  datatype Layout = Preset(positions: map<string, Position>) | CoseBilkent

  /** The saved layout wins whenever there is one, even an empty one. */
  function ChooseLayout(saved: Option<map<string, Position>>): (l: Layout)
    ensures l.Preset? <==> saved.Some?
    ensures l.Preset? ==> l.positions == saved.value
  {
    match saved
    case Some(p) => Preset(p)
    case None => CoseBilkent
  }

  /** Where a node starts: its preset position (the origin when the saved map
      has none for it), or where the force layout put it. */
  function StartPosition(layout: Layout, force: map<string, Position>, id: string): Position
  {
    match layout
    case Preset(p) => if id in p then p[id] else Origin
    case CoseBilkent => if id in force then force[id] else Origin
  }

  /** The live elements right after `cytoscape({...})`, every one fully visible. */
  function InitialElements(entries: seq<Entry>, layout: Layout, force: map<string, Position>): (r: seq<LiveElement>)
    ensures |r| == |entries|
    ensures forall k :: 0 <= k < |entries| ==>
              r[k].id == entries[k].data.id && r[k].isNode == !IsEdgeEntry(entries[k]) && r[k].opacity == 1.0
  {
    seq(|entries|, k requires 0 <= k < |entries| =>
      LiveElement(entries[k].data.id, !IsEdgeEntry(entries[k]),
                  if IsEdgeEntry(entries[k]) then Origin else StartPosition(layout, force, entries[k].data.id), 1.0))
  }

  /** The object the position handler builds: node id to position, a later
      node with the same id overwriting an earlier one. */
  function PositionsOf(els: seq<LiveElement>): map<string, Position>
  {
    if els == [] then map[]
    else
      var p, e := els[..|els| - 1], els[|els| - 1];
      if e.isNode then PositionsOf(p)[e.id := e.position] else PositionsOf(p)
  }

  /** The keys of the saved map are exactly the ids of the nodes (plot_loops.js:173-179). */
  lemma {:induction false} PositionsKeys(els: seq<LiveElement>, id: string)
    ensures id in PositionsOf(els) <==> exists k :: 0 <= k < |els| && els[k].isNode && els[k].id == id
  {
    if els != [] {
      var p := els[..|els| - 1];
      PositionsKeys(p, id);
      assert forall k :: 0 <= k < |p| ==> p[k] == els[k];
    }
  }

  predicate DistinctIds(els: seq<LiveElement>)
  {
    forall i, j :: 0 <= i < j < |els| ==> els[i].id != els[j].id
  }

  /** When ids are unique, each node is saved at its own position. */
  lemma {:induction false} PositionsAt(els: seq<LiveElement>, k: nat)
    requires DistinctIds(els) && k < |els| && els[k].isNode
    ensures els[k].id in PositionsOf(els) && PositionsOf(els)[els[k].id] == els[k].position
  {
    var p := els[..|els| - 1];
    assert DistinctIds(p) && forall j :: 0 <= j < |p| ==> p[j] == els[j];
    if k < |els| - 1 {
      PositionsAt(p, k);
    }
  }

  /** Saving and remounting puts every node back where it was: the saved map
      selects the preset layout and gives each node its saved position. */
  lemma PresetRestores(els: seq<LiveElement>, force: map<string, Position>)
    requires DistinctIds(els)
    ensures ChooseLayout(Some(PositionsOf(els))) == Preset(PositionsOf(els))
    ensures forall k :: 0 <= k < |els| && els[k].isNode ==>
              StartPosition(ChooseLayout(Some(PositionsOf(els))), force, els[k].id) == els[k].position
  {
    forall k | 0 <= k < |els| && els[k].isNode
      ensures StartPosition(Preset(PositionsOf(els)), force, els[k].id) == els[k].position
    {
      PositionsAt(els, k);
    }
  }

  /** `localStorage["nodePositions"]`, already parsed. */
  class LayoutStore {
    var nodePositions: Option<map<string, Position>>

    constructor (saved: Option<map<string, Position>>)
      ensures nodePositions == saved
    {
      nodePositions := saved;
    }
  }

  /** The hook instance: its cytoscape graph and the store it saves to. */
  class PlotLoopsHook {
    const cy: Cy
    const store: LayoutStore

    /** `mounted` (plot_loops.js:61-180); `force` is where the randomised
        force layout puts the nodes when there is no saved layout. */
    constructor Mounted(entries: seq<Entry>, store: LayoutStore, force: map<string, Position>)
      ensures this.store == store && fresh(cy)
      ensures cy.elements == InitialElements(entries, ChooseLayout(store.nodePositions), force)
    {
      this.store := store;
      this.cy := new Cy(InitialElements(entries, ChooseLayout(store.nodePositions), force));
    }

    /** The `position` handler (plot_loops.js:173-179): record every node's
        position and store the map. */
    method OnNodePosition()
      modifies store
      ensures store.nodePositions == Some(PositionsOf(cy.elements))
    {
      var positions: map<string, Position> := map[];
      var els := cy.elements;
      var i := 0;
      while i < |els|
        invariant 0 <= i <= |els|
        invariant positions == PositionsOf(els[..i])
      {
        assert els[..i + 1][..i] == els[..i];
        if els[i].isNode {
          positions := positions[els[i].id := els[i].position];
        }
        i := i + 1;
      }
      assert els[..i] == els;
      store.nodePositions := Some(positions);
    }

    /** `updated` (plot_loops.js:182-194): re-run the highlight over the edges
        of the new element list; the live element set is not replaced. */
    method Updated(entries: seq<Entry>, selectedLoop: Option<string>, loops: seq<Loop>)
      modifies cy
      ensures cy.elements == Styled(old(cy.elements), selectedLoop, loops, EdgesOnly(entries))
    {
      UpdateNodeStyles(selectedLoop, loops, cy, EdgesOnly(entries));
    }
  }

  /** After `updated`, the elements, their ids and positions are those from
      before, and each opacity is the one the full entry list would give. */
  lemma UpdatedKeepsElements(els: seq<LiveElement>, entries: seq<Entry>, selectedLoop: Option<string>, loops: seq<Loop>)
    ensures var r := Styled(els, selectedLoop, loops, EdgesOnly(entries));
            |r| == |els| &&
            forall k :: 0 <= k < |els| ==>
              r[k] == els[k].(opacity := OpacityFor(selectedLoop, loops, entries, els[k].id))
  {
    forall k | 0 <= k < |els| ensures OpacityFor(selectedLoop, loops, EdgesOnly(entries), els[k].id) ==
                                      OpacityFor(selectedLoop, loops, entries, els[k].id) {
      NonEdgesIgnored(selectedLoop, loops, entries, els[k].id);
    }
  }
}
